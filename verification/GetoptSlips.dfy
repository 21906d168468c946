/** What the scanner makes of the ordering mark and of an ambiguous name after `-W`, against
    a parser that takes the mark off before every answer and one that counts the name once. */
module GetoptSlips {
  import opened Wrappers
  import opened Getopt

  // -------------------------------------------------------------------- the mark

  predicate IsMark(m: char) {
    m == '+' || m == '-'
  }

  /** The letters of the code, before its first answer or later; `h` has no mark. */
  function Marked(h: Grammar, m: char, first: bool): Grammar {
    h.(letters := if first then h.letters else [m] + h.letters, later := [m] + h.letters)
  }

  /** The mark is met as a letter, and read otherwise than without it: with the colons that
      the letters happen to begin with. */
  predicate MarkSlips(letters: string, m: char, tail: string, more: seq<string>) {
    match (KindOf([m] + letters, m), KindOf(letters, m))
    case (Plain, Plain) => false
    case (May, May) => false
    case (Plain, May) => tail != ""
    case (May, Plain) => tail != ""
    case (May, Needs) => tail == ""
    case (Needs, May) => tail == ""
    case (Needs, Needs) => tail == "" && more == []
    case (Needs, Unknown) => tail != "" || more != []
    case _ => true
  }

  /** A missing argument shall be told by a colon. */
  predicate Silent(h: Grammar) {
    h.letters != "" && h.letters[0] == ':'
  }

  predicate LetterSlips(h: Grammar, m: char, next: string, more: seq<string>)
    requires next != ""
  {
    if next[0] == m then MarkSlips(h.letters, m, next[1..], more) else Silent(h) && ShortStarves(h, next, more)
  }

  lemma MarkSlipsExact(h: Grammar, m: char, next: string, more: seq<string>)
    requires IsMark(m) && next != "" && next[0] == m
    ensures var c, s := Short(Marked(h, m, false), next, more), Short(h, next, more);
      if MarkSlips(h.letters, m, next[1..], more) then c.event != s.event else c == s
  {
    hide WordOption;
  }

  lemma OtherSlipsExact(h: Grammar, m: char, next: string, more: seq<string>)
    requires IsMark(m) && next != "" && next[0] != m
    ensures var c, s := Short(Marked(h, m, false), next, more), Short(h, next, more);
      if Silent(h) && ShortStarves(h, next, more) then c.event != s.event else c == s
  {
    KindBehind(h.letters, m, next[0]);
    hide KindOf, WordOption, LongStarves;
    if KindOf(h.letters, next[0]) == Worded { WordSlipsExact(h, m, next[1..], more); }
  }

  lemma WordSlipsExact(h: Grammar, m: char, tail: string, more: seq<string>)
    requires IsMark(m)
    ensures var c, s := WordOption(Marked(h, m, false), tail, more), WordOption(h, tail, more);
      var starves := if tail != "" then LongStarves(h, tail, more)
        else more == [] || LongStarves(h, more[0], more[1..]);
      if Silent(h) && starves then c.event != s.event else c == s
  {
    hide LookUp;
    var name := if tail != "" then tail else if more != [] then more[0] else "";
    assert name[..|name|] == name;
  }

  lemma LongSlipsExact(h: Grammar, m: char, next: string, more: seq<string>)
    requires IsMark(m)
    ensures var c, s := Long(Marked(h, m, false), next, more), Long(h, next, more);
      if Silent(h) && LongStarves(h, next, more) then c.event != s.event else c == s
  {
    hide LookUp;
    assert next[..|next|] == next;
  }

  /** Some answer after the first is another one because of the mark. */
  predicate Slips(h: Grammar, m: char, first: bool, a: seq<string>)
    decreases |a|, 1, 0
  {
    if a == [] || a[0] == "--" then false
    else if NonOption(a[0]) then
      match h.ordering
      case RequireOrder => false
      case ReturnInOrder => Slips(h, m, false, a[1..])
      case Permute => Slips(h, m, first, a[1..])
    else if IsLong(h, a[0]) then
      || (!first && Silent(h) && LongStarves(h, a[0][2..], a[1..]))
      || Slips(h, m, false, a[Long(h, a[0][2..], a[1..]).used..])
    else ShortSlips(h, m, first, a, a[0][1..])
  }

  predicate ShortSlips(h: Grammar, m: char, first: bool, a: seq<string>, next: string)
    requires a != [] && next != ""
    decreases |a|, 0, |next|
  {
    var st := Short(h, next, a[1..]);
    || (!first && LetterSlips(h, m, next, a[1..]))
    || (st.used <= |a|
        && if st.next != "" then ShortSlips(h, m, false, a, st.next) else Slips(h, m, false, a[st.used..]))
  }

  lemma AfterSame(e: Event, taken: seq<string>, p: Parse, q: Parse)
    ensures After(e, taken, p) == After(e, taken, q) <==> p == q
  {
    assert ([e] + p.events)[1..] == p.events && ([e] + q.events)[1..] == q.events;
    assert (taken + p.opts)[|taken|..] == p.opts && (taken + q.opts)[|taken|..] == q.opts;
  }

  lemma {:induction false} SlipsExact(h: Grammar, m: char, first: bool, a: seq<string>)
    requires Later(h) == h && IsMark(m)
    ensures ParseArgs(Marked(h, m, first), a) == ParseArgs(h, a) <==> !Slips(h, m, first, a)
    decreases |a|, 1, 0
  {
    hide Short, Long, LongStarves, ParseShort, ShortSlips, KindOf;
    if a == [] || a[0] == "--" {
    } else if NonOption(a[0]) {
      match h.ordering
      case RequireOrder =>
      case ReturnInOrder =>
        SlipsExact(h, m, false, a[1..]);
        AfterSame(Event(1, Some(a[0])), [a[0]], ParseArgs(Marked(h, m, false), a[1..]), ParseArgs(h, a[1..]));
      case Permute =>
        SlipsExact(h, m, first, a[1..]);
        var p, q := ParseArgs(Marked(h, m, first), a[1..]), ParseArgs(h, a[1..]);
        assert ([a[0]] + p.rest)[1..] == p.rest && ([a[0]] + q.rest)[1..] == q.rest;
    } else if IsLong(h, a[0]) {
      LongSlips(h, m, first, a);
    } else {
      ShortSlipsExact(h, m, first, a, a[0][1..]);
    }
  }

  lemma {:induction false} LongSlips(h: Grammar, m: char, first: bool, a: seq<string>)
    requires Later(h) == h && IsMark(m)
    requires a != [] && a[0] != "--" && !NonOption(a[0]) && IsLong(h, a[0])
    ensures ParseArgs(Marked(h, m, first), a) == ParseArgs(h, a) <==> !Slips(h, m, first, a)
    decreases |a|, 0, 0
  {
    var g, next, more := Marked(h, m, first), a[0][2..], a[1..];
    var c, s := Long(g, next, more), Long(h, next, more);
    if first { assert c == s; } else { LongSlipsExact(h, m, next, more); }
    hide Long, LongStarves;
    if c == s {
      SlipsExact(h, m, false, a[s.used..]);
      AfterSame(s.event, a[..s.used], ParseArgs(Marked(h, m, false), a[s.used..]), ParseArgs(h, a[s.used..]));
    } else {
      assert ParseArgs(g, a).events[0] == c.event && ParseArgs(h, a).events[0] == s.event;
    }
  }

  lemma StepSlips(h: Grammar, m: char, first: bool, next: string, more: seq<string>)
    requires IsMark(m) && next != ""
    ensures var c, s := Short(Marked(h, m, first), next, more), Short(h, next, more);
      if !first && LetterSlips(h, m, next, more) then c.event != s.event else c == s
  {
    hide Short, MarkSlips, ShortStarves;
    if first { FirstSame(h, m, next, more); }
    else if next[0] == m { MarkSlipsExact(h, m, next, more); }
    else { OtherSlipsExact(h, m, next, more); }
  }

  lemma FirstSame(h: Grammar, m: char, next: string, more: seq<string>)
    requires next != ""
    ensures Short(Marked(h, m, true), next, more) == Short(h, next, more)
  {
    hide KindOf, LookUp, KeyOf;
  }

  lemma {:induction false} ShortSlipsExact(h: Grammar, m: char, first: bool, a: seq<string>, next: string)
    requires Later(h) == h && IsMark(m) && a != [] && next != ""
    ensures ParseShort(Marked(h, m, first), a, next) == ParseShort(h, a, next) <==> !ShortSlips(h, m, first, a, next)
    decreases |a|, 0, |next|
  {
    var g, more := Marked(h, m, first), a[1..];
    var c, s := Short(g, next, more), Short(h, next, more);
    hide Short, LetterSlips, ParseArgs, Slips;
    StepSlips(h, m, first, next, more);
    if c != s {
      assert ParseShort(g, a, next).events[0] == c.event && ParseShort(h, a, next).events[0] == s.event;
    } else if s.used <= |a| {
      if s.next != "" {
        ShortSlipsExact(h, m, false, a, s.next);
        AfterSame(s.event, a[..s.used], ParseShort(Marked(h, m, false), a, s.next), ParseShort(h, a, s.next));
      } else {
        SlipsExact(h, m, false, a[s.used..]);
        AfterSame(s.event, a[..s.used], ParseArgs(Marked(h, m, false), a[s.used..]), ParseArgs(h, a[s.used..]));
      }
    }
  }

  /** `optstring` with its mark taken off before every answer. */
  function Unmarked(optstring: string, longs: Option<seq<LongOpt>>, posixly: bool): Grammar {
    var g := GrammarOf(optstring, longs, posixly);
    g.(later := g.letters)
  }

  lemma MarkExact(optstring: string, longs: Option<seq<LongOpt>>, posixly: bool, a: seq<string>)
    requires optstring != "" && IsMark(optstring[0])
    ensures var g, h := GrammarOf(optstring, longs, posixly), Unmarked(optstring, longs, posixly);
      ParseArgs(g, a) == ParseArgs(h, a) <==> !Slips(h, optstring[0], true, a)
  {
    var h := Unmarked(optstring, longs, posixly);
    assert optstring == [optstring[0]] + h.letters;
    SlipsExact(h, optstring[0], true, a);
  }

  /** Letters behind a dash. */
  predicate Cluster(g: Grammar, x: string) {
    !NonOption(x) && x != "--" && !IsLong(g, x)
  }

  /** What a program can look at: the letters do not begin with a colon, and the mark is in
      no cluster. */
  lemma MarkHarmless(optstring: string, longs: Option<seq<LongOpt>>, posixly: bool, a: seq<string>)
    requires optstring != "" && IsMark(optstring[0])
    requires !Silent(Unmarked(optstring, longs, posixly))
    requires forall x :: x in a && Cluster(Unmarked(optstring, longs, posixly), x) ==> optstring[0] !in x[1..]
    ensures ParseArgs(GrammarOf(optstring, longs, posixly), a) == ParseArgs(Unmarked(optstring, longs, posixly), a)
  {
    MarkExact(optstring, longs, posixly, a);
    NoSlip(Unmarked(optstring, longs, posixly), optstring[0], true, a);
  }

  lemma {:induction false} NoSlip(h: Grammar, m: char, first: bool, a: seq<string>)
    requires !Silent(h) && forall x :: x in a && Cluster(h, x) ==> m !in x[1..]
    ensures !Slips(h, m, first, a)
    decreases |a|, 1, 0
  {
    hide Short, Long, LongStarves, ShortSlips;
    if a == [] || a[0] == "--" {
    } else if NonOption(a[0]) {
      match h.ordering
      case RequireOrder =>
      case ReturnInOrder => NoSlip(h, m, false, a[1..]);
      case Permute => NoSlip(h, m, first, a[1..]);
    } else if IsLong(h, a[0]) {
      NoSlip(h, m, false, a[Long(h, a[0][2..], a[1..]).used..]);
    } else {
      NoShortSlip(h, m, first, a, a[0][1..]);
    }
  }

  lemma {:induction false} NoShortSlip(h: Grammar, m: char, first: bool, a: seq<string>, next: string)
    requires !Silent(h) && forall x :: x in a && Cluster(h, x) ==> m !in x[1..]
    requires a != [] && next != "" && m !in next
    ensures !ShortSlips(h, m, first, a, next)
    decreases |a|, 0, |next|
  {
    hide Short, Slips, Cluster;
    var st := Short(h, next, a[1..]);
    assert next[0] in next;
    if st.used <= |a| {
      if st.next != "" { NoShortSlip(h, m, false, a, st.next); } else { NoSlip(h, m, false, a[st.used..]); }
    }
  }

  /** A command line on which the mark is one of the letters. */
  lemma MarkIsALetter()
    ensures ParseArgs(GrammarOf("+ab", None, false), ["-a+"]).events ==
      [Event('a' as int, None), Event('+' as int, None)]
    ensures ParseArgs(Unmarked("+ab", None, false), ["-a+"]).events == [Event('a' as int, None), Bad]
  {
    var g, h := GrammarOf("+ab", None, false), Unmarked("+ab", None, false);
    assert ["-a+"][0][1..] == "a+" && "a+"[1..] == "+" && "+"[1..] == "" && ["-a+"][1..] == [];
    assert Short(g, "a+", []) == Short(h, "a+", []) == Step(Event('a' as int, None), 0, "+");
    assert Short(Later(g), "+", []) == Step(Event('+' as int, None), 1, "");
    assert Short(h, "+", []) == Step(Bad, 1, "");
    hide Short, KindOf;
    assert ParseShort(Later(g), ["-a+"], "+").events == [Event('+' as int, None)];
    assert ParseShort(h, ["-a+"], "+").events == [Bad];
  }

  /** One on which the colon behind the mark is forgotten after the first answer. */
  lemma ColonForgotten()
    ensures var g, h, a := GrammarOf("+:a:b", None, false), Unmarked("+:a:b", None, false), ["-b", "-a"];
      && ParseArgs(g, a).events == [Event('b' as int, None), Bad]
      && ParseArgs(h, a).events == [Event('b' as int, None), Event(':' as int, None)]
  {
    var g, h, a := GrammarOf("+:a:b", None, false), Unmarked("+:a:b", None, false), ["-b", "-a"];
    ColonLetters();
    hide Short, KindOf;
    assert a[0][1..] == "b" && a[1][1..] == "a" && a[1..] == ["-a"] && ["-a"][1..] == [];
    assert ParseArgs(Later(g), ["-a"]) == ParseShort(Later(g), ["-a"], "a");
    assert ParseArgs(h, ["-a"]) == ParseShort(h, ["-a"], "a");
  }

  lemma ColonLetters()
    ensures var g, h := GrammarOf("+:a:b", None, false), Unmarked("+:a:b", None, false);
      && Short(g, "b", ["-a"]) == Short(h, "b", ["-a"]) == Step(Event('b' as int, None), 1, "")
      && Short(Later(g), "a", []) == Step(Bad, 1, "") && Short(h, "a", []) == Step(Event(':' as int, None), 1, "")
  {
    assert "b"[1..] == "" && "a"[1..] == "";
    assert KindOf(":a:b", 'b') == Plain && KindOf(":a:b", 'a') == Needs && KindOf("+:a:b", 'a') == Needs;
    hide KindOf;
  }

  // ------------------------------------------------------------- an ambiguous name

  /** An ambiguous name after `-W`. */
  predicate NamesMany(g: Grammar, next: string, more: seq<string>)
    requires next != ""
  {
    && KindOf(g.letters, next[0]) == Worded && (next[1..] != "" || more != [])
    && var name := if next[1..] != "" then next[1..] else more[0];
    LookUp(LongsOf(g), name[..KeyOf(name)]) == Ambiguous
  }

  /** The elements behind that name. */
  function Behind(next: string, more: seq<string>): seq<string>
    requires next != "" && (next[1..] != "" || more != [])
  {
    if next[1..] != "" then more else more[1..]
  }

  /** What is behind each ambiguous name that is met. */
  function Met(g: Grammar, a: seq<string>): seq<seq<string>>
    decreases |a|, 1, 0
  {
    if a == [] || a[0] == "--" then []
    else if NonOption(a[0]) then
      match g.ordering
      case RequireOrder => []
      case ReturnInOrder => Met(Later(g), a[1..])
      case Permute => Met(g, a[1..])
    else if IsLong(g, a[0]) then Met(Later(g), a[Long(g, a[0][2..], a[1..]).used..])
    else ShortMet(g, a, a[0][1..])
  }

  function ShortMet(g: Grammar, a: seq<string>, next: string): seq<seq<string>>
    requires a != [] && next != ""
    decreases |a|, 0, |next|
  {
    var st := Short(g, next, a[1..]);
    (if NamesMany(g, next, a[1..]) then [Behind(next, a[1..])] else [])
    + if st.used > |a| then []
      else if st.next != "" then ShortMet(Later(g), a, st.next)
      else Met(Later(g), a[st.used..])
  }

  lemma OverstepsExact(g: Grammar, next: string, more: seq<string>)
    requires next != ""
    ensures Short(g, next, more).used > 1 + |more| ==> NamesMany(g, next, more)
    ensures NamesMany(g, next, more) ==> Short(g, next, more).used == 2 + |more| - |Behind(next, more)|
  {
    hide KindOf, LookUp;
  }

  /** The scan leads past the last element exactly if an ambiguous name is the last thing. */
  lemma {:induction false} OverstepExact(g: Grammar, a: seq<string>)
    ensures EndingOf(g, a) == Overstepped <==> [] in Met(g, a)
    decreases |a|, 1, 0
  {
    hide Short, Long, LongStarves, ShortEnding, ShortMet;
    if a == [] || a[0] == "--" {
    } else if NonOption(a[0]) {
      match g.ordering
      case RequireOrder =>
      case ReturnInOrder => OverstepExact(Later(g), a[1..]);
      case Permute => OverstepExact(g, a[1..]);
    } else if IsLong(g, a[0]) {
      StarvesAtEnd(g, a[0][2..], a[1..]);
      OverstepExact(Later(g), a[Long(g, a[0][2..], a[1..]).used..]);
    } else {
      ShortOverstepExact(g, a, a[0][1..]);
    }
  }

  lemma {:induction false} ShortOverstepExact(g: Grammar, a: seq<string>, next: string)
    requires a != [] && next != ""
    ensures ShortEnding(g, a, next) == Overstepped <==> [] in ShortMet(g, a, next)
    decreases |a|, 0, |next|
  {
    OverstepsExact(g, next, a[1..]);
    StarvesAtEnd(g, next, a[1..]);
    hide Short, ShortStarves, NamesMany, Behind;
    var st := Short(g, next, a[1..]);
    if st.used <= |a| {
      if st.next != "" { ShortOverstepExact(Later(g), a, st.next); } else { OverstepExact(Later(g), a[st.used..]); }
    }
  }

  /** A parse, and how many elements `optind` was in front of the end at every answer. */
  datatype Scanned = Scanned(parse: Parse, lefts: seq<int>)

  /** A letter, where an ambiguous name may cost one element less. */
  function ShortCounted(g: Grammar, once: bool, next: string, more: seq<string>): (st: Step)
    requires next != ""
    ensures st.used <= 2 + |more| && (st.used == 0 <==> st.next != "") && |st.next| < |next|
  {
    OverstepsExact(g, next, more);
    var st := Short(g, next, more);
    if once && NamesMany(g, next, more) then st.(used := st.used - 1) else st
  }

  function Told(e: Event, a: seq<string>, used: nat, s: Scanned): Scanned
    requires used <= |a|
  {
    Scanned(After(e, a[..used], s.parse), [|a| - used] + s.lefts)
  }

  /** The parser with its places; with `once` an ambiguous name is counted as it should. */
  function Scan(g: Grammar, once: bool, a: seq<string>): Scanned
    decreases |a|, 1, 0
  {
    if a == [] || a[0] == "--" then Scanned(ParseArgs(g, a), [])
    else if NonOption(a[0]) then
      match g.ordering
      case RequireOrder => Scanned(ParseArgs(g, a), [])
      case ReturnInOrder => Told(Event(1, Some(a[0])), a, 1, Scan(Later(g), once, a[1..]))
      case Permute =>
        var s := Scan(g, once, a[1..]);
        s.(parse := Parse(s.parse.events, s.parse.opts, [a[0]] + s.parse.rest))
    else if IsLong(g, a[0]) then
      var st := Long(g, a[0][2..], a[1..]);
      Told(st.event, a, st.used, Scan(Later(g), once, a[st.used..]))
    else ScanShort(g, once, a, a[0][1..])
  }

  function ScanShort(g: Grammar, once: bool, a: seq<string>, next: string): Scanned
    requires a != [] && next != ""
    decreases |a|, 0, |next|
  {
    var st := ShortCounted(g, once, next, a[1..]);
    if st.used > |a| then Scanned(Parse([st.event], a, []), [|a| - st.used])
    else Told(st.event, a, st.used,
      if st.next != "" then ScanShort(Later(g), once, a, st.next) else Scan(Later(g), once, a[st.used..]))
  }

  lemma {:induction false} ScanIsParse(g: Grammar, a: seq<string>)
    ensures Scan(g, false, a).parse == ParseArgs(g, a)
    decreases |a|, 1, 0
  {
    hide Short, Long, ParseShort, ScanShort;
    if a == [] || a[0] == "--" {
    } else if NonOption(a[0]) {
      match g.ordering
      case RequireOrder =>
      case ReturnInOrder => ScanIsParse(Later(g), a[1..]); assert a[..1] == [a[0]];
      case Permute => ScanIsParse(g, a[1..]);
    } else if IsLong(g, a[0]) {
      ScanIsParse(Later(g), a[Long(g, a[0][2..], a[1..]).used..]);
    } else {
      ScanShortIsParse(g, a, a[0][1..]);
    }
  }

  lemma {:induction false} ScanShortIsParse(g: Grammar, a: seq<string>, next: string)
    requires a != [] && next != ""
    ensures ScanShort(g, false, a, next).parse == ParseShort(g, a, next)
    decreases |a|, 0, |next|
  {
    hide Short, ParseArgs, Scan;
    var st := Short(g, next, a[1..]);
    if st.used <= |a| {
      if st.next != "" { ScanShortIsParse(Later(g), a, st.next); } else { ScanIsParse(Later(g), a[st.used..]); }
    }
  }

  lemma ToldSame(e: Event, a: seq<string>, used: nat, s: Scanned, t: Scanned)
    requires used <= |a|
    ensures Told(e, a, used, s) == Told(e, a, used, t) <==> s == t
  {
    AfterSame(e, a[..used], s.parse, t.parse);
    assert ([|a| - used] + s.lefts)[1..] == s.lefts && ([|a| - used] + t.lefts)[1..] == t.lefts;
  }

  /** The answers and the places are those of a parser that counts an ambiguous name once
      exactly if none is met. */
  lemma {:induction false} CountedExact(g: Grammar, a: seq<string>)
    ensures Scan(g, false, a) == Scan(g, true, a) <==> Met(g, a) == []
    decreases |a|, 1, 0
  {
    hide Short, Long, Told, ShortMet, ScanShort;
    if a == [] || a[0] == "--" {
    } else if NonOption(a[0]) {
      match g.ordering
      case RequireOrder =>
      case ReturnInOrder =>
        CountedExact(Later(g), a[1..]);
        ToldSame(Event(1, Some(a[0])), a, 1, Scan(Later(g), false, a[1..]), Scan(Later(g), true, a[1..]));
      case Permute =>
        CountedExact(g, a[1..]);
        var p, q := Scan(g, false, a[1..]).parse, Scan(g, true, a[1..]).parse;
        assert ([a[0]] + p.rest)[1..] == p.rest && ([a[0]] + q.rest)[1..] == q.rest;
    } else if IsLong(g, a[0]) {
      var st := Long(g, a[0][2..], a[1..]);
      CountedExact(Later(g), a[st.used..]);
      ToldSame(st.event, a, st.used, Scan(Later(g), false, a[st.used..]), Scan(Later(g), true, a[st.used..]));
    } else {
      ShortCountedExact(g, a, a[0][1..]);
    }
  }

  lemma {:induction false} ShortCountedExact(g: Grammar, a: seq<string>, next: string)
    requires a != [] && next != ""
    ensures ScanShort(g, false, a, next) == ScanShort(g, true, a, next) <==> ShortMet(g, a, next) == []
    decreases |a|, 0, |next|
  {
    OverstepsExact(g, next, a[1..]);
    hide Short, NamesMany, Behind, Scan, Met;
    var st := Short(g, next, a[1..]);
    if NamesMany(g, next, a[1..]) {
      assert ScanShort(g, false, a, next).lefts[0] == |a| - st.used;
      assert ScanShort(g, true, a, next).lefts[0] == |a| - st.used + 1;
    } else {
      hide Told;
      if st.next != "" {
        ShortCountedExact(Later(g), a, st.next);
        ToldSame(st.event, a, st.used, ScanShort(Later(g), false, a, st.next), ScanShort(Later(g), true, a, st.next));
      } else {
        CountedExact(Later(g), a[st.used..]);
        ToldSame(st.event, a, st.used, Scan(Later(g), false, a[st.used..]), Scan(Later(g), true, a[st.used..]));
      }
    }
  }

  lemma {:induction false} OptionFirst(g: Grammar, once: bool, a: seq<string>)
    requires g.ordering != ReturnInOrder
    ensures var opts := Scan(g, once, a).parse.opts; opts == [] || !NonOption(opts[0])
  {
    hide Short, Long, ScanShort;
    if a == [] || a[0] == "--" {
    } else if NonOption(a[0]) {
      if g.ordering == Permute { OptionFirst(g, once, a[1..]); }
    } else if !IsLong(g, a[0]) {
      ElementFirst(g, once, a, a[0][1..]);
    }
  }

  lemma {:induction false} ElementFirst(g: Grammar, once: bool, a: seq<string>, next: string)
    requires a != [] && next != ""
    ensures var opts := ScanShort(g, once, a, next).parse.opts; opts != [] && opts[0] == a[0]
    decreases |next|
  {
    hide Short, Scan;
    var st := ShortCounted(g, once, next, a[1..]);
    if st.next != "" { ElementFirst(Later(g), once, a, st.next); }
  }

  /** An argument behind the first ambiguous name goes wrongly to the options. */
  lemma {:induction false} ArgumentSwallowed(g: Grammar, a: seq<string>)
    requires g.ordering != ReturnInOrder
    requires var met := Met(g, a); met != [] && met[0] != [] && NonOption(met[0][0])
    ensures ParseArgs(g, a).opts != Scan(g, true, a).parse.opts
    decreases |a|, 1, 0
  {
    hide Short, Long, ShortMet, ScanShort, ParseShort;
    if NonOption(a[0]) {
      ArgumentSwallowed(g, a[1..]);
    } else if IsLong(g, a[0]) {
      var used := Long(g, a[0][2..], a[1..]).used;
      ArgumentSwallowed(Later(g), a[used..]);
      TakenBoth(a[..used], ParseArgs(Later(g), a[used..]).opts, Scan(Later(g), true, a[used..]).parse.opts);
    } else {
      ArgumentSwallowedShort(g, a, a[0][1..]);
    }
  }

  lemma TakenBoth(taken: seq<string>, p: seq<string>, q: seq<string>)
    requires p != q
    ensures taken + p != taken + q
  {
    assert (taken + p)[|taken|..] == p && (taken + q)[|taken|..] == q;
  }

  lemma OneTooMany(a: seq<string>, used: nat, p: seq<string>, q: seq<string>)
    requires 0 < used <= |a| && NonOption(a[used - 1]) && (q == [] || !NonOption(q[0]))
    ensures a[..used] + p != a[..used - 1] + q
  {
    assert a[..used] + p == a[..used - 1] + ([a[used - 1]] + p);
    assert ([a[used - 1]] + p)[0] == a[used - 1];
    TakenBoth(a[..used - 1], [a[used - 1]] + p, q);
  }

  lemma {:induction false} ArgumentSwallowedShort(g: Grammar, a: seq<string>, next: string)
    requires g.ordering != ReturnInOrder && a != [] && next != ""
    requires var met := ShortMet(g, a, next); met != [] && met[0] != [] && NonOption(met[0][0])
    ensures ParseShort(g, a, next).opts != ScanShort(g, true, a, next).parse.opts
    decreases |a|, 0, |next|
  {
    OverstepsExact(g, next, a[1..]);
    hide Short, NamesMany, Met, Scan, ParseArgs;
    var st := Short(g, next, a[1..]);
    if NamesMany(g, next, a[1..]) {
      assert Behind(next, a[1..])[0] == a[st.used - 1];
      hide Behind;
      OptionFirst(Later(g), true, a[st.used - 1..]);
      OneTooMany(a, st.used, ParseArgs(Later(g), a[st.used..]).opts, Scan(Later(g), true, a[st.used - 1..]).parse.opts);
    } else if st.next != "" {
      ArgumentSwallowedShort(Later(g), a, st.next);
      TakenBoth(a[..0], ParseShort(Later(g), a, st.next).opts, ScanShort(Later(g), true, a, st.next).parse.opts);
    } else {
      ArgumentSwallowed(Later(g), a[st.used..]);
      TakenBoth(a[..st.used], ParseArgs(Later(g), a[st.used..]).opts, Scan(Later(g), true, a[st.used..]).parse.opts);
    }
  }

  function TwoNames(): Grammar {
    GrammarOf("W;", Some([LongOpt("ab", 0, 1), LongOpt("ac", 0, 2)]), false)
  }

  lemma TwoNamesLookUp()
    ensures LookUp(LongsOf(TwoNames()), "a"[..KeyOf("a")]) == Ambiguous && KindOf(TwoNames().letters, 'W') == Worded
  {
    var longs := [LongOpt("ab", 0, 1), LongOpt("ac", 0, 2)];
    assert longs[..1] == [longs[0]] && longs[..1][..0] == [];
    assert Exact(longs[..1], "a") == None && Exact(longs, "a") == None;
    assert Prefixed(longs[..1], "a") == [0] && Prefixed(longs, "a") == [0, 1];
    assert "a"[..1] == "a" && "a"[1..] == "" && KeyOf("a") == 1;
  }

  lemma TwoNamesAmbiguous(more: seq<string>)
    ensures Short(TwoNames(), "Wa", more) == Step(Event('?' as int, Some("a")), 2, "")
  {
    TwoNamesLookUp();
    hide LookUp, KindOf, LongsOf, KeyOf;
    assert "Wa"[1..] == "a";
  }

  /** An ambiguous name after `-W` swallows the element behind it, or ends the scan behind
      the last one. */
  lemma AmbiguousWord()
    ensures ParseArgs(TwoNames(), ["-Wa", "x"]) == Parse([Event('?' as int, Some("a"))], ["-Wa", "x"], [])
    ensures EndingOf(TwoNames(), ["-Wa"]) == Overstepped
  {
    var both, one := ["-Wa", "x"], ["-Wa"];
    TwoNamesAmbiguous(["x"]);
    TwoNamesAmbiguous([]);
    hide Short;
    assert both[0][1..] == "Wa" && both[1..] == ["x"] && both[2..] == [] && one[1..] == [];
    assert ParseArgs(TwoNames(), both) == ParseShort(TwoNames(), both, "Wa");
    assert EndingOf(TwoNames(), one) == ShortEnding(TwoNames(), one, "Wa");
  }

  /** In front of `--` it shows in the places alone. */
  lemma PlacesTell()
    ensures var g, a := TwoNames(), ["-Wa", "--"];
      && Scan(g, false, a).parse == Scan(g, true, a).parse
      && Scan(g, false, a).lefts == [0] && Scan(g, true, a).lefts == [1]
  {
    var g, a := TwoNames(), ["-Wa", "--"];
    TwoNamesAmbiguous(["--"]);
    OverstepsExact(g, "Wa", ["--"]);
    assert "Wa"[1..] == "a" && NamesMany(g, "Wa", ["--"]) by { TwoNamesLookUp(); }
    hide Short, NamesMany;
    assert a[0][1..] == "Wa" && a[1..] == ["--"] && a[2..] == [];
    assert Scan(Later(g), false, []) == Scanned(Parse([], [], []), []);
    assert Scan(Later(g), true, ["--"]) == Scanned(Parse([], ["--"], []), []);
    assert Scan(g, false, a) == ScanShort(g, false, a, "Wa") && Scan(g, true, a) == ScanShort(g, true, a, "Wa");
  }

  /** Without `W;` none is met. */
  lemma {:induction false} NoWords(g: Grammar, a: seq<string>)
    requires KindOf(g.letters, 'W') != Worded && KindOf(g.later, 'W') != Worded
    ensures Met(g, a) == []
    decreases |a|, 1, 0
  {
    hide Short, Long, ShortMet, KindOf;
    if a == [] || a[0] == "--" {
    } else if NonOption(a[0]) {
      if g.ordering != RequireOrder { NoWords(if g.ordering == Permute then g else Later(g), a[1..]); }
    } else if IsLong(g, a[0]) {
      NoWords(Later(g), a[Long(g, a[0][2..], a[1..]).used..]);
    } else {
      NoShortWords(g, a, a[0][1..]);
    }
  }

  lemma {:induction false} NoShortWords(g: Grammar, a: seq<string>, next: string)
    requires KindOf(g.letters, 'W') != Worded && KindOf(g.later, 'W') != Worded && a != [] && next != ""
    ensures ShortMet(g, a, next) == []
    decreases |a|, 0, |next|
  {
    assert KindOf(g.letters, next[0]) != Worded;
    hide Short, Met, KindOf;
    var st := Short(g, next, a[1..]);
    if st.used <= |a| {
      if st.next != "" { NoShortWords(Later(g), a, st.next); } else { NoWords(Later(g), a[st.used..]); }
    }
  }
}
