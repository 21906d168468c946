/** Scanning a command line whose options and other arguments are mixed. */
module Getopt {
  import opened Wrappers

  datatype Ordering = RequireOrder | Permute | ReturnInOrder

  /** A `struct option` without its `flag`. */
  datatype LongOpt = LongOpt(name: string, hasArg: nat, val: int)

  /** The mark in front of `optstring` that chooses the ordering is taken off in the first
      call only: the next answer is made with `letters`, the answers after it with `later`. */
  datatype Grammar = Grammar(ordering: Ordering, letters: string, later: string, longs: Option<seq<LongOpt>>)

  function Later(g: Grammar): Grammar {
    g.(letters := g.later)
  }

  /** One answer of `getopt`: the code and `optarg`. */
  datatype Event = Event(code: int, arg: Option<string>)

  /** What a whole scan tells: the answers, the elements that were options or their
      arguments, and the other elements. */
  datatype Parse = Parse(events: seq<Event>, opts: seq<string>, rest: seq<string>)

  // ------------------------------------------------------------- a plain parser

  predicate NonOption(x: string) {
    |x| < 2 || x[0] != '-'
  }

  function Index(s: string, c: char): (i: Option<nat>)
    ensures i.Some? ==> i.value < |s| && s[i.value] == c && c !in s[..i.value]
    ensures i.None? ==> c !in s
  {
    if s == [] then None
    else if s[0] == c then Some(0)
    else match Index(s[1..], c) {
      case None => None
      case Some(k) => assert s[..k + 1] == [s[0]] + s[1..][..k]; Some(k + 1)
    }
  }

  datatype Kind = Unknown | Plain | Needs | May | Worded

  function KindOf(letters: string, c: char): Kind {
    match Index(letters, c)
    case None => Unknown
    case Some(i) =>
      if c == ':' then Unknown
      else if c == 'W' && i + 1 < |letters| && letters[i + 1] == ';' then Worded
      else if i + 1 == |letters| || letters[i + 1] != ':' then Plain
      else if i + 2 == |letters| || letters[i + 2] != ':' then Needs
      else May
  }

  lemma IndexBehind(letters: string, m: char, c: char)
    requires c != m
    ensures Index([m] + letters, c) == match Index(letters, c) case None => None case Some(i) => Some(i + 1)
  {
    assert ([m] + letters)[1..] == letters;
  }

  lemma KindBehind(letters: string, m: char, c: char)
    requires c != m
    ensures KindOf([m] + letters, c) == KindOf(letters, c)
  {
    IndexBehind(letters, m, c);
    var marked := [m] + letters;
    assert forall i :: 0 <= i < |letters| ==> marked[i + 1] == letters[i];
  }

  /** A letter and what it takes, as `optstring` spells it. */
  datatype Letter = Letter(c: char, kind: Kind)

  function Suffix(kind: Kind): string {
    match kind
    case Needs => ":"
    case May => "::"
    case Worded => ";"
    case _ => ""
  }

  predicate Spellable(ls: seq<Letter>) {
    forall l :: l in ls ==> l.c != ':' && l.c != ';' && l.kind != Unknown && (l.kind == Worded ==> l.c == 'W')
  }

  function Spelled(ls: seq<Letter>): string {
    if ls == [] then ""
    else [ls[0].c] + Suffix(ls[0].kind) + Spelled(ls[1..])
  }

  /** The first time the letter is listed counts. */
  function Listed(ls: seq<Letter>, c: char): Kind {
    if ls == [] then Unknown else if ls[0].c == c then ls[0].kind else Listed(ls[1..], c)
  }

  /** Letters are read as they are spelled. */
  lemma {:induction false} LettersRead(ls: seq<Letter>, c: char)
    requires Spellable(ls) && c != ';'
    ensures KindOf(Spelled(ls), c) == Listed(ls, c)
  {
    if ls != [] {
      var l, rest := ls[0], Spelled(ls[1..]);
      assert l in ls && forall m :: m in ls[1..] ==> m in ls;
      LettersRead(ls[1..], c);
      assert rest != "" ==> rest[0] != ':' && rest[0] != ';' by { if |ls| > 1 { assert ls[1] in ls; } }
      LetterSpelled(l, rest, c);
    }
  }

  lemma LetterSpelled(l: Letter, rest: string, c: char)
    requires l.c != ':' && l.c != ';' && l.kind != Unknown && (l.kind == Worded ==> l.c == 'W') && c != ';'
    requires rest != "" ==> rest[0] != ':' && rest[0] != ';'
    ensures var s := [l.c] + Suffix(l.kind) + rest;
      KindOf(s, c) == if c == l.c then l.kind else KindOf(rest, c)
  {
    var tail := Suffix(l.kind);
    assert [l.c] + tail + rest == [l.c] + (tail + rest);
    if c == l.c {
      assert ([l.c] + (tail + rest))[0] == c;
    } else if c != ':' {
      KindBehind(tail + rest, l.c, c);
      TailUnseen(tail, rest, c);
    }
  }

  lemma TailUnseen(tail: string, rest: string, c: char)
    requires c != ':' && c != ';' && tail in {"", ":", "::", ";"}
    ensures KindOf(tail + rest, c) == KindOf(rest, c)
  {
    if tail == "" {
      assert tail + rest == rest;
    } else if tail == "::" {
      assert tail + rest == [':'] + ([':'] + rest);
      KindBehind([':'] + rest, ':', c);
      KindBehind(rest, ':', c);
    } else {
      assert tail + rest == [tail[0]] + rest;
      KindBehind(rest, tail[0], c);
    }
  }

  /** What is said of a missing argument. */
  function Missing(letters: string): Event {
    Event(if letters != [] && letters[0] == ':' then ':' as int else '?' as int, None)
  }

  const Bad: Event := Event('?' as int, None)

  /** The answer, how many elements are done with, and what is left of the current one. */
  datatype Step = Step(event: Event, used: nat, next: string)

  function Short(g: Grammar, next: string, more: seq<string>): (st: Step)
    requires next != ""
    ensures st.used <= 2 + |more| && (st.used == 0 <==> st.next != "") && |st.next| < |next|
    ensures st.next != "" ==> st.next == next[1..]
  {
    var c, tail := next[0], next[1..];
    var used := if tail == "" then 1 else 0;
    match KindOf(g.letters, c)
    case Unknown => Step(Bad, used, tail)
    case Plain => Step(Event(c as int, None), used, tail)
    case May => Step(Event(c as int, if tail == "" then None else Some(tail)), 1, "")
    case Needs =>
      if tail != "" then Step(Event(c as int, Some(tail)), 1, "")
      else if more == [] then Step(Missing(g.letters), 1, "")
      else Step(Event(c as int, Some(more[0])), 2, "")
    case Worded => WordOption(g, tail, more)
  }

  /** `-W name` stands for `--name`.  An ambiguous name costs one element too many. */
  function WordOption(g: Grammar, tail: string, more: seq<string>): (st: Step)
    ensures 1 <= st.used <= 2 + |more| && st.next == ""
  {
    if tail == "" && more == [] then Step(Missing(g.letters), 1, "") else
    var (name, used, rest) := if tail != "" then (tail, 1, more) else (more[0], 2, more[1..]);
    var k := KeyOf(name);
    match LookUp(LongsOf(g), name[..k])
    case NotFound => Step(Event('W' as int, Some(name)), used, "")
    case Ambiguous => Step(Event('?' as int, Some(name)), used + 1, "")
    case One(i) =>
      var o := LongsOf(g)[i];
      if k < |name| then
        Step(if o.hasArg != 0 then Event(o.val, Some(name[k + 1..])) else Event('?' as int, Some(name)), used, "")
      else if o.hasArg != 1 then Step(Event(o.val, Some(name)), used, "")
      else if rest == [] then Step(Missing(g.letters).(arg := Some(name)), used, "")
      else Step(Event(o.val, Some(rest[0])), used + 1, "")
  }

  function LongsOf(g: Grammar): seq<LongOpt> {
    match g.longs case None => [] case Some(longs) => longs
  }

  /** The places of the long options that `key` abbreviates. */
  function Prefixed(longs: seq<LongOpt>, key: string): (r: seq<nat>)
    ensures forall i :: i in r <==> 0 <= i < |longs| && key <= longs[i].name
  {
    if longs == [] then []
    else
      var r := Prefixed(longs[..|longs| - 1], key);
      if key <= longs[|longs| - 1].name then r + [|longs| - 1] else r
  }

  function Exact(longs: seq<LongOpt>, key: string): (r: Option<nat>)
    ensures r.Some? ==> r.value < |longs| && longs[r.value].name == key && forall j ::
      0 <= j < r.value ==> longs[j].name != key
    ensures r.None? ==> forall j :: 0 <= j < |longs| ==> longs[j].name != key
  {
    if longs == [] then None
    else match Exact(longs[..|longs| - 1], key) {
      case Some(i) => Some(i)
      case None => if longs[|longs| - 1].name == key then Some(|longs| - 1) else None
    }
  }

  datatype Found = NotFound | Ambiguous | One(i: nat)

  /** An exact name, or else an abbreviation of just one. */
  function LookUp(longs: seq<LongOpt>, key: string): (r: Found)
    ensures r.One? ==> r.i < |longs| && key <= longs[r.i].name
  {
    match Exact(longs, key)
    case Some(i) => One(i)
    case None =>
      var r := Prefixed(longs, key);
      if r == [] then NotFound else if |r| > 1 then Ambiguous else assert r[0] in r; One(r[0])
  }

  /** The first of the exact names, or, without any, the only name that `key` begins. */
  ghost predicate Denotes(longs: seq<LongOpt>, key: string, i: nat) {
    && i < |longs|
    && if exists j :: 0 <= j < |longs| && longs[j].name == key
         then longs[i].name == key && forall j :: 0 <= j < i ==> longs[j].name != key
         else key <= longs[i].name && forall j :: 0 <= j < |longs| && key <= longs[j].name ==> j == i
  }

  predicate Rising(r: seq<nat>) {
    forall a, b :: 0 <= a < b < |r| ==> r[a] < r[b]
  }

  lemma {:induction false} PrefixedRises(longs: seq<LongOpt>, key: string)
    ensures Rising(Prefixed(longs, key))
  {
    if longs != [] {
      var n := |longs| - 1;
      var r := Prefixed(longs[..n], key);
      PrefixedRises(longs[..n], key);
      forall a | 0 <= a < |r| ensures r[a] < n { assert r[a] in r; }
      assert Prefixed(longs, key) == if key <= longs[n].name then r + [n] else r;
    }
  }

  /** What is found, said of the table alone: the name denoted; or that there are several
      and none is exact; or that there is none. */
  lemma LookUpExact(longs: seq<LongOpt>, key: string)
    ensures forall i: nat :: LookUp(longs, key) == One(i) <==> Denotes(longs, key, i)
    ensures LookUp(longs, key) == Ambiguous <==>
      && (forall j :: 0 <= j < |longs| ==> longs[j].name != key)
      && exists a, b :: 0 <= a < b < |longs| && key <= longs[a].name && key <= longs[b].name
    ensures LookUp(longs, key) == NotFound <==> forall j :: 0 <= j < |longs| ==> !(key <= longs[j].name)
  {
    PrefixedRises(longs, key);
    var r := Prefixed(longs, key);
    hide Prefixed, Exact;
    if Exact(longs, key) == None {
      forall k | 0 <= k < |r| ensures r[k] < |longs| && key <= longs[r[k]].name { assert r[k] in r; }
      if |r| > 1 {
        assert r[0] < r[1] && key <= longs[r[0]].name && key <= longs[r[1]].name;
      } else {
        assert forall j :: j in r ==> j == r[0];
      }
    }
  }

  function KeyOf(next: string): (k: nat)
    ensures k <= |next| && '=' !in next[..k] && (k < |next| ==> next[k] == '=')
  {
    match Index(next, '=') case None => |next| case Some(i) => i
  }

  function Long(g: Grammar, next: string, more: seq<string>): (st: Step)
    ensures 1 <= st.used <= 1 + |more| && st.used <= 2 && st.next == ""
  {
    var k := KeyOf(next);
    match LookUp(LongsOf(g), next[..k])
    case NotFound => Step(Bad, 1, "")
    case Ambiguous => Step(Bad, 1, "")
    case One(i) =>
      var o := LongsOf(g)[i];
      if k < |next| then Step(if o.hasArg != 0 then Event(o.val, Some(next[k + 1..])) else Bad, 1, "")
      else if o.hasArg != 1 then Step(Event(o.val, None), 1, "")
      else if more == [] then Step(Missing(g.letters), 1, "")
      else Step(Event(o.val, Some(more[0])), 2, "")
  }

  predicate IsLong(g: Grammar, x: string) {
    g.longs.Some? && |x| >= 2 && x[1] == '-'
  }

  function After(e: Event, taken: seq<string>, p: Parse): Parse {
    Parse([e] + p.events, taken + p.opts, p.rest)
  }

  /** Parses the elements from left to right and moves none of them. */
  function ParseArgs(g: Grammar, a: seq<string>): Parse
    decreases |a|, 1, 0
  {
    if a == [] then Parse([], [], [])
    else if a[0] == "--" then Parse([], [a[0]], a[1..])
    else if NonOption(a[0]) then
      match g.ordering
      case RequireOrder => Parse([], [], a)
      case ReturnInOrder => After(Event(1, Some(a[0])), [a[0]], ParseArgs(Later(g), a[1..]))
      case Permute => var p := ParseArgs(g, a[1..]); Parse(p.events, p.opts, [a[0]] + p.rest)
    else if IsLong(g, a[0]) then
      var st := Long(g, a[0][2..], a[1..]);
      After(st.event, a[..st.used], ParseArgs(Later(g), a[st.used..]))
    else ParseShort(g, a, a[0][1..])
  }

  /** Parses the rest `next` of the letters of the first element, and what follows it. */
  function ParseShort(g: Grammar, a: seq<string>, next: string): Parse
    requires a != [] && next != ""
    decreases |a|, 0, |next|
  {
    var st := Short(g, next, a[1..]);
    if st.used > |a| then Parse([st.event], a, [])
    else After(st.event, a[..st.used],
      if st.next != "" then ParseShort(Later(g), a, st.next) else ParseArgs(Later(g), a[st.used..]))
  }

  function Remaining(g: Grammar, a: seq<string>, next: string): Parse
    requires next != "" ==> a != []
  {
    if next == "" then ParseArgs(g, a) else ParseShort(g, a, next)
  }

  // ------------------------------------------------------- how a command line ends

  predicate LongStarves(g: Grammar, next: string, more: seq<string>) {
    more == [] && KeyOf(next) == |next| &&
    match LookUp(LongsOf(g), next) case One(i) => LongsOf(g)[i].hasArg == 1 case _ => false
  }

  predicate ShortStarves(g: Grammar, next: string, more: seq<string>)
    requires next != ""
  {
    match KindOf(g.letters, next[0])
    case Needs => next[1..] == "" && more == []
    case Worded =>
      if next[1..] != "" then LongStarves(g, next[1..], more) else more == [] || LongStarves(g, more[0], more[1..])
    case _ => false
  }

  /** At `--`; with an option that lacks its argument; past the last element; or else. */
  datatype Ending = Plainly | AtDashes | Starved | Overstepped

  function EndingOf(g: Grammar, a: seq<string>): Ending
    decreases |a|, 1, 0
  {
    if a == [] then Plainly
    else if a[0] == "--" then AtDashes
    else if NonOption(a[0]) then
      match g.ordering
      case RequireOrder => Plainly
      case ReturnInOrder => EndingOf(Later(g), a[1..])
      case Permute => EndingOf(g, a[1..])
    else if IsLong(g, a[0]) then
      if LongStarves(g, a[0][2..], a[1..]) then Starved else EndingOf(Later(g), a[Long(g, a[0][2..], a[1..]).used..])
    else ShortEnding(g, a, a[0][1..])
  }

  function ShortEnding(g: Grammar, a: seq<string>, next: string): Ending
    requires a != [] && next != ""
    decreases |a|, 0, |next|
  {
    var st := Short(g, next, a[1..]);
    if st.used > |a| then Overstepped
    else if ShortStarves(g, next, a[1..]) then Starved
    else if st.next != "" then ShortEnding(Later(g), a, st.next) else EndingOf(Later(g), a[st.used..])
  }

  function RemainingEnding(g: Grammar, a: seq<string>, next: string): Ending
    requires next != "" ==> a != []
  {
    if next == "" then EndingOf(g, a) else ShortEnding(g, a, next)
  }

  // -------------------------------------------------------------- rotation in place

  /** The blocks `[bottom, middle)` and `[middle, top)` change places. */
  function Rotated<T>(s: seq<T>, bottom: nat, middle: nat, top: nat): (r: seq<T>)
    requires bottom <= middle <= top <= |s|
    ensures |r| == |s|
  {
    s[..bottom] + s[middle..top] + s[bottom..middle] + s[top..]
  }

  /** The blocks of length `len` at `x` and `y` change places. */
  function Swapped<T>(s: seq<T>, x: nat, y: nat, len: nat): (r: seq<T>)
    requires x + len <= y && y + len <= |s|
    ensures |r| == |s|
  {
    s[..x] + s[y..y + len] + s[x + len..y] + s[x..x + len] + s[y + len..]
  }

  lemma RotatedPieces<T>(p: seq<T>, x: seq<T>, y: seq<T>, q: seq<T>)
    ensures Rotated(p + x + y + q, |p|, |p| + |x|, |p| + |x| + |y|) == p + y + x + q
  {
    var s := p + x + y + q;
    assert s[..|p|] == p && s[|p|..|p| + |x|] == x;
    assert s[|p| + |x|..|p| + |x| + |y|] == y && s[|p| + |x| + |y|..] == q;
  }

  lemma SwappedPieces<T>(p: seq<T>, a: seq<T>, b: seq<T>, c: seq<T>, q: seq<T>)
    requires |a| == |c|
    ensures Swapped(p + a + b + c + q, |p|, |p| + |a| + |b|, |a|) == p + c + b + a + q
  {
    var s := p + a + b + c + q;
    assert s[..|p|] == p && s[|p|..|p| + |a|] == a && s[|p| + |a|..|p| + |a| + |b|] == b;
    assert s[|p| + |a| + |b|..|p| + |a| + |b| + |c|] == c && s[|p| + |a| + |b| + |c|..] == q;
  }

  lemma Pieces<T>(s: seq<T>, i: nat, j: nat, k: nat, l: nat)
    requires i <= j <= k <= l <= |s|
    ensures s == s[..i] + s[i..j] + s[j..k] + s[k..l] + s[l..]
  {
  }

  /** The shorter block, if it is the lower one, goes to its final place at the top. */
  lemma LowerPlaced<T>(s: seq<T>, bottom: nat, middle: nat, top: nat)
    requires bottom < middle <= top <= |s| && middle - bottom < top - middle
    ensures var end := top - (middle - bottom);
      Rotated(Swapped(s, bottom, end, middle - bottom), bottom, middle, end) == Rotated(s, bottom, middle, top)
  {
    hide Rotated, Swapped;
    var end := top - (middle - bottom);
    var p, a, b, c, q := s[..bottom], s[bottom..middle], s[middle..end], s[end..top], s[top..];
    Pieces(s, bottom, middle, end, top);
    SwappedPieces(p, a, b, c, q);
    assert p + c + b + (a + q) == p + c + b + a + q;
    RotatedPieces(p, c, b, a + q);
    assert p + a + (b + c) + q == p + a + b + c + q;
    RotatedPieces(p, a, b + c, q);
    assert p + (b + c) + a + q == p + b + c + (a + q);
  }

  lemma UpperPlaced<T>(s: seq<T>, bottom: nat, middle: nat, top: nat)
    requires bottom <= middle < top <= |s| && top - middle <= middle - bottom
    ensures Rotated(Swapped(s, bottom, middle, top - middle), bottom + (top - middle), middle, top)
         == Rotated(s, bottom, middle, top)
  {
    hide Rotated, Swapped;
    var len := top - middle;
    var p, a, b, c, q := s[..bottom], s[bottom..bottom + len], s[bottom + len..middle], s[middle..top], s[top..];
    Pieces(s, bottom, bottom + len, middle, top);
    SwappedPieces(p, a, b, c, q);
    RotatedPieces(p + c, b, a, q);
    assert p + (a + b) + c + q == p + a + b + c + q;
    RotatedPieces(p, a + b, c, q);
    assert p + c + (a + b) + q == p + c + a + b + q;
  }

  lemma RotatedNothing<T>(s: seq<T>, bottom: nat, middle: nat, top: nat)
    requires bottom <= middle <= top <= |s| && (bottom == middle || middle == top)
    ensures Rotated(s, bottom, middle, top) == s
  {
  }

  lemma {:induction false} RotatedPermutes<T>(s: seq<T>, bottom: nat, middle: nat, top: nat)
    requires bottom <= middle <= top <= |s|
    ensures multiset(Rotated(s, bottom, middle, top)) == multiset(s)
  {
    assert s == s[..bottom] + s[bottom..middle] + s[middle..top] + s[top..];
  }

  lemma SwappedGrows<T>(s: seq<T>, x: nat, y: nat, i: nat)
    requires x + i < y && y + i < |s|
    ensures Swapped(s, x, y, i + 1) == Swapped(s, x, y, i)[x + i := s[y + i]][y + i := s[x + i]]
    ensures Swapped(s, x, y, i)[x + i] == s[x + i] && Swapped(s, x, y, i)[y + i] == s[y + i]
  {
    var before, after := Swapped(s, x, y, i), Swapped(s, x, y, i + 1);
    forall k | 0 <= k < |s| ensures after[k] == before[x + i := s[y + i]][y + i := s[x + i]][k] {
      SwappedAt(s, x, y, i, k);
      SwappedAt(s, x, y, i + 1, k);
    }
    SwappedAt(s, x, y, i, x + i);
    SwappedAt(s, x, y, i, y + i);
  }

  lemma SwappedAt<T>(s: seq<T>, x: nat, y: nat, len: nat, k: nat)
    requires x + len <= y && y + len <= |s| && k < |s|
    ensures Swapped(s, x, y, len)[k] ==
      s[if x <= k < x + len then k - x + y else if y <= k < y + len then k - y + x else k]
  {
  }

  /** The inner loops of `exchange`. */
  method SwapBlocks<T>(a: array<T>, x: nat, y: nat, len: nat)
    requires x + len <= y && y + len <= a.Length
    modifies a
    ensures a[..] == Swapped(old(a[..]), x, y, len)
  {
    ghost var s := a[..];
    var i := 0;
    assert Swapped(s, x, y, 0) == s;
    while i < len
      invariant 0 <= i <= len && a[..] == Swapped(s, x, y, i)
    {
      SwappedGrows(s, x, y, i);
      ghost var was := a[..];
      assert a[x + i] == was[x + i] && a[y + i] == was[y + i];
      a[x + i], a[y + i] := a[y + i], a[x + i];
      assert a[..] == was[x + i := was[y + i]][y + i := was[x + i]];
      i := i + 1;
    }
  }

  method Rotate<T>(a: array<T>, first: nat, last: nat, end: nat)
    requires first <= last <= end <= a.Length
    modifies a
    ensures a[..] == Rotated(old(a[..]), first, last, end)
  {
    var bottom: nat, middle: nat, top: nat := first, last, end;
    hide Rotated, Swapped;
    while top > middle && middle > bottom
      invariant bottom <= middle <= top <= a.Length
      invariant Rotated(a[..], bottom, middle, top) == Rotated(old(a[..]), first, last, end)
      decreases top - bottom
    {
      if top - middle > middle - bottom {
        var len := middle - bottom;
        LowerPlaced(a[..], bottom, middle, top);
        SwapBlocks(a, bottom, top - len, len);
        top := top - len;
      } else {
        var len := top - middle;
        UpperPlaced(a[..], bottom, middle, top);
        SwapBlocks(a, bottom, middle, len);
        bottom := bottom + len;
      }
    }
    RotatedNothing(a[..], bottom, middle, top);
  }

  // ------------------------------------------------------------------- the scanner

  /** The elements so far are, in their order, the options in `[1, first)` and
      `[last, end)` and the skipped others in between; what they said, with what a plain
      parser says of the rest, is what it says of the whole command line. */
  ghost predicate Laid(g: Grammar, s: seq<string>, first: nat, last: nat, end: nat, next: string, done: seq<Event>,
                       whole: Parse) {
    && 1 <= first <= last <= end <= |s| && (g.ordering != Permute ==> last == 1)
    && (next != "" ==> end < |s| && !NonOption(s[end]) && !IsLong(g, s[end]))
    && whole == Joined(done, s[1..first] + s[last..end], s[first..last], Remaining(g, s[end..], next))
    && RemainingEnding(g, s[end..], next) != Overstepped
  }

  function Joined(events: seq<Event>, opts: seq<string>, rest: seq<string>, p: Parse): Parse {
    Parse(events + p.events, opts + p.opts, rest + p.rest)
  }

  lemma LaidRotated(g: Grammar, s: seq<string>, first: nat, last: nat, end: nat, done: seq<Event>, whole: Parse)
    requires Laid(g, s, first, last, end, "", done, whole)
    ensures Laid(g, Rotated(s, first, last, end), first + (end - last), end, end, "", done, whole)
      || g.ordering != Permute
    ensures Rotated(s, first, last, end)[0] == s[0]
  {
    var r := Rotated(s, first, last, end);
    var first' := first + (end - last);
    assert r[first'..end] == s[first..last];
    assert r[1..first'] + r[end..end] == s[1..first] + s[last..end];
    assert r[end..] == s[end..];
  }

  lemma LaidNothing(g: Grammar, s: seq<string>, last: nat, end: nat, done: seq<Event>, whole: Parse)
    requires Laid(g, s, last, last, end, "", done, whole) && g.ordering == Permute
    ensures Laid(g, s, end, end, end, "", done, whole)
  {
    assert s[1..end] + s[end..end] == s[1..last] + s[last..end];
    assert s[last..last] == s[end..end];
  }

  lemma LaidSkip(g: Grammar, s: seq<string>, first: nat, last: nat, done: seq<Event>, whole: Parse)
    requires Laid(g, s, first, last, last, "", done, whole) && g.ordering == Permute && last < |s| && NonOption(s[last])
    ensures Laid(g, s, first, last + 1, last + 1, "", done, whole)
  {
    var p := ParseArgs(g, s[last + 1..]);
    assert s[last..][1..] == s[last + 1..];
    assert s[last] != "--";
    assert ParseArgs(g, s[last..]) == Parse(p.events, p.opts, [s[last]] + p.rest);
    assert s[first..last + 1] + p.rest == s[first..last] + ([s[last]] + p.rest);
    assert s[1..first] + s[last + 1..last + 1] == s[1..first] + s[last..last];
  }

  /** After one answer. */
  lemma LaidStep(g: Grammar, s: seq<string>, first: nat, last: nat, end: nat, next: string, done: seq<Event>,
                 whole: Parse, st: Step)
    requires Laid(g, s, first, last, end, next, done, whole) && end < |s| && end + st.used <= |s|
    requires (st.used == 0 <==> st.next != "") && (st.next != "" ==> !NonOption(s[end]) && !IsLong(g, s[end]))
    requires Remaining(g, s[end..], next) ==
      After(st.event, s[end..][..st.used], Remaining(Later(g), s[end..][st.used..], st.next))
    requires RemainingEnding(Later(g), s[end..][st.used..], st.next) != Overstepped
    ensures Laid(Later(g), s, first, last, end + st.used, st.next, done + [st.event], whole)
  {
    var p := Remaining(Later(g), s[end + st.used..], st.next);
    assert s[end..][st.used..] == s[end + st.used..];
    assert s[last..end + st.used] == s[last..end] + s[end..][..st.used];
    assert done + ([st.event] + p.events) == done + [st.event] + p.events;
    assert s[1..first] + s[last..end] + (s[end..][..st.used] + p.opts) == s[1..first] + s[last..end + st.used] + p.opts;
  }

  /** The end of a scan: first all options, then all the rest. */
  ghost predicate Sorted(s: seq<string>, end: nat, done: seq<Event>, whole: Parse) {
    && done == whole.events && end == 1 + |whole.opts|
    && s != [] && s == [s[0]] + whole.opts + whole.rest
  }

  lemma SortedEnd(g: Grammar, s: seq<string>, first: nat, last: nat, end: nat, done: seq<Event>, whole: Parse)
    requires Laid(g, s, first, last, end, "", done, whole) && (last == end || g.ordering != Permute)
    requires end == |s| || (g.ordering == RequireOrder && s[end] != "--" && NonOption(s[end]))
    ensures Sorted(s, if first != last then first else end, done, whole)
  {
    assert ParseArgs(g, s[end..]) == Parse([], [], s[end..]);
    hide ParseArgs, EndingOf, Short, Long;
    EndCut(s, first, last, end);
  }

  lemma EndCut(s: seq<string>, first: nat, last: nat, end: nat)
    requires 1 <= first <= last <= end <= |s| && (last == end || first == last)
    ensures s == [s[0]] + (s[1..first] + s[last..end] + []) + (s[first..last] + s[end..])
    ensures |s[1..first] + s[last..end]| + 1 == if first != last then first else end
  {
    if first == last { assert s[1..first] + s[last..end] == s[1..end]; }
  }

  /** At `--` one more rotation; then everything else is left as it is. */
  lemma SortedDashes(g: Grammar, s: seq<string>, first: nat, last: nat, end: nat, done: seq<Event>, whole: Parse)
    requires Laid(g, s, first, last, end, "", done, whole) && (last == end || g.ordering != Permute)
    requires end < |s| && s[end] == "--"
    ensures first == last ==> Sorted(s, end + 1, done, whole)
    ensures first != last ==> last == end && Sorted(Rotated(s, first, last, end + 1), first + 1, done, whole)
  {
    assert ParseArgs(g, s[end..]) == Parse([], [s[end]], s[end + 1..]);
    hide ParseArgs, EndingOf, Rotated, Short, Long, LongStarves, ParseShort, ShortEnding;
    if first == last {
      DashesCut(s, first, end);
    } else {
      DashesRotated(s, first, end);
    }
  }

  lemma DashesCut(s: seq<string>, first: nat, end: nat)
    requires 1 <= first <= end < |s|
    ensures s == [s[0]] + (s[1..first] + s[first..end] + [s[end]]) + (s[first..first] + s[end + 1..])
  {
    assert s[1..end + 1] == s[1..first] + s[first..end] + [s[end]];
  }

  lemma DashesRotated(s: seq<string>, first: nat, end: nat)
    requires 1 <= first <= end < |s|
    ensures Rotated(s, first, end, end + 1) ==
      [s[0]] + (s[1..first] + s[end..end] + [s[end]]) + (s[first..end] + s[end + 1..])
  {
  }

  /** `W;` asks for the table of long options to be there. */
  predicate WordsAllowed(g: Grammar) {
    g.longs.Some? || (KindOf(g.letters, 'W') != Worded && KindOf(g.later, 'W') != Worded)
  }

  /** The kind of a letter, from the place where it stands. */
  lemma KindFrom(letters: string, c: char, i: nat, t: string)
    requires Index(letters, c) == Some(i) && c != ':' && t == letters[i..]
    ensures t != "" && t[0] == c
    ensures KindOf(letters, c) ==
      if t[0] == 'W' && |t| > 1 && t[1] == ';' then Worded
      else if |t| == 1 || t[1] != ':' then Plain
      else if |t| == 2 || t[2] != ':' then Needs
      else May
  {
  }

  class Scanner {
    const argv: array<string>
    var g: Grammar               // its letters are those that the next call looks at
    var optind: nat
    var firstNonopt: nat
    var lastNonopt: nat
    var nextchar: string         // empty for a null pointer

    ghost const whole: Parse
    ghost var done: seq<Event>

    ghost predicate Valid()
      reads this, argv
    {
      WordsAllowed(g) && Laid(g, argv[..], firstNonopt, lastNonopt, optind, nextchar, done, whole)
    }

    /** `_getopt_initialize`. */
    constructor (argv: array<string>, optstring: string, longs: Option<seq<LongOpt>>, posixly: bool)
      requires argv.Length > 0 && WordsAllowed(GrammarOf(optstring, longs, posixly))
      requires EndingOf(GrammarOf(optstring, longs, posixly), argv[1..]) != Overstepped
      ensures Valid() && this.argv == argv && g == GrammarOf(optstring, longs, posixly)
      ensures done == [] && whole == ParseArgs(g, argv[1..])
    {
      this.argv := argv;
      g := GrammarOf(optstring, longs, posixly);
      optind, firstNonopt, lastNonopt, nextchar := 1, 1, 1, "";
      whole := ParseArgs(GrammarOf(optstring, longs, posixly), argv[1..]);
      done := [];
      new;
      assert argv[..][1..] == argv[1..];
    }

    /** Puts the options found since behind the others before those, and skips more others. */
    method Gather()
      requires Valid() && nextchar == "" && g.ordering == Permute
      modifies `optind, `firstNonopt, `lastNonopt, argv
      ensures Valid() && lastNonopt == optind
      ensures optind < argv.Length ==> !NonOption(argv[optind])
      ensures argv.Length > 0 && argv[0] == old(argv[0])
    {
      hide Laid, Rotated;
      LaidMeans(g, argv[..], firstNonopt, lastNonopt, optind, nextchar, done, whole);
      if firstNonopt != lastNonopt && lastNonopt != optind {
        LaidRotated(g, argv[..], firstNonopt, lastNonopt, optind, done, whole);
        Exchange();
      } else if lastNonopt != optind {
        LaidNothing(g, argv[..], lastNonopt, optind, done, whole);
        firstNonopt := optind;
      }
      while optind < argv.Length && NonOption(argv[optind])
        invariant optind <= argv.Length && Laid(g, argv[..], firstNonopt, optind, optind, "", done, whole)
        invariant argv[..] == old(argv[..]) || argv[0] == old(argv[0])
        decreases argv.Length - optind
      {
        LaidSkip(g, argv[..], firstNonopt, optind, done, whole);
        optind := optind + 1;
      }
      lastNonopt := optind;
    }

    /** The part of `_getopt_internal` that goes to the next element. */
    method Advance() returns (stop: Stop)
      requires Valid() && nextchar == ""
      modifies `optind, `firstNonopt, `lastNonopt, `done, `g, argv
      ensures argv.Length > 0 && argv[0] == old(argv[0])
      ensures stop.End? ==> Sorted(argv[..], optind, done, whole) && done == old(done)
      ensures !stop.End? ==> Valid() && done == if stop.Pass? then old(done) + [stop.event] else old(done)
      ensures stop.AtOption? ==> optind < argv.Length && !NonOption(argv[optind]) && argv[optind] != "--"
    {
      hide Laid, Rotated, Sorted;
      LaidMeans(g, argv[..], firstNonopt, lastNonopt, optind, nextchar, done, whole);
      if g.ordering == Permute { Gather(); }
      LaidMeans(g, argv[..], firstNonopt, lastNonopt, optind, nextchar, done, whole);
      if optind != argv.Length && argv[optind] == "--" {
        SortedDashes(g, argv[..], firstNonopt, lastNonopt, optind, done, whole);
        optind := optind + 1;
        if firstNonopt != lastNonopt && lastNonopt != optind {
          RotatedKeeps(argv[..], firstNonopt, lastNonopt, optind);
          Exchange();
        } else if firstNonopt == lastNonopt {
          firstNonopt := optind;
        }
        lastNonopt := argv.Length;
        optind := argv.Length;
        if firstNonopt != lastNonopt { optind := firstNonopt; }
        return End;
      }
      if optind == argv.Length {
        SortedEnd(g, argv[..], firstNonopt, lastNonopt, optind, done, whole);
        if firstNonopt != lastNonopt { optind := firstNonopt; }
        return End;
      }
      if NonOption(argv[optind]) {
        if g.ordering == RequireOrder {
          SortedEnd(g, argv[..], firstNonopt, lastNonopt, optind, done, whole);
          return End;
        }
        stop := Pass(Event(1, Some(argv[optind])));
        LaidPass(g, argv[..], firstNonopt, lastNonopt, optind, done, whole);
        optind := optind + 1;
        done := done + [stop.event];
        g := Later(g);
        return;
      }
      stop := AtOption;
    }

    /** `getopt`, or `getopt_long` if there are long options. */
    method Next() returns (r: Option<Event>)
      requires Valid()
      modifies `optind, `firstNonopt, `lastNonopt, `nextchar, `done, `g, argv
      ensures argv.Length > 0 && argv[0] == old(argv[0])
      ensures r.None? ==> Sorted(argv[..], optind, done, whole) && done == old(done)
      ensures r.Some? ==> Valid() && done == old(done) + [r.value]
    {
      hide Laid, Rotated, Sorted;
      LaidMeans(g, argv[..], firstNonopt, lastNonopt, optind, nextchar, done, whole);
      if nextchar == "" {
        var stop := Advance();
        if stop.End? { return None; }
        if stop.Pass? { return Some(stop.event); }
        nextchar := argv[optind][if IsLong(g, argv[optind]) then 2 else 1..];
        if IsLong(g, argv[optind]) {
          var e := DecodeLong();
          return Some(e);
        }
        LaidOpen(g, argv[..], firstNonopt, lastNonopt, optind, done, whole);
      }
      LaidMeans(g, argv[..], firstNonopt, lastNonopt, optind, nextchar, done, whole);
      var e := DecodeShort();
      r := Some(e);
    }

    /** The next letter of the current element. */
    method DecodeShort() returns (e: Event)
      requires Valid() && nextchar != "" && optind < argv.Length
      modifies `optind, `nextchar, `done, `g
      ensures Valid() && done == old(done) + [e]
    {
      hide Laid, Short;
      ghost var st := Short(g, nextchar, argv[optind + 1..]);
      ghost var here := optind;
      LaidShort(g, argv[..], firstNonopt, lastNonopt, optind, nextchar, done, whole, st);
      e := DecodeLetter();
      done := done + [e];
      g := Later(g);
      assert st == Step(e, optind - here, nextchar);
    }

    /** The body of that, which looks at nothing but the letters and the elements. */
    method DecodeLetter() returns (e: Event)
      requires nextchar != "" && optind < argv.Length
      modifies `optind, `nextchar
      ensures optind >= old(optind)
      ensures Short(g, old(nextchar), argv[old(optind) + 1..]) == Step(e, optind - old(optind), nextchar)
    {
      hide WordOption;
      var c := nextchar[0];
      nextchar := nextchar[1..];
      var temp := Index(g.letters, c);
      if nextchar == "" { optind := optind + 1; }
      if temp == None || c == ':' { return Bad; }
      e := Event(c as int, None);
      var t := g.letters[temp.value..];
      KindFrom(g.letters, c, temp.value, t);
      hide KindOf, Index;
      if t[0] == 'W' && |t| > 1 && t[1] == ';' {
        e := DecodeWord();
        return;
      }
      if |t| > 1 && t[1] == ':' {
        if |t| > 2 && t[2] == ':' {
          if nextchar != "" {
            e := e.(arg := Some(nextchar));
            optind := optind + 1;
          }
        } else if nextchar != "" {
          e := e.(arg := Some(nextchar));
          optind := optind + 1;
        } else if optind == argv.Length {
          e := Missing(g.letters);
        } else {
          e := e.(arg := Some(argv[optind]));
          optind := optind + 1;
        }
        nextchar := "";
      }
    }

    /** `-W name`; what is left of the element is in `nextchar`. */
    method DecodeWord() returns (e: Event)
      requires optind <= argv.Length && (if nextchar != "" then optind < argv.Length else optind > 0)
      modifies `optind, `nextchar
      ensures old(optind) <= optind
      ensures var more := if old(nextchar) != "" then argv[old(optind) + 1..] else argv[old(optind)..];
        var base := if old(nextchar) != "" then old(optind) else old(optind) - 1;
        optind >= base && WordOption(g, old(nextchar), more) == Step(e, optind - base, nextchar)
    {
      hide LookUp;
      ghost var more := if nextchar != "" then argv[optind + 1..] else argv[optind..];
      var optarg := nextchar;
      if nextchar == "" && optind == argv.Length { return Missing(g.letters); }
      if nextchar == "" { optarg := argv[optind]; }
      optind := optind + 1;
      var nameend := EndOfName(optarg);
      var found := FindLong(LongsOf(g), optarg[..nameend]);
      nextchar := "";
      match found {
        case Ambiguous =>
          optind := optind + 1;
          e := Event('?' as int, Some(optarg));
        case NotFound =>
          e := Event('W' as int, Some(optarg));
        case One(i) =>
          var pfound := LongsOf(g)[i];
          e := Event(pfound.val, Some(optarg));
          if nameend < |optarg| {
            if pfound.hasArg != 0 { e := e.(arg := Some(optarg[nameend + 1..])); } else { e := e.(code := '?' as int); }
          } else if pfound.hasArg == 1 {
            if optind < argv.Length {
              e := e.(arg := Some(argv[optind]));
              optind := optind + 1;
            } else {
              e := Missing(g.letters).(arg := Some(optarg));
            }
          }
      }
    }

    /** The current element as a long option. */
    method DecodeLong() returns (e: Event)
      requires WordsAllowed(g) && Laid(g, argv[..], firstNonopt, lastNonopt, optind, "", done, whole)
      requires optind < argv.Length
      requires !NonOption(argv[optind]) && argv[optind] != "--" && IsLong(g, argv[optind])
      requires nextchar == argv[optind][2..]
      modifies `optind, `nextchar, `done, `g
      ensures Valid() && done == old(done) + [e]
    {
      hide Laid, LookUp;
      ghost var st := Long(g, nextchar, argv[optind + 1..]);
      LaidLong(g, argv[..], firstNonopt, lastNonopt, optind, done, whole, st);
      var nameend := EndOfName(nextchar);
      var found := FindLong(LongsOf(g), nextchar[..nameend]);
      optind := optind + 1;
      e := Bad;
      if found.One? {
        var pfound := LongsOf(g)[found.i];
        e := Event(pfound.val, None);
        if nameend < |nextchar| {
          if pfound.hasArg != 0 { e := e.(arg := Some(nextchar[nameend + 1..])); } else { e := Bad; }
        } else if pfound.hasArg == 1 {
          if optind < argv.Length {
            e := e.(arg := Some(argv[optind]));
            optind := optind + 1;
          } else {
            e := Missing(g.letters);
          }
        }
      }
      nextchar := "";
      done := done + [e];
      g := Later(g);
    }

    /** `exchange`. */
    method Exchange()
      requires firstNonopt <= lastNonopt <= optind <= argv.Length
      modifies `firstNonopt, `lastNonopt, argv
      ensures argv[..] == Rotated(old(argv[..]), old(firstNonopt), old(lastNonopt), optind)
      ensures firstNonopt == old(firstNonopt) + (optind - old(lastNonopt)) && lastNonopt == optind
    {
      Rotate(argv, firstNonopt, lastNonopt, optind);
      firstNonopt := firstNonopt + (optind - lastNonopt);
      lastNonopt := optind;
    }
  }

  datatype Stop = End | Pass(event: Event) | AtOption

  lemma RotatedKeeps(s: seq<string>, first: nat, last: nat, end: nat)
    requires 1 <= first <= last <= end <= |s|
    ensures Rotated(s, first, last, end)[0] == s[0]
  {
  }

  lemma LaidPass(g: Grammar, s: seq<string>, first: nat, last: nat, end: nat, done: seq<Event>, whole: Parse)
    requires Laid(g, s, first, last, end, "", done, whole) && g.ordering == ReturnInOrder
    requires end < |s| && NonOption(s[end])
    ensures Laid(Later(g), s, first, last, end + 1, "", done + [Event(1, Some(s[end]))], whole)
  {
    assert s[end..][..1] == [s[end]];
    LaidStep(g, s, first, last, end, "", done, whole, Step(Event(1, Some(s[end])), 1, ""));
  }

  lemma LaidOpen(g: Grammar, s: seq<string>, first: nat, last: nat, end: nat, done: seq<Event>, whole: Parse)
    requires Laid(g, s, first, last, end, "", done, whole) && end < |s|
    requires !NonOption(s[end]) && s[end] != "--" && !IsLong(g, s[end])
    ensures Laid(g, s, first, last, end, s[end][1..], done, whole)
  {
    hide ParseShort;
  }

  /** An argument is missing only at the very end. */
  lemma StarvesAtEnd(g: Grammar, next: string, more: seq<string>)
    ensures LongStarves(g, next, more) ==> Long(g, next, more).used == 1 + |more|
    ensures next != "" && ShortStarves(g, next, more) ==>
      Short(g, next, more).used == 1 + |more| && Short(g, next, more).next == ""
  {
    assert next[..|next|] == next;
    if next != "" {
      assert next[1..][..|next| - 1] == next[1..];
      if more != [] { assert more[0][..|more[0]|] == more[0]; }
    }
  }

  lemma LaidShort(g: Grammar, s: seq<string>, first: nat, last: nat, end: nat, next: string, done: seq<Event>,
                  whole: Parse, st: Step)
    requires Laid(g, s, first, last, end, next, done, whole) && end < |s| && next != ""
    requires st == Short(g, next, s[end + 1..])
    ensures end + st.used <= |s| && Laid(Later(g), s, first, last, end + st.used, st.next, done + [st.event], whole)
  {
    StarvesAtEnd(g, next, s[end + 1..]);
    hide Short, ShortStarves;
    assert s[end..][1..] == s[end + 1..];
    LaidStep(g, s, first, last, end, next, done, whole, st);
  }

  lemma LaidLong(g: Grammar, s: seq<string>, first: nat, last: nat, end: nat, done: seq<Event>, whole: Parse, st: Step)
    requires Laid(g, s, first, last, end, "", done, whole) && end < |s|
    requires !NonOption(s[end]) && s[end] != "--" && IsLong(g, s[end]) && st == Long(g, s[end][2..], s[end + 1..])
    ensures Laid(Later(g), s, first, last, end + st.used, "", done + [st.event], whole)
  {
    StarvesAtEnd(g, s[end][2..], s[end + 1..]);
    hide Long, LongStarves;
    assert s[end..][1..] == s[end + 1..];
    LaidStep(g, s, first, last, end, "", done, whole, st);
  }

  lemma KeyUnique(next: string, k: nat)
    requires k <= |next| && '=' !in next[..k] && (k < |next| ==> next[k] == '=')
    ensures k == KeyOf(next)
  {
    NotBefore(next, k);
    NotBefore(next, KeyOf(next));
  }

  lemma NotBefore(s: string, k: nat)
    requires k <= |s| && '=' !in s[..k]
    ensures forall i :: 0 <= i < k ==> s[i] != '='
  {
    assert forall i :: 0 <= i < k ==> s[i] == s[..k][i];
  }

  method EndOfName(next: string) returns (nameend: nat)
    ensures nameend == KeyOf(next)
  {
    nameend := 0;
    while nameend < |next| && next[nameend] != '='
      invariant nameend <= |next| && '=' !in next[..nameend]
    {
      nameend := nameend + 1;
    }
    KeyUnique(next, nameend);
  }

  /** The loop over the long options. */
  method FindLong(longs: seq<LongOpt>, key: string) returns (r: Found)
    ensures r == LookUp(longs, key)
    ensures forall i: nat :: r == One(i) <==> Denotes(longs, key, i)
    ensures r == NotFound <==> forall j :: 0 <= j < |longs| ==> !(key <= longs[j].name)
  {
    hide Denotes, LookUp, Exact, Prefixed;
    var pfound: Option<nat>, exact, ambig := None, false, false;
    var p := 0;
    LookedNone(longs, key);
    while p < |longs| && !exact
      invariant 0 <= p <= |longs|
      invariant Looked(longs, key, p, pfound, exact, ambig)
    {
      ghost var was := (pfound, ambig);
      if key <= longs[p].name {
        if |key| == |longs[p].name| {
          pfound, exact := Some(p), true;
        } else if pfound == None {
          pfound := Some(p);
        } else {
          ambig := true;
        }
      }
      LookedOn(longs, key, p, was.0, was.1, pfound, exact, ambig);
      p := p + 1;
    }
    LookedUp(longs, key, p, pfound, exact, ambig);
    r := if ambig && !exact then Ambiguous else if pfound.Some? then One(pfound.value) else NotFound;
    LookUpExact(longs, key);
  }

  /** After the first `p` names: the exact one has been found, or all that is known of the
      abbreviated ones. */
  ghost predicate Looked(longs: seq<LongOpt>, key: string, p: nat, pfound: Option<nat>, exact: bool, ambig: bool)
    requires p <= |longs|
  {
    && (pfound.Some? ==> pfound.value < |longs|)
    && if exact then pfound == Exact(longs, key) && pfound.Some?
       else
         var m := Prefixed(longs[..p], key);
         && Exact(longs[..p], key) == None && (ambig <==> |m| > 1)
         && pfound == if m == [] then None else Some(m[0])
  }

  lemma LookedNone(longs: seq<LongOpt>, key: string)
    ensures Looked(longs, key, 0, None, false, false)
  {
    assert longs[..0] == [];
  }

  lemma LookedOn(longs: seq<LongOpt>, key: string, p: nat, was: Option<nat>, several: bool, pfound: Option<nat>,
                 exact: bool, ambig: bool)
    requires p < |longs| && Looked(longs, key, p, was, false, several)
    requires exact <==> longs[p].name == key
    requires pfound == if exact || (key <= longs[p].name && was == None) then Some(p) else was
    requires ambig == (several || (key <= longs[p].name && !exact && was.Some?))
    ensures Looked(longs, key, p + 1, pfound, exact, ambig)
  {
    assert longs[..p + 1][..p] == longs[..p];
    if exact { ExactFirst(longs, key, p); }
  }

  lemma LookedUp(longs: seq<LongOpt>, key: string, p: nat, pfound: Option<nat>, exact: bool, ambig: bool)
    requires p <= |longs| && (exact || p == |longs|) && Looked(longs, key, p, pfound, exact, ambig)
    ensures LookUp(longs, key) ==
      if ambig && !exact then Ambiguous else if pfound.Some? then One(pfound.value) else NotFound
    ensures pfound.Some? ==> pfound.value < |longs|
  {
    if !exact { assert longs[..p] == longs; }
  }

  lemma ExactFirst(longs: seq<LongOpt>, key: string, p: nat)
    requires p < |longs| && Exact(longs[..p], key) == None && longs[p].name == key
    ensures Exact(longs, key) == Some(p)
  {
    assert forall j :: 0 <= j < p ==> longs[..p][j].name == longs[j].name;
  }

  lemma LaidMeans(g: Grammar, s: seq<string>, first: nat, last: nat, end: nat, next: string, done: seq<Event>,
                  whole: Parse)
    requires Laid(g, s, first, last, end, next, done, whole)
    ensures 1 <= first <= last <= end <= |s| && (g.ordering != Permute ==> first == last == 1)
    ensures g.ordering == Permute && last == end && next == "" ==> Laid(g, s, first, end, end, "", done, whole)
    ensures next != "" ==> end < |s| && !NonOption(s[end]) && !IsLong(g, s[end])
  {
  }

  function GrammarOf(optstring: string, longs: Option<seq<LongOpt>>, posixly: bool): Grammar {
    if optstring != "" && optstring[0] == '-' then Grammar(ReturnInOrder, optstring[1..], optstring, longs)
    else if optstring != "" && optstring[0] == '+' then Grammar(RequireOrder, optstring[1..], optstring, longs)
    else Grammar(if posixly then RequireOrder else Permute, optstring, optstring, longs)
  }

  /** At the first plain argument: a `-` in front of the letters makes it an answer, a `+`
      or POSIXLY_CORRECT the end, and otherwise it is left for later. */
  lemma OrderingMeans(optstring: string, longs: Option<seq<LongOpt>>, posixly: bool, x: string, a: seq<string>)
    requires x == "" || x == "-" || x[0] != '-'
    ensures var g := GrammarOf(optstring, longs, posixly);
      ParseArgs(g, [x] + a) ==
        if optstring != "" && optstring[0] == '-' then
          var p := ParseArgs(Later(g), a);
          Parse([Event(1, Some(x))] + p.events, [x] + p.opts, p.rest)
        else if (optstring != "" && optstring[0] == '+') || posixly then Parse([], [], [x] + a)
        else
          var p := ParseArgs(g, a);
          Parse(p.events, p.opts, [x] + p.rest)
  {
    assert ([x] + a)[1..] == a;
  }

  /** The loop of a program that reads its command line. */
  method ReadOptions(argv: array<string>, optstring: string, longs: Option<seq<LongOpt>>, posixly: bool)
    returns (events: seq<Event>, optind: nat)
    requires argv.Length > 0 && WordsAllowed(GrammarOf(optstring, longs, posixly))
    requires EndingOf(GrammarOf(optstring, longs, posixly), argv[1..]) != Overstepped
    modifies argv
    ensures var p := ParseArgs(GrammarOf(optstring, longs, posixly), old(argv[1..]));
      events == p.events && optind == 1 + |p.opts| && argv[..] == [old(argv[0])] + p.opts + p.rest
  {
    var scanner := new Scanner(argv, optstring, longs, posixly);
    events := [];
    var r := scanner.Next();
    while r.Some?
      invariant fresh(scanner) && scanner.argv == argv && argv[0] == old(argv[0])
      invariant scanner.whole == ParseArgs(GrammarOf(optstring, longs, posixly), old(argv[1..]))
      invariant if r.Some? then scanner.Valid() && scanner.done == events + [r.value]
        else Sorted(argv[..], scanner.optind, scanner.done, scanner.whole) && scanner.done == events
      decreases |scanner.whole.events| - |events|, if r.Some? then 1 else 0
    {
      events := events + [r.value];
      assert |events| <= |scanner.whole.events|;
      r := scanner.Next();
    }
    optind := scanner.optind;
  }

  // --------------------------------------------------------- what the parser means

  /** `a` is made of the elements of `b` and of `c`, both in their order. */
  ghost predicate Interleaved(a: seq<string>, b: seq<string>, c: seq<string>) {
    if a == [] then b == [] && c == []
    else
      || (b != [] && b[0] == a[0] && Interleaved(a[1..], b[1..], c))
      || (c != [] && c[0] == a[0] && Interleaved(a[1..], b, c[1..]))
  }

  lemma InterleavedLeft(taken: seq<string>, a: seq<string>, b: seq<string>, c: seq<string>)
    requires Interleaved(a, b, c)
    ensures Interleaved(taken + a, taken + b, c)
  {
    if taken == [] {
      assert taken + a == a && taken + b == b;
    } else {
      InterleavedLeft(taken[1..], a, b, c);
      assert (taken + a)[1..] == taken[1..] + a && (taken + b)[1..] == taken[1..] + b;
    }
  }

  lemma InterleavedRight(a: seq<string>)
    ensures Interleaved(a, [], a)
  {
  }

  lemma InterleavedAll(a: seq<string>)
    ensures Interleaved(a, a, [])
  {
  }

  /** No element gets lost or changes its place among its own kind. */
  lemma {:induction false} ParseKeeps(g: Grammar, a: seq<string>)
    ensures var p := ParseArgs(g, a); Interleaved(a, p.opts, p.rest)
    decreases |a|, 1, 0
  {
    if a == [] {
    } else if a[0] == "--" {
      InterleavedRight(a[1..]);
    } else if NonOption(a[0]) {
      match g.ordering
      case RequireOrder => InterleavedRight(a);
      case ReturnInOrder => ParseKeeps(Later(g), a[1..]);
      case Permute => ParseKeeps(g, a[1..]);
    } else if IsLong(g, a[0]) {
      var st := Long(g, a[0][2..], a[1..]);
      ParseKeeps(Later(g), a[st.used..]);
      var p := ParseArgs(Later(g), a[st.used..]);
      InterleavedLeft(a[..st.used], a[st.used..], p.opts, p.rest);
      assert a[..st.used] + a[st.used..] == a;
    } else {
      ShortKeeps(g, a, a[0][1..]);
    }
  }

  lemma {:induction false} ShortKeeps(g: Grammar, a: seq<string>, next: string)
    requires a != [] && next != ""
    ensures var p := ParseShort(g, a, next); Interleaved(a, p.opts, p.rest)
    decreases |a|, 0, |next|
  {
    var st := Short(g, next, a[1..]);
    if st.used > |a| {
      InterleavedAll(a);
    } else if st.next != "" {
      ShortKeeps(Later(g), a, st.next);
      assert a[..0] == [];
      var p := ParseShort(Later(g), a, st.next);
      assert [] + p.opts == p.opts;
    } else {
      ParseKeeps(Later(g), a[st.used..]);
      var p := ParseArgs(Later(g), a[st.used..]);
      InterleavedLeft(a[..st.used], a[st.used..], p.opts, p.rest);
      assert a[..st.used] + a[st.used..] == a;
    }
  }

  /** The words of a command line: a plain argument; letters without arguments or unknown;
      such letters and one that may have an argument, in its own element or not; a long
      option by its name or an abbreviation, a value in its own element or not; a name that
      denotes none; and the same two after `-W`, in its element or not. */
  datatype Word =
    | Argument(x: string)
    | Flags(cs: string)
    | Lettered(flags: string, c: char, arg: Option<string>, apart: bool)
    | Named(i: nat, key: string, value: Option<string>, apart: bool)
    | Misnamed(key: string, value: Option<string>)
    | ByW(i: nat, key: string, value: Option<string>, joined: bool, apart: bool)
    | OtherW(key: string, value: Option<string>, joined: bool)

  predicate Flaggy(g: Grammar, cs: string) {
    forall c :: c in cs ==> KindOf(g.letters, c) in {Plain, Unknown}
  }

  /** A long option may be given without its value, with one behind it or with one in its
      element; one that takes none is refused. */
  predicate ValueFits(o: LongOpt, value: Option<string>, apart: bool) {
    if value == None then o.hasArg != 1 && !apart else apart ==> o.hasArg == 1
  }

  /** The name with a value in the same element. */
  function NameText(key: string, value: Option<string>): string {
    match value case None => key case Some(v) => key + "=" + v
  }

  function WordText(key: string, value: Option<string>, apart: bool): string {
    NameText(key, if apart then None else value)
  }

  /** The word can be written for the grammar. */
  ghost predicate Fits(g: Grammar, w: Word) {
    match w
    case Argument(x) => NonOption(x)
    case Flags(cs) => cs != "" && cs[0] != '-' && Flaggy(g, cs)
    case Lettered(flags, c, arg, apart) =>
      && (flags + [c])[0] != '-' && Flaggy(g, flags)
      && (match arg
          case None => KindOf(g.letters, c) == May && !apart
          case Some(a) =>
            if apart then KindOf(g.letters, c) == Needs else a != "" && KindOf(g.letters, c) in {Needs, May})
    case Named(i, key, value, apart) =>
      && g.longs.Some? && '=' !in key && Denotes(LongsOf(g), key, i)
      && WordText(key, value, apart) != "" && ValueFits(LongsOf(g)[i], value, apart)
    case Misnamed(key, value) =>
      g.longs.Some? && '=' !in key && NameText(key, value) != "" && forall i :: !Denotes(LongsOf(g), key, i)
    case ByW(i, key, value, joined, apart) =>
      && KindOf(g.letters, 'W') == Worded && '=' !in key && Denotes(LongsOf(g), key, i)
      && (joined ==> WordText(key, value, apart) != "") && ValueFits(LongsOf(g)[i], value, apart)
    case OtherW(key, value, joined) =>
      && KindOf(g.letters, 'W') == Worded && '=' !in key && (joined ==> NameText(key, value) != "")
      && forall i :: 0 <= i < |LongsOf(g)| ==> !(key <= LongsOf(g)[i].name)
  }

  function InW(text: string, joined: bool): seq<string> {
    if joined then ["-W" + text] else ["-W", text]
  }

  function ValueApart(value: Option<string>, apart: bool): seq<string> {
    if apart && value.Some? then [value.value] else []
  }

  function Elements(w: Word): seq<string> {
    match w
    case Argument(x) => [x]
    case Flags(cs) => ["-" + cs]
    case Lettered(flags, c, arg, apart) => ["-" + flags + LetterText(c, arg, apart)] + ValueApart(arg, apart)
    case Named(_, key, value, apart) => ["--" + WordText(key, value, apart)] + ValueApart(value, apart)
    case Misnamed(key, value) => ["--" + NameText(key, value)]
    case ByW(_, key, value, joined, apart) => InW(WordText(key, value, apart), joined) + ValueApart(value, apart)
    case OtherW(key, value, joined) => InW(NameText(key, value), joined)
  }

  function LetterText(c: char, arg: Option<string>, apart: bool): string {
    [c] + if arg.Some? && !apart then arg.value else ""
  }

  function FlagEvent(g: Grammar, c: char): Event {
    if KindOf(g.letters, c) == Unknown then Bad else Event(c as int, None)
  }

  function FlagEvents(g: Grammar, cs: string): seq<Event> {
    if cs == "" then [] else [FlagEvent(g, cs[0])] + FlagEvents(g, cs[1..])
  }

  ghost function Events(g: Grammar, w: Word): seq<Event>
    requires Fits(g, w)
  {
    match w
    case Argument(_) => []
    case Flags(cs) => FlagEvents(g, cs)
    case Lettered(flags, c, arg, _) => FlagEvents(g, flags) + [Event(c as int, arg)]
    case Named(i, _, value, apart) => [NameEvent(LongsOf(g)[i], value, apart)]
    case Misnamed(_, _) => [Bad]
    case ByW(i, key, value, _, apart) => [WordEvent(LongsOf(g)[i], WordText(key, value, apart), value, apart)]
    case OtherW(key, value, _) => [Event('W' as int, Some(NameText(key, value)))]
  }

  function NameEvent(o: LongOpt, value: Option<string>, apart: bool): Event {
    if value.Some? && !apart && o.hasArg == 0 then Bad else Event(o.val, value)
  }

  /** After `-W` the text stays as the argument, unless there is a value. */
  function WordEvent(o: LongOpt, text: string, value: Option<string>, apart: bool): Event {
    if value.Some? && !apart && o.hasArg == 0 then Event('?' as int, Some(text))
    else Event(o.val, if value.Some? then value else Some(text))
  }

  function Written(ws: seq<Word>): seq<string> {
    if ws == [] then [] else Elements(ws[0]) + Written(ws[1..])
  }

  ghost function Meaning(g: Grammar, ws: seq<Word>, tail: Parse): Parse
    requires forall w :: w in ws ==> Fits(g, w)
  {
    if ws == [] then tail else Said(g, ws[0], Meaning(g, ws[1..], tail))
  }

  /** What a word and then the rest say. */
  ghost function Said(g: Grammar, w: Word, p: Parse): Parse
    requires Fits(g, w)
  {
    if w.Argument? then Parse(p.events, p.opts, Elements(w) + p.rest)
    else Parse(Events(g, w) + p.events, Elements(w) + p.opts, p.rest)
  }

  /** What is written is read back, in front of any tail. */
  lemma {:induction false} ReadBack(g: Grammar, ws: seq<Word>, tail: seq<string>)
    requires g.ordering == Permute && Later(g) == g && forall w :: w in ws ==> Fits(g, w)
    ensures ParseArgs(g, Written(ws) + tail) == Meaning(g, ws, ParseArgs(g, tail))
  {
    hide ParseArgs, Fits, Elements, Said;
    if ws == [] {
      assert [] + tail == tail;
    } else {
      var more := Written(ws[1..]) + tail;
      ReadBack(g, ws[1..], tail);
      assert Written(ws) + tail == Elements(ws[0]) + more;
      OneWord(g, ws[0], more);
    }
  }

  /** The plain arguments among the words. */
  function ArgumentsOf(ws: seq<Word>): seq<string> {
    if ws == [] then [] else (if ws[0].Argument? then [ws[0].x] else []) + ArgumentsOf(ws[1..])
  }

  ghost function EventsOf(g: Grammar, ws: seq<Word>): seq<Event>
    requires forall w :: w in ws ==> Fits(g, w)
  {
    if ws == [] then [] else Events(g, ws[0]) + EventsOf(g, ws[1..])
  }

  /** A whole command line: what its words say, in their order, and the plain arguments, with
      whatever stands behind `--`. */
  lemma {:induction false} ReadWhole(g: Grammar, ws: seq<Word>, behind: seq<string>)
    requires g.ordering == Permute && Later(g) == g && forall w :: w in ws ==> Fits(g, w)
    ensures var p := ParseArgs(g, Written(ws) + ["--"] + behind);
      p.events == EventsOf(g, ws) && p.rest == ArgumentsOf(ws) + behind
    ensures var p := ParseArgs(g, Written(ws)); p.events == EventsOf(g, ws) && p.rest == ArgumentsOf(ws)
  {
    hide Fits, Events, Elements;
    assert Written(ws) + ["--"] + behind == Written(ws) + (["--"] + behind) && Written(ws) + [] == Written(ws);
    ReadBack(g, ws, ["--"] + behind);
    ReadBack(g, ws, []);
    assert (["--"] + behind)[1..] == behind;
    Summed(g, ws, Parse([], ["--"], behind));
    Summed(g, ws, Parse([], [], []));
  }

  lemma SaidSums(g: Grammar, w: Word, p: Parse)
    requires Fits(g, w)
    ensures Said(g, w, p).events == Events(g, w) + p.events
    ensures Said(g, w, p).rest == (if w.Argument? then [w.x] else []) + p.rest
  {
    hide Fits;
  }

  lemma {:induction false} Summed(g: Grammar, ws: seq<Word>, tail: Parse)
    requires (forall w :: w in ws ==> Fits(g, w)) && tail.events == []
    ensures var p := Meaning(g, ws, tail); p.events == EventsOf(g, ws) && p.rest == ArgumentsOf(ws) + tail.rest
  {
    hide Fits, Events, Elements, Said;
    if ws != [] {
      var p := Meaning(g, ws[1..], tail);
      Summed(g, ws[1..], tail);
      SaidSums(g, ws[0], p);
      assert Meaning(g, ws, tail) == Said(g, ws[0], p);
    }
  }

  lemma OneWord(g: Grammar, w: Word, more: seq<string>)
    requires g.ordering == Permute && Later(g) == g && Fits(g, w)
    ensures ParseArgs(g, Elements(w) + more) == Said(g, w, ParseArgs(g, more))
  {
    match w
    case Argument(x) => assert ([x] + more)[1..] == more;
    case Flags(cs) => FlagsWord(g, cs, more);
    case Lettered(_, _, _, _) => LetteredWord(g, w, more);
    case Named(_, _, _, _) => NameRead(g, w, more);
    case Misnamed(_, _) => MisnamedRead(g, w, more);
    case ByW(_, _, _, _, _) => WRead(g, w, more);
    case OtherW(_, _, _) => WRead(g, w, more);
  }

  lemma FlagsWord(g: Grammar, cs: string, more: seq<string>)
    requires g.ordering == Permute && Later(g) == g && Fits(g, Flags(cs))
    ensures ParseArgs(g, ["-" + cs] + more) == Said(g, Flags(cs), ParseArgs(g, more))
  {
    LetteredRead(g, cs, "", "-" + cs, more);
    hide ParseArgs, ParseShort;
  }

  lemma LetteredWord(g: Grammar, w: Word, more: seq<string>)
    requires g.ordering == Permute && Later(g) == g && w.Lettered? && Fits(g, w)
    ensures ParseArgs(g, Elements(w) + more) == Said(g, w, ParseArgs(g, more))
  {
    hide ParseArgs, ParseShort, KindOf, Flaggy;
    var end, tail := LetterText(w.c, w.arg, w.apart), ValueApart(w.arg, w.apart);
    var x := "-" + w.flags + end;
    assert [x] + tail + more == [x] + (tail + more);
    assert (w.flags + end)[0] == (w.flags + [w.c])[0];
    LetteredRead(g, w.flags, end, x, tail + more);
    LetterRead(g, w.c, w.arg, w.apart, [x] + (tail + more), more);
  }

  /** An element that begins with letters without arguments. */
  lemma LetteredRead(g: Grammar, flags: string, end: string, x: string, more: seq<string>)
    requires g.ordering == Permute && Later(g) == g && x == "-" + flags + end && flags + end != ""
    requires (flags + end)[0] != '-' && Flaggy(g, flags)
    ensures ParseArgs(g, [x] + more) == Prefix(FlagEvents(g, flags), Ended(g, end, [x] + more))
    ensures ([x] + more)[1..] == more
  {
    hide ParseShort, Flaggy, Long;
    var a := [x] + more;
    assert x[1..] == flags + end && x[1] == (flags + end)[0];
    FlagsRead(g, flags, end, a);
    assert a[1..] == more;
  }

  lemma {:induction false} FlagsRead(g: Grammar, cs: string, end: string, a: seq<string>)
    requires Later(g) == g && a != [] && Flaggy(g, cs) && cs + end != ""
    ensures ParseShort(g, a, cs + end) == Prefix(FlagEvents(g, cs), Ended(g, end, a))
  {
    hide ParseShort, ParseArgs, KindOf, FlagEvent;
    if cs == "" {
      assert cs + end == end;
    } else {
      assert cs[0] in cs && (cs + end)[1..] == cs[1..] + end;
      OneFlag(g, cs + end, a);
      if cs[1..] + end != "" {
        FlagsRead(g, cs[1..], end, a);
      }
    }
  }

  lemma OneFlag(g: Grammar, next: string, a: seq<string>)
    requires Later(g) == g && a != [] && next != "" && KindOf(g.letters, next[0]) in {Plain, Unknown}
    ensures ParseShort(g, a, next) == Prefix([FlagEvent(g, next[0])], Ended(g, next[1..], a))
  {
    hide ParseArgs, KindOf;
    assert [a[0]] == a[..1];
    var st := Short(g, next, a[1..]);
    assert st == Step(FlagEvent(g, next[0]), if next[1..] == "" then 1 else 0, next[1..]);
    if st.next != "" {
      assert a[..0] + ParseShort(g, a, st.next).opts == ParseShort(g, a, st.next).opts;
    }
  }

  function Prefix(es: seq<Event>, p: Parse): Parse {
    Parse(es + p.events, p.opts, p.rest)
  }

  /** What an element and the rest say from `end` on. */
  function Ended(g: Grammar, end: string, a: seq<string>): Parse
    requires a != []
  {
    if end == "" then After0([a[0]], ParseArgs(g, a[1..])) else ParseShort(g, a, end)
  }

  function After0(taken: seq<string>, p: Parse): Parse {
    Parse(p.events, taken + p.opts, p.rest)
  }

  lemma LetterRead(g: Grammar, c: char, arg: Option<string>, apart: bool, a: seq<string>, more: seq<string>)
    requires Later(g) == g && a != [] && a[1..] == ValueApart(arg, apart) + more
    requires match arg
      case None => KindOf(g.letters, c) == May && !apart
      case Some(v) => if apart then KindOf(g.letters, c) == Needs else v != "" && KindOf(g.letters, c) in {Needs, May}
    ensures var p := ParseArgs(g, more);
      ParseShort(g, a, LetterText(c, arg, apart)) ==
        Parse([Event(c as int, arg)] + p.events, [a[0]] + ValueApart(arg, apart) + p.opts, p.rest)
  {
    hide KindOf, ParseArgs;
    var next := LetterText(c, arg, apart);
    assert next[1..] == if arg.Some? && !apart then arg.value else "";
    var st := Short(g, next, a[1..]);
    assert st == Step(Event(c as int, arg), if apart then 2 else 1, "");
    assert a == [a[0]] + a[1..];
    assert a[st.used..] == more && a[..st.used] == [a[0]] + ValueApart(arg, apart);
  }

  /** The key of a name with or without a value. */
  lemma KeyRead(key: string, value: Option<string>)
    requires '=' !in key
    ensures var text := NameText(key, value);
      && KeyOf(text) == |key| && text[..|key|] == key
      && if value.Some? then |key| < |text| && text[|key| + 1..] == value.value else |key| == |text|
  {
    KeyUnique(NameText(key, value), |key|);
  }

  lemma NameRead(g: Grammar, w: Word, more: seq<string>)
    requires Later(g) == g && w.Named? && Fits(g, w)
    ensures ParseArgs(g, Elements(w) + more) == Said(g, w, ParseArgs(g, more))
  {
    hide LookUp, Denotes, NameText;
    var text, a := WordText(w.key, w.value, w.apart), Elements(w) + more;
    LookUpExact(LongsOf(g), w.key);
    KeyRead(w.key, if w.apart then None else w.value);
    assert a[0][2..] == text && a[1..] == ValueApart(w.value, w.apart) + more;
    var st := Long(g, text, a[1..]);
    assert st == Step(NameEvent(LongsOf(g)[w.i], w.value, w.apart), |Elements(w)|, "");
    LongRead(g, a, w, more);
  }

  lemma MisnamedRead(g: Grammar, w: Word, more: seq<string>)
    requires Later(g) == g && w.Misnamed? && Fits(g, w)
    ensures ParseArgs(g, Elements(w) + more) == Said(g, w, ParseArgs(g, more))
  {
    hide LookUp, Denotes, NameText;
    var text, a := NameText(w.key, w.value), Elements(w) + more;
    LookUpExact(LongsOf(g), w.key);
    KeyRead(w.key, w.value);
    assert a[0][2..] == text && a[1..] == more;
    var st := Long(g, text, a[1..]);
    assert st == Step(Bad, 1, "");
    LongRead(g, a, w, more);
  }

  /** An element that is read as a long option. */
  lemma LongRead(g: Grammar, a: seq<string>, w: Word, more: seq<string>)
    requires Later(g) == g && (w.Named? || w.Misnamed?) && Fits(g, w) && a == Elements(w) + more
    requires Events(g, w) == [Long(g, a[0][2..], a[1..]).event] && Long(g, a[0][2..], a[1..]).used == |Elements(w)|
    requires |a[0]| > 2 && a[0][0] == '-' && a[0][1] == '-'
    ensures ParseArgs(g, a) == Said(g, w, ParseArgs(g, more))
  {
    hide Long, Denotes, ParseShort, Events, KindOf;
    assert IsLong(g, a[0]) && !NonOption(a[0]) && a[0] != "--";
    var used := |Elements(w)|;
    assert a[used..] == more && a[..used] == Elements(w);
  }

  /** A `-W` with its name. */
  lemma WRead(g: Grammar, w: Word, more: seq<string>)
    requires Later(g) == g && (w.ByW? || w.OtherW?) && Fits(g, w)
    ensures ParseArgs(g, Elements(w) + more) == Said(g, w, ParseArgs(g, more))
  {
    hide KindOf, Long, Denotes, LookUp, NameText, WordOption;
    var text := if w.ByW? then WordText(w.key, w.value, w.apart) else NameText(w.key, w.value);
    var rest := (if w.ByW? then ValueApart(w.value, w.apart) else []) + more;
    var a := Elements(w) + more;
    var tail, behind := if w.joined then text else "", if w.joined then rest else [text] + rest;
    assert a[0][1..] == "W" + tail && a[0][1..][1..] == tail && a[1..] == behind;
    WordRead(g, w, text, rest, more, tail, behind);
    assert Short(g, a[0][1..], a[1..]) == WordOption(g, tail, behind);
    WElement(g, a);
    hide Fits, Events, Elements, Short;
    ShortWhole(g, a, w, more);
  }

  /** An element of letters that ends with its word. */
  lemma ShortWhole(g: Grammar, a: seq<string>, w: Word, more: seq<string>)
    requires Later(g) == g && !w.Argument? && Fits(g, w) && a == Elements(w) + more && a != [] && |a[0]| > 1
    requires ParseArgs(g, a) == ParseShort(g, a, a[0][1..])
    requires var st := Short(g, a[0][1..], a[1..]);
      [st.event] == Events(g, w) && st.used == |Elements(w)| && st.next == ""
    ensures ParseArgs(g, a) == Said(g, w, ParseArgs(g, more))
  {
    hide ParseArgs, Short, Fits, Events, Elements;
    var used := |Elements(w)|;
    assert a[used..] == more && a[..used] == Elements(w);
  }

  lemma WElement(g: Grammar, a: seq<string>)
    requires a != [] && |a[0]| > 1 && a[0][0] == '-' && a[0][1] == 'W'
    ensures ParseArgs(g, a) == ParseShort(g, a, a[0][1..])
  {
    hide ParseShort;
  }

  lemma WordRead(g: Grammar, w: Word, text: string, rest: seq<string>, more: seq<string>, tail: string,
                 behind: seq<string>)
    requires (w.ByW? || w.OtherW?) && Fits(g, w)
    requires text == if w.ByW? then WordText(w.key, w.value, w.apart) else NameText(w.key, w.value)
    requires rest == (if w.ByW? then ValueApart(w.value, w.apart) else []) + more
    requires tail == (if w.joined then text else "") && behind == if w.joined then rest else [text] + rest
    ensures var st := WordOption(g, tail, behind);
      [st.event] == Events(g, w) && st.used == |Elements(w)| && st.next == ""
  {
    hide KindOf, Denotes, LookUp, NameText, KeyOf, WordOption;
    LookUpExact(LongsOf(g), w.key);
    KeyRead(w.key, if w.ByW? && w.apart then None else w.value);
    NamedWord(g, w.joined, text, rest, tail, behind);
  }

  /** A name in the element of its `-W` or behind it. */
  lemma NamedWord(g: Grammar, joined: bool, text: string, rest: seq<string>, tail: string, behind: seq<string>)
    requires tail == (if joined then text else "") && (joined ==> text != "")
    requires behind == if joined then rest else [text] + rest
    ensures var used, k, st := if joined then 1 else 2, KeyOf(text), WordOption(g, tail, behind);
      && st.next == ""
      && match LookUp(LongsOf(g), text[..k])
         case NotFound => st.used == used && st.event == Event('W' as int, Some(text))
         case Ambiguous => true
         case One(i) =>
           var o := LongsOf(g)[i];
           if k < |text| then
             st.used == used &&
             st.event == if o.hasArg != 0 then Event(o.val, Some(text[k + 1..])) else Event('?' as int, Some(text))
           else if o.hasArg != 1 then st.used == used && st.event == Event(o.val, Some(text))
           else rest != [] ==> st.used == used + 1 && st.event == Event(o.val, Some(rest[0]))
  {
    hide LookUp, KeyOf;
    if !joined { assert behind[0] == text && behind[1..] == rest; }
  }

  // ------------------------------------------------------------- scanning twice

  predicate AllArguments(r: seq<string>) {
    forall x :: x in r ==> NonOption(x)
  }

  lemma {:induction false} ReadArguments(g: Grammar, r: seq<string>)
    requires g.ordering == Permute && AllArguments(r)
    ensures ParseArgs(g, r) == Parse([], [], r)
  {
    if r != [] {
      assert r[0] in r;
      ReadArguments(g, r[1..]);
    }
  }

  lemma ShortAgain(g: Grammar, next: string, more: seq<string>, more': seq<string>)
    requires next != "" && !ShortStarves(g, next, more)
    requires SameStart(Short(g, next, more).used, more, more')
    ensures Short(g, next, more') == Short(g, next, more)
  {
    hide WordOption, LongStarves;
    if KindOf(g.letters, next[0]) == Worded { WordAgain(g, next[1..], more, more'); }
    else if Short(g, next, more).used == 2 { assert more[0] == more[..1][0] && more'[0] == more'[..1][0]; }
  }

  /** `more'` begins with what is used of `more`. */
  ghost predicate SameStart(used: nat, more: seq<string>, more': seq<string>) {
    used > 0 ==> used <= 1 + |more| && used <= 1 + |more'| && more[..used - 1] == more'[..used - 1]
  }

  lemma WordAgain(g: Grammar, tail: string, more: seq<string>, more': seq<string>)
    requires SameStart(WordOption(g, tail, more).used, more, more')
    requires if tail != "" then !LongStarves(g, tail, more) else more != [] && !LongStarves(g, more[0], more[1..])
    ensures WordOption(g, tail, more') == WordOption(g, tail, more)
  {
    hide LookUp;
    var used := WordOption(g, tail, more).used;
    var name := if tail != "" then tail else more[0];
    assert name[..|name|] == name;
    if used > 1 { assert more[0] == more[..used - 1][0] && more'[0] == more'[..used - 1][0]; }
    if used > 2 { assert more[1] == more[..used - 1][1] && more'[1] == more'[..used - 1][1]; }
  }

  lemma LongAgain(g: Grammar, next: string, more: seq<string>, more': seq<string>)
    requires !LongStarves(g, next, more)
    requires Long(g, next, more).used == 2 ==> more' != [] && more'[0] == more[0]
    ensures Long(g, next, more') == Long(g, next, more)
  {
    if KeyOf(next) == |next| { assert next[..|next|] == next; }
  }

  /** With more elements the option that lacked its argument takes at least one of them. */
  lemma Fed(g: Grammar, next: string, more: seq<string>, r: seq<string>)
    requires r != []
    ensures LongStarves(g, next, more) ==> more == [] && Long(g, next, r).used == 2
    ensures next != "" && ShortStarves(g, next, more) ==>
      Short(g, next, more + r).used > 1 + |more| && Short(g, next, more + r).next == ""
  {
    hide WordOption;
    assert next[..|next|] == next;
    if next != "" && ShortStarves(g, next, more) && KindOf(g.letters, next[0]) == Worded {
      WordFed(g, next[1..], more, r);
    }
  }

  lemma WordFed(g: Grammar, tail: string, more: seq<string>, r: seq<string>)
    requires r != []
    requires if tail != "" then LongStarves(g, tail, more) else more == [] || LongStarves(g, more[0], more[1..])
    ensures WordOption(g, tail, more + r).used > 1 + |more| && WordOption(g, tail, more + r).next == ""
  {
    hide LookUp;
    var name := if tail != "" then tail else (more + r)[0];
    assert name[..|name|] == name;
    if tail == "" && more != [] { assert more == [more[0]] && (more + r)[1..] == r; }
    if tail != "" { assert more + r == r; }
  }

  /** Given its options again in front of `r`, the parser says the same, or takes some of
      `r` for the option at the end. */
  ghost predicate Again(again: Parse, p: Parse, r: seq<string>, ending: Ending) {
    if ending == Starved && r != [] then |again.rest| < |r| else again == Parse(p.events, p.opts, r)
  }

  lemma AgainAfter(e: Event, taken: seq<string>, again: Parse, p: Parse, r: seq<string>, ending: Ending)
    requires Again(again, p, r, ending)
    ensures Again(After(e, taken, again), After(e, taken, p), r, ending)
  {
  }

  lemma {:induction false} ReadAgain(g: Grammar, a: seq<string>, r: seq<string>)
    requires g.ordering == Permute && EndingOf(g, a) != Overstepped && (AllArguments(r) || EndingOf(g, a) == AtDashes)
    ensures Again(ParseArgs(g, ParseArgs(g, a).opts + r), ParseArgs(g, a), r, EndingOf(g, a))
    decreases |a|, 1, 0
  {
    hide Short, Long, ParseShort, ShortEnding, LongStarves;
    var p := ParseArgs(g, a);
    var b := p.opts + r;
    if a == [] {
      assert b == r;
      ReadArguments(g, r);
    } else if a[0] == "--" {
      assert b[1..] == r;
    } else if NonOption(a[0]) {
      ReadAgain(g, a[1..], r);
    } else if IsLong(g, a[0]) {
      LongReadAgain(g, a, r);
    } else {
      ShortReadAgain(g, a, a[0][1..], r);
      ShortTakes(g, a, a[0][1..]);
      assert b[0] == a[0];
    }
  }

  lemma {:induction false} LongReadAgain(g: Grammar, a: seq<string>, r: seq<string>)
    requires g.ordering == Permute && EndingOf(g, a) != Overstepped && (AllArguments(r) || EndingOf(g, a) == AtDashes)
    requires a != [] && a[0] != "--" && !NonOption(a[0]) && IsLong(g, a[0])
    ensures Again(ParseArgs(g, ParseArgs(g, a).opts + r), ParseArgs(g, a), r, EndingOf(g, a))
    decreases |a|, 0, 0
  {
    var st := Long(g, a[0][2..], a[1..]);
    var p' := ParseArgs(Later(g), a[st.used..]);
    var b := ParseArgs(g, a).opts + r;
    assert b == a[..st.used] + (p'.opts + r);
    StarvesAtEnd(g, a[0][2..], a[1..]);
    if LongStarves(g, a[0][2..], a[1..]) {
      assert a == [a[0]] && b[1..] == r;
      if r != [] {
        Fed(g, a[0][2..], [], r);
        ReadArguments(Later(g), r[1..]);
        assert b[2..] == r[1..];
      } else {
        assert b == a;
      }
    } else {
      assert st.used == 2 ==> b[1] == a[1] && b[1..][0] == b[1];
      LongAgain(g, a[0][2..], a[1..], b[1..]);
      hide Long, LongStarves;
      ReadAgain(Later(g), a[st.used..], r);
      assert b[st.used..] == p'.opts + r && b[..st.used] == a[..st.used];
      AgainAfter(st.event, a[..st.used], ParseArgs(Later(g), p'.opts + r), p', r, EndingOf(g, a));
    }
  }

  lemma {:induction false} ShortTakes(g: Grammar, a: seq<string>, next: string)
    requires a != [] && next != ""
    ensures var p := ParseShort(g, a, next); p.opts != [] && p.opts[0] == a[0]
    decreases |next|
  {
    hide Short;
    var st := Short(g, next, a[1..]);
    if st.next != "" { ShortTakes(Later(g), a, st.next); }
  }

  lemma LastShort(g: Grammar, a: seq<string>, next: string, r: seq<string>)
    requires g.ordering == Permute && AllArguments(r) && a != [] && next != "" && ShortStarves(g, next, a[1..])
    ensures ParseShort(g, a, next).opts == a && Again(ParseShort(g, a + r, next), ParseShort(g, a, next), r, Starved)
  {
    StarvesAtEnd(g, next, a[1..]);
    hide Short, ShortStarves;
    assert a[|a|..] == [] && a[..|a|] == a;
    if r == [] { assert a + r == a; } else { FedShort(g, a, next, r); }
  }

  lemma FedShort(g: Grammar, a: seq<string>, next: string, r: seq<string>)
    requires g.ordering == Permute && AllArguments(r) && a != [] && r != [] && next != ""
    requires ShortStarves(g, next, a[1..])
    ensures |ParseShort(g, a + r, next).rest| < |r|
  {
    hide Short, ShortStarves, ParseArgs, KindOf;
    assert (a + r)[1..] == a[1..] + r;
    Fed(g, next, a[1..], r);
    var used := Short(g, next, a[1..] + r).used;
    if used <= |a + r| {
      assert (a + r)[used..] == r[used - |a|..];
      ReadArguments(Later(g), r[used - |a|..]);
    }
  }

  lemma {:induction false} ShortReadAgain(g: Grammar, a: seq<string>, next: string, r: seq<string>)
    requires g.ordering == Permute && a != [] && next != "" && ShortEnding(g, a, next) != Overstepped
    requires AllArguments(r) || ShortEnding(g, a, next) == AtDashes
    ensures var p := ParseShort(g, a, next);
      p.opts != [] && Again(ParseShort(g, p.opts + r, next), p, r, ShortEnding(g, a, next))
    decreases |a|, 0, |next|
  {
    hide Short, ShortStarves, ParseArgs, EndingOf;
    var st := Short(g, next, a[1..]);
    var b := ParseShort(g, a, next).opts + r;
    ShortTakes(g, a, next);
    if ShortStarves(g, next, a[1..]) {
      LastShort(g, a, next, r);
    } else {
      var p' := if st.next != "" then ParseShort(Later(g), a, st.next) else ParseArgs(Later(g), a[st.used..]);
      assert b == a[..st.used] + (p'.opts + r);
      SameStartAgain(st.used, a, p'.opts + r);
      ShortAgain(g, next, a[1..], b[1..]);
      assert b[st.used..] == p'.opts + r && b[..st.used] == a[..st.used];
      if st.next != "" {
        ShortReadAgain(Later(g), a, st.next, r);
        AgainAfter(st.event, a[..st.used], ParseShort(Later(g), b, st.next), p', r, ShortEnding(g, a, next));
      } else {
        ReadAgain(Later(g), a[st.used..], r);
        AgainAfter(st.event, a[..st.used], ParseArgs(Later(g), p'.opts + r), p', r, ShortEnding(g, a, next));
      }
    }
  }

  lemma SameStartAgain(used: nat, a: seq<string>, rest: seq<string>)
    requires used <= |a| && a != []
    ensures used > 0 ==> SameStart(used, a[1..], (a[..used] + rest)[1..])
  {
    if used > 0 {
      assert (a[..used] + rest)[1..] == a[1..used] + rest;
      assert a[1..][..used - 1] == a[1..used] == (a[1..used] + rest)[..used - 1];
    }
  }

  lemma {:induction false} RestIsArguments(g: Grammar, a: seq<string>)
    requires g.ordering == Permute
    ensures AllArguments(ParseArgs(g, a).rest) || EndingOf(g, a) == AtDashes
    ensures EndingOf(g, a) == Starved ==> AllArguments(ParseArgs(g, a).rest)
    decreases |a|, 1, 0
  {
    hide Short, Long, LongStarves;
    if a == [] || a[0] == "--" {
    } else if NonOption(a[0]) {
      RestIsArguments(g, a[1..]);
    } else if IsLong(g, a[0]) {
      var used := Long(g, a[0][2..], a[1..]).used;
      StarvesAtEnd(g, a[0][2..], a[1..]);
      RestIsArguments(Later(g), a[used..]);
    } else {
      ShortRest(g, a, a[0][1..]);
    }
  }

  lemma {:induction false} ShortRest(g: Grammar, a: seq<string>, next: string)
    requires g.ordering == Permute && a != [] && next != ""
    ensures AllArguments(ParseShort(g, a, next).rest) || ShortEnding(g, a, next) == AtDashes
    ensures ShortEnding(g, a, next) == Starved ==> AllArguments(ParseShort(g, a, next).rest)
    decreases |a|, 0, |next|
  {
    hide Short, ShortStarves;
    var st := Short(g, next, a[1..]);
    StarvesAtEnd(g, next, a[1..]);
    if st.next != "" { ShortRest(Later(g), a, st.next); }
    else if st.used <= |a| { RestIsArguments(Later(g), a[st.used..]); }
  }

  /** A permuted command line reads as before, unless an option at its end lacked an
      argument: there now is one, if there are any arguments. */
  lemma SameAgain(g: Grammar, a: seq<string>)
    requires g.ordering == Permute && EndingOf(g, a) != Overstepped
    ensures var p := ParseArgs(g, a);
      ParseArgs(g, p.opts + p.rest) == p <==> !(EndingOf(g, a) == Starved && p.rest != [])
  {
    RestIsArguments(g, a);
    ReadAgain(g, a, ParseArgs(g, a).rest);
  }

  lemma NotTheSame()
    ensures var g := GrammarOf("c:", None, false);
      ParseArgs(g, ["x", "-c"]) == Parse([Event('?' as int, None)], ["-c"], ["x"])
      && ParseArgs(g, ["-c", "x"]) == Parse([Event('c' as int, Some("x"))], ["-c", "x"], [])
  {
  }
}
