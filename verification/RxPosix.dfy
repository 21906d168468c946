/** The search: leftmost start, longest end, with the shortcuts of `rx_regexec`, and
    exactly when the shortcuts leave the answer of the naive search unchanged. */
module RxPosix {
  import opened Wrappers
  import opened RxNode
  import opened RxAnal
  import opened RxTame
  import opened RxSimp
  import opened RxStr
  import opened RxOutcomes
  import opened RxRight
  import opened RxSpencer
  import opened RxNfa
  import opened RxEclose
  import opened RxStep
  import opened RxCache
  import opened RxUnfa
  import opened RxWays

  const RX_MANY_CASES: nat := 30

  /** A compiled pattern: the tree, its tables and what the analyses found. */
  datatype Preg = Preg(pattern: Rexp, table: Pattern, newline: bool, nullable: bool, anchored: bool, fastmap: set<Byte>)

  datatype Rules = Rules(notBol: bool, notEol: bool)

  /** What holds of a pattern that `regncomp` has made from a tree. */
  ghost predicate Compiled(g: Preg, nregs: nat) {
    && ValidPattern(g.table) && WellScoped(g.table, g.pattern) && NonEmptyStrings(g.pattern)
    && SafeBodies(nregs, g.pattern) && nregs > 0
    && g.nullable == Nullable(g.pattern) && g.anchored == Anchored(g.pattern)
    && forall c: Byte :: c in g.fastmap <==> Marks(g.pattern, c)
  }

  lemma SafeMatchable(s: Subject, nregs: nat, e: Rexp)
    requires ValidSubject(s) && SafeBodies(nregs, e)
    ensures Matchable(s, nregs, e)
  {
    SafeBodiesExact(nregs, e);
  }

  // ------------------------------------------------------------------- subjects

  /** The whole subject. */
  function Whole(g: Preg, rules: Rules, text: Text, end: nat): Subject {
    Subject(text, end, rules.notBol, rules.notEol, g.newline)
  }

  /** `local_rules.not_eol` for an attempt that ends at `e`. */
  predicate LocalNotEol(g: Preg, rules: Rules, text: Text, end: nat, e: nat)
    requires e <= end || e < |text|
    requires end <= |text|
  {
    var noNewline := !g.newline || (e < |text| && text[e] != NEWLINE);
    if rules.notEol then e == end || noNewline else e != end && noNewline
  }

  /** The string closure of an attempt that ends at `e`. */
  function Attempt(g: Preg, rules: Rules, text: Text, end: nat, e: nat): Subject
    requires e <= end || e < |text|
    requires end <= |text|
  {
    Subject(text, e, rules.notBol, LocalNotEol(g, rules, text, end, e), g.newline)
  }

  /** The context operators agree on [i, j]. */
  ghost predicate SameContext(s: Subject, t: Subject, i: nat, j: nat)
    requires ValidSubject(s) && ValidSubject(t) && i <= j <= s.len && j <= t.len
  {
    s.text == t.text && forall k: nat ::
      i <= k <= j ==> (BolAt(s, k) <==> BolAt(t, k)) && (EolAt(s, k) <==> EolAt(t, k))
  }

  /** Resetting `not_eol` for each end makes `$` in the attempt mean what it means in
      the whole subject. */
  lemma AttemptContext(g: Preg, rules: Rules, text: Text, end: nat, i: nat, e: nat)
    requires i <= e <= end <= |text|
    ensures SameContext(Attempt(g, rules, text, end, e), Whole(g, rules, text, end), i, e)
  {
  }

  lemma {:induction false} SameContextSameMatch(s: Subject, t: Subject, e: Rexp, i: nat, j: nat, r: Regs, r': Regs)
    requires ValidSubject(s) && ValidSubject(t) && i <= j <= s.len && j <= t.len && SameContext(s, t, i, j)
    requires Match(s, e, i, j, r, r')
    ensures Match(t, e, i, j, r, r')
    decreases e, 0
  {
    match e
    case Null =>
    case Cset(_) =>
    case Str(_) =>
    case Concat(a, b) =>
      var m, r1 := SplitOf(s, e, i, j, r, r');
      SameContextSameMatch(s, t, a, i, m, r, r1);
      SameContextSameMatch(s, t, b, m, j, r1, r');
    case Alt(a, b) =>
      if Match(s, a, i, j, r, r') { SameContextSameMatch(s, t, a, i, j, r, r'); }
      else { SameContextSameMatch(s, t, b, i, j, r, r'); }
    case Opt(a) =>
      if Match(s, a, i, j, r, r') { SameContextSameMatch(s, t, a, i, j, r, r'); }
    case Star(a) =>
      var k := RepeatOf(s, e, i, j, r, r');
      SameContextSameRepeat(s, t, a, k, i, j, r, r');
    case Plus(a) =>
      var k := RepeatOf(s, e, i, j, r, r');
      SameContextSameRepeat(s, t, a, k, i, j, r, r');
    case Interval(a, min, max) =>
      var k := RepeatOf(s, e, i, j, r, r');
      SameContextSameRepeat(s, t, a, k, i, j, r, r');
    case Parens(n, a) =>
      var r1: Regs :| Match(s, a, i, j, r, r1) && r' == Record(r1, n, i, j);
      SameContextSameMatch(s, t, a, i, j, r, r1);
    case Context(_) =>
  }

  lemma {:induction false} SameContextSameRepeat(s: Subject, t: Subject, a: Rexp, k: nat, i: nat, j: nat, r: Regs,
                          r': Regs)
    requires ValidSubject(s) && ValidSubject(t) && i <= j <= s.len && j <= t.len && SameContext(s, t, i, j)
    requires Repeat(s, a, k, i, j, r, r')
    ensures Repeat(t, a, k, i, j, r, r')
    decreases a, k + 1
  {
    if k > 0 {
      var m, r1 := FirstRepeat(s, a, k, i, j, r, r');
      SameContextSameMatch(s, t, a, i, m, r, r1);
      SameContextSameRepeat(s, t, a, k - 1, m, j, r1, r');
      ConsRepeat(t, a, k - 1, i, m, j, r, r1, r');
    }
  }

  // ------------------------------------------------------------------ one start

  /** The ends that are tried from `x`, and the memory they reach. */
  function Lowest(g: Preg, x: nat): nat {
    if FixedLen(g.pattern) >= 0 then x + FixedLen(g.pattern) else x
  }

  function Highest(g: Preg, x: nat, end: nat): nat {
    if FixedLen(g.pattern) >= 0 then x + FixedLen(g.pattern) else end
  }

  predicate Readable(g: Preg, text: Text, end: nat, x: nat) {
    end <= |text| && (Highest(g, x, end) <= end || Highest(g, x, end) < |text|)
  }

  function Unset(n: nat): Regs {
    seq(n, _ => Reg(-1, -1))
  }

  /** The outcomes on [x, e) from registers that are all unset. */
  ghost function Hits(g: Preg, nregs: nat, rules: Rules, text: Text, end: nat, x: nat, e: nat): seq<Regs>
    requires Compiled(g, nregs) && end <= |text| && x <= e && (e <= end || e < |text|)
  {
    Outcomes(Attempt(g, rules, text, end, e), g.table, g.pattern, x, e, 0, Unset(nregs))
  }

  /** The largest end up to `e` with an outcome, or -1. */
  ghost function Longest(g: Preg, nregs: nat, rules: Rules, text: Text, end: nat, x: nat, e: int): (l: int)
    requires Compiled(g, nregs) && Readable(g, text, end, x) && e <= Highest(g, x, end)
    ensures l == -1 || Lowest(g, x) <= l <= e
    decreases e - Lowest(g, x) + 1
  {
    if e < Lowest(g, x) then -1
    else if Hits(g, nregs, rules, text, end, x, e) != [] then e
    else Longest(g, nregs, rules, text, end, x, e - 1)
  }

  /** `rx_regmatch`: ends are tried from the longest down. */
  method RegMatch(pmatch: array<Reg>, g: Preg, rules: Rules, start: nat, end: nat, text: Text) returns (matched: bool)
    requires Compiled(g, pmatch.Length) && start <= end && Readable(g, text, end, start)
    requires pmatch[..] == Unset(pmatch.Length)
    modifies pmatch
    ensures matched <==> Longest(g, pmatch.Length, rules, text, end, start, Highest(g, start, end)) >= 0
    ensures matched ==>
      var e := Longest(g, pmatch.Length, rules, text, end, start, Highest(g, start, end));
      var hits := Hits(g, pmatch.Length, rules, text, end, start, e);
      hits != [] && |hits[0]| == pmatch.Length && pmatch[..] == hits[0][0 := Reg(start, e)]
      && Best(true, Attempt(g, rules, text, end, e), g.table, g.pattern, start, e, Unset(pmatch.Length), hits[0])
    ensures !matched ==> pmatch[..] == old(pmatch[..])
  {
    hide Outcomes, ValidPattern, WellScoped, NonEmptyStrings, SafeBodies, Nullable, Marks, Anchored, Best;
    ghost var n := pmatch.Length;
    var e: int := Highest(g, start, end);
    while e >= Lowest(g, start)
      invariant e <= Highest(g, start, end) && pmatch[..] == Unset(n)
      invariant Longest(g, n, rules, text, end, start, Highest(g, start, end)) ==
        Longest(g, n, rules, text, end, start, e)
      decreases e
    {
      matched := TryEnd(pmatch, g, rules, start, end, text, e);
      if matched {
        pmatch[0] := Reg(start, e);
        return;
      }
      e := e - 1;
    }
    matched := false;
  }

  /** One attempt: a new solution object is asked for its first solution. */
  method TryEnd(pmatch: array<Reg>, g: Preg, rules: Rules, start: nat, end: nat, text: Text,
                e: nat) returns (matched: bool)
    requires Compiled(g, pmatch.Length) && start <= e <= Highest(g, start, end) && Readable(g, text, end, start)
    requires pmatch[..] == Unset(pmatch.Length)
    modifies pmatch
    ensures matched <==> Hits(g, pmatch.Length, rules, text, end, start, e) != []
    ensures matched ==> pmatch[..] == Hits(g, pmatch.Length, rules, text, end, start, e)[0]
    ensures matched ==>
      Best(true, Attempt(g, rules, text, end, e), g.table, g.pattern, start, e, Unset(pmatch.Length), pmatch[..])
    ensures !matched ==> pmatch[..] == old(pmatch[..])
  {
    hide Outcomes, Matchable, ValidPattern, WellScoped, NonEmptyStrings, SafeBodies, Nullable, Marks, Anchored, Best;
    var s := Attempt(g, rules, text, end, e);
    SafeMatchable(s, pmatch.Length, g.pattern);
    assert InRange(s, pmatch[..]);
    var solutions := new Solutions(pmatch, s, g.table, g.pattern, start, e);
    var answer := solutions.NextSolution();
    matched := answer == Yes;
    if matched { FirstIsBest(s, g.table, pmatch.Length, g.pattern, start, e, Unset(pmatch.Length)); }
  }

  // ------------------------------------------------------------- the naive search

  /** The pattern matches [x, e) of the whole subject. */
  ghost predicate Matches(g: Preg, nregs: nat, rules: Rules, text: Text, end: nat, x: nat, e: nat)
    requires x <= e <= end <= |text|
  {
    exists r' :: Match(Whole(g, rules, text, end), g.pattern, x, e, Unset(nregs), r')
  }

  /** The leftmost start with a match, and the largest end for it. */
  ghost predicate IsBest(g: Preg, nregs: nat, rules: Rules, text: Text, end: nat, x: nat, e: nat)
    requires end <= |text|
  {
    && x <= e <= end && Matches(g, nregs, rules, text, end, x, e)
    && (forall e' :: e < e' <= end ==> !Matches(g, nregs, rules, text, end, x, e'))
    && (forall x', e' :: 0 <= x' < x && x' <= e' <= end ==> !Matches(g, nregs, rules, text, end, x', e'))
  }

  /** The pattern matches [x, e) in an attempt that ends there, inside the subject or not. */
  ghost predicate Reaches(g: Preg, nregs: nat, rules: Rules, text: Text, end: nat, x: nat, e: nat)
    requires x <= e && end <= |text| && (e <= end || e < |text|)
  {
    exists r' :: Match(Attempt(g, rules, text, end, e), g.pattern, x, e, Unset(nregs), r')
  }

  /** No test that decides is misled on the first `n` characters of the memory. */
  ghost predicate RightText(g: Preg, text: Text, n: nat) {
    n <= |text| && RightOn(Subject(text, n, false, false, false), g.pattern, 0, n)
  }

  lemma RightAttempt(g: Preg, rules: Rules, text: Text, end: nat, x: nat, e: nat, n: nat)
    requires RightText(g, text, n) && x <= e <= n && end <= |text| && (e <= end || e < |text|)
    ensures RightOn(Attempt(g, rules, text, end, e), g.pattern, x, e)
  {
    var t := Subject(text, n, false, false, false);
    RightOnPart(t, g.pattern, 0, n, x, e);
    RightElsewhere(Attempt(g, rules, text, end, e), t, g.pattern, x, e);
  }

  /** An attempt never misses a match, and where no test is misled it finds nothing else. */
  lemma HitsReach(g: Preg, nregs: nat, rules: Rules, text: Text, end: nat, x: nat, e: nat)
    requires Compiled(g, nregs) && x <= e && end <= |text| && (e <= end || e < |text|)
    ensures Reaches(g, nregs, rules, text, end, x, e) ==> Hits(g, nregs, rules, text, end, x, e) != []
    ensures Hits(g, nregs, rules, text, end, x, e) != [] && RightOn(Attempt(g, rules, text, end, e), g.pattern, x, e)
      ==> Reaches(g, nregs, rules, text, end, x, e)
  {
    hide Outcomes, Match, Allowed, RightOn, SafeBodies, ValidPattern, WellScoped, Nullable, Marks, Anchored;
    var s, r := Attempt(g, rules, text, end, e), Unset(nregs);
    SafeMatchable(s, nregs, g.pattern);
    UnsetConsistent(s, g.table, nregs);
    var hits := Hits(g, nregs, rules, text, end, x, e);
    if r' :| Match(s, g.pattern, x, e, r, r') {
      OutcomesExact(s, g.table, nregs, g.pattern, x, e, 0, r, r');
      AllowedChild(s, g.pattern, x, e, r, r');
    }
    if hits != [] && RightOn(s, g.pattern, x, e) {
      assert hits[0] in hits;
      OutcomesExact(s, g.table, nregs, g.pattern, x, e, 0, r, hits[0]);
      AllowedChild(s, g.pattern, x, e, r, hits[0]);
    }
  }

  lemma UnsetConsistent(s: Subject, p: Pattern, n: nat)
    requires ValidSubject(s) && ValidPattern(p)
    ensures Consistent(s, p, Unset(n)) && InRange(s, Unset(n))
  {
  }

  /** Inside the subject an attempt sees what the whole subject says. */
  lemma ReachesIsMatches(g: Preg, nregs: nat, rules: Rules, text: Text, end: nat, x: nat, e: nat)
    requires x <= e <= end <= |text|
    ensures Reaches(g, nregs, rules, text, end, x, e) <==> Matches(g, nregs, rules, text, end, x, e)
  {
    hide Match;
    var s, t, r := Attempt(g, rules, text, end, e), Whole(g, rules, text, end), Unset(nregs);
    AttemptContext(g, rules, text, end, x, e);
    if r' :| Match(s, g.pattern, x, e, r, r') { SameContextSameMatch(s, t, g.pattern, x, e, r, r'); }
    if r' :| Match(t, g.pattern, x, e, r, r') { SameContextSameMatch(t, s, g.pattern, x, e, r, r'); }
  }

  lemma {:induction false} LongestFrom(g: Preg, nregs: nat, rules: Rules, text: Text, end: nat, x: nat, e: int)
    requires Compiled(g, nregs) && Readable(g, text, end, x) && e <= Highest(g, x, end)
    ensures var l := Longest(g, nregs, rules, text, end, x, e);
      && (l >= 0 ==> Lowest(g, x) <= l && Hits(g, nregs, rules, text, end, x, l) != [])
      && forall k: nat :: l < k <= e && Lowest(g, x) <= k ==> Hits(g, nregs, rules, text, end, x, k) == []
    decreases e - Lowest(g, x) + 1
  {
    hide Hits, Compiled;
    if e >= Lowest(g, x) && Hits(g, nregs, rules, text, end, x, e) == [] {
      LongestFrom(g, nregs, rules, text, end, x, e - 1);
    }
  }

  /** At one start the longest end is never before that of the naive search; it is past
      the subject only for an attempt of fixed length. */
  lemma LongestCovers(g: Preg, nregs: nat, rules: Rules, text: Text, end: nat, x: nat)
    requires Compiled(g, nregs) && Readable(g, text, end, x) && x <= end
    ensures var l := Longest(g, nregs, rules, text, end, x, Highest(g, x, end));
      && (l >= 0 ==> l >= x && (FixedLen(g.pattern) >= 0 ==> l == x + FixedLen(g.pattern)))
      && (l > end ==> FixedLen(g.pattern) >= 0)
      && forall e :: x <= e <= end && Matches(g, nregs, rules, text, end, x, e) ==> e <= l <= end
  {
    hide Hits, Longest, Match, Compiled;
    var l := Longest(g, nregs, rules, text, end, x, Highest(g, x, end));
    LongestFrom(g, nregs, rules, text, end, x, Highest(g, x, end));
    forall e | x <= e <= end && Matches(g, nregs, rules, text, end, x, e) ensures e <= l <= end {
      HitsReach(g, nregs, rules, text, end, x, e);
      ReachesIsMatches(g, nregs, rules, text, end, x, e);
      var r' :| Match(Whole(g, rules, text, end), g.pattern, x, e, Unset(nregs), r');
      FixedLenSound(Whole(g, rules, text, end), g.pattern, x, e, Unset(nregs), r');
    }
  }

  /** Where no test is misled, what it finds is there. */
  lemma LongestAgrees(g: Preg, nregs: nat, rules: Rules, text: Text, end: nat, x: nat, n: nat)
    requires Compiled(g, nregs) && Readable(g, text, end, x) && x <= end
    requires RightText(g, text, n) && Highest(g, x, end) <= n
    ensures var l := Longest(g, nregs, rules, text, end, x, Highest(g, x, end));
      && (l >= 0 ==> x <= l && Reaches(g, nregs, rules, text, end, x, l))
      && (0 <= l <= end ==> Matches(g, nregs, rules, text, end, x, l))
  {
    hide Hits, Longest, Match, Compiled;
    var l := Longest(g, nregs, rules, text, end, x, Highest(g, x, end));
    LongestFrom(g, nregs, rules, text, end, x, Highest(g, x, end));
    if l >= 0 {
      RightAttempt(g, rules, text, end, x, l, n);
      HitsReach(g, nregs, rules, text, end, x, l);
      if l <= end { ReachesIsMatches(g, nregs, rules, text, end, x, l); }
    }
  }

  // ------------------------------------------------------------------- the search

  /** The first-character test. */
  predicate Promising(g: Preg, text: Text, end: nat, x: nat)
    requires end <= |text|
  {
    g.nullable || (x < end && text[x] in g.fastmap)
  }

  /** The tree of the pre-check. */
  function Simple(g: Preg): (e: Rexp)
    requires ValidPattern(g.table) && WellScoped(g.table, g.pattern) && NonEmptyStrings(g.pattern)
    ensures ContextFree(e) && NonEmptyStrings(e)
  {
    SimplifyCompiles(g.table, g.pattern);
    Simplify(g.table, g.pattern)
  }

  /** The DFA pre-check gives the start up. */
  ghost predicate GivenUp(g: Preg, text: Text, end: nat, x: nat)
    requires x <= end <= |text|
    requires ValidPattern(g.table) && WellScoped(g.table, g.pattern) && NonEmptyStrings(g.pattern)
  {
    end > RX_MANY_CASES && Dies(Simple(g), text[x..end])
  }

  lemma ReadableBefore(g: Preg, text: Text, end: nat, x: nat)
    requires Readable(g, text, end, end) && x <= end
    ensures Readable(g, text, end, x)
  {
  }

  /** The longest end from `x`, in a subject that can be read from every start. */
  ghost function LongestAt(g: Preg, nregs: nat, rules: Rules, text: Text, end: nat, x: nat): (l: int)
    requires Compiled(g, nregs) && Readable(g, text, end, end) && x <= end
  {
    ReadableBefore(g, text, end, x);
    Longest(g, nregs, rules, text, end, x, Highest(g, x, end))
  }

  /** The start is tried, and with success. */
  ghost predicate Candidate(g: Preg, nregs: nat, rules: Rules, text: Text, end: nat, x: nat)
    requires Compiled(g, nregs) && Readable(g, text, end, end) && x <= end
  {
    Promising(g, text, end, x) && !GivenUp(g, text, end, x) && LongestAt(g, nregs, rules, text, end, x) >= 0
  }

  /** An anchored tree has outcomes only where `^` holds. */
  lemma {:induction false} OutcomesAnchored(s: Subject, p: Pattern, e: Rexp, i: nat, j: nat, r: Regs, r': Regs)
    requires Usable(s, p, e) && i <= j <= s.len && Anchored(e) && r' in Outcomes(s, p, e, i, j, 0, r)
    ensures Observed(e) && BolAt(s, i)
    decreases e, 1
  {
    hide Leaf, Screened, ValidPattern, Splits;
    AnchoredObserved(e);
    match e
    case Alt(a, b) =>
      if r' in Outcomes(s, p, a, i, j, 0, r) { OutcomesAnchored(s, p, a, i, j, r, r'); }
      else { OutcomesAnchored(s, p, b, i, j, r, r'); }
    case Parens(n, a) =>
      AnchoredObserved(a);
      var rs := Outcomes(s, p, a, i, j, 0, r);
      var all := RecordAll(rs, n, i, j);
      var k :| 0 <= k < |all| && all[k] == r';
      OutcomesAnchored(s, p, a, i, j, r, rs[k]);
    case Concat(a, _) => SplitAnchored(s, p, e, i, j, r, r');
    case Plus(a) => SplitAnchored(s, p, e, i, j, r, r');
    case Interval(a, _, _) => SplitAnchored(s, p, e, i, j, r, r');
    case Context(_) =>
  }

  lemma {:induction false} SplitAnchored(s: Subject, p: Pattern, e: Rexp, i: nat, j: nat, r: Regs, r': Regs)
    requires Usable(s, p, e) && i <= j <= s.len && Anchored(e) && r' in Outcomes(s, p, e, i, j, 0, r)
    requires e.Concat? || e.Plus? || e.Interval?
    ensures Observed(e) && BolAt(s, i)
    decreases e, 0
  {
    AnchoredObserved(e.left);
    SplitsHave(s, p, e, i, j, j, 0, r, r');
    var m: nat :| i <= m <= j && Chosen(s, p, e, i, m, j, 0, r, r');
    var r1: Regs :| r1 in Outcomes(s, p, e.left, i, m, 0, r) && r' in Tail(s, p, e, i, m, j, 0, r1);
    OutcomesAnchored(s, p, e.left, i, m, r, r1);
  }

  lemma {:induction false} AnchoredObserved(e: Rexp)
    requires Anchored(e)
    ensures Observed(e)
  {
    match e
    case Concat(a, _) => AnchoredObserved(a);
    case Alt(a, b) => AnchoredObserved(a); AnchoredObserved(b);
    case Plus(a) => AnchoredObserved(a);
    case Interval(_, _, _) =>
    case Parens(_, _) =>
    case Context(_) =>
  }

  /** An anchored pattern has no match, in any attempt, where `^` does not hold. */
  lemma AnchoredNowhere(g: Preg, nregs: nat, rules: Rules, text: Text, end: nat, x: nat)
    requires Compiled(g, nregs) && Readable(g, text, end, end) && x <= end
    requires g.anchored && !BolAt(Whole(g, rules, text, end), x)
    ensures LongestAt(g, nregs, rules, text, end, x) < 0
  {
    ReadableBefore(g, text, end, x);
    hide Longest, Outcomes, WellScoped, ValidPattern, Anchored;
    var l := Longest(g, nregs, rules, text, end, x, Highest(g, x, end));
    LongestFrom(g, nregs, rules, text, end, x, Highest(g, x, end));
    if l >= 0 {
      var hits := Hits(g, nregs, rules, text, end, x, l);
      assert hits[0] in hits;
      OutcomesAnchored(Attempt(g, rules, text, end, l), g.table, g.pattern, x, l, Unset(nregs), hits[0]);
    }
  }

  /** What the search returns. */
  ghost predicate SearchResult(g: Preg, nregs: nat, rules: Rules, text: Text, end: nat, matched: bool, pmatch: Regs)
    requires Compiled(g, nregs) && Readable(g, text, end, end)
  {
    if matched then exists x: nat :: x <= end && FirstCandidate(g, nregs, rules, text, end, x, pmatch)
    else pmatch == Unset(nregs) && NoCandidate(g, nregs, rules, text, end, end + 1)
  }

  ghost predicate NoCandidate(g: Preg, nregs: nat, rules: Rules, text: Text, end: nat, x: nat)
    requires Compiled(g, nregs) && Readable(g, text, end, end) && x <= end + 1
  {
    forall x': nat :: x' < x ==> !Candidate(g, nregs, rules, text, end, x')
  }

  /** The first outcome on the longest end, with the whole match as register 0. */
  ghost predicate FirstCandidate(g: Preg, nregs: nat, rules: Rules, text: Text, end: nat, x: nat, pmatch: Regs)
    requires Compiled(g, nregs) && Readable(g, text, end, end) && x <= end
  {
    && NoCandidate(g, nregs, rules, text, end, x) && Candidate(g, nregs, rules, text, end, x)
    && Reports(g, nregs, rules, text, end, x, pmatch)
  }

  ghost predicate Reports(g: Preg, nregs: nat, rules: Rules, text: Text, end: nat, x: nat, pmatch: Regs)
    requires Compiled(g, nregs) && Readable(g, text, end, end) && x <= end
  {
    var e := LongestAt(g, nregs, rules, text, end, x);
    && e >= x && (e <= end || e < |text|)
    && var hits := Hits(g, nregs, rules, text, end, x, e);
       hits != [] && 0 < |hits[0]| == nregs && pmatch == hits[0][0 := Reg(x, e)]
  }

  /** Where a line does not begin, an anchored pattern need not be tried. */
  lemma RestAnchored(g: Preg, nregs: nat, rules: Rules, text: Text, end: nat, from: nat, to: nat)
    requires Compiled(g, nregs) && Readable(g, text, end, end) && from <= to <= end && g.anchored
    requires NoCandidate(g, nregs, rules, text, end, from) && !Candidate(g, nregs, rules, text, end, from)
    requires g.newline ==> forall k :: from <= k < to ==> text[k] != NEWLINE
    ensures NoCandidate(g, nregs, rules, text, end, to + 1)
  {
    hide Candidate, Compiled, Readable;
    forall x': nat | x' < to + 1 ensures !Candidate(g, nregs, rules, text, end, x') {
      if x' > from { Unanchored(g, nregs, rules, text, end, x'); }
    }
  }

  lemma Unanchored(g: Preg, nregs: nat, rules: Rules, text: Text, end: nat, x: nat)
    requires Compiled(g, nregs) && Readable(g, text, end, end) && 0 < x <= end && g.anchored
    requires g.newline ==> text[x - 1] != NEWLINE
    ensures !Candidate(g, nregs, rules, text, end, x)
  {
    AnchoredNowhere(g, nregs, rules, text, end, x);
  }

  lemma OneMore(g: Preg, nregs: nat, rules: Rules, text: Text, end: nat, x: nat)
    requires Compiled(g, nregs) && Readable(g, text, end, end) && x <= end
    requires NoCandidate(g, nregs, rules, text, end, x) && !Candidate(g, nregs, rules, text, end, x)
    ensures NoCandidate(g, nregs, rules, text, end, x + 1)
  {
    hide Candidate;
  }

  /** One start: the first-character test, the pre-check, and the attempts. */
  method TryStart(pmatch: array<Reg>, g: Preg, rules: Rules, x: nat, end: nat, text: Text, unfa: Unfa,
                  machine: Option<nat>)
      returns (matched: bool, machine': Option<nat>)
    requires Compiled(g, pmatch.Length) && Readable(g, text, end, end) && pmatch[..] == Unset(pmatch.Length) && x <= end
    requires unfa.Valid() && unfa.exp == Simple(g) && (machine.Some? ==> Locks(unfa.cache.supers, machine.value) > 0)
    modifies pmatch, unfa.cache, unfa.cache.nfa, unfa.cache.nfa.mark
    ensures matched <==> Candidate(g, pmatch.Length, rules, text, end, x)
    ensures matched ==> Reports(g, pmatch.Length, rules, text, end, x, pmatch[..])
    ensures !matched ==> pmatch[..] == old(pmatch[..])
    ensures unfa.Valid() && (machine'.Some? ==> Locks(unfa.cache.supers, machine'.value) > 0)
    ensures Handed(old(unfa.cache.next), old(unfa.cache.supers), machine, unfa.cache.next, unfa.cache.supers, machine')
  {
    hide Handed, Unset, Longest, Hits, Simplify, Dies, Linked, Meaning, Tabled, Framed, Named, Numbered, Queued;
    hide Match, Outcomes;
    HandedStill(unfa.cache.next, unfa.cache.supers, machine);
    machine' := machine;
    if !(g.nullable || (x < end && text[x] in g.fastmap)) { return false, machine; }
    if end > RX_MANY_CASES {
      var hopeless, state := unfa.Hopeless(text[x..end], machine);
      machine' := Some(state);
      if hopeless { return false, machine'; }
    }
    ReadableBefore(g, text, end, x);
    matched := RegMatch(pmatch, g, rules, x, end, text);
  }

  lemma HandedStill(na: Id, a: Supers, s: Option<nat>)
    ensures Handed(na, a, s, na, a, s)
  {
  }

  /** The start after a failed one: for an anchored pattern the next line, or none. */
  method NextStart(g: Preg, ghost nregs: nat, ghost rules: Rules, x: nat, end: nat, text: Text) returns (x': nat)
    requires Compiled(g, nregs) && Readable(g, text, end, end) && x <= end
    requires NoCandidate(g, nregs, rules, text, end, x) && !Candidate(g, nregs, rules, text, end, x)
    ensures x < x' <= end + 1 && NoCandidate(g, nregs, rules, text, end, x')
  {
    assert end <= |text|;
    hide Compiled, Readable, Candidate, NoCandidate;
    OneMore(g, nregs, rules, text, end, x);
    x' := x;
    if g.anchored {
      if !g.newline {
        RestAnchored(g, nregs, rules, text, end, x, end);
        return end + 1;
      }
      while x' < end && text[x'] != NEWLINE
        invariant x <= x' <= end && forall k :: x <= k < x' ==> text[k] != NEWLINE
      {
        x' := x' + 1;
      }
      RestAnchored(g, nregs, rules, text, end, x, x');
    }
    x' := x' + 1;
  }

  /** `rx_regexec`, on a subject that starts at 0.  The state of the machine is handed
      out because it stays locked. */
  method RegExec(pmatch: array<Reg>, g: Preg, rules: Rules, end: nat, text: Text, unfa: Unfa)
      returns (matched: bool, machine: Option<nat>)
    requires Compiled(g, pmatch.Length) && Readable(g, text, end, end) && pmatch[..] == Unset(pmatch.Length)
    requires unfa.Valid() && unfa.exp == Simple(g)
    modifies pmatch, unfa.cache, unfa.cache.nfa, unfa.cache.nfa.mark
    ensures SearchResult(g, pmatch.Length, rules, text, end, matched, pmatch[..])
    ensures unfa.Valid()
    ensures Handed(old(unfa.cache.next), old(unfa.cache.supers), None, unfa.cache.next, unfa.cache.supers, machine)
  {
    assert end <= |text|;
    hide Compiled, Readable, Candidate, Handed, Unset, Reports, Longest, LongestAt, NoCandidate, SearchResult;
    hide FirstCandidate;
    hide Linked, Meaning, Tabled, Framed, Named, Numbered, Queued, Simplify;
    ghost var n, na, a, ea := pmatch.Length, unfa.cache.next, unfa.cache.supers, unfa.cache.edges;
    HandedStill(na, a, None);
    NoneYet(g, n, rules, text, end);
    machine := None;
    var x := 0;
    while x <= end
      invariant pmatch[..] == Unset(n) && unfa.Valid()
      invariant 0 <= x <= end + 1 && NoCandidate(g, n, rules, text, end, x)
      invariant machine.Some? ==> Locks(unfa.cache.supers, machine.value) > 0
      invariant Handed(na, a, None, unfa.cache.next, unfa.cache.supers, machine)
    {
      ghost var nb, b, was := unfa.cache.next, unfa.cache.supers, machine;
      matched, machine := TryStart(pmatch, g, rules, x, end, text, unfa, machine);
      HandedTwice(na, a, ea, None, nb, b, was, unfa.cache.next, unfa.cache.supers, machine);
      if matched {
        Finished(g, n, rules, text, end, x, pmatch[..]);
        return;
      }
      x := NextStart(g, n, rules, x, end, text);
    }
    Exhausted(g, n, rules, text, end, pmatch[..]);
    matched := false;
  }

  lemma Finished(g: Preg, nregs: nat, rules: Rules, text: Text, end: nat, x: nat, pmatch: Regs)
    requires Compiled(g, nregs) && Readable(g, text, end, end) && x <= end
    requires NoCandidate(g, nregs, rules, text, end, x) && Candidate(g, nregs, rules, text, end, x)
    requires Reports(g, nregs, rules, text, end, x, pmatch)
    ensures SearchResult(g, nregs, rules, text, end, true, pmatch)
  {
    hide Compiled, Readable, Candidate, NoCandidate, Reports;
    assert FirstCandidate(g, nregs, rules, text, end, x, pmatch);
  }

  lemma Exhausted(g: Preg, nregs: nat, rules: Rules, text: Text, end: nat, pmatch: Regs)
    requires Compiled(g, nregs) && Readable(g, text, end, end)
    requires NoCandidate(g, nregs, rules, text, end, end + 1) && pmatch == Unset(nregs)
    ensures SearchResult(g, nregs, rules, text, end, false, pmatch)
  {
  }

  lemma NoneYet(g: Preg, nregs: nat, rules: Rules, text: Text, end: nat)
    requires Compiled(g, nregs) && Readable(g, text, end, end)
    ensures NoCandidate(g, nregs, rules, text, end, 0)
  {
  }

  /** The analyses of `regncomp`, for a tree that is already parsed. */
  method RegNComp(pattern: Rexp, table: Pattern, newline: bool, nregs: nat) returns (g: Preg)
    requires ValidPattern(table) && WellScoped(table, pattern) && NonEmptyStrings(pattern)
    requires SafeBodies(nregs, pattern) && nregs > 0
    ensures Compiled(g, nregs) && g.pattern == pattern && g.table == table && g.newline == newline
  {
    hide ValidPattern, WellScoped, NonEmptyStrings, SafeBodies, Nullable, Marks, Anchored;
    var map256 := new bool[256](_ => false);
    var nullable := FillInFastmap(map256, pattern);
    var fastmap: set<Byte> := {};
    var k: nat := 0;
    while k < 256
      invariant 0 <= k <= 256 && forall c: Byte :: c in fastmap <==> c < k && map256[c]
    {
      if map256[k] { fastmap := fastmap + {k}; }
      k := k + 1;
    }
    g := Preg(pattern, table, newline, nullable, Anchored(pattern), fastmap);
  }

  /** `regnexec`: the registers start unset, and so does the automaton. */
  method RegNExec(g: Preg, nregs: nat, rules: Rules, text: Text, len: nat) returns (matched: bool, pmatch: array<Reg>)
    requires Compiled(g, nregs) && Readable(g, text, len, len)
    ensures fresh(pmatch) && pmatch.Length == nregs
    ensures SearchResult(g, nregs, rules, text, len, matched, pmatch[..])
  {
    hide Readable, SearchResult, ValidPattern, WellScoped, NonEmptyStrings, SafeBodies, Nullable, Marks, Anchored;
    pmatch := new Reg[nregs](_ => Reg(-1, -1));
    assert pmatch[..] == Unset(nregs);
    var unfa := new Unfa(Simple(g));
    var machine;
    matched, machine := RegExec(pmatch, g, rules, len, text, unfa);
  }

  // ---------------------------------------------------- against the naive search

  /** A match makes its start promising, is never beyond what the attempts find, and is
      given up only if it is empty. */
  lemma MatchIsSeen(g: Preg, nregs: nat, rules: Rules, text: Text, end: nat, x: nat, e: nat)
    requires Compiled(g, nregs) && Readable(g, text, end, end) && x <= e <= end
    requires Matches(g, nregs, rules, text, end, x, e)
    ensures Promising(g, text, end, x) && e <= LongestAt(g, nregs, rules, text, end, x) <= end
    ensures GivenUp(g, text, end, x) ==> e == x && InLang(Simple(g), [])
  {
    hide Match, Dies, Longest, Outcomes, InLang, ValidPattern, SafeBodies, Accepts;
    var s := Whole(g, rules, text, end);
    ReadableBefore(g, text, end, x);
    LongestCovers(g, nregs, rules, text, end, x);
    var r' :| Match(s, g.pattern, x, e, Unset(nregs), r');
    FastmapSound(s, g.pattern, x, e, Unset(nregs), r');
    UnsetConsistent(s, g.table, nregs);
    SimplifyCovers(s, g.table, g.pattern, x, e, Unset(nregs), r');
    AcceptsCovers(Simple(g), text[x..e]);
    assert text[x..end][..e - x] == text[x..e];
    if GivenUp(g, text, end, x) {
      DiesSound(Simple(g), text[x..end], e - x);
      assert text[x..e] == [];
    }
  }

  /** Whatever the subject: the search reports a start no later than that of any match
      that the pre-check does not give up. */
  lemma NothingMissed(g: Preg, nregs: nat, rules: Rules, text: Text, end: nat, matched: bool, pmatch: Regs, x: nat,
                      e: nat)
    requires Compiled(g, nregs) && Readable(g, text, end, end) && x <= e <= end
    requires SearchResult(g, nregs, rules, text, end, matched, pmatch)
    requires Matches(g, nregs, rules, text, end, x, e) && !GivenUp(g, text, end, x)
    ensures matched && |pmatch| > 0 && pmatch[0].so <= x
  {
    assert end <= |text|;
    MatchIsSeen(g, nregs, rules, text, end, x, e);
    assert Candidate(g, nregs, rules, text, end, x);
    hide Compiled, Readable, Candidate, Matches, LongestAt, Hits;
    if matched {
      var x': nat :| x' <= end && FirstCandidate(g, nregs, rules, text, end, x', pmatch);
    }
  }

  /** If there is a match at all, and no test is misled, the search finds the leftmost and
      longest one exactly when the pre-check does not give up its start; and it gives up
      only a start whose longest match is empty. */
  lemma NaiveFound(g: Preg, nregs: nat, rules: Rules, text: Text, end: nat, matched: bool, pmatch: Regs, x: nat, e: nat)
    requires Compiled(g, nregs) && Readable(g, text, end, end) && RightText(g, text, end)
    requires IsBest(g, nregs, rules, text, end, x, e) && SearchResult(g, nregs, rules, text, end, matched, pmatch)
    ensures (matched && |pmatch| > 0 && pmatch[0] == Reg(x, e)) <==> !GivenUp(g, text, end, x)
    ensures GivenUp(g, text, end, x) ==> e == x && InLang(Simple(g), [])
  {
    assert end <= |text|;
    hide Readable, Match, Dies, Longest, LongestAt, Outcomes, InLang, ValidPattern, WellScoped, SafeBodies, Hits;
    hide RightText;
    BestIsSeen(g, nregs, rules, text, end, x, e);
    if matched {
      var x': nat :| x' <= end && FirstCandidate(g, nregs, rules, text, end, x', pmatch);
      BestIsFirst(g, nregs, rules, text, end, x, e, x');
      assert Reports(g, nregs, rules, text, end, x', pmatch);
      assert pmatch[0] == Reg(x', LongestAt(g, nregs, rules, text, end, x'));
      if !GivenUp(g, text, end, x) { assert Candidate(g, nregs, rules, text, end, x); }
    } else {
      assert !Candidate(g, nregs, rules, text, end, x);
    }
  }

  lemma BestIsSeen(g: Preg, nregs: nat, rules: Rules, text: Text, end: nat, x: nat, e: nat)
    requires Compiled(g, nregs) && Readable(g, text, end, end) && RightText(g, text, end)
    requires IsBest(g, nregs, rules, text, end, x, e)
    ensures Promising(g, text, end, x) && LongestAt(g, nregs, rules, text, end, x) == e
    ensures GivenUp(g, text, end, x) ==> e == x && InLang(Simple(g), [])
  {
    hide Compiled, Match, Dies, Longest, InLang, RightText;
    ReadableBefore(g, text, end, x);
    MatchIsSeen(g, nregs, rules, text, end, x, e);
    LongestCovers(g, nregs, rules, text, end, x);
    LongestAgrees(g, nregs, rules, text, end, x, end);
  }

  /** No earlier start is a candidate: an earlier match would be one of the naive search,
      and an attempt past the end starts later than every match that fits. */
  lemma BestIsFirst(g: Preg, nregs: nat, rules: Rules, text: Text, end: nat, x: nat, e: nat, x': nat)
    requires Compiled(g, nregs) && Readable(g, text, end, end) && RightText(g, text, end)
    requires IsBest(g, nregs, rules, text, end, x, e)
    requires x' <= end && Candidate(g, nregs, rules, text, end, x')
    ensures x <= x'
  {
    hide Compiled, Match, Dies, Longest, InLang, RightText;
    var r' :| Match(Whole(g, rules, text, end), g.pattern, x, e, Unset(nregs), r');
    FixedLenSound(Whole(g, rules, text, end), g.pattern, x, e, Unset(nregs), r');
    if x' < x {
      ReadableBefore(g, text, end, x');
      LongestAgrees(g, nregs, rules, text, end, x', end);
      LongestCovers(g, nregs, rules, text, end, x');
    }
  }

  // ------------------------------------------------------- attempts past the end

  /** The memory that attempts can look at. */
  function Furthest(g: Preg, end: nat): nat {
    if Highest(g, end, end) > end then Highest(g, end, end) else end
  }

  /** An attempt of fixed length finds a match that does not end in the subject. */
  ghost predicate Overrun(g: Preg, nregs: nat, rules: Rules, text: Text, end: nat, x: nat)
    requires Compiled(g, nregs) && Readable(g, text, end, end) && x <= end
  {
    && FixedLen(g.pattern) >= 0 && x + FixedLen(g.pattern) > end
    && Promising(g, text, end, x) && !GivenUp(g, text, end, x)
    && Reaches(g, nregs, rules, text, end, x, x + FixedLen(g.pattern))
  }

  /** What is a candidate: a match in the subject that is not given up, or an overrun. */
  lemma CandidateExact(g: Preg, nregs: nat, rules: Rules, text: Text, end: nat, x: nat)
    requires Compiled(g, nregs) && Readable(g, text, end, end) && RightText(g, text, Furthest(g, end)) && x <= end
    ensures Candidate(g, nregs, rules, text, end, x) <==>
      Overrun(g, nregs, rules, text, end, x)
      || (!GivenUp(g, text, end, x) && exists e :: x <= e <= end && Matches(g, nregs, rules, text, end, x, e))
    ensures Candidate(g, nregs, rules, text, end, x) ==> var l := LongestAt(g, nregs, rules, text, end, x);
      && l >= x && (l > end <==> Overrun(g, nregs, rules, text, end, x))
      && (l <= end ==> Matches(g, nregs, rules, text, end, x, l))
      && forall e :: x <= e <= end && Matches(g, nregs, rules, text, end, x, e) ==> e <= l <= end
  {
    hide Compiled, Longest, Dies, RightText, Matches, Reaches, Hits;
    ReadableBefore(g, text, end, x);
    LongestCovers(g, nregs, rules, text, end, x);
    LongestAgrees(g, nregs, rules, text, end, x, Furthest(g, end));
    forall e | x <= e <= end && Matches(g, nregs, rules, text, end, x, e) ensures Promising(g, text, end, x) {
      MatchIsSeen(g, nregs, rules, text, end, x, e);
    }
    if Overrun(g, nregs, rules, text, end, x) { OverrunHits(g, nregs, rules, text, end, x); }
  }

  lemma OverrunHits(g: Preg, nregs: nat, rules: Rules, text: Text, end: nat, x: nat)
    requires Compiled(g, nregs) && Readable(g, text, end, end) && x <= end && Overrun(g, nregs, rules, text, end, x)
    ensures LongestAt(g, nregs, rules, text, end, x) == x + FixedLen(g.pattern)
  {
    hide Compiled, Dies, Reaches, Hits;
    var l := x + FixedLen(g.pattern);
    ReadableBefore(g, text, end, x);
    HitsReach(g, nregs, rules, text, end, x, l);
  }

  /** A subject without a match: the search reports one if and only if some attempt runs
      over the end, and then it reports the first such. */
  lemma NothingFound(g: Preg, nregs: nat, rules: Rules, text: Text, end: nat, matched: bool, pmatch: Regs)
    requires Compiled(g, nregs) && Readable(g, text, end, end) && RightText(g, text, Furthest(g, end))
    requires forall x: nat, e: nat :: x <= e <= end ==> !Matches(g, nregs, rules, text, end, x, e)
    requires SearchResult(g, nregs, rules, text, end, matched, pmatch)
    ensures matched <==> exists x: nat :: x <= end && Overrun(g, nregs, rules, text, end, x)
    ensures matched ==> |pmatch| > 0 && pmatch[0].eo > end
  {
    assert end <= |text|;
    forall x: nat | x <= end
      ensures Candidate(g, nregs, rules, text, end, x) <==> Overrun(g, nregs, rules, text, end, x)
      ensures Candidate(g, nregs, rules, text, end, x) ==> LongestAt(g, nregs, rules, text, end, x) > end
    {
      CandidateExact(g, nregs, rules, text, end, x);
    }
    hide Compiled, Readable, Candidate, Overrun, LongestAt, Hits, Matches;
    if matched {
      var x: nat :| x <= end && FirstCandidate(g, nregs, rules, text, end, x, pmatch);
    }
  }

  /** Where the pre-check can lose nothing - a short subject, or a start state that is not
      final - the search finds a match in the subject if and only if there is one, and
      then it finds the leftmost and longest. */
  lemma SearchExact(g: Preg, nregs: nat, rules: Rules, text: Text, end: nat, matched: bool, pmatch: Regs)
    requires Compiled(g, nregs) && Readable(g, text, end, end) && RightText(g, text, Furthest(g, end))
    requires end <= 30 || !InLang(Simple(g), [])
    requires SearchResult(g, nregs, rules, text, end, matched, pmatch)
    ensures (matched && |pmatch| > 0 && pmatch[0].eo <= end) <==>
      exists x: nat, e: nat :: x <= e <= end && Matches(g, nregs, rules, text, end, x, e)
    ensures matched && |pmatch| > 0 && pmatch[0].eo <= end ==>
      0 <= pmatch[0].so && IsBest(g, nregs, rules, text, end, pmatch[0].so, pmatch[0].eo)
  {
    assert end <= |text|;
    forall x: nat, e: nat | x <= e <= end && Matches(g, nregs, rules, text, end, x, e)
      ensures Candidate(g, nregs, rules, text, end, x)
    {
      MatchIsCandidate(g, nregs, rules, text, end, x, e);
    }
    if matched {
      var x: nat :| x <= end && FirstCandidate(g, nregs, rules, text, end, x, pmatch);
      CandidateExact(g, nregs, rules, text, end, x);
      forall x': nat, e: nat | x' <= e <= end && Matches(g, nregs, rules, text, end, x', e)
        ensures x <= x' && LongestAt(g, nregs, rules, text, end, x) <= end
      {
        FitsLater(g, nregs, rules, text, end, x, x', e);
      }
      hide Compiled, Readable, Candidate, Overrun, LongestAt, Hits, Matches;
    }
  }

  lemma {:induction false} SameContextSameWay(s: Subject, t: Subject, p: Pattern, e: Rexp, i: nat, j: nat, x: nat,
                                              r: Regs, w: Way)
    requires Usable(s, p, e) && ValidSubject(t) && i <= j <= s.len && j <= t.len && SameContext(s, t, i, j)
    ensures Along(false, s, p, e, i, j, x, r, w) == Along(false, t, p, e, i, j, x, r, w)
    decreases w, 1
  {
    hide ValidPattern, InLang, AlongSplit;
    if Observed(e) {
      match e
      case Alt(a, b) =>
        if w.LeftOf? || w.RightOf? { SameContextSameWay(s, t, p, if w.LeftOf? then a else b, i, j, 0, r, w.inner); }
      case Opt(a) => if w.Body? { SameContextSameWay(s, t, p, a, i, j, 0, r, w.inner); }
      case Parens(_, a) => if w.Body? { SameContextSameWay(s, t, p, a, i, j, 0, r, w.inner); }
      case Context(_) =>
      case Concat(_, _) => SameContextSameSplit(s, t, p, e, i, j, x, r, w);
      case Star(_) => SameContextSameSplit(s, t, p, e, i, j, x, r, w);
      case Plus(_) => SameContextSameSplit(s, t, p, e, i, j, x, r, w);
      case Interval(_, _, _) => SameContextSameSplit(s, t, p, e, i, j, x, r, w);
    }
  }

  lemma {:induction false} SameContextSameSplit(s: Subject, t: Subject, p: Pattern, e: Rexp, i: nat, j: nat, x: nat,
                                                r: Regs, w: Way)
    requires Usable(s, p, e) && ValidSubject(t) && i <= j <= s.len && j <= t.len && SameContext(s, t, i, j)
    requires IsSplitter(e)
    ensures AlongSplit(false, s, p, e, i, j, x, r, w) == AlongSplit(false, t, p, e, i, j, x, r, w)
    decreases w, 0
  {
    hide ValidPattern, InLang, Along;
    if w.Then? && i <= w.m <= j {
      SameContextSameWay(s, t, p, e.left, i, w.m, 0, r, w.first);
      var o := Along(false, s, p, e.left, i, w.m, 0, r, w.first);
      if o.Some? {
        if e.Concat? { SameContextSameWay(s, t, p, e.right, w.m, j, 0, o.value, w.rest); }
        else if e.Interval? { SameContextSameWay(s, t, p, e, w.m, j, x + 1, o.value, w.rest); }
        else if !w.rest.Stop? { SameContextSameWay(s, t, p, e, w.m, j, 0, o.value, w.rest); }
      }
    }
  }

  /** The registers of the preferred way to match [x, e), with the whole match as register 0. */
  ghost predicate BestRegs(g: Preg, nregs: nat, rules: Rules, text: Text, end: nat, x: nat, e: nat, pmatch: Regs) {
    exists r' ::
      && Best(false, Whole(g, rules, text, end), g.table, g.pattern, x, e, Unset(nregs), r')
      && 0 < |r'| == nregs && pmatch == r'[0 := Reg(x, e)]
  }

  /** The registers reported are those of the preferred way to match the pattern on the
      span reported, if no test is misled. */
  lemma ReportedIsBest(g: Preg, nregs: nat, rules: Rules, text: Text, end: nat, pmatch: Regs)
    requires Compiled(g, nregs) && Readable(g, text, end, end) && RightText(g, text, Furthest(g, end))
    requires SearchResult(g, nregs, rules, text, end, true, pmatch)
    ensures nregs > 0 && |pmatch| == nregs
    ensures pmatch[0].eo <= end ==>
      && 0 <= pmatch[0].so <= pmatch[0].eo
      && BestRegs(g, nregs, rules, text, end, pmatch[0].so, pmatch[0].eo, pmatch)
  {
    assert end <= |text|;
    var x: nat :| x <= end && FirstCandidate(g, nregs, rules, text, end, x, pmatch);
    hide Compiled, Readable, Candidate, NoCandidate, LongestAt, Hits, RightText, Best;
    var e := LongestAt(g, nregs, rules, text, end, x);
    if e <= end { HitIsBest(g, nregs, rules, text, end, x, e); }
  }

  lemma HitIsBest(g: Preg, nregs: nat, rules: Rules, text: Text, end: nat, x: nat, e: nat)
    requires Compiled(g, nregs) && RightText(g, text, Furthest(g, end)) && x <= e <= end <= |text|
    requires Hits(g, nregs, rules, text, end, x, e) != []
    ensures Best(false, Whole(g, rules, text, end), g.table, g.pattern, x, e, Unset(nregs),
      Hits(g, nregs, rules, text, end, x, e)[0])
  {
    hide Outcomes, Matchable, WellScoped, ValidPattern, SafeBodies, Nullable, Marks, Anchored, RightOn, RightText;
    hide Along;
    var s, t := Attempt(g, rules, text, end, e), Whole(g, rules, text, end);
    SafeMatchable(s, nregs, g.pattern);
    UnsetConsistent(s, g.table, nregs);
    RightAttempt(g, rules, text, end, x, e, Furthest(g, end));
    FirstIsBest(s, g.table, nregs, g.pattern, x, e, Unset(nregs));
    AttemptContext(g, rules, text, end, x, e);
    forall w ensures Along(false, s, g.table, g.pattern, x, e, 0, Unset(nregs), w)
      == Along(false, t, g.table, g.pattern, x, e, 0, Unset(nregs), w)
    {
      SameContextSameWay(s, t, g.table, g.pattern, x, e, 0, Unset(nregs), w);
    }
    var w :| Preferred(false, s, g.table, g.pattern, x, e, Unset(nregs), w, Hits(g, nregs, rules, text, end, x, e)[0]);
    assert Preferred(false, t, g.table, g.pattern, x, e, Unset(nregs), w, Hits(g, nregs, rules, text, end, x, e)[0]);
  }

  lemma MatchIsCandidate(g: Preg, nregs: nat, rules: Rules, text: Text, end: nat, x: nat, e: nat)
    requires Compiled(g, nregs) && Readable(g, text, end, end) && x <= e <= end
    requires end <= RX_MANY_CASES || !InLang(Simple(g), [])
    requires Matches(g, nregs, rules, text, end, x, e)
    ensures Candidate(g, nregs, rules, text, end, x)
  {
    hide Dies, LongestAt, Readable, InLang, Matches;
    MatchIsSeen(g, nregs, rules, text, end, x, e);
  }

  /** After an overrun no match fits. */
  lemma FitsLater(g: Preg, nregs: nat, rules: Rules, text: Text, end: nat, x: nat, x': nat, e: nat)
    requires Compiled(g, nregs) && Readable(g, text, end, end) && x <= end && x' <= e <= end
    requires NoCandidate(g, nregs, rules, text, end, x) && Candidate(g, nregs, rules, text, end, x')
    requires Matches(g, nregs, rules, text, end, x', e) && LongestAt(g, nregs, rules, text, end, x) >= 0
    ensures x <= x' && LongestAt(g, nregs, rules, text, end, x) <= end
  {
    hide Compiled, Longest, Hits, Candidate;
    ReadableBefore(g, text, end, x);
    LongestCovers(g, nregs, rules, text, end, x);
    var r' :| Match(Whole(g, rules, text, end), g.pattern, x', e, Unset(nregs), r');
    FixedLenSound(Whole(g, rules, text, end), g.pattern, x', e, Unset(nregs), r');
  }

  /** The character is in no set of the tree. */
  predicate Avoids(e: Rexp, c: Byte) {
    match e
    case Null => true
    case Cset(cs) => c !in cs
    case Str(t) => c !in t
    case Concat(a, b) => Avoids(a, c) && Avoids(b, c)
    case Alt(a, b) => Avoids(a, c) && Avoids(b, c)
    case Opt(a) => Avoids(a, c)
    case Star(a) => Avoids(a, c)
    case Plus(a) => Avoids(a, c)
    case Interval(a, _, _) => Avoids(a, c)
    case Parens(_, a) => Avoids(a, c)
    case Context(_) => true
  }

  lemma {:induction false} AvoidedNotMatched(s: Subject, e: Rexp, i: nat, j: nat, r: Regs, r': Regs, k: nat)
    requires ValidSubject(s) && i <= k < j <= s.len && Match(s, e, i, j, r, r') && FixedLen(e) >= 0
    ensures !Avoids(e, s.text[k])
  {
    match e
    case Str(t) => assert s.text[i..j][k - i] == s.text[k];
    case Concat(a, b) =>
      var m, r1 := SplitOf(s, e, i, j, r, r');
      if k < m { AvoidedNotMatched(s, a, i, m, r, r1, k); } else { AvoidedNotMatched(s, b, m, j, r1, r', k); }
    case Alt(a, b) =>
      if Match(s, a, i, j, r, r') { AvoidedNotMatched(s, a, i, j, r, r', k); }
      else { AvoidedNotMatched(s, b, i, j, r, r', k); }
    case Parens(n, a) =>
      var r1: Regs :| Match(s, a, i, j, r, r1) && r' == Record(r1, n, i, j);
      AvoidedNotMatched(s, a, i, j, r, r1, k);
    case _ =>
  }

  /** So there is no overrun if the byte after the subject is in no set of the pattern,
      like the NUL after a string. */
  lemma NoOverrun(g: Preg, nregs: nat, rules: Rules, text: Text, end: nat, x: nat)
    requires Compiled(g, nregs) && Readable(g, text, end, end) && x <= end
    requires end < |text| && Avoids(g.pattern, text[end])
    ensures !Overrun(g, nregs, rules, text, end, x)
  {
    hide Compiled, Dies, Avoids, Match;
    var l := FixedLen(g.pattern);
    if l >= 0 && x + l > end && Reaches(g, nregs, rules, text, end, x, x + l) {
      var s := Attempt(g, rules, text, end, x + l);
      var r' :| Match(s, g.pattern, x, x + l, Unset(nregs), r');
      AvoidedNotMatched(s, g.pattern, x, x + l, Unset(nregs), r', end);
    }
  }

  // ---------------------------------------------------------- where it goes wrong

  /** The tree of `(ab)?`, and what the pre-check makes of it. */
  const GROUPED: Rexp := Opt(Parens(1, Str([97, 98])))

  const OPTIONAL: Rexp := Opt(Str([97, 98]))

  /** `a` and then thirty times `c`. */
  function Spoiler(): (t: Text)
    ensures |t| == 31 && t[0] == 97 && forall k :: 1 <= k < 31 ==> t[k] == 99
  {
    [97] + seq(30, _ => 99)
  }

  function Automaton(): Graph { [[Eps(1), On({97}, 2)], [], [On({98}, 1)]] }

  lemma OptionalAutomaton()
    ensures Built([], OPTIONAL, None, None) == Fragment(Automaton(), 0, 1)
  {
    var g2: Graph := [[], []];
    var g3: Graph := [[], [], []];
    var h3: Graph := [[], [], [On({98}, 1)]];
    var h4: Graph := [[On({97}, 2)], [], [On({98}, 1)]];
    assert WithGiven([], None) == [[]] && WithGiven(WithGiven([], None), None) == g2;
    assert [97, 98][1..] == [98];
    assert g2 + [[]] == g3;
    assert AddEdge(g3, 2, On({98}, 1)) == h3 by { assert [On({98}, 1)] + g3[2] == h3[2]; }
    assert BuiltStr(g3, [98], 2, 1) == Fragment(h3, 2, 1);
    assert AddEdge(h3, 0, On({97}, 2)) == h4 by { assert [On({97}, 2)] + h3[0] == h4[0]; }
    assert BuiltStr(g2, [97, 98], 0, 1) == Fragment(h4, 0, 1);
    assert Built(g2, Str([97, 98]), Some(0), Some(1)) == BuiltStr(g2, [97, 98], 0, 1);
    assert AddEdge(h4, 0, Eps(1)) == Automaton() by { assert [Eps(1)] + h4[0] == Automaton()[0]; }
    assert BuiltNode(g2, OPTIONAL, 0, 1) == BuiltOpt(Fragment(h4, 0, 1));
  }

  lemma OnlyItself(g: Graph, p: nat, q: nat)
    requires p < |g| && (forall k :: 0 <= k < |g[p]| ==> g[p][k].On?) && q in Closure(g, p)
    ensures q == p
  {
    assert forall edge :: edge in g[p] ==> edge.On?;
    var n: nat :| PathN(g, p, [], q, n);
    assert forall edge :: n > 0 && edge in g[p] ==> !StepN(g, edge, [], q, n);
  }

  lemma LowTame(g: Graph, w: Text)
    requires forall k :: 0 <= k < |w| ==> Low(w[k])
    ensures TameText(g, w)
  {
    forall k | 0 <= k < |w| ensures Tame(g, w[k]) { assert Low(w[k]) && Twins(g, w[k], w[k]); }
  }

  /** After `a` only state 2 is left, and after `ac` none. */
  lemma OptionalWalk()
    ensures !Dead(OPTIONAL, [97]) && Dead(OPTIONAL, [97, 99])
  {
    OptionalAutomaton();
    var g := Automaton();
    var from := Closure(g, 0);
    EmptyPath(g, 0);
    EmptyPath(g, 2);
    assert On({97}, 2) in g[0] by { assert g[0][1] == On({97}, 2); }
    assert StepFrom(g, from, 97, 2);
    assert Run(g, from, [97]) == Successors(g, from, 97) by { assert [97][1..] == []; }
    assert 2 in Run(g, from, [97]);
    var after := Successors(g, from, 97);
    forall q | q in after ensures q == 2 {
      var p, edge: Edge :| p in from && 0 <= p < |g| &&
        edge in g[p] && edge.On? && 97 in edge.cs && q in Closure(g, edge.dest);
      assert edge == On({97}, 2);
      OnlyItself(g, 2, q);
    }
    assert Successors(g, after, 99) == {};
    assert [97, 99][1..] == [99] && [99][1..] == [];
    assert Run(g, from, [97, 99]) == Run(g, after, [99]) == Run(g, Successors(g, after, 99), []);
    LowTame(g, [97]);
    LowTame(g, [97, 99]);
    TameIsRight(g, from, [97]);
    TameIsRight(g, from, [97, 99]);
  }

  ghost function OptionalPreg(): Preg {
    var table := Pattern([Null, Parens(1, Str([97, 98]))], [0, 1]);
    Preg(GROUPED, table, false, true, false, set c: Byte | Marks(GROUPED, c))
  }

  lemma SpoilerReadable()
    ensures Compiled(OptionalPreg(), 2) && Readable(OptionalPreg(), Spoiler(), 31, 31)
    ensures RightText(OptionalPreg(), Spoiler(), 31)
  {
    LowIsRight(OptionalPreg(), Spoiler(), 31);
  }

  /** No test is misled by characters below 224. */
  lemma LowIsRight(g: Preg, text: Text, n: nat)
    requires n <= |text| && NonEmptyStrings(g.pattern)
    requires forall k :: 0 <= k < n ==> Low(text[k]) && (Refers(g.pattern) ==> text[k] > 0)
    ensures RightText(g, text, n)
  {
    var s := Subject(text, n, false, false, false);
    forall k | 0 <= k < n ensures CleanByte(g.pattern, text[k]) { LowIsClean(g.pattern, text[k]); }
    CleanIsFollowed(s, g.pattern, 0, n);
    FollowedIsRight(s, g.pattern, 0, n);
  }

  lemma SpoilerBest(rules: Rules)
    ensures IsBest(OptionalPreg(), 2, rules, Spoiler(), 31, 0, 0)
  {
    var g, text := OptionalPreg(), Spoiler();
    assert Match(Whole(g, rules, text, 31), GROUPED, 0, 0, Unset(2), Unset(2));
    forall e' | 0 < e' <= 31 ensures !Matches(g, 2, rules, text, 31, 0, e') {
      assert |text[0..e']| == 2 ==> text[0..e'][1] == 99;
    }
  }

  lemma SpoilerGivenUp()
    ensures Compiled(OptionalPreg(), 2) && GivenUp(OptionalPreg(), Spoiler(), 31, 0)
  {
    hide Dead, Accepts, RightText;
    var text := Spoiler();
    SpoilerReadable();
    OptionalWalk();
    assert text[0..31] == text && text[..1] == [97] && text[..2] == [97, 99];
    forall k | 0 <= k < 1 ensures TameFor(OPTIONAL, [97][k]) { LowIsTame(OPTIONAL, 97); }
    AcceptsTame(OPTIONAL, [97]);
    assert !InLang(OPTIONAL, [97]);
    assert Simple(OptionalPreg()) == OPTIONAL;
    assert DiesAt(OPTIONAL, text, 1);
  }

  /** The pre-check loses an empty match: `(ab)?` matches the empty text at 0, and the
      search gives that start up. */
  lemma EmptyMatchLost()
    ensures exists g: Preg, rules: Rules, text: Text ::
      && g.pattern == GROUPED && Compiled(g, 2) && Readable(g, text, 31, 31) && RightText(g, text, 31)
      && IsBest(g, 2, rules, text, 31, 0, 0) && GivenUp(g, text, 31, 0)
  {
    assert OptionalPreg().pattern == GROUPED;
    hide Compiled, Readable, RightText, IsBest, GivenUp, OptionalPreg, Spoiler;
    SpoilerReadable();
    SpoilerBest(Rules(false, false));
    SpoilerGivenUp();
  }

  /** An attempt of fixed length reads past the end: `ab` is found in the subject `a`
      when the memory after it holds a `b`. */
  lemma PastTheEnd()
    ensures exists g: Preg, rules: Rules, text: Text ::
      Compiled(g, 1) && Readable(g, text, 1, 1) && RightText(g, text, 3) && Overrun(g, 1, rules, text, 1, 0)
  {
    var e := Str([97, 98]);
    var g := Preg(e, Pattern([], []), false, false, false, set c: Byte | Marks(e, c));
    var rules, text: Text := Rules(false, false), [97, 98, 0, 0];
    assert Compiled(g, 1) && Readable(g, text, 1, 1);
    LowIsRight(g, text, 3);
    assert text[0..2] == [97, 98];
    assert Match(Attempt(g, rules, text, 1, 2), e, 0, 2, Unset(1), Unset(1));
    assert Overrun(g, 1, rules, text, 1, 0);
  }

  /** What the engine gets wrong the search reports: a pattern that asks for the byte 255
      and a `b`, or an `a`, is found in a subject that is the byte 255. */
  lemma WrongMatchReported()
    ensures exists g: Preg, rules: Rules, text: Text ::
      && Compiled(g, 1) && Readable(g, text, 1, 1) && Candidate(g, 1, rules, text, 1, 0)
      && LongestAt(g, 1, rules, text, 1, 0) == 1 && !Matches(g, 1, rules, text, 1, 0, 1)
  {
    var rules, text: Text := Rules(false, false), [255];
    ForkedCompiled();
    ForkedHits(rules);
    ForkedMatches(rules);
    hide Compiled, ForkedPreg, Hits, Matches, Marks, GivenUp;
    ReadableBefore(ForkedPreg(), text, 1, 0);
    assert Candidate(ForkedPreg(), 1, rules, text, 1, 0);
  }

  ghost function ForkedPreg(): Preg {
    Preg(FORKED, Pattern([], []), false, false, false, set c: Byte | Marks(FORKED, c))
  }

  lemma ForkedCompiled()
    ensures Compiled(ForkedPreg(), 1) && Readable(ForkedPreg(), [255], 1, 1) && Promising(ForkedPreg(), [255], 1, 0)
    ensures !GivenUp(ForkedPreg(), [255], 1, 0) && Highest(ForkedPreg(), 0, 1) == 1 && Lowest(ForkedPreg(), 0) == 0
  {
    hide Dies;
    assert Marks(FORKED, 255) by { assert Marks(Str([255, 98]), 255); }
  }

  lemma ForkedHits(rules: Rules)
    requires Compiled(ForkedPreg(), 1)
    ensures Hits(ForkedPreg(), 1, rules, [255], 1, 0, 1) != []
  {
    hide Accepts;
    LastWordMisjudged();
    var text: Text := [255];
    assert text[0..1] == [255];
    assert Leaf(FORKED, [255]);
  }

  lemma ForkedMatches(rules: Rules)
    ensures !Matches(ForkedPreg(), 1, rules, [255], 1, 0, 1)
  {
    var s := Whole(ForkedPreg(), rules, [255], 1);
    assert s.text[0..1] == [255];
    LastWordMisjudged();
    forall r' ensures !Match(s, FORKED, 0, 1, Unset(1), r') { UnobservedIsRegular(s, FORKED, 0, 1, Unset(1), r'); }
  }
}
