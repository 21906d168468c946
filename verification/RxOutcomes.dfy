/** The register outcomes of matching a tree on a span, in the order in which the
    backtracking matcher yields them, with every test it makes on the way; and their
    relation to the outcomes that `Match` allows. */
module RxOutcomes {
  import opened RxNode
  import opened RxAnal
  import opened RxSimp
  import opened RxStr
  import opened RxUnfa

  ghost predicate NeverEmpty(s: Subject, a: Rexp)
    requires ValidSubject(s)
  {
    forall i: nat, r: Regs, r': Regs :: i <= s.len ==> !Match(s, a, i, i, r, r')
  }

  /** What the matcher demands of a tree: bodies of observed stars and pluses never
      match the empty string, intervals are not reversed, and a group has a register
      that nothing inside the group writes. */
  ghost predicate Matchable(s: Subject, nregs: nat, e: Rexp)
    requires ValidSubject(s)
  {
    match e
    case Null => true
    case Cset(_) => true
    case Str(_) => true
    case Concat(a, b) => Matchable(s, nregs, a) && Matchable(s, nregs, b)
    case Alt(a, b) => Matchable(s, nregs, a) && Matchable(s, nregs, b)
    case Opt(a) => Matchable(s, nregs, a)
    case Star(a) => Matchable(s, nregs, a) && (Observed(a) ==> NeverEmpty(s, a))
    case Plus(a) => Matchable(s, nregs, a) && (Observed(a) ==> NeverEmpty(s, a))
    case Interval(a, min, max) => Matchable(s, nregs, a) && min <= max
    case Parens(n, a) => Matchable(s, nregs, a) && n < nregs && n !in Groups(a)
    case Context(Backref(n)) => 0 < n < nregs
    case Context(_) => true
  }

  /** Whether some match of the tree is empty. */
  predicate CanBeEmpty(e: Rexp) {
    match e
    case Null => true
    case Cset(_) => false
    case Str(t) => t == []
    case Concat(a, b) => CanBeEmpty(a) && CanBeEmpty(b)
    case Alt(a, b) => CanBeEmpty(a) || CanBeEmpty(b)
    case Opt(_) => true
    case Star(_) => true
    case Plus(a) => CanBeEmpty(a)
    case Interval(a, min, max) => min <= max && (min == 0 || CanBeEmpty(a))
    case Parens(_, a) => CanBeEmpty(a)
    case Context(_) => true
  }

  /** The demands on a tree for all subjects at once. */
  predicate SafeBodies(nregs: nat, e: Rexp) {
    match e
    case Null => true
    case Cset(_) => true
    case Str(_) => true
    case Concat(a, b) => SafeBodies(nregs, a) && SafeBodies(nregs, b)
    case Alt(a, b) => SafeBodies(nregs, a) && SafeBodies(nregs, b)
    case Opt(a) => SafeBodies(nregs, a)
    case Star(a) => SafeBodies(nregs, a) && (Observed(a) ==> !CanBeEmpty(a))
    case Plus(a) => SafeBodies(nregs, a) && (Observed(a) ==> !CanBeEmpty(a))
    case Interval(a, min, max) => SafeBodies(nregs, a) && min <= max
    case Parens(n, a) => SafeBodies(nregs, a) && n < nregs && n !in Groups(a)
    case Context(Backref(n)) => 0 < n < nregs
    case Context(_) => true
  }

  lemma {:induction false} EmptyMatchSeen(s: Subject, e: Rexp, i: nat, r: Regs, r': Regs)
    requires ValidSubject(s) && i <= s.len && Match(s, e, i, i, r, r')
    ensures CanBeEmpty(e)
    decreases e, 1
  {
    match e
    case Concat(a, b) =>
      var m, r1 := SplitOf(s, e, i, i, r, r');
      EmptyMatchSeen(s, a, i, r, r1);
      EmptyMatchSeen(s, b, i, r1, r');
    case Alt(a, b) =>
      if Match(s, a, i, i, r, r') { EmptyMatchSeen(s, a, i, r, r'); } else { EmptyMatchSeen(s, b, i, r, r'); }
    case Plus(a) => EmptyRepeatSeen(s, e, i, r, r');
    case Interval(a, _, _) => EmptyRepeatSeen(s, e, i, r, r');
    case Parens(n, a) =>
      var r1: Regs :| Match(s, a, i, i, r, r1) && r' == Record(r1, n, i, i);
      EmptyMatchSeen(s, a, i, r, r1);
    case _ =>
  }

  lemma {:induction false} EmptyRepeatSeen(s: Subject, e: Rexp, i: nat, r: Regs, r': Regs)
    requires ValidSubject(s) && i <= s.len && (e.Plus? || e.Interval?) && Match(s, e, i, i, r, r')
    ensures (e.Interval? && e.min == 0) || CanBeEmpty(e.left)
    ensures e.Interval? ==> e.min <= e.max
    decreases e, 0
  {
    var k := RepeatOf(s, e, i, i, r, r');
    if k > 0 {
      var m, r1 := FirstRepeat(s, e.left, k, i, i, r, r');
      EmptyMatchSeen(s, e.left, i, r, r1);
    }
  }

  /** A subject and registers with which everything that can be empty is. */
  const NOTHING_THERE: Subject := Subject([], 0, false, false, false)

  function Zeros(n: nat): Regs { seq(n, _ => Reg(0, 0)) }

  lemma {:induction false} EmptyMatchExists(nregs: nat, e: Rexp)
    requires CanBeEmpty(e) && SafeBodies(nregs, e)
    ensures Match(NOTHING_THERE, e, 0, 0, Zeros(nregs), Zeros(nregs))
  {
    var s, r := NOTHING_THERE, Zeros(nregs);
    match e
    case Concat(a, b) => EmptyMatchExists(nregs, a); EmptyMatchExists(nregs, b);
    case Alt(a, b) => if CanBeEmpty(a) { EmptyMatchExists(nregs, a); } else { EmptyMatchExists(nregs, b); }
    case Star(a) => assert Repeat(s, a, 0, 0, 0, r, r);
    case Plus(a) => EmptyMatchExists(nregs, a); EmptyRepeats(nregs, a, 1);
    case Interval(a, min, _) =>
      if min > 0 { EmptyMatchExists(nregs, a); }
      EmptyRepeats(nregs, a, min);
    case Parens(n, a) =>
      EmptyMatchExists(nregs, a);
      assert Record(r, n, 0, 0) == r;
    case _ =>
  }

  lemma {:induction false} EmptyRepeats(nregs: nat, a: Rexp, k: nat)
    requires k > 0 ==> Match(NOTHING_THERE, a, 0, 0, Zeros(nregs), Zeros(nregs))
    ensures Repeat(NOTHING_THERE, a, k, 0, 0, Zeros(nregs), Zeros(nregs))
  {
    if k > 0 {
      EmptyRepeats(nregs, a, k - 1);
      ConsRepeat(NOTHING_THERE, a, k - 1, 0, 0, 0, Zeros(nregs), Zeros(nregs), Zeros(nregs));
    }
  }

  /** The check on the tree is exact: it passes if and only if the matcher can be given
      the tree on every subject. */
  lemma {:induction false} SafeBodiesExact(nregs: nat, e: Rexp)
    ensures SafeBodies(nregs, e) <==> forall s :: ValidSubject(s) ==> Matchable(s, nregs, e)
    decreases e, 1
  {
    var all := forall s :: ValidSubject(s) ==> Matchable(s, nregs, e);
    assert all ==> Matchable(NOTHING_THERE, nregs, e);
    if e.Interval? || e.Parens? {
      forall s | ValidSubject(s) && all ensures Matchable(s, nregs, e.left) { assert Matchable(s, nregs, e); }
    }
    match e
    case Concat(a, b) => SafeBodiesExact(nregs, a); SafeBodiesExact(nregs, b);
    case Alt(a, b) => SafeBodiesExact(nregs, a); SafeBodiesExact(nregs, b);
    case Opt(a) => SafeBodiesExact(nregs, a);
    case Star(a) => LoopBodyExact(nregs, e);
    case Plus(a) => LoopBodyExact(nregs, e);
    case Interval(a, _, _) => SafeBodiesExact(nregs, a);
    case Parens(_, a) => SafeBodiesExact(nregs, a);
    case _ =>
  }

  lemma {:induction false} LoopBodyExact(nregs: nat, e: Rexp)
    requires e.Star? || e.Plus?
    ensures SafeBodies(nregs, e) <==> forall s :: ValidSubject(s) ==> Matchable(s, nregs, e)
    decreases e, 0
  {
    var a := e.left;
    SafeBodiesExact(nregs, a);
    var all := forall s :: ValidSubject(s) ==> Matchable(s, nregs, e);
    assert all ==> Matchable(NOTHING_THERE, nregs, e);
    forall s | ValidSubject(s) && all ensures Matchable(s, nregs, a) { assert Matchable(s, nregs, e); }
    if SafeBodies(nregs, a) && CanBeEmpty(a) {
      EmptyMatchExists(nregs, a);
      assert !NeverEmpty(NOTHING_THERE, a);
    }
    if !CanBeEmpty(a) {
      forall s | ValidSubject(s) ensures NeverEmpty(s, a) {
        forall i: nat, r: Regs, r': Regs | i <= s.len ensures !Match(s, a, i, i, r, r') {
          if Match(s, a, i, i, r, r') { EmptyMatchSeen(s, a, i, r, r'); }
        }
      }
    }
  }

  predicate IsSplitter(e: Rexp) {
    e.Concat? || e.Star? || e.Plus? || e.Interval?
  }

  function IntervalRest(e: Rexp, x: nat): nat {
    if e.Interval? && x <= e.max then e.max - x else 0
  }

  // --------------------------------------------------------------------- the tests

  ghost predicate EngineFits(e: Rexp, w: Text) {
    ContextFree(e) && NonEmptyStrings(e) && Accepts(e, w)
  }

  predicate LengthFits(e: Rexp, n: nat) {
    FixedLen(e) >= 0 ==> FixedLen(e) == n
  }

  /** The test of a node that is not observed, which decides. */
  ghost predicate Leaf(e: Rexp, w: Text) {
    LengthFits(e, |w|) && (if e.Str? then w == e.text else e.Null? || EngineFits(e, w))
  }

  /** The test of an observed node, which only screens. */
  ghost predicate Screened(p: Pattern, e: Rexp, w: Text)
    requires ValidPattern(p) && WellScoped(p, e)
  {
    LengthFits(e, |w|) && EngineFits(Simplify(p, e), w)
  }

  ghost predicate Usable(s: Subject, p: Pattern, e: Rexp) {
    ValidSubject(s) && ValidPattern(p) && WellScoped(p, e) && NonEmptyStrings(e)
  }

  // ----------------------------------------------------------------- outcomes

  /** The outcomes on [i, j) from registers `r`; `x` counts the iterations of an
      interval already made. */
  ghost function Outcomes(s: Subject, p: Pattern, e: Rexp, i: nat, j: nat, x: nat, r: Regs): seq<Regs>
    requires Usable(s, p, e) && i <= j <= s.len
    decreases j - i, e, IntervalRest(e, x), 4
  {
    if !Observed(e) then
      if Leaf(e, s.text[i..j]) then [r] else []
    else
      if Screened(p, e, s.text[i..j]) then Inside(s, p, e, i, j, x, r) else []
  }

  /** ... once the span has passed the test. */
  ghost function Inside(s: Subject, p: Pattern, e: Rexp, i: nat, j: nat, x: nat, r: Regs): seq<Regs>
    requires Usable(s, p, e) && i <= j <= s.len && Observed(e)
    decreases j - i, e, IntervalRest(e, x), 3
  {
    match e
    case Alt(a, b) => Outcomes(s, p, a, i, j, 0, r) + Outcomes(s, p, b, i, j, 0, r)
    case Opt(a) => Outcomes(s, p, a, i, j, 0, r) + (if i == j then [r] else [])
    case Concat(_, _) => Splits(s, p, e, i, j, j, 0, r)
    case Star(_) => Splits(s, p, e, i, j, j, 0, r)
    case Plus(_) => Splits(s, p, e, i, j, j, 0, r)
    case Interval(_, min, max) =>
      (if min <= x <= max && i == j then [r] else []) + (if x < max then Splits(s, p, e, i, j, j, x, r) else [])
    case Parens(n, a) => RecordAll(if Observed(a) then Outcomes(s, p, a, i, j, 0, r) else [r], n, i, j)
    case Context(op) => if ContextFn(s, op, i, j, r) then [r] else []
  }

  /** The outcomes whose first part ends at a split no later than `m`, latest first. */
  ghost function Splits(s: Subject, p: Pattern, e: Rexp, i: nat, j: nat, m: int, x: nat, r: Regs): seq<Regs>
    requires Usable(s, p, e) && i <= j <= s.len && m <= j
    requires IsSplitter(e) && (e.Interval? ==> x < e.max)
    decreases j - i, e, IntervalRest(e, x), 2, m - i + 1
  {
    if m < i then
      if e.Star? && i == j then [r] else []
    else
      Tails(s, p, e, i, m, j, x, Outcomes(s, p, e.left, i, m, 0, r)) + Splits(s, p, e, i, j, m - 1, x, r)
  }

  /** The outcomes after each outcome of the first part in turn. */
  ghost function Tails(s: Subject, p: Pattern, e: Rexp, i: nat, m: nat, j: nat, x: nat, firsts: seq<Regs>): seq<Regs>
    requires Usable(s, p, e) && i <= m <= j <= s.len
    requires IsSplitter(e) && (e.Interval? ==> x < e.max)
    decreases j - i, e, IntervalRest(e, x), 1, |firsts|
  {
    if firsts == [] then [] else
    Tail(s, p, e, i, m, j, x, firsts[0]) + Tails(s, p, e, i, m, j, x, firsts[1..])
  }

  /** The outcomes on the rest [m, j) after the first part ended with registers `r1`. */
  ghost function Tail(s: Subject, p: Pattern, e: Rexp, i: nat, m: nat, j: nat, x: nat, r1: Regs): seq<Regs>
    requires Usable(s, p, e) && i <= m <= j <= s.len
    requires IsSplitter(e) && (e.Interval? ==> x < e.max)
    decreases j - i, e, IntervalRest(e, x), 0
  {
    match e
    case Concat(_, b) => Outcomes(s, p, b, m, j, 0, r1)
    case Interval(_, _, _) => Outcomes(s, p, e, m, j, x + 1, r1)
    case _ => (if m == j then [r1] else []) + (if m > i then Outcomes(s, p, e, m, j, 0, r1) else [])
  }

  ghost function RecordAll(rs: seq<Regs>, n: nat, i: int, j: int): (r': seq<Regs>)
    ensures |r'| == |rs| && forall k :: 0 <= k < |rs| ==> r'[k] == Record(rs[k], n, i, j)
  {
    seq(|rs|, k requires 0 <= k < |rs| => Record(rs[k], n, i, j))
  }

  // ------------------------------------------------------------- what the lists hold

  /** Some first part ends at `m`, and the outcome is one of those after it. */
  ghost predicate Chosen(s: Subject, p: Pattern, e: Rexp, i: nat, m: nat, j: nat, x: nat, r: Regs, r': Regs)
    requires Usable(s, p, e) && i <= m <= j <= s.len
    requires IsSplitter(e) && (e.Interval? ==> x < e.max)
  {
    exists r1: Regs :: r1 in Outcomes(s, p, e.left, i, m, 0, r) && r' in Tail(s, p, e, i, m, j, x, r1)
  }

  lemma {:induction false} TailsHave(s: Subject, p: Pattern, e: Rexp, i: nat, m: nat, j: nat, x: nat,
                          firsts: seq<Regs>, r': Regs)
    requires Usable(s, p, e) && i <= m <= j <= s.len
    requires IsSplitter(e) && (e.Interval? ==> x < e.max)
    ensures r' in Tails(s, p, e, i, m, j, x, firsts) <==> exists r1 ::
      r1 in firsts && r' in Tail(s, p, e, i, m, j, x, r1)
    decreases |firsts|
  {
    hide Tail, Usable;
    if firsts != [] {
      TailsHave(s, p, e, i, m, j, x, firsts[1..], r');
      assert firsts == [firsts[0]] + firsts[1..] && firsts[0] in firsts;
    }
  }

  lemma {:induction false} SplitsHave(s: Subject, p: Pattern, e: Rexp, i: nat, j: nat, m: int, x: nat, r: Regs,
                          r': Regs)
    requires Usable(s, p, e) && i <= j <= s.len && m <= j
    requires IsSplitter(e) && (e.Interval? ==> x < e.max)
    ensures r' in Splits(s, p, e, i, j, m, x, r) <==>
      (e.Star? && i == j && r' == r) || exists m1: nat :: i <= m1 <= m && Chosen(s, p, e, i, m1, j, x, r, r')
    decreases m - i + 1
  {
    hide Tails, Tail, Outcomes;
    if m >= i {
      SplitsHave(s, p, e, i, j, m - 1, x, r, r');
      TailsHave(s, p, e, i, m, j, x, Outcomes(s, p, e.left, i, m, 0, r), r');
      assert r' in Tails(s, p, e, i, m, j, x, Outcomes(s, p, e.left, i, m, 0, r)) <==>
        Chosen(s, p, e, i, m, j, x, r, r');
    }
  }

  // ------------------------------------------------------------------ the link

  /** What the outcomes of a node should be when `x` interval iterations are done. */
  ghost predicate Allowed(s: Subject, e: Rexp, i: nat, j: nat, x: nat, r: Regs, r': Regs)
    requires ValidSubject(s) && i <= j <= s.len
  {
    if e.Interval? then exists k: nat :: e.min <= x + k <= e.max && Repeat(s, e.left, k, i, j, r, r')
    else Match(s, e, i, j, r, r')
  }

  /** The rest of a split node accepts [m, j) from `r1`. */
  ghost predicate TailAllowed(s: Subject, e: Rexp, m: nat, j: nat, x: nat, r1: Regs, r': Regs)
    requires ValidSubject(s) && m <= j <= s.len && IsSplitter(e)
  {
    match e
    case Concat(_, b) => Match(s, b, m, j, r1, r')
    case Interval(a, min, max) => Allowed(s, e, m, j, x + 1, r1, r')
    case _ => exists k: nat :: Repeat(s, e.left, k, m, j, r1, r')
  }

  /** Some first part ends at `m` and the rest is accepted after it. */
  ghost predicate SplitAllowed(s: Subject, e: Rexp, i: nat, m: nat, j: nat, x: nat, r: Regs, r': Regs)
    requires ValidSubject(s) && i <= m <= j <= s.len && IsSplitter(e)
  {
    exists r1: Regs :: Match(s, e.left, i, m, r, r1) && TailAllowed(s, e, m, j, x, r1, r')
  }

  /** On [i, j) no test that decides is misled: that of a tree without observed parts,
      that of a group around one, and that of a back-reference. */
  ghost predicate RightOn(s: Subject, e: Rexp, i: nat, j: nat)
    requires ValidSubject(s) && i <= j <= s.len
  {
    if !Observed(e) then LeafRight(s, e, i, j) else
    match e
    case Concat(a, b) => RightOn(s, a, i, j) && RightOn(s, b, i, j)
    case Alt(a, b) => RightOn(s, a, i, j) && RightOn(s, b, i, j)
    case Opt(a) => RightOn(s, a, i, j)
    case Star(a) => RightOn(s, a, i, j)
    case Plus(a) => RightOn(s, a, i, j)
    case Interval(a, _, _) => RightOn(s, a, i, j)
    case Parens(_, a) => if Observed(a) then RightOn(s, a, i, j) else EngineRight(s, a, i, j)
    case Context(Backref(_)) => NulsHideNothing(s, i, j)
    case Context(_) => true
  }

  ghost predicate LeafRight(s: Subject, e: Rexp, i: nat, j: nat)
    requires ValidSubject(s) && i <= j <= s.len
  {
    forall a, b :: i <= a <= b <= j && Leaf(e, s.text[a..b]) ==> InLang(e, s.text[a..b])
  }

  ghost predicate EngineRight(s: Subject, e: Rexp, i: nat, j: nat)
    requires ValidSubject(s) && i <= j <= s.len
  {
    forall a, b :: i <= a <= b <= j && EngineFits(e, s.text[a..b]) ==> InLang(e, s.text[a..b])
  }

  ghost predicate NulsHideNothing(s: Subject, i: nat, j: nat)
    requires ValidSubject(s) && i <= j <= s.len
  {
    forall g, a, b :: i <= a <= b <= j ==> !HiddenByNul(s, g, a, b)
  }

  lemma {:induction false} RightOnPart(s: Subject, e: Rexp, i: nat, j: nat, a: nat, b: nat)
    requires ValidSubject(s) && i <= a <= b <= j <= s.len && RightOn(s, e, i, j)
    ensures RightOn(s, e, a, b)
  {
    hide Leaf, EngineFits, HiddenByNul, InLang;
    if Observed(e) {
      match e
      case Concat(c, d) => RightOnPart(s, c, i, j, a, b); RightOnPart(s, d, i, j, a, b);
      case Alt(c, d) => RightOnPart(s, c, i, j, a, b); RightOnPart(s, d, i, j, a, b);
      case Opt(c) => RightOnPart(s, c, i, j, a, b);
      case Star(c) => RightOnPart(s, c, i, j, a, b);
      case Plus(c) => RightOnPart(s, c, i, j, a, b);
      case Interval(c, _, _) => RightOnPart(s, c, i, j, a, b);
      case Parens(_, c) => if Observed(c) { RightOnPart(s, c, i, j, a, b); }
      case Context(_) =>
    }
  }

  /** Nothing can mislead the tests on an empty span. */
  lemma {:induction false} RightOnNothing(s: Subject, e: Rexp, i: nat)
    requires ValidSubject(s) && i <= s.len && NonEmptyStrings(e)
    ensures RightOn(s, e, i, i)
  {
    assert s.text[i..i] == [];
    if !Observed(e) {
      EmptyLeaf(e);
      assert forall a, b :: i <= a <= b <= i ==> s.text[a..b] == [];
    } else {
      match e
      case Concat(c, d) => RightOnNothing(s, c, i); RightOnNothing(s, d, i);
      case Alt(c, d) => RightOnNothing(s, c, i); RightOnNothing(s, d, i);
      case Opt(c) => RightOnNothing(s, c, i);
      case Star(c) => RightOnNothing(s, c, i);
      case Plus(c) => RightOnNothing(s, c, i);
      case Interval(c, _, _) => RightOnNothing(s, c, i);
      case Parens(_, c) =>
        if Observed(c) { RightOnNothing(s, c, i); } else {
          EmptyLeaf(c);
          assert forall a, b :: i <= a <= b <= i ==> s.text[a..b] == [];
        }
      case Context(_) =>
        assert forall a, b :: i <= a <= b <= i ==> s.text[a..b] == [];
    }
  }

  lemma EmptyLeaf(e: Rexp)
    requires NonEmptyStrings(e)
    ensures (Leaf(e, []) || EngineFits(e, [])) && !Observed(e) ==> InLang(e, [])
  {
    if ContextFree(e) { AcceptsNothing(e); }
  }

  lemma AllowedChild(s: Subject, e: Rexp, i: nat, j: nat, r: Regs, r': Regs)
    requires ValidSubject(s) && i <= j <= s.len
    ensures Allowed(s, e, i, j, 0, r, r') <==> Match(s, e, i, j, r, r')
  {
    if e.Interval? {
      if Match(s, e, i, j, r, r') {
        var k := RepeatOf(s, e, i, j, r, r');
        assert e.min <= 0 + k <= e.max;
      }
    }
  }

  /** What an outcome may have changed. */
  ghost predicate Touches(s: Subject, e: Rexp, r: Regs, r': Regs) {
    |r'| == |r| && InRange(s, r') && forall n :: 0 <= n < |r| && n !in Groups(e) ==> r'[n] == r[n]
  }

  lemma {:induction false} OutcomesFramed(s: Subject, p: Pattern, e: Rexp, i: nat, j: nat, x: nat, r: Regs, r': Regs)
    requires Usable(s, p, e) && i <= j <= s.len && InRange(s, r) && r' in Outcomes(s, p, e, i, j, x, r)
    ensures Touches(s, e, r, r')
    decreases j - i, e, IntervalRest(e, x), 1
  {
    hide Leaf, Screened, ValidPattern, Splits, Tails;
    if Observed(e) {
      match e
      case Alt(a, b) =>
        if r' in Outcomes(s, p, a, i, j, 0, r) { OutcomesFramed(s, p, a, i, j, 0, r, r'); }
        else { OutcomesFramed(s, p, b, i, j, 0, r, r'); }
      case Opt(a) =>
        if r' in Outcomes(s, p, a, i, j, 0, r) { OutcomesFramed(s, p, a, i, j, 0, r, r'); }
      case Parens(n, a) =>
        var rs := if Observed(a) then Outcomes(s, p, a, i, j, 0, r) else [r];
        var all := RecordAll(rs, n, i, j);
        var k :| 0 <= k < |all| && all[k] == r';
        if Observed(a) { OutcomesFramed(s, p, a, i, j, 0, r, rs[k]); }
      case Context(_) =>
      case Concat(_, _) => RepeatedFramed(s, p, e, i, j, x, r, r');
      case Star(_) => RepeatedFramed(s, p, e, i, j, x, r, r');
      case Plus(_) => RepeatedFramed(s, p, e, i, j, x, r, r');
      case Interval(_, _, _) => RepeatedFramed(s, p, e, i, j, x, r, r');
    }
  }

  lemma {:induction false} RepeatedFramed(s: Subject, p: Pattern, e: Rexp, i: nat, j: nat, x: nat, r: Regs, r': Regs)
    requires Usable(s, p, e) && i <= j <= s.len && InRange(s, r) && Observed(e) && IsSplitter(e)
    requires r' in Inside(s, p, e, i, j, x, r)
    ensures Touches(s, e, r, r')
    decreases j - i, e, IntervalRest(e, x), 1, 0
  {
    hide Splits, Outcomes, ValidPattern;
    if e.Interval? && x >= e.max { return; }
    var y := if e.Interval? then x else 0;
    SplitsHave(s, p, e, i, j, j, y, r, r');
    if m: nat :| i <= m <= j && Chosen(s, p, e, i, m, j, y, r, r') {
      ChosenFramed(s, p, e, i, m, j, y, r, r');
    }
  }

  lemma {:induction false} ChosenFramed(s: Subject, p: Pattern, e: Rexp, i: nat, m: nat, j: nat, x: nat, r: Regs,
                          r': Regs)
    requires Usable(s, p, e) && i <= m <= j <= s.len && InRange(s, r)
    requires IsSplitter(e) && (e.Interval? ==> x < e.max) && Chosen(s, p, e, i, m, j, x, r, r')
    ensures Touches(s, e, r, r')
    decreases j - i, e, IntervalRest(e, x), 0
  {
    hide ValidPattern, Outcomes;
    var r1: Regs :| r1 in Outcomes(s, p, e.left, i, m, 0, r) && r' in Tail(s, p, e, i, m, j, x, r1);
    OutcomesFramed(s, p, e.left, i, m, 0, r, r1);
    if e.Concat? {
      OutcomesFramed(s, p, e.right, m, j, 0, r1, r');
    } else if e.Interval? {
      OutcomesFramed(s, p, e, m, j, x + 1, r1, r');
    } else if m > i && r' in Outcomes(s, p, e, m, j, 0, r1) {
      OutcomesFramed(s, p, e, m, j, 0, r1, r');
    }
  }

  /** An allowed outcome is in the language of the simplified tree and keeps the registers
      consistent. */
  lemma FilterCovers(s: Subject, p: Pattern, e: Rexp, i: nat, j: nat, x: nat, r: Regs, r': Regs)
    requires ValidSubject(s) && i <= j <= s.len
    requires ValidPattern(p) && WellScoped(p, e) && Consistent(s, p, r)
    requires Allowed(s, e, i, j, x, r, r')
    ensures InLang(Simplify(p, e), s.text[i..j]) && Consistent(s, p, r') && |r'| == |r|
  {
    if e.Interval? {
      var k: nat :| e.min <= x + k <= e.max && Repeat(s, e.left, k, i, j, r, r');
      RepeatCovers(s, p, e.left, k, i, j, r, r');
      RepeatFrame(s, e.left, k, i, j, r, r');
    } else {
      SimplifyCovers(s, p, e, i, j, r, r');
      MatchFrame(s, e, i, j, r, r');
    }
  }

  lemma ConsistentInRange(s: Subject, p: Pattern, r: Regs)
    requires ValidSubject(s) && ValidPattern(p) && Consistent(s, p, r)
    ensures InRange(s, r)
  {
  }

  /** No test rejects what is allowed. */
  lemma ScreenCovers(s: Subject, p: Pattern, e: Rexp, i: nat, j: nat, x: nat, r: Regs, r': Regs)
    requires Usable(s, p, e) && i <= j <= s.len && Observed(e) && Consistent(s, p, r) && Allowed(s, e, i, j, x, r, r')
    ensures Screened(p, e, s.text[i..j]) && Consistent(s, p, r') && |r'| == |r|
  {
    hide Accepts, Simplify, Consistent, InLang, Match, ValidPattern;
    FilterCovers(s, p, e, i, j, x, r, r');
    SimplifyCompiles(p, e);
    AcceptsCovers(Simplify(p, e), s.text[i..j]);
    if !e.Interval? { FixedLenSound(s, e, i, j, r, r'); }
  }

  lemma LeafCovers(s: Subject, e: Rexp, i: nat, j: nat, r: Regs, r': Regs)
    requires ValidSubject(s) && i <= j <= s.len && NonEmptyStrings(e) && !Observed(e)
    ensures Match(s, e, i, j, r, r') <==> r' == r && InLang(e, s.text[i..j])
    ensures InLang(e, s.text[i..j]) ==> Leaf(e, s.text[i..j]) && EngineFits(e, s.text[i..j])
  {
    UnobservedIsRegular(s, e, i, j, r, r');
    UnobservedIsRegular(s, e, i, j, r, r);
    UnobservedContextFree(e);
    if InLang(e, s.text[i..j]) {
      FixedLenSound(s, e, i, j, r, r);
      AcceptsCovers(e, s.text[i..j]);
    }
  }

  /** The matcher misses no outcome of `Match`, whatever the subject; and where the tests
      that decide are right, it yields no others. */
  lemma {:induction false} OutcomesExact(s: Subject, p: Pattern, nregs: nat, e: Rexp, i: nat, j: nat, x: nat, r: Regs,
                          r': Regs)
    requires Usable(s, p, e) && i <= j <= s.len && Matchable(s, nregs, e) && |r| == nregs && InRange(s, r)
    ensures Consistent(s, p, r) && Allowed(s, e, i, j, x, r, r') ==> r' in Outcomes(s, p, e, i, j, x, r)
    ensures RightOn(s, e, i, j) && r' in Outcomes(s, p, e, i, j, x, r) ==> Allowed(s, e, i, j, x, r, r')
    decreases j - i, e, IntervalRest(e, x), 5
  {
    hide Leaf, Screened, Consistent, ValidPattern, InLang, EngineFits, Splits, Inside;
    if !Observed(e) {
      LeafCovers(s, e, i, j, r, r');
    } else {
      if Consistent(s, p, r) && Allowed(s, e, i, j, x, r, r') { ScreenCovers(s, p, e, i, j, x, r, r'); }
      InsideExact(s, p, nregs, e, i, j, x, r, r');
    }
  }

  lemma {:induction false} InsideExact(s: Subject, p: Pattern, nregs: nat, e: Rexp, i: nat, j: nat, x: nat, r: Regs,
                          r': Regs)
    requires Usable(s, p, e) && i <= j <= s.len && Matchable(s, nregs, e) && |r| == nregs && InRange(s, r)
    requires Observed(e)
    ensures Consistent(s, p, r) && Allowed(s, e, i, j, x, r, r') ==> r' in Inside(s, p, e, i, j, x, r)
    ensures RightOn(s, e, i, j) && Screened(p, e, s.text[i..j]) && r' in Inside(s, p, e, i, j, x, r) ==>
      Allowed(s, e, i, j, x, r, r')
    decreases j - i, e, IntervalRest(e, x), 4
  {
    hide Leaf, Screened, Consistent, ValidPattern, InLang, EngineFits, Splits, Outcomes;
    match e
    case Alt(a, b) =>
      OutcomesExact(s, p, nregs, a, i, j, 0, r, r');
      OutcomesExact(s, p, nregs, b, i, j, 0, r, r');
      AllowedChild(s, a, i, j, r, r');
      AllowedChild(s, b, i, j, r, r');
    case Opt(a) =>
      OutcomesExact(s, p, nregs, a, i, j, 0, r, r');
      AllowedChild(s, a, i, j, r, r');
    case Parens(n, a) => ParensExact(s, p, nregs, n, a, i, j, r, r');
    case Context(op) => ContextFnExact(s, op, i, j, r);
    case Concat(_, _) => RepeatedExact(s, p, nregs, e, i, j, x, r, r');
    case Star(_) => RepeatedExact(s, p, nregs, e, i, j, x, r, r');
    case Plus(_) => RepeatedExact(s, p, nregs, e, i, j, x, r, r');
    case Interval(_, _, _) => RepeatedExact(s, p, nregs, e, i, j, x, r, r');
  }

  lemma {:induction false} RepeatedExact(s: Subject, p: Pattern, nregs: nat, e: Rexp, i: nat, j: nat, x: nat, r: Regs,
                          r': Regs)
    requires Usable(s, p, e) && i <= j <= s.len && Matchable(s, nregs, e) && |r| == nregs && InRange(s, r)
    requires Observed(e)
    requires IsSplitter(e)
    ensures Consistent(s, p, r) && Allowed(s, e, i, j, x, r, r') ==> r' in Inside(s, p, e, i, j, x, r)
    ensures RightOn(s, e, i, j) && r' in Inside(s, p, e, i, j, x, r) ==> Allowed(s, e, i, j, x, r, r')
    decreases j - i, e, IntervalRest(e, x), 4, 0
  {
    hide Leaf, Consistent, ValidPattern, InLang, EngineFits, Splits, Outcomes;
    if e.Concat? { ConcatUnfold(s, e, i, j, r, r'); }
    else if e.Interval? { IntervalUnfold(s, e, i, j, x, r, r'); }
    else { StarUnfold(s, e, i, j, r, r'); }
    if e.Interval? && x >= e.max { return; }
    var y := if e.Interval? then x else 0;
    SplitsHave(s, p, e, i, j, j, y, r, r');
    forall m: nat | i <= m <= j
      ensures Consistent(s, p, r) && SplitAllowed(s, e, i, m, j, y, r, r') ==> Chosen(s, p, e, i, m, j, y, r, r')
      ensures RightOn(s, e, i, j) && Chosen(s, p, e, i, m, j, y, r, r') ==> SplitAllowed(s, e, i, m, j, y, r, r')
    {
      ChosenExact(s, p, nregs, e, i, m, j, y, r, r');
    }
  }

  lemma GroupScreened(p: Pattern, n: nat, a: Rexp, w: Text)
    requires ValidPattern(p) && WellScoped(p, Parens(n, a)) && !Observed(a) && Screened(p, Parens(n, a), w)
    ensures EngineFits(a, w)
  {
    assert Simplify(p, Parens(n, a)) == a;
  }

  lemma {:induction false} ParensExact(s: Subject, p: Pattern, nregs: nat, n: nat, a: Rexp, i: nat, j: nat, r: Regs,
                          r': Regs)
    requires var e := Parens(n, a);
      Usable(s, p, e) && i <= j <= s.len && Matchable(s, nregs, e) && |r| == nregs && InRange(s, r)
    ensures Consistent(s, p, r) && Match(s, Parens(n, a), i, j, r, r') ==> r' in Inside(s, p, Parens(n, a), i, j, 0, r)
    ensures RightOn(s, Parens(n, a), i, j) && r' in Inside(s, p, Parens(n, a), i, j, 0, r) &&
      Screened(p, Parens(n, a), s.text[i..j])
      ==> Match(s, Parens(n, a), i, j, r, r')
    decreases j - i, a, IntervalRest(a, 0), 6
  {
    hide Leaf, Consistent, ValidPattern, InLang, Outcomes;
    var w := s.text[i..j];
    var rs := if Observed(a) then Outcomes(s, p, a, i, j, 0, r) else [r];
    var all := RecordAll(rs, n, i, j);
    if RightOn(s, Parens(n, a), i, j) && r' in all && Screened(p, Parens(n, a), w) {
      var k :| 0 <= k < |all| && all[k] == r';
      if Observed(a) {
        OutcomesExact(s, p, nregs, a, i, j, 0, r, rs[k]);
        AllowedChild(s, a, i, j, r, rs[k]);
      } else {
        GroupScreened(p, n, a, w);
        assert EngineFits(a, s.text[i..j]);
        LeafCovers(s, a, i, j, r, r);
      }
    }
    if Consistent(s, p, r) && Match(s, Parens(n, a), i, j, r, r') {
      var r1: Regs :| Match(s, a, i, j, r, r1) && r' == Record(r1, n, i, j);
      if Observed(a) {
        OutcomesExact(s, p, nregs, a, i, j, 0, r, r1);
        AllowedChild(s, a, i, j, r, r1);
      } else {
        LeafCovers(s, a, i, j, r, r1);
      }
      var k :| 0 <= k < |rs| && rs[k] == r1;
      assert all[k] == r';
    }
  }

  lemma {:induction false} ChosenExact(s: Subject, p: Pattern, nregs: nat, e: Rexp, i: nat, m: nat, j: nat, x: nat,
                          r: Regs, r': Regs)
    requires Usable(s, p, e) && i <= m <= j <= s.len && Matchable(s, nregs, e) && |r| == nregs && InRange(s, r)
    requires Observed(e)
    requires IsSplitter(e) && (e.Interval? ==> x < e.max)
    ensures Consistent(s, p, r) && SplitAllowed(s, e, i, m, j, x, r, r') ==> Chosen(s, p, e, i, m, j, x, r, r')
    ensures RightOn(s, e, i, j) && Chosen(s, p, e, i, m, j, x, r, r') ==> SplitAllowed(s, e, i, m, j, x, r, r')
    decreases j - i, e, IntervalRest(e, x), 3
  {
    hide Leaf, Consistent, ValidPattern, InLang, Outcomes, Tail, TailAllowed, Groups;
    if Consistent(s, p, r) && SplitAllowed(s, e, i, m, j, x, r, r') {
      var r1: Regs :| Match(s, e.left, i, m, r, r1) && TailAllowed(s, e, m, j, x, r1, r');
      FirstExact(s, p, nregs, e, i, m, r, r1);
      TailExact(s, p, nregs, e, i, m, j, x, r1, r');
    }
    if RightOn(s, e, i, j) && Chosen(s, p, e, i, m, j, x, r, r') {
      var r1: Regs :| r1 in Outcomes(s, p, e.left, i, m, 0, r) && r' in Tail(s, p, e, i, m, j, x, r1);
      RightOnPart(s, e, i, j, i, m);
      RightOnPart(s, e, i, j, m, j);
      FirstExact(s, p, nregs, e, i, m, r, r1);
      TailExact(s, p, nregs, e, i, m, j, x, r1, r');
    }
  }

  /** The first part of a split; that of a star or plus is not empty. */
  lemma {:induction false} FirstExact(s: Subject, p: Pattern, nregs: nat, e: Rexp, i: nat, m: nat, r: Regs, r1: Regs)
    requires Usable(s, p, e) && i <= m <= s.len && Matchable(s, nregs, e) && |r| == nregs && InRange(s, r)
    requires Observed(e) && IsSplitter(e)
    ensures Consistent(s, p, r) && Match(s, e.left, i, m, r, r1) ==>
      r1 in Outcomes(s, p, e.left, i, m, 0, r) && Consistent(s, p, r1)
    ensures RightOn(s, e, i, m) && r1 in Outcomes(s, p, e.left, i, m, 0, r) ==> Match(s, e.left, i, m, r, r1)
    ensures r1 in Outcomes(s, p, e.left, i, m, 0, r) ==>
      |r1| == nregs && InRange(s, r1) && (m > i || !(e.Star? || e.Plus?))
    decreases m - i, e, 0, 2
  {
    hide Leaf, Consistent, ValidPattern, InLang, Outcomes, Groups;
    OutcomesExact(s, p, nregs, e.left, i, m, 0, r, r1);
    AllowedChild(s, e.left, i, m, r, r1);
    if r1 in Outcomes(s, p, e.left, i, m, 0, r) {
      OutcomesFramed(s, p, e.left, i, m, 0, r, r1);
      if m == i { RightOnNothing(s, e.left, i); }
    }
    if Consistent(s, p, r) && Match(s, e.left, i, m, r, r1) {
      SimplifyCovers(s, p, e.left, i, m, r, r1);
    }
  }

  lemma {:induction false} TailExact(s: Subject, p: Pattern, nregs: nat, e: Rexp, i: nat, m: nat, j: nat, x: nat,
                          r1: Regs, r': Regs)
    requires Usable(s, p, e) && i <= m <= j <= s.len && Matchable(s, nregs, e) && |r1| == nregs && InRange(s, r1)
    requires Observed(e)
    requires IsSplitter(e) && (e.Interval? ==> x < e.max) && (m > i || !(e.Star? || e.Plus?))
    ensures Consistent(s, p, r1) && TailAllowed(s, e, m, j, x, r1, r') ==> r' in Tail(s, p, e, i, m, j, x, r1)
    ensures RightOn(s, e, m, j) && r' in Tail(s, p, e, i, m, j, x, r1) ==> TailAllowed(s, e, m, j, x, r1, r')
    decreases j - i, e, IntervalRest(e, x), 2
  {
    hide Leaf, Consistent, ValidPattern, InLang, Outcomes;
    if e.Concat? {
      OutcomesExact(s, p, nregs, e.right, m, j, 0, r1, r');
      AllowedChild(s, e.right, m, j, r1, r');
    } else if e.Interval? {
      OutcomesExact(s, p, nregs, e, m, j, x + 1, r1, r');
    } else {
      OutcomesExact(s, p, nregs, e, m, j, 0, r1, r');
      if m == j && r' == r1 { assert Repeat(s, e.left, 0, m, j, r1, r'); }
      if Match(s, e, m, j, r1, r') { var k := RepeatOf(s, e, m, j, r1, r'); }
      if TailAllowed(s, e, m, j, x, r1, r') {
        var k: nat :| Repeat(s, e.left, k, m, j, r1, r');
        if k > 0 { assert Match(s, e, m, j, r1, r'); }
      }
    }
  }

  lemma ConcatUnfold(s: Subject, e: Rexp, i: nat, j: nat, r: Regs, r': Regs)
    requires ValidSubject(s) && i <= j <= s.len && e.Concat?
    ensures Match(s, e, i, j, r, r') <==>
        exists m: nat :: i <= m <= j && SplitAllowed(s, e, i, m, j, 0, r, r')
  {
    if Match(s, e, i, j, r, r') {
      var m, r1 := SplitOf(s, e, i, j, r, r');
      assert TailAllowed(s, e, m, j, 0, r1, r');
      assert SplitAllowed(s, e, i, m, j, 0, r, r');
    }
  }

  lemma StarUnfold(s: Subject, e: Rexp, i: nat, j: nat, r: Regs, r': Regs)
    requires ValidSubject(s) && i <= j <= s.len && (e.Star? || e.Plus?)
    ensures Match(s, e, i, j, r, r') <==>
        || (e.Star? && i == j && r' == r)
        || exists m: nat :: i <= m <= j && SplitAllowed(s, e, i, m, j, 0, r, r')
  {
    var a := e.left;
    if Match(s, e, i, j, r, r') {
      var k := RepeatOf(s, e, i, j, r, r');
      if k > 0 {
        var m, r1 := FirstRepeat(s, a, k, i, j, r, r');
        assert TailAllowed(s, e, m, j, 0, r1, r');
        assert SplitAllowed(s, e, i, m, j, 0, r, r');
      }
    }
    if e.Star? && i == j && r' == r { assert Repeat(s, a, 0, i, j, r, r'); }
    forall m: nat | i <= m <= j && SplitAllowed(s, e, i, m, j, 0, r, r') ensures Match(s, e, i, j, r, r') {
      var r1: Regs :| Match(s, a, i, m, r, r1) && TailAllowed(s, e, m, j, 0, r1, r');
      var k: nat :| Repeat(s, a, k, m, j, r1, r');
      ConsRepeat(s, a, k, i, m, j, r, r1, r');
    }
  }

  lemma IntervalUnfold(s: Subject, e: Rexp, i: nat, j: nat, x: nat, r: Regs, r': Regs)
    requires ValidSubject(s) && i <= j <= s.len && e.Interval?
    ensures Allowed(s, e, i, j, x, r, r') <==>
        || (e.min <= x <= e.max && i == j && r' == r)
        || (x < e.max && exists m: nat :: i <= m <= j && SplitAllowed(s, e, i, m, j, x, r, r'))
  {
    var a := e.left;
    if Allowed(s, e, i, j, x, r, r') {
      var k: nat :| e.min <= x + k <= e.max && Repeat(s, a, k, i, j, r, r');
      if k > 0 {
        var m, r1 := FirstRepeat(s, a, k, i, j, r, r');
        assert e.min <= (x + 1) + (k - 1) <= e.max;
        assert TailAllowed(s, e, m, j, x, r1, r');
        assert SplitAllowed(s, e, i, m, j, x, r, r');
      }
    }
    if e.min <= x <= e.max && i == j && r' == r {
      assert Repeat(s, a, 0, i, j, r, r') && e.min <= x + 0 <= e.max;
    }
    forall m: nat | i <= m <= j && SplitAllowed(s, e, i, m, j, x, r, r') ensures Allowed(s, e, i, j, x, r, r') {
      var r1: Regs :| Match(s, a, i, m, r, r1) && TailAllowed(s, e, m, j, x, r1, r');
      var k: nat :| e.min <= (x + 1) + k <= e.max && Repeat(s, a, k, m, j, r1, r');
      ConsRepeat(s, a, k, i, m, j, r, r1, r');
      assert e.min <= x + (k + 1) <= e.max;
    }
  }
}
