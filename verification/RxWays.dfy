/** The ways in which a tree can match, as the choices made at its nodes; which way is
    preferred to which; and that the matcher yields the registers of all ways there are,
    each once, from the most preferred down. */
module RxWays {
  import opened Wrappers
  import opened RxNode
  import opened RxAnal
  import opened RxSimp
  import opened RxStr
  import opened RxUnfa
  import opened RxOutcomes

  /** The choices at a node: a test decides; the left or the right branch; the body of an
      option or a group; nothing, for an option or a star; a first part up to `m`, and then
      the rest, which may be to stop. */
  datatype Way =
    | Decided
    | LeftOf(inner: Way)
    | RightOf(inner: Way)
    | Body(inner: Way)
    | Nothing
    | Stop
    | Then(m: nat, first: Way, rest: Way)

  /** Left before right; the body before nothing; stopping before another iteration; an
      iteration before nothing; the later end of the first part, then the better first
      part, then the better rest. */
  predicate Better(v: Way, w: Way) {
    match v
    case Decided => false
    case LeftOf(a) => w.RightOf? || (w.LeftOf? && Better(a, w.inner))
    case RightOf(a) => w.RightOf? && Better(a, w.inner)
    case Body(a) => w.Nothing? || (w.Body? && Better(a, w.inner))
    case Nothing => false
    case Stop => w.Then? || w.Nothing?
    case Then(m, a, b) =>
      w.Nothing? || (w.Then? && (m > w.m || (m == w.m && (Better(a, w.first) || (a == w.first && Better(b, w.rest))))))
  }

  /** The preference is a strict order. */
  lemma {:induction false} BetterOrders(u: Way, v: Way, w: Way)
    ensures !Better(v, v)
    ensures Better(u, v) && Better(v, w) ==> Better(u, w)
  {
    if v.LeftOf? || v.RightOf? || v.Body? {
      BetterOrders(if u.LeftOf? || u.RightOf? || u.Body? then u.inner else u, v.inner,
        if w.LeftOf? || w.RightOf? || w.Body? then w.inner else w);
    }
    if v.Then? {
      BetterOrders(if u.Then? then u.first else u, v.first, if w.Then? then w.first else w);
      BetterOrders(if u.Then? then u.rest else u, v.rest, if w.Then? then w.rest else w);
    }
  }

  // ------------------------------------------------------------- following a way

  /** The test of a tree without observed parts: that of the matcher, or the right one. */
  ghost predicate Decides(tested: bool, e: Rexp, t: Text) {
    if tested then Leaf(e, t) else InLang(e, t)
  }

  /** The test of an observed node. */
  ghost predicate Admits(tested: bool, p: Pattern, e: Rexp, t: Text)
    requires ValidPattern(p) && WellScoped(p, e)
  {
    tested ==> Screened(p, e, t)
  }

  ghost predicate Holds(tested: bool, s: Subject, op: ContextOp, i: nat, j: nat, r: Regs)
    requires ValidSubject(s) && i <= j <= s.len
  {
    if tested then ContextFn(s, op, i, j, r) else Match(s, Context(op), i, j, r, r)
  }

  /** The registers after the tree has matched [i, j) in this way, if it does: by the tests
      of the matcher (`tested`) or by what the tree means.  An interval has made `x`
      iterations before. */
  ghost function Along(tested: bool, s: Subject, p: Pattern, e: Rexp, i: nat, j: nat, x: nat, r: Regs,
                       w: Way): Option<Regs>
    requires Usable(s, p, e) && i <= j <= s.len
    decreases w, 1
  {
    if !Observed(e) then
      if w.Decided? && Decides(tested, e, s.text[i..j]) then Some(r) else None
    else if !Admits(tested, p, e, s.text[i..j]) then None
    else
    match e
    case Alt(a, b) =>
      if w.LeftOf? then Along(tested, s, p, a, i, j, 0, r, w.inner)
      else if w.RightOf? then Along(tested, s, p, b, i, j, 0, r, w.inner)
      else None
    case Opt(a) =>
      if w.Body? then Along(tested, s, p, a, i, j, 0, r, w.inner)
      else if w.Nothing? && i == j then Some(r)
      else None
    case Parens(n, a) =>
      if !w.Body? then None else
      match InGroup(tested, s, p, a, i, j, r, w.inner) {
        case None => None
        case Some(r1) => Some(Record(r1, n, i, j))
      }
    case Context(op) => if w.Decided? && Holds(tested, s, op, i, j, r) then Some(r) else None
    case Concat(_, _) => AlongSplit(tested, s, p, e, i, j, x, r, w)
    case Star(_) => AlongSplit(tested, s, p, e, i, j, x, r, w)
    case Plus(_) => AlongSplit(tested, s, p, e, i, j, x, r, w)
    case Interval(_, _, _) => AlongSplit(tested, s, p, e, i, j, x, r, w)
  }

  /** A first part and the rest, or no iteration. */
  ghost function AlongSplit(tested: bool, s: Subject, p: Pattern, e: Rexp, i: nat, j: nat, x: nat, r: Regs,
                            w: Way): Option<Regs>
    requires Usable(s, p, e) && i <= j <= s.len && IsSplitter(e)
    decreases w, 0
  {
    if w.Then? then
      if !(i <= w.m <= j) || (e.Interval? && x >= e.max) then None else
      match Along(tested, s, p, e.left, i, w.m, 0, r, w.first) {
        case None => None
        case Some(r1) => AlongRest(tested, s, p, e, w.m, j, x, r1, w.rest)
      }
    else if (e.Star? && w.Nothing?) || (e.Interval? && w.Stop? && e.min <= x <= e.max) then
      if i == j then Some(r) else None
    else None
  }

  /** The matcher asks no second test of a group without observed parts. */
  ghost function InGroup(tested: bool, s: Subject, p: Pattern, a: Rexp, i: nat, j: nat, r: Regs, w: Way): Option<Regs>
    requires Usable(s, p, a) && i <= j <= s.len
    decreases w, 2
  {
    if tested && !Observed(a) then if w.Decided? then Some(r) else None
    else Along(tested, s, p, a, i, j, 0, r, w)
  }

  /** After the first part: the second operand, the next iteration of an interval, or, for
      a star or plus, to stop at the end or to go on. */
  ghost function AlongRest(tested: bool, s: Subject, p: Pattern, e: Rexp, m: nat, j: nat, x: nat, r1: Regs,
                           w: Way): Option<Regs>
    requires Usable(s, p, e) && m <= j <= s.len && IsSplitter(e)
    decreases w, 2
  {
    match e
    case Concat(_, b) => Along(tested, s, p, b, m, j, 0, r1, w)
    case Interval(_, _, _) => Along(tested, s, p, e, m, j, x + 1, r1, w)
    case _ => if w.Stop? then if m == j then Some(r1) else None else Along(tested, s, p, e, m, j, 0, r1, w)
  }

  // ---------------------------------------------------------------- what ways mean

  lemma {:induction false} AlongFramed(tested: bool, s: Subject, p: Pattern, e: Rexp, i: nat, j: nat, x: nat, r: Regs,
                                       w: Way)
    requires Usable(s, p, e) && i <= j <= s.len && InRange(s, r) && Along(tested, s, p, e, i, j, x, r, w).Some?
    ensures var r' := Along(tested, s, p, e, i, j, x, r, w).value; InRange(s, r') && |r'| == |r|
    decreases w, 0
  {
    hide Decides, Admits, Holds, ValidPattern;
    if Observed(e) {
      match e
      case Alt(a, b) => AlongFramed(tested, s, p, if w.LeftOf? then a else b, i, j, 0, r, w.inner);
      case Opt(a) => if w.Body? { AlongFramed(tested, s, p, a, i, j, 0, r, w.inner); }
      case Parens(n, a) => if !(tested && !Observed(a)) { AlongFramed(tested, s, p, a, i, j, 0, r, w.inner); }
      case Context(_) =>
      case Concat(_, _) => SplitFramed(tested, s, p, e, i, j, x, r, w);
      case Star(_) => SplitFramed(tested, s, p, e, i, j, x, r, w);
      case Plus(_) => SplitFramed(tested, s, p, e, i, j, x, r, w);
      case Interval(_, _, _) => SplitFramed(tested, s, p, e, i, j, x, r, w);
    }
  }

  lemma {:induction false} SplitFramed(tested: bool, s: Subject, p: Pattern, e: Rexp, i: nat, j: nat, x: nat, r: Regs,
                                       w: Way)
    requires Usable(s, p, e) && i <= j <= s.len && InRange(s, r) && Along(tested, s, p, e, i, j, x, r, w).Some?
    requires IsSplitter(e) && Observed(e)
    ensures var r' := Along(tested, s, p, e, i, j, x, r, w).value; InRange(s, r') && |r'| == |r|
    decreases w, 0, 0
  {
    hide Decides, Admits, Holds, ValidPattern;
    if w.Then? {
      AlongFramed(tested, s, p, e.left, i, w.m, 0, r, w.first);
      var r1 := Along(tested, s, p, e.left, i, w.m, 0, r, w.first).value;
      ThenAlong(tested, s, p, e, i, w.m, j, x, r, w.first, w.rest);
      if e.Concat? { AlongFramed(tested, s, p, e.right, w.m, j, 0, r1, w.rest); }
      else if e.Interval? { AlongFramed(tested, s, p, e, w.m, j, x + 1, r1, w.rest); }
      else if !w.rest.Stop? { AlongFramed(tested, s, p, e, w.m, j, 0, r1, w.rest); }
    }
  }

  lemma ThenAlong(tested: bool, s: Subject, p: Pattern, e: Rexp, i: nat, m: nat, j: nat, x: nat, r: Regs, v: Way,
                  w: Way)
    requires Usable(s, p, e) && i <= m <= j <= s.len && IsSplitter(e) && Observed(e)
    requires (e.Interval? ==> x < e.max) && Admits(tested, p, e, s.text[i..j])
    ensures Along(tested, s, p, e, i, j, x, r, Then(m, v, w)) ==
      match Along(tested, s, p, e.left, i, m, 0, r, v)
      case None => None
      case Some(r1) => AlongRest(tested, s, p, e, m, j, x, r1, w)
  {
    hide Admits, ValidPattern;
  }

  /** By meaning, every way is a match. */
  lemma {:induction false} WayMatches(s: Subject, p: Pattern, e: Rexp, i: nat, j: nat, x: nat, r: Regs, w: Way,
                                      r': Regs)
    requires Usable(s, p, e) && i <= j <= s.len && Along(false, s, p, e, i, j, x, r, w) == Some(r')
    ensures Allowed(s, e, i, j, x, r, r')
    decreases w, 0
  {
    hide ValidPattern, InLang;
    if !Observed(e) {
      UnobservedIsRegular(s, e, i, j, r, r');
    } else {
      match e
      case Alt(a, b) => WayMatchesChild(s, p, if w.LeftOf? then a else b, i, j, r, w.inner, r');
      case Opt(a) => if w.Body? { WayMatchesChild(s, p, a, i, j, r, w.inner, r'); }
      case Parens(n, a) =>
        WayMatchesChild(s, p, a, i, j, r, w.inner, Along(false, s, p, a, i, j, 0, r, w.inner).value);
      case Context(_) =>
      case Concat(_, _) => SplitWayMatches(s, p, e, i, j, x, r, w, r');
      case Star(_) => SplitWayMatches(s, p, e, i, j, x, r, w, r');
      case Plus(_) => SplitWayMatches(s, p, e, i, j, x, r, w, r');
      case Interval(_, _, _) => SplitWayMatches(s, p, e, i, j, x, r, w, r');
    }
  }

  lemma {:induction false} WayMatchesChild(s: Subject, p: Pattern, e: Rexp, i: nat, j: nat, r: Regs, w: Way, r': Regs)
    requires Usable(s, p, e) && i <= j <= s.len && Along(false, s, p, e, i, j, 0, r, w) == Some(r')
    ensures Match(s, e, i, j, r, r')
    decreases w, 2
  {
    WayMatches(s, p, e, i, j, 0, r, w, r');
    AllowedChild(s, e, i, j, r, r');
  }

  lemma {:induction false} SplitWayMatches(s: Subject, p: Pattern, e: Rexp, i: nat, j: nat, x: nat, r: Regs, w: Way,
                                           r': Regs)
    requires Usable(s, p, e) && i <= j <= s.len && Along(false, s, p, e, i, j, x, r, w) == Some(r')
    requires IsSplitter(e) && Observed(e)
    ensures Allowed(s, e, i, j, x, r, r')
    decreases w, 0, 0
  {
    hide ValidPattern, InLang, Match, Allowed, Repeat;
    if e.Concat? { ConcatUnfold(s, e, i, j, r, r'); }
    else if e.Interval? { IntervalUnfold(s, e, i, j, x, r, r'); }
    else { StarUnfold(s, e, i, j, r, r'); }
    if !e.Interval? { AllowedIsMatch(s, e, i, j, x, r, r'); }
    if w.Then? {
      var r1 := Along(false, s, p, e.left, i, w.m, 0, r, w.first).value;
      WayMatchesChild(s, p, e.left, i, w.m, r, w.first, r1);
      RestMatches(s, p, e, w.m, j, x, r1, w.rest, r');
      assert SplitAllowed(s, e, i, w.m, j, if e.Interval? then x else 0, r, r');
    }
  }

  lemma AllowedIsMatch(s: Subject, e: Rexp, i: nat, j: nat, x: nat, r: Regs, r': Regs)
    requires ValidSubject(s) && i <= j <= s.len && !e.Interval?
    ensures Allowed(s, e, i, j, x, r, r') == Match(s, e, i, j, r, r')
  {
  }

  lemma {:induction false} RestMatches(s: Subject, p: Pattern, e: Rexp, m: nat, j: nat, x: nat, r1: Regs, w: Way,
                                       r': Regs)
    requires Usable(s, p, e) && m <= j <= s.len && IsSplitter(e)
    requires AlongRest(false, s, p, e, m, j, x, r1, w) == Some(r')
    ensures TailAllowed(s, e, m, j, if e.Interval? then x else 0, r1, r')
    decreases w, 3
  {
    hide ValidPattern, Along;
    if e.Concat? {
      WayMatchesChild(s, p, e.right, m, j, r1, w, r');
    } else if e.Interval? {
      WayMatches(s, p, e, m, j, x + 1, r1, w, r');
    } else if w.Stop? {
      assert Repeat(s, e.left, 0, m, j, r1, r');
    } else {
      WayMatchesChild(s, p, e, m, j, r1, w, r');
      var k := RepeatOf(s, e, m, j, r1, r');
    }
  }

  /** Every match goes some way. */
  lemma {:induction false} MatchHasWay(s: Subject, p: Pattern, e: Rexp, i: nat, j: nat, x: nat, r: Regs,
                                       r': Regs) returns (w: Way)
    requires Usable(s, p, e) && i <= j <= s.len && Allowed(s, e, i, j, x, r, r')
    ensures Along(false, s, p, e, i, j, x, r, w) == Some(r')
    decreases e, 1
  {
    hide ValidPattern, InLang;
    w := Decided;
    if !Observed(e) {
      UnobservedIsRegular(s, e, i, j, r, r');
      return;
    }
    match e
    case Alt(a, b) =>
      if Match(s, a, i, j, r, r') {
        w := ChildHasWay(s, p, a, i, j, r, r');
        w := LeftOf(w);
      } else {
        w := ChildHasWay(s, p, b, i, j, r, r');
        w := RightOf(w);
      }
    case Opt(a) =>
      w := Nothing;
      if Match(s, a, i, j, r, r') {
        w := ChildHasWay(s, p, a, i, j, r, r');
        w := Body(w);
      }
    case Parens(n, a) =>
      var r1: Regs :| Match(s, a, i, j, r, r1) && r' == Record(r1, n, i, j);
      w := ChildHasWay(s, p, a, i, j, r, r1);
      w := Body(w);
    case Context(_) =>
    case Concat(a, b) =>
      var m, r1 := SplitOf(s, e, i, j, r, r');
      var v := ChildHasWay(s, p, a, i, m, r, r1);
      w := ChildHasWay(s, p, b, m, j, r1, r');
      ThenAlong(false, s, p, e, i, m, j, x, r, v, w);
      w := Then(m, v, w);
    case Interval(a, min, max) =>
      var k: nat :| min <= x + k <= max && Repeat(s, a, k, i, j, r, r');
      w := RepeatHasWay(s, p, e, k, i, j, x, r, r');
    case Star(_) =>
      var k := RepeatOf(s, e, i, j, r, r');
      if k == 0 { return Nothing; }
      w := RepeatHasWay(s, p, e, k, i, j, x, r, r');
    case Plus(_) =>
      var k := RepeatOf(s, e, i, j, r, r');
      w := RepeatHasWay(s, p, e, k, i, j, x, r, r');
  }

  lemma {:induction false} ChildHasWay(s: Subject, p: Pattern, e: Rexp, i: nat, j: nat, r: Regs,
                                       r': Regs) returns (w: Way)
    requires Usable(s, p, e) && i <= j <= s.len && Match(s, e, i, j, r, r')
    ensures Along(false, s, p, e, i, j, 0, r, w) == Some(r')
    decreases e, 2
  {
    AllowedChild(s, e, i, j, r, r');
    w := MatchHasWay(s, p, e, i, j, 0, r, r');
  }

  /** `k` iterations, and then to stop. */
  lemma {:induction false} RepeatHasWay(s: Subject, p: Pattern, e: Rexp, k: nat, i: nat, j: nat, x: nat, r: Regs,
                                        r': Regs) returns (w: Way)
    requires Usable(s, p, e) && i <= j <= s.len && (e.Star? || e.Plus? || e.Interval?) && Observed(e)
    requires Repeat(s, e.left, k, i, j, r, r') && (if e.Interval? then e.min <= x + k <= e.max else k > 0)
    ensures Along(false, s, p, e, i, j, x, r, w) == Some(r')
    decreases e, 0, k
  {
    hide ValidPattern;
    if k == 0 { return Stop; }
    var m, r1 := FirstRepeat(s, e.left, k, i, j, r, r');
    var v := ChildHasWay(s, p, e.left, i, m, r, r1);
    w := Stop;
    if e.Interval? || k > 1 { w := RepeatHasWay(s, p, e, k - 1, m, j, if e.Interval? then x + 1 else 0, r1, r'); }
    ThenAlong(false, s, p, e, i, m, j, x, r, v, w);
    w := Then(m, v, w);
  }

  // ------------------------------------------------------- the tests and the meaning

  /** The tests admit every way that the tree means. */
  lemma {:induction false} MeantIsTested(s: Subject, p: Pattern, e: Rexp, i: nat, j: nat, x: nat, r: Regs, w: Way,
                                         r': Regs)
    requires Usable(s, p, e) && i <= j <= s.len && Consistent(s, p, r)
    requires Along(false, s, p, e, i, j, x, r, w) == Some(r')
    ensures Along(true, s, p, e, i, j, x, r, w) == Some(r') && Consistent(s, p, r')
    decreases w, 1
  {
    hide ValidPattern, InLang, Leaf, Screened, Consistent, AlongSplit;
    WayMatches(s, p, e, i, j, x, r, w, r');
    if !Observed(e) {
      LeafCovers(s, e, i, j, r, r');
    } else {
      ScreenCovers(s, p, e, i, j, x, r, r');
      match e
      case Alt(a, b) => MeantIsTested(s, p, if w.LeftOf? then a else b, i, j, 0, r, w.inner, r');
      case Opt(a) => if w.Body? { MeantIsTested(s, p, a, i, j, 0, r, w.inner, r'); }
      case Parens(n, a) =>
        if Observed(a) {
          MeantIsTested(s, p, a, i, j, 0, r, w.inner, Along(false, s, p, a, i, j, 0, r, w.inner).value);
        }
      case Context(op) =>
        ConsistentInRange(s, p, r);
        ContextFnExact(s, op, i, j, r);
      case Concat(_, _) => MeantSplit(s, p, e, i, j, x, r, w, r');
      case Star(_) => MeantSplit(s, p, e, i, j, x, r, w, r');
      case Plus(_) => MeantSplit(s, p, e, i, j, x, r, w, r');
      case Interval(_, _, _) => MeantSplit(s, p, e, i, j, x, r, w, r');
    }
  }

  lemma {:induction false} MeantSplit(s: Subject, p: Pattern, e: Rexp, i: nat, j: nat, x: nat, r: Regs, w: Way,
                                      r': Regs)
    requires Usable(s, p, e) && i <= j <= s.len && Consistent(s, p, r)
    requires IsSplitter(e) && AlongSplit(false, s, p, e, i, j, x, r, w) == Some(r')
    ensures AlongSplit(true, s, p, e, i, j, x, r, w) == Some(r')
    decreases w, 0
  {
    hide ValidPattern, InLang, Leaf, Screened, Consistent, Along;
    if w.Then? {
      var r1 := Along(false, s, p, e.left, i, w.m, 0, r, w.first).value;
      MeantIsTested(s, p, e.left, i, w.m, 0, r, w.first, r1);
      if e.Concat? { MeantIsTested(s, p, e.right, w.m, j, 0, r1, w.rest, r'); }
      else if e.Interval? { MeantIsTested(s, p, e, w.m, j, x + 1, r1, w.rest, r'); }
      else if !w.rest.Stop? { MeantIsTested(s, p, e, w.m, j, 0, r1, w.rest, r'); }
    }
  }

  /** Where no test that decides is misled, they admit no other. */
  lemma {:induction false} TestedIsMeant(s: Subject, p: Pattern, e: Rexp, i: nat, j: nat, x: nat, r: Regs, w: Way,
                                         r': Regs)
    requires Usable(s, p, e) && i <= j <= s.len && InRange(s, r) && RightOn(s, e, i, j)
    requires Along(true, s, p, e, i, j, x, r, w) == Some(r')
    ensures Along(false, s, p, e, i, j, x, r, w) == Some(r')
    decreases w, 1
  {
    hide ValidPattern, InLang, Leaf, Screened, AlongSplit;
    if Observed(e) {
      match e
      case Alt(a, b) => TestedIsMeant(s, p, if w.LeftOf? then a else b, i, j, 0, r, w.inner, r');
      case Opt(a) => if w.Body? { TestedIsMeant(s, p, a, i, j, 0, r, w.inner, r'); }
      case Parens(n, a) =>
        if Observed(a) {
          TestedIsMeant(s, p, a, i, j, 0, r, w.inner, Along(true, s, p, a, i, j, 0, r, w.inner).value);
        } else {
          GroupScreened(p, n, a, s.text[i..j]);
        }
      case Context(op) => ContextFnExact(s, op, i, j, r);
      case Concat(_, _) => TestedSplit(s, p, e, i, j, x, r, w, r');
      case Star(_) => TestedSplit(s, p, e, i, j, x, r, w, r');
      case Plus(_) => TestedSplit(s, p, e, i, j, x, r, w, r');
      case Interval(_, _, _) => TestedSplit(s, p, e, i, j, x, r, w, r');
    }
  }

  lemma {:induction false} TestedSplit(s: Subject, p: Pattern, e: Rexp, i: nat, j: nat, x: nat, r: Regs, w: Way,
                                       r': Regs)
    requires Usable(s, p, e) && i <= j <= s.len && InRange(s, r) && RightOn(s, e, i, j) && Observed(e)
    requires IsSplitter(e) && AlongSplit(true, s, p, e, i, j, x, r, w) == Some(r')
    ensures AlongSplit(false, s, p, e, i, j, x, r, w) == Some(r')
    decreases w, 0
  {
    hide ValidPattern, InLang, Leaf, Screened, Along;
    if w.Then? {
      var r1 := Along(true, s, p, e.left, i, w.m, 0, r, w.first).value;
      RightOnPart(s, e, i, j, i, w.m);
      RightOnPart(s, e, i, j, w.m, j);
      TestedIsMeant(s, p, e.left, i, w.m, 0, r, w.first, r1);
      AlongFramed(true, s, p, e.left, i, w.m, 0, r, w.first);
      if e.Concat? { TestedIsMeant(s, p, e.right, w.m, j, 0, r1, w.rest, r'); }
      else if e.Interval? { TestedIsMeant(s, p, e, w.m, j, x + 1, r1, w.rest, r'); }
      else if !w.rest.Stop? { TestedIsMeant(s, p, e, w.m, j, 0, r1, w.rest, r'); }
    }
  }

  // ---------------------------------------------------------------------- the list

  ghost predicate Descending(ws: seq<Way>) {
    forall k, l :: 0 <= k < l < |ws| ==> Better(ws[k], ws[l])
  }

  /** `ws` are the ways in `part` that lead anywhere, each once and from the most preferred
      down, and `rs` are the registers to which they lead. */
  ghost predicate Lists(f: Way -> Option<Regs>, part: Way -> bool, ws: seq<Way>, rs: seq<Regs>) {
    && |ws| == |rs| && Descending(ws)
    && (forall k :: 0 <= k < |ws| ==> part(ws[k]) && f(ws[k]) == Some(rs[k]))
    && (forall w :: part(w) && f(w).Some? ==> w in ws)
  }

  /** All ways; one way; another iteration or none. */
  function Any(): Way -> bool { w => true }

  function Only(v: Way): Way -> bool { w => w == v }

  function Going(): Way -> bool { (w: Way) => w.Then? || w.Nothing? }

  lemma ListsTwo(f: Way -> Option<Regs>, part: Way -> bool, a: Way -> bool, ws: seq<Way>, rs: seq<Regs>,
                 b: Way -> bool, vs: seq<Way>, ts: seq<Regs>)
    requires Lists(f, a, ws, rs) && Lists(f, b, vs, ts)
    requires forall w :: a(w) || b(w) ==> part(w)
    requires forall w :: part(w) && f(w).Some? ==> a(w) || b(w)
    requires forall v, w :: a(v) && b(w) ==> Better(v, w)
    ensures Lists(f, part, ws + vs, rs + ts)
  {
  }

  function OneWay(o: Option<Regs>, w: Way): seq<Way> {
    if o.Some? then [w] else []
  }

  function OneResult(o: Option<Regs>): seq<Regs> {
    if o.Some? then [o.value] else []
  }

  lemma ListsOne(f: Way -> Option<Regs>, w: Way)
    ensures Lists(f, Only(w), OneWay(f(w), w), OneResult(f(w)))
  {
  }

  /** The choice around another one. */
  datatype Frame = InLeft | InRight | InBody | Behind(m: nat, first: Way)

  function Put(c: Frame, w: Way): Way {
    match c
    case InLeft => LeftOf(w)
    case InRight => RightOf(w)
    case InBody => Body(w)
    case Behind(m, first) => Then(m, first, w)
  }

  function In(c: Frame): Way -> bool {
    match c
    case InLeft => (w: Way) => w.LeftOf?
    case InRight => (w: Way) => w.RightOf?
    case InBody => (w: Way) => w.Body?
    case Behind(m, first) => (w: Way) => w.Then? && w.m == m && w.first == first
  }

  function PutAll(c: Frame, ws: seq<Way>): (vs: seq<Way>)
    ensures |vs| == |ws| && forall k :: 0 <= k < |ws| ==> vs[k] == Put(c, ws[k])
  {
    seq(|ws|, k requires 0 <= k < |ws| => Put(c, ws[k]))
  }

  lemma ListsFramed(f0: Way -> Option<Regs>, f: Way -> Option<Regs>, c: Frame, ws: seq<Way>, rs: seq<Regs>)
    requires Lists(f0, Any(), ws, rs) && forall w :: f(Put(c, w)) == f0(w)
    ensures Lists(f, In(c), PutAll(c, ws), rs)
  {
    var vs := PutAll(c, ws);
    forall k, l | 0 <= k < l < |vs| ensures Better(vs[k], vs[l]) { PutBetter(c, ws[k], ws[l]); }
    forall v | In(c)(v) && f(v).Some? ensures v in vs {
      var w := if c.Behind? then v.rest else v.inner;
      assert v == Put(c, w);
      var k :| 0 <= k < |ws| && ws[k] == w;
      assert vs[k] == v;
    }
  }

  lemma PutBetter(c: Frame, v: Way, w: Way)
    requires Better(v, w)
    ensures Better(Put(c, v), Put(c, w))
  {
  }

  ghost function Tested(s: Subject, p: Pattern, e: Rexp, i: nat, j: nat, x: nat, r: Regs): Way -> Option<Regs>
    requires Usable(s, p, e) && i <= j <= s.len
  {
    w => Along(true, s, p, e, i, j, x, r, w)
  }

  ghost function Resting(s: Subject, p: Pattern, e: Rexp, m: nat, j: nat, x: nat, r1: Regs): Way -> Option<Regs>
    requires Usable(s, p, e) && m <= j <= s.len && IsSplitter(e)
  {
    w => AlongRest(true, s, p, e, m, j, x, r1, w)
  }

  /** What the induction needs of a tree and its registers. */
  ghost predicate Ready(s: Subject, p: Pattern, nregs: nat, e: Rexp, i: nat, j: nat, r: Regs) {
    Usable(s, p, e) && i <= j <= s.len && Matchable(s, nregs, e) && |r| == nregs && InRange(s, r)
  }

  /** The outcomes are the registers of all ways that the tests admit, in the order of
      preference, whatever the subject. */
  lemma {:induction false} OutcomesListed(s: Subject, p: Pattern, nregs: nat, e: Rexp, i: nat, j: nat, x: nat,
                                          r: Regs) returns (ws: seq<Way>)
    requires Ready(s, p, nregs, e, i, j, r)
    ensures Lists(Tested(s, p, e, i, j, x, r), Any(), ws, Outcomes(s, p, e, i, j, x, r))
    decreases j - i, e, IntervalRest(e, x), 4
  {
    hide Leaf, Screened, ValidPattern, Inside, Lists, Descending, Matchable;
    var f := Tested(s, p, e, i, j, x, r);
    if !Observed(e) {
      ListsOne(f, Decided);
      ListsSame(f, Only(Decided), f, Any(), OneWay(f(Decided), Decided), OneResult(f(Decided)));
      ws := OneWay(f(Decided), Decided);
    } else if Screened(p, e, s.text[i..j]) {
      ws := InsideListed(s, p, nregs, e, i, j, x, r);
    } else {
      ListsNone(f, Any());
      ws := [];
    }
  }

  lemma ListsNone(f: Way -> Option<Regs>, part: Way -> bool)
    requires forall w :: part(w) ==> f(w) == None
    ensures Lists(f, part, [], [])
  {
  }

  /** The same ways, said otherwise. */
  lemma ListsSame(f0: Way -> Option<Regs>, a: Way -> bool, f: Way -> Option<Regs>, b: Way -> bool, ws: seq<Way>,
                  rs: seq<Regs>)
    requires Lists(f0, a, ws, rs)
    requires forall w :: a(w) && f0(w).Some? ==> b(w) && f(w) == f0(w)
    requires forall w :: b(w) && f(w).Some? ==> a(w) && f0(w).Some?
    ensures Lists(f, b, ws, rs)
  {
  }

  lemma {:induction false} InsideListed(s: Subject, p: Pattern, nregs: nat, e: Rexp, i: nat, j: nat, x: nat,
                                        r: Regs) returns (ws: seq<Way>)
    requires Ready(s, p, nregs, e, i, j, r) && Observed(e) && Screened(p, e, s.text[i..j])
    ensures Lists(Tested(s, p, e, i, j, x, r), Any(), ws, Inside(s, p, e, i, j, x, r))
    decreases j - i, e, IntervalRest(e, x), 3
  {
    match e
    case Alt(_, _) => ws := AltListed(s, p, nregs, e, i, j, x, r);
    case Opt(_) => ws := OptListed(s, p, nregs, e, i, j, x, r);
    case Parens(_, _) => ws := ParensListed(s, p, nregs, e, i, j, x, r);
    case Context(_) => ws := ContextListed(s, p, e, i, j, x, r);
    case Concat(_, _) => ws := RepeatedListed(s, p, nregs, e, i, j, x, r);
    case Star(_) => ws := RepeatedListed(s, p, nregs, e, i, j, x, r);
    case Plus(_) => ws := RepeatedListed(s, p, nregs, e, i, j, x, r);
    case Interval(_, _, _) => ws := RepeatedListed(s, p, nregs, e, i, j, x, r);
  }

  lemma {:induction false} AltListed(s: Subject, p: Pattern, nregs: nat, e: Rexp, i: nat, j: nat, x: nat,
                                     r: Regs) returns (ws: seq<Way>)
    requires Ready(s, p, nregs, e, i, j, r) && e.Alt? && Observed(e) && Screened(p, e, s.text[i..j])
    ensures Lists(Tested(s, p, e, i, j, x, r), Any(), ws, Inside(s, p, e, i, j, x, r))
    decreases j - i, e, IntervalRest(e, x), 2
  {
    hide Leaf, Screened, ValidPattern, Lists, Descending, Outcomes, InGroup, AlongSplit;
    var f := Tested(s, p, e, i, j, x, r);
    var va := OutcomesListed(s, p, nregs, e.left, i, j, 0, r);
    var vb := OutcomesListed(s, p, nregs, e.right, i, j, 0, r);
    ListsFramed(Tested(s, p, e.left, i, j, 0, r), f, InLeft, va, Outcomes(s, p, e.left, i, j, 0, r));
    ListsFramed(Tested(s, p, e.right, i, j, 0, r), f, InRight, vb, Outcomes(s, p, e.right, i, j, 0, r));
    ListsTwo(f, Any(), In(InLeft), PutAll(InLeft, va), Outcomes(s, p, e.left, i, j, 0, r),
      In(InRight), PutAll(InRight, vb), Outcomes(s, p, e.right, i, j, 0, r));
    ws := PutAll(InLeft, va) + PutAll(InRight, vb);
  }

  lemma {:induction false} OptListed(s: Subject, p: Pattern, nregs: nat, e: Rexp, i: nat, j: nat, x: nat,
                                     r: Regs) returns (ws: seq<Way>)
    requires Ready(s, p, nregs, e, i, j, r) && e.Opt? && Observed(e) && Screened(p, e, s.text[i..j])
    ensures Lists(Tested(s, p, e, i, j, x, r), Any(), ws, Inside(s, p, e, i, j, x, r))
    decreases j - i, e, IntervalRest(e, x), 2
  {
    hide Leaf, Screened, ValidPattern, Lists, Descending, Outcomes, InGroup, AlongSplit;
    var f := Tested(s, p, e, i, j, x, r);
    var va := OutcomesListed(s, p, nregs, e.left, i, j, 0, r);
    ListsFramed(Tested(s, p, e.left, i, j, 0, r), f, InBody, va, Outcomes(s, p, e.left, i, j, 0, r));
    ListsOne(f, Nothing);
    ListsTwo(f, Any(), In(InBody), PutAll(InBody, va), Outcomes(s, p, e.left, i, j, 0, r),
      Only(Nothing), OneWay(f(Nothing), Nothing), OneResult(f(Nothing)));
    ws := PutAll(InBody, va) + OneWay(f(Nothing), Nothing);
  }

  lemma ContextListed(s: Subject, p: Pattern, e: Rexp, i: nat, j: nat, x: nat, r: Regs) returns (ws: seq<Way>)
    requires Usable(s, p, e) && i <= j <= s.len && e.Context? && Screened(p, e, s.text[i..j])
    ensures Lists(Tested(s, p, e, i, j, x, r), Any(), ws, Inside(s, p, e, i, j, x, r))
  {
    hide Leaf, Screened, ValidPattern, Lists, Descending, Outcomes, InGroup, AlongSplit, ContextFn;
    var f := Tested(s, p, e, i, j, x, r);
    ListsOne(f, Decided);
    ListsSame(f, Only(Decided), f, Any(), OneWay(f(Decided), Decided), OneResult(f(Decided)));
    ws := OneWay(f(Decided), Decided);
  }

  /** The registers that a group closes. */
  function Closed(o: Option<Regs>, n: nat, i: int, j: int): Option<Regs> {
    match o case None => None case Some(r1) => Some(Record(r1, n, i, j))
  }

  lemma ListsClosed(f0: Way -> Option<Regs>, f: Way -> Option<Regs>, n: nat, i: int, j: int, ws: seq<Way>,
                    rs: seq<Regs>)
    requires Lists(f0, Any(), ws, rs) && forall w :: f(w) == Closed(f0(w), n, i, j)
    ensures Lists(f, Any(), ws, RecordAll(rs, n, i, j))
  {
  }

  lemma {:induction false} ParensListed(s: Subject, p: Pattern, nregs: nat, e: Rexp, i: nat, j: nat, x: nat,
                                        r: Regs) returns (ws: seq<Way>)
    requires Ready(s, p, nregs, e, i, j, r) && e.Parens? && Observed(e) && Screened(p, e, s.text[i..j])
    ensures Lists(Tested(s, p, e, i, j, x, r), Any(), ws, Inside(s, p, e, i, j, x, r))
    decreases j - i, e, IntervalRest(e, x), 2
  {
    hide Leaf, Screened, ValidPattern, Lists, Descending, Outcomes, AlongSplit;
    var f, a, n := Tested(s, p, e, i, j, x, r), e.left, e.num;
    var f0: Way -> Option<Regs> := w => InGroup(true, s, p, a, i, j, r, w);
    var va, rs := [Decided], [r];
    if Observed(a) {
      va := OutcomesListed(s, p, nregs, a, i, j, 0, r);
      rs := Outcomes(s, p, a, i, j, 0, r);
      ListsSame(Tested(s, p, a, i, j, 0, r), Any(), f0, Any(), va, rs);
    } else {
      ListsOne(f0, Decided);
      ListsSame(f0, Only(Decided), f0, Any(), va, rs);
    }
    var f1: Way -> Option<Regs> := w => Closed(f0(w), n, i, j);
    ListsClosed(f0, f1, n, i, j, va, rs);
    ListsFramed(f1, f, InBody, va, RecordAll(rs, n, i, j));
    ListsSame(f, In(InBody), f, Any(), PutAll(InBody, va), RecordAll(rs, n, i, j));
    ws := PutAll(InBody, va);
  }

  lemma {:induction false} RepeatedListed(s: Subject, p: Pattern, nregs: nat, e: Rexp, i: nat, j: nat, x: nat,
                                          r: Regs) returns (ws: seq<Way>)
    requires Ready(s, p, nregs, e, i, j, r) && IsSplitter(e) && Observed(e) && Screened(p, e, s.text[i..j])
    ensures Lists(Tested(s, p, e, i, j, x, r), Any(), ws, Inside(s, p, e, i, j, x, r))
    decreases j - i, e, IntervalRest(e, x), 2, j - i + 2
  {
    hide Leaf, Screened, ValidPattern, Lists, Descending, Outcomes, Splits;
    var f := Tested(s, p, e, i, j, x, r);
    SplitterWays(s, p, e, i, j, x, r);
    if !e.Interval? {
      ws := SplitsListed(s, p, nregs, e, i, j, j, 0, r);
      ListsSame(Tested(s, p, e, i, j, 0, r), UpTo(j), f, Any(), ws, Splits(s, p, e, i, j, j, 0, r));
    } else {
      ListsOne(f, Stop);
      var rs: seq<Regs> := [];
      ws := [];
      if x < e.max {
        ws := SplitsListed(s, p, nregs, e, i, j, j, x, r);
        rs := Splits(s, p, e, i, j, j, x, r);
      } else {
        ListsNone(f, UpTo(j));
      }
      ListsTwo(f, Any(), Only(Stop), OneWay(f(Stop), Stop), OneResult(f(Stop)), UpTo(j), ws, rs);
      ws := OneWay(f(Stop), Stop) + ws;
    }
  }

  /** The ways of a concatenation or repetition. */
  lemma SplitterWays(s: Subject, p: Pattern, e: Rexp, i: nat, j: nat, x: nat, r: Regs)
    requires Usable(s, p, e) && i <= j <= s.len && IsSplitter(e) && Observed(e)
    ensures forall w :: Tested(s, p, e, i, j, x, r)(w).Some? ==>
      if w.Then? then
        i <= w.m <= j && (e.Interval? ==> x < e.max) && Along(true, s, p, e.left, i, w.m, 0, r, w.first).Some?
      else (w.Nothing? && e.Star?) || (w.Stop? && e.Interval?)
    ensures !e.Interval? ==> forall w :: Tested(s, p, e, i, j, x, r)(w) == Tested(s, p, e, i, j, 0, r)(w)
  {
    hide Leaf, Screened, ValidPattern, Along;
    forall w
      ensures Along(true, s, p, e, i, j, x, r, w) == None ||
        Along(true, s, p, e, i, j, x, r, w) == AlongSplit(true, s, p, e, i, j, x, r, w)
      ensures !e.Interval? ==> Along(true, s, p, e, i, j, x, r, w) == Along(true, s, p, e, i, j, 0, r, w)
    {
      SplitterWay(s, p, e, i, j, x, r, w);
      SplitterWay(s, p, e, i, j, 0, r, w);
    }
  }

  lemma SplitterWay(s: Subject, p: Pattern, e: Rexp, i: nat, j: nat, x: nat, r: Regs, w: Way)
    requires Usable(s, p, e) && i <= j <= s.len && IsSplitter(e) && Observed(e)
    ensures Along(true, s, p, e, i, j, x, r, w) ==
      if Screened(p, e, s.text[i..j]) then AlongSplit(true, s, p, e, i, j, x, r, w) else None
  {
    hide Leaf, Screened, ValidPattern, AlongSplit;
  }

  /** The first part ends at `m` or before, or there is none. */
  function UpTo(m: int): Way -> bool {
    (w: Way) => (w.Then? && w.m <= m) || w.Nothing?
  }

  lemma {:induction false} SplitsListed(s: Subject, p: Pattern, nregs: nat, e: Rexp, i: nat, j: nat, m: int, x: nat,
                                        r: Regs) returns (ws: seq<Way>)
    requires Ready(s, p, nregs, e, i, j, r) && IsSplitter(e) && Observed(e) && Screened(p, e, s.text[i..j])
    requires (e.Interval? ==> x < e.max) && m <= j
    ensures Lists(Tested(s, p, e, i, j, x, r), UpTo(m), ws, Splits(s, p, e, i, j, m, x, r))
    decreases j - i, e, IntervalRest(e, x), 2, m - i + 1
  {
    hide Leaf, Screened, ValidPattern, Lists, Descending, Outcomes, Tails;
    var f := Tested(s, p, e, i, j, x, r);
    SplitterWays(s, p, e, i, j, x, r);
    if m < i {
      ListsOne(f, Nothing);
      ws := OneWay(f(Nothing), Nothing);
      ListsSame(f, Only(Nothing), f, UpTo(m), ws, OneResult(f(Nothing)));
    } else {
      var firsts := Outcomes(s, p, e.left, i, m, 0, r);
      var fs := OutcomesListed(s, p, nregs, e.left, i, m, 0, r);
      FirstsReady(s, p, nregs, e, i, m, r, fs);
      var vs := TailsListed(s, p, nregs, e, i, m, j, x, r, fs, firsts);
      var us := SplitsListed(s, p, nregs, e, i, j, m - 1, x, r);
      AllFirsts(s, p, e, i, m, j, x, r, fs, firsts);
      ListsTwo(f, UpTo(m), Opens(m, fs), vs, Tails(s, p, e, i, m, j, x, firsts),
        UpTo(m - 1), us, Splits(s, p, e, i, j, m - 1, x, r));
      ws := vs + us;
    }
  }

  /** The first part ends at `m` in one of these ways. */
  function Opens(m: nat, fs: seq<Way>): Way -> bool {
    (w: Way) => w.Then? && w.m == m && w.first in fs
  }

  /** First parts with their registers, in order. */
  ghost predicate Firsts(s: Subject, p: Pattern, nregs: nat, e: Rexp, i: nat, m: nat, r: Regs, fs: seq<Way>,
                         firsts: seq<Regs>)
    requires Usable(s, p, e) && i <= m <= s.len && IsSplitter(e)
  {
    && |fs| == |firsts| && Descending(fs)
    && forall k :: 0 <= k < |fs| ==>
      && Along(true, s, p, e.left, i, m, 0, r, fs[k]) == Some(firsts[k])
      && |firsts[k]| == nregs && InRange(s, firsts[k]) && (m > i || !(e.Star? || e.Plus?))
  }

  lemma FirstsReady(s: Subject, p: Pattern, nregs: nat, e: Rexp, i: nat, m: nat, r: Regs, fs: seq<Way>)
    requires Ready(s, p, nregs, e, i, m, r) && IsSplitter(e) && Observed(e)
    requires Lists(Tested(s, p, e.left, i, m, 0, r), Any(), fs, Outcomes(s, p, e.left, i, m, 0, r))
    ensures Firsts(s, p, nregs, e, i, m, r, fs, Outcomes(s, p, e.left, i, m, 0, r))
  {
    hide Leaf, Screened, ValidPattern, Descending, Outcomes, Along, InRange, Matchable, Consistent, RightOn, Match;
    hide Observed;
    var firsts := Outcomes(s, p, e.left, i, m, 0, r);
    forall k | 0 <= k < |fs|
      ensures Along(true, s, p, e.left, i, m, 0, r, fs[k]) == Some(firsts[k])
      ensures |firsts[k]| == nregs && InRange(s, firsts[k]) && (m > i || !(e.Star? || e.Plus?))
    {
      assert Tested(s, p, e.left, i, m, 0, r)(fs[k]) == Some(firsts[k]);
      assert firsts[k] in firsts;
      FirstExact(s, p, nregs, e, i, m, r, firsts[k]);
    }
  }

  lemma AllFirsts(s: Subject, p: Pattern, e: Rexp, i: nat, m: nat, j: nat, x: nat, r: Regs, fs: seq<Way>,
                  firsts: seq<Regs>)
    requires Usable(s, p, e) && i <= m <= j <= s.len && IsSplitter(e) && Observed(e)
    requires Lists(Tested(s, p, e.left, i, m, 0, r), Any(), fs, firsts)
    ensures forall w :: UpTo(m)(w) && Tested(s, p, e, i, j, x, r)(w).Some? ==> Opens(m, fs)(w) || UpTo(m - 1)(w)
  {
    hide Leaf, Screened, ValidPattern, Descending, Outcomes;
    var f0 := Tested(s, p, e.left, i, m, 0, r);
    SplitterWays(s, p, e, i, j, x, r);
    forall w | UpTo(m)(w) && Tested(s, p, e, i, j, x, r)(w).Some? && w.Then? && w.m == m ensures w.first in fs {
      assert f0(w.first).Some?;
    }
  }

  lemma {:induction false} TailsListed(s: Subject, p: Pattern, nregs: nat, e: Rexp, i: nat, m: nat, j: nat, x: nat,
                                       r: Regs, fs: seq<Way>, firsts: seq<Regs>) returns (ws: seq<Way>)
    requires Ready(s, p, nregs, e, i, j, r) && IsSplitter(e) && Observed(e) && Screened(p, e, s.text[i..j])
    requires (e.Interval? ==> x < e.max) && i <= m <= j && Firsts(s, p, nregs, e, i, m, r, fs, firsts)
    ensures Lists(Tested(s, p, e, i, j, x, r), Opens(m, fs), ws, Tails(s, p, e, i, m, j, x, firsts))
    decreases j - i, e, IntervalRest(e, x), 1, |firsts|
  {
    hide Leaf, Screened, ValidPattern, Lists, Outcomes, Tail, Along, InRange, Matchable, WellScoped, Observed;
    var f := Tested(s, p, e, i, j, x, r);
    if fs == [] {
      ListsNone(f, Opens(m, fs));
      return [];
    }
    var vs := TailListed(s, p, nregs, e, i, m, j, x, r, fs[0], firsts[0]);
    var us := TailsListed(s, p, nregs, e, i, m, j, x, r, fs[1..], firsts[1..]);
    assert fs == [fs[0]] + fs[1..];
    ListsTwo(f, Opens(m, fs), In(Behind(m, fs[0])), vs, Tail(s, p, e, i, m, j, x, firsts[0]),
      Opens(m, fs[1..]), us, Tails(s, p, e, i, m, j, x, firsts[1..]));
    ws := vs + us;
  }

  lemma {:induction false} TailListed(s: Subject, p: Pattern, nregs: nat, e: Rexp, i: nat, m: nat, j: nat, x: nat,
                                      r: Regs, v: Way, r1: Regs) returns (ws: seq<Way>)
    requires Ready(s, p, nregs, e, i, j, r) && IsSplitter(e) && Observed(e) && Screened(p, e, s.text[i..j])
    requires (e.Interval? ==> x < e.max) && i <= m <= j && Along(true, s, p, e.left, i, m, 0, r, v) == Some(r1)
    requires |r1| == nregs && InRange(s, r1) && (m > i || !(e.Star? || e.Plus?))
    ensures Lists(Tested(s, p, e, i, j, x, r), In(Behind(m, v)), ws, Tail(s, p, e, i, m, j, x, r1))
    decreases j - i, e, IntervalRest(e, x), 0
  {
    hide Leaf, Screened, ValidPattern, Lists, Descending, Outcomes, Along, InRange;
    var f := Tested(s, p, e, i, j, x, r);
    var f0 := Resting(s, p, e, m, j, x, r1);
    var us;
    if e.Concat? {
      us := OutcomesListed(s, p, nregs, e.right, m, j, 0, r1);
      ListsSame(Tested(s, p, e.right, m, j, 0, r1), Any(), f0, Any(), us, Outcomes(s, p, e.right, m, j, 0, r1));
    } else if e.Interval? {
      us := OutcomesListed(s, p, nregs, e, m, j, x + 1, r1);
      ListsSame(Tested(s, p, e, m, j, x + 1, r1), Any(), f0, Any(), us, Outcomes(s, p, e, m, j, x + 1, r1));
    } else {
      us := OutcomesListed(s, p, nregs, e, m, j, 0, r1);
      us := LoopListed(s, p, e, m, j, x, r1, us);
    }
    forall u ensures f(Put(Behind(m, v), u)) == f0(u) { ThenAlong(true, s, p, e, i, m, j, x, r, v, u); }
    ListsFramed(f0, f, Behind(m, v), us, Tail(s, p, e, i, m, j, x, r1));
    ws := PutAll(Behind(m, v), us);
  }

  /** After an iteration of a star or plus: to stop, if at the end, before going on. */
  lemma LoopListed(s: Subject, p: Pattern, e: Rexp, m: nat, j: nat, x: nat, r1: Regs,
                   vs: seq<Way>) returns (ws: seq<Way>)
    requires Usable(s, p, e) && m <= j <= s.len && (e.Star? || e.Plus?) && Observed(e)
    requires Lists(Tested(s, p, e, m, j, 0, r1), Any(), vs, Outcomes(s, p, e, m, j, 0, r1))
    ensures Lists(Resting(s, p, e, m, j, x, r1), Any(), ws,
      (if m == j then [r1] else []) + Outcomes(s, p, e, m, j, 0, r1))
  {
    hide Leaf, Screened, ValidPattern, Lists, Descending, Outcomes;
    var f := Resting(s, p, e, m, j, x, r1);
    SplitterWays(s, p, e, m, j, 0, r1);
    ListsOne(f, Stop);
    ListsSame(Tested(s, p, e, m, j, 0, r1), Any(), f, Going(), vs,
      Outcomes(s, p, e, m, j, 0, r1));
    ListsTwo(f, Any(), Only(Stop), OneWay(f(Stop), Stop), OneResult(f(Stop)), Going(), vs,
      Outcomes(s, p, e, m, j, 0, r1));
    ws := OneWay(f(Stop), Stop) + vs;
  }

  // ------------------------------------------------------------------ the preferred

  ghost function Meant(s: Subject, p: Pattern, e: Rexp, i: nat, j: nat, x: nat, r: Regs): Way -> Option<Regs>
    requires Usable(s, p, e) && i <= j <= s.len
  {
    w => Along(false, s, p, e, i, j, x, r, w)
  }

  /** Where no test that decides is misled, the outcomes are the registers of all ways that
      the tree means, in the order of preference. */
  lemma OutcomesMeant(s: Subject, p: Pattern, nregs: nat, e: Rexp, i: nat, j: nat, x: nat,
                      r: Regs) returns (ws: seq<Way>)
    requires Ready(s, p, nregs, e, i, j, r) && Consistent(s, p, r) && RightOn(s, e, i, j)
    ensures Lists(Meant(s, p, e, i, j, x, r), Any(), ws, Outcomes(s, p, e, i, j, x, r))
  {
    hide Lists, Along, Outcomes, Consistent, RightOn, ValidPattern, Matchable;
    ws := OutcomesListed(s, p, nregs, e, i, j, x, r);
    var f, g := Tested(s, p, e, i, j, x, r), Meant(s, p, e, i, j, x, r);
    forall w ensures f(w) == g(w) {
      if g(w).Some? { MeantIsTested(s, p, e, i, j, x, r, w, g(w).value); }
      else if f(w).Some? { TestedIsMeant(s, p, e, i, j, x, r, w, f(w).value); }
    }
    ListsSame(f, Any(), g, Any(), ws, Outcomes(s, p, e, i, j, x, r));
  }

  /** The way leads to the registers `r'`, and no other way is preferred to it. */
  ghost predicate Preferred(tested: bool, s: Subject, p: Pattern, e: Rexp, i: nat, j: nat, r: Regs, w: Way, r': Regs) {
    && Usable(s, p, e) && i <= j <= s.len && Along(tested, s, p, e, i, j, 0, r, w) == Some(r')
    && forall v :: Along(tested, s, p, e, i, j, 0, r, v).Some? ==> v == w || Better(w, v)
  }

  /** The registers are those of the preferred way. */
  ghost predicate Best(tested: bool, s: Subject, p: Pattern, e: Rexp, i: nat, j: nat, r: Regs, r': Regs) {
    exists w :: Preferred(tested, s, p, e, i, j, r, w, r')
  }

  lemma FirstIsBest(s: Subject, p: Pattern, nregs: nat, e: Rexp, i: nat, j: nat, r: Regs)
    requires Ready(s, p, nregs, e, i, j, r) && Outcomes(s, p, e, i, j, 0, r) != []
    ensures Best(true, s, p, e, i, j, r, Outcomes(s, p, e, i, j, 0, r)[0])
    ensures Consistent(s, p, r) && RightOn(s, e, i, j) ==>
      Best(false, s, p, e, i, j, r, Outcomes(s, p, e, i, j, 0, r)[0])
  {
    hide Along, Outcomes, Consistent, RightOn, ValidPattern, Matchable;
    var rs := Outcomes(s, p, e, i, j, 0, r);
    var ws := OutcomesListed(s, p, nregs, e, i, j, 0, r);
    HeadPreferred(true, s, p, e, i, j, r, ws, rs);
    if Consistent(s, p, r) && RightOn(s, e, i, j) {
      ws := OutcomesMeant(s, p, nregs, e, i, j, 0, r);
      HeadPreferred(false, s, p, e, i, j, r, ws, rs);
    }
  }

  lemma HeadPreferred(tested: bool, s: Subject, p: Pattern, e: Rexp, i: nat, j: nat, r: Regs, ws: seq<Way>,
                      rs: seq<Regs>)
    requires Usable(s, p, e) && i <= j <= s.len && rs != []
    requires Lists(if tested then Tested(s, p, e, i, j, 0, r) else Meant(s, p, e, i, j, 0, r), Any(), ws, rs)
    ensures Preferred(tested, s, p, e, i, j, r, ws[0], rs[0])
  {
    hide Along, ValidPattern;
    var f := if tested then Tested(s, p, e, i, j, 0, r) else Meant(s, p, e, i, j, 0, r);
    forall v | Along(tested, s, p, e, i, j, 0, r, v).Some? ensures v == ws[0] || Better(ws[0], v) {
      assert f(v).Some? && Any()(v);
      var k :| 0 <= k < |ws| && ws[k] == v;
    }
  }
}
