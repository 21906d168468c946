/** Characters that the test for subsets cannot misjudge.  It looks at the first 224 of
    256 characters only, which is enough for a character of the last word when no set of
    the pattern tells it from one of the first 224. */
module RxTame {
  import opened Wrappers
  import opened RxNode
  import opened RxNfa

  /** Outside the last 32-bit word of a 256-bit set. */
  predicate Low(c: Byte) { c < 224 }

  /** No set of the tree tells `c` from `l`. */
  predicate Blind(e: Rexp, c: Byte, l: Byte) {
    match e
    case Null => true
    case Cset(cs) => c in cs <==> l in cs
    case Str(t) => forall k :: 0 <= k < |t| ==> (c == t[k] <==> l == t[k])
    case Concat(a, b) => Blind(a, c, l) && Blind(b, c, l)
    case Alt(a, b) => Blind(a, c, l) && Blind(b, c, l)
    case Opt(a) => Blind(a, c, l)
    case Star(a) => Blind(a, c, l)
    case Plus(a) => Blind(a, c, l)
    case Interval(a, _, _) => Blind(a, c, l)
    case Parens(_, a) => Blind(a, c, l)
    case Context(_) => true
  }

  ghost predicate TameFor(e: Rexp, c: Byte) {
    exists l :: Low(l) && Blind(e, c, l)
  }

  lemma LowIsTame(e: Rexp, c: Byte)
    requires Low(c)
    ensures TameFor(e, c)
  {
    SelfBlind(e, c);
  }

  lemma {:induction false} SelfBlind(e: Rexp, c: Byte)
    ensures Blind(e, c, c)
  {
    match e
    case Concat(a, b) => SelfBlind(a, c); SelfBlind(b, c);
    case Alt(a, b) => SelfBlind(a, c); SelfBlind(b, c);
    case Opt(a) => SelfBlind(a, c);
    case Star(a) => SelfBlind(a, c);
    case Plus(a) => SelfBlind(a, c);
    case Interval(a, _, _) => SelfBlind(a, c);
    case Parens(_, a) => SelfBlind(a, c);
    case _ =>
  }

  // --------------------------------------------------------------- in the automaton

  /** No edge of the automaton tells `c` from `l`. */
  ghost predicate Twins(g: Graph, c: Byte, l: Byte) {
    forall q, k :: 0 <= q < |g| && 0 <= k < |g[q]| && g[q][k].On? ==> (c in g[q][k].cs <==> l in g[q][k].cs)
  }

  ghost predicate Tame(g: Graph, c: Byte) {
    exists l :: Low(l) && Twins(g, c, l)
  }

  ghost predicate TameText(g: Graph, w: Text) {
    forall k :: 0 <= k < |w| ==> Tame(g, w[k])
  }

  lemma AddTwins(g: Graph, p: nat, edge: Edge, c: Byte, l: Byte)
    requires p < |g| && Twins(g, c, l) && (edge.On? ==> (c in edge.cs <==> l in edge.cs))
    ensures Twins(AddEdge(g, p, edge), c, l)
  {
    var h := AddEdge(g, p, edge);
    assert h[p][1..] == g[p];
    forall q, k | 0 <= q < |h| && 0 <= k < |h[q]| && h[q][k].On? ensures c in h[q][k].cs <==> l in h[q][k].cs {
      if q == p && k > 0 { assert h[q][k] == g[q][k - 1]; }
    }
  }

  /** The edges made for a tree carry only its sets. */
  lemma {:induction false} BuiltTwins(g: Graph, e: Rexp, start: Option<nat>, end: Option<nat>, c: Byte, l: Byte)
    requires GivenOk(g, start, end) && ContextFree(e) && NonEmptyStrings(e) && Twins(g, c, l) && Blind(e, c, l)
    ensures Twins(Built(g, e, start, end).g, c, l)
    decreases e, 1
  {
    var g1 := WithGiven(g, start);
    if !e.Null? {
      NodeTwins(WithGiven(g1, end), e, Given(g, start), Given(g1, end), c, l);
    }
  }

  lemma {:induction false} NodeTwins(g: Graph, e: Rexp, s: nat, t: nat, c: Byte, l: Byte)
    requires s < |g| && t < |g| && s != t && !e.Null? && ContextFree(e) && NonEmptyStrings(e)
    requires Twins(g, c, l) && Blind(e, c, l)
    ensures Twins(BuiltNode(g, e, s, t).g, c, l)
    decreases e, 0
  {
    hide Twins, Built;
    match e
    case Cset(cs) => AddTwins(g, s, On(cs, t), c, l);
    case Str(text) => StrTwins(g, text, s, t, c, l);
    case Opt(a) =>
      var f := Built(g, a, Some(s), Some(t));
      BuiltTwins(g, a, Some(s), Some(t), c, l);
      AddTwins(f.g, f.start, Eps(f.end), c, l);
    case Plus(a) =>
      var first := Built(g, a, Some(s), None);
      BuiltTwins(g, a, Some(s), None, c, l);
      BuiltTwins(first.g, a, None, None, c, l);
      StarTwins(Built(first.g, a, None, None), first.end, t, c, l);
    case Star(a) =>
      BuiltTwins(g, a, None, None, c, l);
      StarTwins(Built(g, a, None, None), s, t, c, l);
    case Interval(a, _, _) =>
      BuiltTwins(g, a, None, None, c, l);
      StarTwins(Built(g, a, None, None), s, t, c, l);
    case Parens(_, a) => BuiltTwins(g, a, Some(s), Some(t), c, l);
    case Concat(a, b) =>
      var first := Built(g, a, Some(s), None);
      BuiltTwins(g, a, Some(s), None, c, l);
      BuiltTwins(first.g, b, Some(first.end), Some(t), c, l);
    case Alt(a, b) =>
      var left := Built(g, a, None, None);
      BuiltTwins(g, a, None, None, c, l);
      BuiltTwins(left.g, b, None, None, c, l);
      AltTwins(left, Built(left.g, b, None, None), s, t, c, l);
  }

  lemma StarTwins(f: Fragment, s: nat, t: nat, c: Byte, l: Byte)
    requires s < |f.g| && t < |f.g| && f.start < |f.g| && f.end < |f.g| && Twins(f.g, c, l)
    ensures Twins(BuiltStar(f, s, t).g, c, l)
  {
    hide Twins;
    AddTwins(f.g, f.start, Eps(f.end), c, l);
    var g1 := AddEdge(f.g, f.start, Eps(f.end));
    AddTwins(g1, s, Eps(f.start), c, l);
    var g2 := AddEdge(g1, s, Eps(f.start));
    AddTwins(g2, f.end, Eps(t), c, l);
    AddTwins(AddEdge(g2, f.end, Eps(t)), f.end, Eps(f.start), c, l);
  }

  lemma AltTwins(x: Fragment, y: Fragment, s: nat, t: nat, c: Byte, l: Byte)
    requires s < |y.g| && x.end < |y.g| && y.end < |y.g| && Twins(y.g, c, l)
    ensures Twins(BuiltAlt(x, y, s, t).g, c, l)
  {
    hide Twins;
    AddTwins(y.g, s, Eps(x.start), c, l);
    var g1 := AddEdge(y.g, s, Eps(x.start));
    AddTwins(g1, s, Eps(y.start), c, l);
    var g2 := AddEdge(g1, s, Eps(y.start));
    AddTwins(g2, x.end, Eps(t), c, l);
    AddTwins(AddEdge(g2, x.end, Eps(t)), y.end, Eps(t), c, l);
  }

  lemma {:induction false} StrTwins(g: Graph, text: Text, s: nat, t: nat, c: Byte, l: Byte)
    requires text != [] && s < |g| && t < |g| && Twins(g, c, l)
    requires forall k :: 0 <= k < |text| ==> (c == text[k] <==> l == text[k])
    ensures Twins(BuiltStr(g, text, s, t).g, c, l)
    decreases |text|
  {
    if |text| == 1 {
      AddTwins(g, s, On({text[0]}, t), c, l);
    } else {
      var rest := BuiltStr(g + [[]], text[1..], |g|, t);
      StrTwins(g + [[]], text[1..], |g|, t, c, l);
      AddTwins(rest.g, s, On({text[0]}, |g|), c, l);
    }
  }

  /** A character no set of the tree tells from a low one is tame in its automaton. */
  lemma TreeIsTame(e: Rexp, c: Byte)
    requires ContextFree(e) && NonEmptyStrings(e) && TameFor(e, c)
    ensures Tame(Built([], e, None, None).g, c)
  {
    var l :| Low(l) && Blind(e, c, l);
    BuiltTwins([], e, None, None, c, l);
  }

  /** Back-references compare with `strncmp`, so a tree with one must not meet a NUL. */
  predicate Refers(e: Rexp) {
    match e
    case Null => false
    case Cset(_) => false
    case Str(_) => false
    case Concat(a, b) => Refers(a) || Refers(b)
    case Alt(a, b) => Refers(a) || Refers(b)
    case Opt(a) => Refers(a)
    case Star(a) => Refers(a)
    case Plus(a) => Refers(a)
    case Interval(a, _, _) => Refers(a)
    case Parens(_, a) => Refers(a)
    case Context(op) => op.Backref?
  }
}
