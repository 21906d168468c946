/** The construction of RxNfa is correct: along the edges it adds, the paths from the
    start state to the end state spell exactly the language of the tree. */
module RxThompson {
  import opened Wrappers
  import opened RxNode
  import opened RxNfa

  // ------------------------------------------------------------------- new edges

  /** Edges are only ever put in front of a state's edge list. */
  ghost predicate Grows(g: Graph, h: Graph) {
    && |g| <= |h|
    && forall q :: 0 <= q < |g| ==> |g[q]| <= |h[q]| && h[q][|h[q]| - |g[q]|..] == g[q]
  }

  /** The edges of `q` in `h` that `g` does not have. */
  function NewEdges(g: Graph, h: Graph, q: nat): seq<Edge>
    requires q < |h|
  {
    if q < |g| && |g[q]| <= |h[q]| then h[q][..|h[q]| - |g[q]|] else h[q]
  }

  function Delta(g: Graph, h: Graph): (d: Graph)
    ensures |d| == |h| && forall q :: 0 <= q < |h| ==> d[q] == NewEdges(g, h, q)
  {
    seq(|h|, q requires 0 <= q < |h| => NewEdges(g, h, q))
  }

  ghost predicate IsNew(g: Graph, h: Graph, q: nat, edge: Edge) {
    q < |h| && edge in NewEdges(g, h, q)
  }

  lemma GrowsTrans(g: Graph, h: Graph, k: Graph)
    requires Grows(g, h) && Grows(h, k)
    ensures Grows(g, k)
    ensures forall q: nat, edge :: IsNew(g, k, q, edge) <==> IsNew(h, k, q, edge) || IsNew(g, h, q, edge)
  {
    forall q | 0 <= q < |g| ensures |g[q]| <= |k[q]| && k[q][|k[q]| - |g[q]|..] == g[q] {
      assert k[q] == NewEdges(h, k, q) + (NewEdges(g, h, q) + g[q]);
    }
    forall q: nat, edge ensures IsNew(g, k, q, edge) <==> IsNew(h, k, q, edge) || IsNew(g, h, q, edge) {
      if q < |g| {
        assert k[q] == NewEdges(h, k, q) + (NewEdges(g, h, q) + g[q]);
        assert NewEdges(g, k, q) == NewEdges(h, k, q) + NewEdges(g, h, q);
      } else if q < |h| {
        assert k[q] == NewEdges(h, k, q) + h[q];
      }
    }
  }

  lemma GrowsAdd(g: Graph, h: Graph, p: nat, edge: Edge)
    requires Grows(g, h) && p < |h|
    ensures Grows(g, AddEdge(h, p, edge))
    ensures forall q: nat, e :: IsNew(g, AddEdge(h, p, edge), q, e) <==> (q == p && e == edge) || IsNew(g, h, q, e)
  {
    var k := AddEdge(h, p, edge);
    assert k[p][1..] == h[p];
    forall q | 0 <= q < |h| ensures |h[q]| <= |k[q]| && k[q][|k[q]| - |h[q]|..] == h[q] {}
    assert NewEdges(h, k, p) == [edge];
    forall q: nat, e ensures IsNew(h, k, q, e) <==> q == p && e == edge {
      if q < |h| && q != p { assert NewEdges(h, k, q) == []; }
    }
    GrowsTrans(g, h, k);
  }

  lemma GrowsGiven(g: Graph, state: Option<nat>)
    ensures Grows(g, WithGiven(g, state))
    ensures forall q: nat, e :: !IsNew(g, WithGiven(g, state), q, e)
  {
  }

  // ----------------------------------------------------------------------- shape

  /** New edges leave only the start state and new states, lead only to the end state,
      to new states or from the start state to itself, and old edges stay. */
  ghost predicate Shaped(g: Graph, f: Fragment) {
    && Grows(g, f.g)
    && forall q: nat, edge :: IsNew(g, f.g, q, edge) ==>
         && (q == f.start || q >= |g|)
         && q < |f.g| && edge.dest < |f.g|
         && (edge.dest == f.end || edge.dest >= |g| || edge.dest == f.start)
         && (edge.dest == f.start ==> edge.Eps? && q == f.start)
  }

  lemma {:induction false} BuiltShape(g: Graph, e: Rexp, start: Option<nat>, end: Option<nat>)
    requires GivenOk(g, start, end) && ContextFree(e) && NonEmptyStrings(e)
    ensures Shaped(g, Built(g, e, start, end))
    decreases e, 1
  {
    GrowsGiven(g, start);
    if !e.Null? {
      var g1 := WithGiven(g, start);
      NodeShape(WithGiven(g1, end), e, Given(g, start), Given(g1, end));
      GivenShape(g, start, end, BuiltNode(WithGiven(g1, end), e, Given(g, start), Given(g1, end)));
    }
  }

  /** Supplying the missing states first adds no edge. */
  lemma GivenShape(g: Graph, start: Option<nat>, end: Option<nat>, f: Fragment)
    requires GivenOk(g, start, end) && f.start == Given(g, start)
    requires Shaped(WithGiven(WithGiven(g, start), end), f)
    ensures Shaped(g, f)
    ensures forall q: nat, e :: IsNew(g, f.g, q, e) <==> IsNew(WithGiven(WithGiven(g, start), end), f.g, q, e)
  {
    hide IsNew, NewEdges;
    var g1 := WithGiven(g, start);
    GrowsGiven(g, start);
    GrowsGiven(g1, end);
    GrowsTrans(g, g1, WithGiven(g1, end));
    GrowsTrans(g, WithGiven(g1, end), f.g);
  }

  lemma GrowsSelf(g: Graph)
    ensures Grows(g, g) && forall q: nat, e :: !IsNew(g, g, q, e)
  {
  }

  lemma {:induction false} NodeShape(g: Graph, e: Rexp, s: nat, t: nat)
    requires s < |g| && t < |g| && s != t && !e.Null? && ContextFree(e) && NonEmptyStrings(e)
    ensures Shaped(g, BuiltNode(g, e, s, t))
    decreases e, 0
  {
    hide IsNew, Grows, NewEdges, BuiltStar, BuiltAlt, BuiltOpt, Built;
    match e
    case Cset(cs) =>
      GrowsSelf(g);
      GrowsAdd(g, g, s, On(cs, t));
    case Str(text) => StrShape(g, text, s, t);
    case Opt(a) =>
      BuiltShape(g, a, Some(s), Some(t));
      OptShape(g, Built(g, a, Some(s), Some(t)));
    case Plus(a) =>
      var first := Built(g, a, Some(s), None);
      BuiltShape(g, a, Some(s), None);
      BuiltShape(first.g, a, None, None);
      PlusShape(g, first, Built(first.g, a, None, None), s, t);
    case Star(a) =>
      BuiltShape(g, a, None, None);
      StarShape(g, Built(g, a, None, None), s, t);
    case Interval(a, _, _) =>
      BuiltShape(g, a, None, None);
      StarShape(g, Built(g, a, None, None), s, t);
    case Parens(_, a) => BuiltShape(g, a, Some(s), Some(t));
    case Concat(a, b) =>
      var first := Built(g, a, Some(s), None);
      BuiltShape(g, a, Some(s), None);
      BuiltShape(first.g, b, Some(first.end), Some(t));
      ConcatShape(g, first, Built(first.g, b, Some(first.end), Some(t)), s, t);
    case Alt(a, b) =>
      var l := Built(g, a, None, None);
      BuiltShape(g, a, None, None);
      BuiltShape(l.g, b, None, None);
      AltShape(g, l, Built(l.g, b, None, None), s, t);
  }

  /** `f` was built on `g` between the state `s` and a new state, or `s` itself. */
  ghost predicate FromTo(g: Graph, f: Fragment, s: nat) {
    Shaped(g, f) && f.start == s && f.start < |f.g| && f.end < |f.g| && (f.end == s || f.end >= |g|)
  }

  lemma OptShape(g: Graph, f: Fragment)
    requires Shaped(g, f) && f.start < |g| && f.start < |f.g| && f.end < |f.g|
    ensures Shaped(g, BuiltOpt(f))
  {
    hide IsNew, Grows, NewEdges;
    GrowsAdd(g, f.g, f.start, Eps(f.end));
  }

  lemma StarShape(g: Graph, body: Fragment, s: nat, t: nat)
    requires s < |g| && t < |g| && s != t && FromTo(g, body, |g|)
    ensures Shaped(g, BuiltStar(body, s, t))
  {
    hide IsNew, NewEdges, BuiltStar;
    LoopEdges(g, body, s, t);
  }

  lemma PlusShape(g: Graph, first: Fragment, body: Fragment, s: nat, t: nat)
    requires s < |g| && t < |g| && s != t && FromTo(g, first, s) && FromTo(first.g, body, |first.g|)
    ensures Shaped(g, Fragment(BuiltStar(body, first.end, t).g, s, t))
  {
    hide IsNew, NewEdges, BuiltStar;
    GrowsTrans(g, first.g, body.g);
    LoopEdges(g, body, first.end, t);
  }

  lemma ConcatShape(g: Graph, first: Fragment, second: Fragment, s: nat, t: nat)
    requires s < |g| && t < |g| && s != t && FromTo(g, first, s)
    requires Shaped(first.g, second) && second.start == first.end && first.end < |second.g|
    requires second.end == first.end || second.end >= |first.g| || second.end == t
    ensures Shaped(g, Fragment(second.g, s, second.end))
  {
    hide IsNew, NewEdges;
    GrowsTrans(g, first.g, second.g);
  }

  lemma AltShape(g: Graph, l: Fragment, r: Fragment, s: nat, t: nat)
    requires s < |g| && t < |g| && s != t && FromTo(g, l, |g|) && FromTo(l.g, r, |l.g|)
    ensures Shaped(g, BuiltAlt(l, r, s, t))
  {
    hide IsNew, NewEdges, BuiltAlt;
    GrowsTrans(g, l.g, r.g);
    AltEdges(g, l, r, s, t);
  }

  lemma LoopEdges(g: Graph, body: Fragment, from: nat, t: nat)
    requires Grows(g, body.g) && from < |body.g| && t < |g| && body.start < |body.g| && body.end < |body.g|
    ensures Grows(g, BuiltStar(body, from, t).g)
    ensures forall q: nat, e :: IsNew(g, BuiltStar(body, from, t).g, q, e) <==>
        || IsNew(g, body.g, q, e)
        || (q == body.start && e == Eps(body.end)) || (q == from && e == Eps(body.start))
        || (q == body.end && e == Eps(t)) || (q == body.end && e == Eps(body.start))
  {
    var h1 := AddEdge(body.g, body.start, Eps(body.end));
    GrowsAdd(g, body.g, body.start, Eps(body.end));
    var h2 := AddEdge(h1, from, Eps(body.start));
    GrowsAdd(g, h1, from, Eps(body.start));
    var h3 := AddEdge(h2, body.end, Eps(t));
    GrowsAdd(g, h2, body.end, Eps(t));
    GrowsAdd(g, h3, body.end, Eps(body.start));
  }

  lemma AltEdges(g: Graph, l: Fragment, r: Fragment, s: nat, t: nat)
    requires Grows(g, r.g) && s < |g| && t < |g| && l.start < |r.g| && l.end < |r.g| && r.start < |r.g| && r.end < |r.g|
    ensures Grows(g, BuiltAlt(l, r, s, t).g)
    ensures forall q: nat, e :: IsNew(g, BuiltAlt(l, r, s, t).g, q, e) <==>
        || IsNew(g, r.g, q, e)
        || (q == s && e == Eps(l.start)) || (q == s && e == Eps(r.start))
        || (q == l.end && e == Eps(t)) || (q == r.end && e == Eps(t))
  {
    var h1 := AddEdge(r.g, s, Eps(l.start));
    GrowsAdd(g, r.g, s, Eps(l.start));
    var h2 := AddEdge(h1, s, Eps(r.start));
    GrowsAdd(g, h1, s, Eps(r.start));
    var h3 := AddEdge(h2, l.end, Eps(t));
    GrowsAdd(g, h2, l.end, Eps(t));
    GrowsAdd(g, h3, r.end, Eps(t));
  }

  lemma {:induction false} StrShape(g: Graph, text: Text, s: nat, t: nat)
    requires text != [] && s < |g| && t < |g| && s != t
    ensures Shaped(g, BuiltStr(g, text, s, t))
    decreases |text|
  {
    hide IsNew, Grows, NewEdges, AddEdge;
    if |text| == 1 {
      GrowsSelf(g);
      GrowsAdd(g, g, s, On({text[0]}, t));
    } else {
      StrShape(g + [[]], text[1..], |g|, t);
      StrStepShape(g, text[0], s, BuiltStr(g + [[]], text[1..], |g|, t));
    }
  }

  lemma StrStepShape(g: Graph, c: Byte, s: nat, rest: Fragment)
    requires s < |g| && rest.end < |g| && s != rest.end && rest.start == |g| && |g| < |rest.g|
    requires Shaped(g + [[]], rest)
    ensures Shaped(g, Fragment(AddEdge(rest.g, s, On({c}, |g|)), s, rest.end))
  {
    hide IsNew, Grows, NewEdges, AddEdge;
    GrowsGiven(g, None);
    GrowsTrans(g, g + [[]], rest.g);
    GrowsAdd(g, rest.g, s, On({c}, |g|));
  }

  // ------------------------------------------------------ every word has a path

  lemma DeltaWithin(g: Graph, h: Graph, g': Graph, h': Graph)
    requires |h| <= |h'| && forall q: nat, e :: IsNew(g, h, q, e) ==> IsNew(g', h', q, e)
    ensures Within(Delta(g, h), Delta(g', h'))
  {
    forall q, e | 0 <= q < |h| && e in Delta(g, h)[q] ensures e in Delta(g', h')[q] {
      assert IsNew(g, h, q, e);
      assert IsNew(g', h', q, e);
    }
  }

  lemma {:induction false} BuiltAccepts(g: Graph, e: Rexp, start: Option<nat>, end: Option<nat>, w: Text)
    requires GivenOk(g, start, end) && ContextFree(e) && NonEmptyStrings(e) && InLang(e, w)
    ensures var f := Built(g, e, start, end); Path(Delta(g, f.g), f.start, w, f.end)
    decreases e, 2
  {
    var f := Built(g, e, start, end);
    if e.Null? {
      EmptyPath(Delta(g, f.g), f.start);
    } else {
      var g1 := WithGiven(g, start);
      var g2 := WithGiven(g1, end);
      NodeShape(g2, e, Given(g, start), Given(g1, end));
      GivenShape(g, start, end, f);
      NodeAccepts(g2, e, Given(g, start), Given(g1, end), w);
      DeltaWithin(g2, f.g, g, f.g);
      PathWithin(Delta(g2, f.g), Delta(g, f.g), f.start, w, f.end);
    }
  }

  /** A word of an operand has a path in any automaton that has the operand's edges. */
  lemma {:induction false} OperandAccepts(g: Graph, e: Rexp, start: Option<nat>, end: Option<nat>, w: Text, d: Graph)
    requires GivenOk(g, start, end) && ContextFree(e) && NonEmptyStrings(e) && InLang(e, w)
    requires Within(Delta(g, Built(g, e, start, end).g), d)
    ensures var f := Built(g, e, start, end); Path(d, f.start, w, f.end)
    decreases e, 3
  {
    var f := Built(g, e, start, end);
    BuiltAccepts(g, e, start, end, w);
    PathWithin(Delta(g, f.g), d, f.start, w, f.end);
  }

  lemma {:induction false} NodeAccepts(g: Graph, e: Rexp, s: nat, t: nat, w: Text)
    requires s < |g| && t < |g| && s != t && !e.Null? && ContextFree(e) && NonEmptyStrings(e) && InLang(e, w)
    ensures var f := BuiltNode(g, e, s, t); Path(Delta(g, f.g), s, w, f.end)
    decreases e, 1
  {
    hide IsNew, Grows, NewEdges, Built, BuiltStar, BuiltAlt, Path, Within;
    var f := BuiltNode(g, e, s, t);
    match e
    case Cset(cs) =>
      GrowsSelf(g);
      GrowsAdd(g, g, s, On(cs, t));
      assert w == [w[0]];
      NewOnPath(g, f.g, s, cs, w[0], t);
    case Str(text) => StrAccepts(g, text, s, t);
    case Opt(a) => OptAccepts(g, a, s, t, w);
    case Plus(a) => PlusAccepts(g, a, s, t, w);
    case Star(a) => StarAccepts(g, a, s, t, w);
    case Interval(a, _, _) => StarAccepts(g, a, s, t, w);
    case Parens(_, a) => BuiltAccepts(g, a, Some(s), Some(t), w);
    case Concat(a, b) => ConcatAccepts(g, a, b, s, t, w);
    case Alt(a, b) => AltAccepts(g, a, b, s, t, w);
  }

  lemma {:induction false} OptAccepts(g: Graph, a: Rexp, s: nat, t: nat, w: Text)
    requires s < |g| && t < |g| && s != t && ContextFree(a) && NonEmptyStrings(a) && InLang(Opt(a), w)
    ensures var f := BuiltNode(g, Opt(a), s, t); Path(Delta(g, f.g), s, w, f.end)
    decreases Opt(a), 0
  {
    hide IsNew, Grows, NewEdges, Built, Path, Within;
    var f := BuiltNode(g, Opt(a), s, t);
    var f1 := Built(g, a, Some(s), Some(t));
    BuiltShape(g, a, Some(s), Some(t));
    GrowsAdd(g, f1.g, s, Eps(f1.end));
    DeltaWithin(g, f1.g, g, f.g);
    if w == [] { NewEpsPath(g, f.g, s, f1.end); }
    else { OperandAccepts(g, a, Some(s), Some(t), w, Delta(g, f.g)); }
  }

  lemma {:induction false} ConcatAccepts(g: Graph, a: Rexp, b: Rexp, s: nat, t: nat, w: Text)
    requires s < |g| && t < |g| && s != t && ContextFree(Concat(a, b)) && NonEmptyStrings(Concat(a, b))
    requires InLang(Concat(a, b), w)
    ensures var f := BuiltNode(g, Concat(a, b), s, t); Path(Delta(g, f.g), s, w, f.end)
    decreases Concat(a, b), 0
  {
    hide IsNew, Grows, NewEdges, Built, Path, Within, InLang, Delta;
    var f := BuiltNode(g, Concat(a, b), s, t);
    var d := Delta(g, f.g);
    var k := CutWord(a, b, w);
    var f1 := Built(g, a, Some(s), None);
    assert f.end == Built(f1.g, b, Some(f1.end), Some(t)).end;
    ConcatWithin(g, a, b, s, t);
    hide BuiltNode;
    OperandAccepts(g, a, Some(s), None, w[..k], d);
    OperandAccepts(f1.g, b, Some(f1.end), Some(t), w[k..], d);
    PathJoin(d, s, w[..k], f1.end, w[k..], f.end);
    assert w[..k] + w[k..] == w;
  }

  lemma CutWord(a: Rexp, b: Rexp, w: Text) returns (k: nat)
    requires InLang(Concat(a, b), w)
    ensures k <= |w| && InLang(a, w[..k]) && InLang(b, w[k..])
  {
    k :| k <= |w| && InLang(a, w[..k]) && InLang(b, w[k..]);
  }

  lemma ConcatWithin(g: Graph, a: Rexp, b: Rexp, s: nat, t: nat)
    requires s < |g| && t < |g| && s != t && ContextFree(Concat(a, b)) && NonEmptyStrings(Concat(a, b))
    ensures var d, f1 := Delta(g, BuiltNode(g, Concat(a, b), s, t).g), Built(g, a, Some(s), None);
      Within(Delta(g, f1.g), d) && Within(Delta(f1.g, Built(f1.g, b, Some(f1.end), Some(t)).g), d)
  {
    hide IsNew, Grows, NewEdges, Built, Within, Delta;
    var f1 := Built(g, a, Some(s), None);
    var f2 := Built(f1.g, b, Some(f1.end), Some(t));
    assert BuiltNode(g, Concat(a, b), s, t).g == f2.g;
    BuiltShape(g, a, Some(s), None);
    BuiltShape(f1.g, b, Some(f1.end), Some(t));
    GrowsTrans(g, f1.g, f2.g);
    DeltaWithin(g, f1.g, g, f2.g);
    DeltaWithin(f1.g, f2.g, g, f2.g);
  }

  lemma NewEpsPath(g: Graph, h: Graph, p: nat, q: nat)
    requires IsNew(g, h, p, Eps(q)) && q < |h|
    ensures Path(Delta(g, h), p, [], q)
  {
    EpsPath(Delta(g, h), p, q);
  }

  lemma NewOnPath(g: Graph, h: Graph, p: nat, cs: set<Byte>, c: Byte, q: nat)
    requires IsNew(g, h, p, On(cs, q)) && q < |h| && c in cs
    ensures Path(Delta(g, h), p, [c], q)
  {
    OnPath(Delta(g, h), p, cs, c, q);
  }

  lemma {:induction false} StrAccepts(g: Graph, text: Text, s: nat, t: nat)
    requires text != [] && s < |g| && t < |g| && s != t
    ensures Path(Delta(g, BuiltStr(g, text, s, t).g), s, text, t)
    decreases |text|
  {
    hide IsNew, Grows, NewEdges, AddEdge, Path, Within;
    var h := BuiltStr(g, text, s, t).g;
    if |text| == 1 {
      GrowsSelf(g);
      GrowsAdd(g, g, s, On({text[0]}, t));
      assert text == [text[0]];
      NewOnPath(g, h, s, {text[0]}, text[0], t);
    } else {
      var g1 := g + [[]];
      GrowsGiven(g, None);
      StrShape(g1, text[1..], |g|, t);
      var rest := BuiltStr(g1, text[1..], |g|, t);
      GrowsTrans(g, g1, rest.g);
      GrowsAdd(g, rest.g, s, On({text[0]}, |g|));
      StrAccepts(g1, text[1..], |g|, t);
      DeltaWithin(g1, rest.g, g, h);
      PathWithin(Delta(g1, rest.g), Delta(g, h), |g|, text[1..], t);
      NewOnPath(g, h, s, {text[0]}, text[0], |g|);
      PathJoin(Delta(g, h), s, [text[0]], |g|, text[1..], t);
      assert [text[0]] + text[1..] == text;
    }
  }

  lemma {:induction false} AltAccepts(g: Graph, a: Rexp, b: Rexp, s: nat, t: nat, w: Text)
    requires s < |g| && t < |g| && s != t && ContextFree(Alt(a, b)) && NonEmptyStrings(Alt(a, b))
    requires InLang(Alt(a, b), w)
    ensures Path(Delta(g, BuiltNode(g, Alt(a, b), s, t).g), s, w, t)
    decreases Alt(a, b), 0
  {
    hide IsNew, Grows, NewEdges, Built, BuiltAlt, Path, Within;
    var l := Built(g, a, None, None);
    BuiltShape(g, a, None, None);
    var r := Built(l.g, b, None, None);
    BuiltShape(l.g, b, None, None);
    GrowsTrans(g, l.g, r.g);
    AltEdges(g, l, r, s, t);
    var h := BuiltAlt(l, r, s, t).g;
    var d := Delta(g, h);
    DeltaWithin(g, l.g, g, h);
    DeltaWithin(l.g, r.g, g, h);
    if InLang(a, w) {
      OperandAccepts(g, a, None, None, w, d);
      NewEpsPath(g, h, s, l.start);
      NewEpsPath(g, h, l.end, t);
      PathJoin(d, s, [], l.start, w, l.end);
      PathJoin(d, s, [] + w, l.end, [], t);
      assert [] + w + [] == w;
    } else {
      OperandAccepts(l.g, b, None, None, w, d);
      NewEpsPath(g, h, s, r.start);
      NewEpsPath(g, h, r.end, t);
      PathJoin(d, s, [], r.start, w, r.end);
      PathJoin(d, s, [] + w, r.end, [], t);
      assert [] + w + [] == w;
    }
  }

  /** Going round a loop any number of times. */
  lemma {:induction false} LoopAccepts(d: Graph, a: Rexp, p: nat, q: nat, w: Text)
    requires Path(d, p, [], q) && Path(d, q, [], p)
    requires forall v :: InLang(a, v) ==> Path(d, p, v, q)
    requires InStar(a, w)
    ensures Path(d, p, w, q)
    decreases |w|
  {
    hide Path;
    if w != [] {
      var k: nat :| 1 <= k <= |w| && InLang(a, w[..k]) && InStar(a, w[k..]);
      LoopAccepts(d, a, p, q, w[k..]);
      PathJoin(d, p, w[..k], q, [], p);
      PathJoin(d, p, w[..k] + [], p, w[k..], q);
      assert w[..k] + [] + w[k..] == w;
    }
  }

  lemma {:induction false} StarAccepts(g: Graph, a: Rexp, s: nat, t: nat, w: Text)
    requires s < |g| && t < |g| && s != t && ContextFree(a) && NonEmptyStrings(a) && InStar(a, w)
    ensures Path(Delta(g, BuiltStar(Built(g, a, None, None), s, t).g), s, w, t)
    decreases a, 4
  {
    hide IsNew, Grows, NewEdges, Built, BuiltStar, Path, Within;
    var body := Built(g, a, None, None);
    BuiltShape(g, a, None, None);
    LoopEdges(g, body, s, t);
    var h := BuiltStar(body, s, t).g;
    var d := Delta(g, h);
    DeltaWithin(g, body.g, g, h);
    LoopPath(g, a, g, h, s, t, w);
  }

  /** From the entry of a loop around a copy of `a` built on `g`, out to `t`. */
  lemma {:induction false} LoopPath(g: Graph, a: Rexp, base: Graph, h: Graph, from: nat, t: nat, w: Text)
    requires ContextFree(a) && NonEmptyStrings(a) && InStar(a, w) && t < |h|
    requires var body := Built(g, a, None, None);
      && |body.g| <= |h| && Within(Delta(g, body.g), Delta(base, h))
      && IsNew(base, h, body.start, Eps(body.end)) && IsNew(base, h, from, Eps(body.start))
      && IsNew(base, h, body.end, Eps(t)) && IsNew(base, h, body.end, Eps(body.start))
    ensures Path(Delta(base, h), from, w, t)
    decreases a, 3
  {
    hide IsNew, Grows, NewEdges, Built, Path, Within;
    var body := Built(g, a, None, None);
    var d := Delta(base, h);
    forall v | InLang(a, v) ensures Path(d, body.start, v, body.end) {
      BuiltAccepts(g, a, None, None, v);
      PathWithin(Delta(g, body.g), d, body.start, v, body.end);
    }
    NewEpsPath(base, h, body.start, body.end);
    NewEpsPath(base, h, body.end, body.start);
    NewEpsPath(base, h, from, body.start);
    NewEpsPath(base, h, body.end, t);
    LoopAccepts(d, a, body.start, body.end, w);
    PathJoin(d, from, [], body.start, w, body.end);
    PathJoin(d, from, [] + w, body.end, [], t);
    assert [] + w + [] == w;
  }

  lemma {:induction false} PlusAccepts(g: Graph, a: Rexp, s: nat, t: nat, w: Text)
    requires s < |g| && t < |g| && s != t && ContextFree(a) && NonEmptyStrings(a) && InLang(Plus(a), w)
    ensures Path(Delta(g, BuiltNode(g, Plus(a), s, t).g), s, w, t)
    decreases a, 4
  {
    hide IsNew, Grows, NewEdges, Built, BuiltStar, Path, Within;
    var k: nat :| k <= |w| && InLang(a, w[..k]) && InStar(a, w[k..]);
    var first := Built(g, a, Some(s), None);
    BuiltShape(g, a, Some(s), None);
    var body := Built(first.g, a, None, None);
    BuiltShape(first.g, a, None, None);
    GrowsTrans(g, first.g, body.g);
    LoopEdges(g, body, first.end, t);
    var h := BuiltStar(body, first.end, t).g;
    var d := Delta(g, h);
    DeltaWithin(g, first.g, g, h);
    DeltaWithin(first.g, body.g, g, h);
    OperandAccepts(g, a, Some(s), None, w[..k], d);
    LoopPath(first.g, a, g, h, first.end, t, w[k..]);
    PathJoin(d, s, w[..k], first.end, w[k..], t);
    assert w[..k] + w[k..] == w;
  }

  // ----------------------------------------------- every path spells a word

  type Lang = iset<Text>

  /** Gives each state the words that may still be spelled from it. */
  type Label = nat -> Lang

  ghost predicate EdgeFits(lab: Label, q: nat, edge: Edge) {
    if edge.Eps? then lab(edge.dest) <= lab(q)
    else forall c: Byte, w :: c in edge.cs && w in lab(edge.dest) ==> [c] + w in lab(q)
  }

  ghost predicate Labels(lab: Label, g: Graph, h: Graph) {
    forall q: nat, edge :: IsNew(g, h, q, edge) ==> EdgeFits(lab, q, edge)
  }

  lemma {:induction false} Spelled(lab: Label, g: Graph, h: Graph, p: nat, w: Text, q: nat, n: nat)
    requires Labels(lab, g, h) && PathN(Delta(g, h), p, w, q, n) && [] in lab(q)
    ensures w in lab(p)
    decreases n
  {
    if n > 0 {
      var edge :| edge in Delta(g, h)[p] && StepN(Delta(g, h), edge, w, q, n);
      assert IsNew(g, h, p, edge);
      if edge.Eps? {
        Spelled(lab, g, h, edge.dest, w, q, n - 1);
      } else {
        Spelled(lab, g, h, edge.dest, w[1..], q, n - 1);
        assert [w[0]] + w[1..] == w;
      }
    }
  }

  /** The words of `e` followed by a word of `k`. */
  ghost function Then(e: Rexp, k: Lang): Lang {
    iset w: Text | Joins(e, k, w)
  }

  ghost predicate Joins(e: Rexp, k: Lang, w: Text) {
    exists n: nat :: n <= |w| && InLang(e, w[..n]) && w[n..] in k
  }

  lemma JoinsIntro(e: Rexp, k: Lang, u: Text, v: Text)
    requires InLang(e, u) && v in k
    ensures u + v in Then(e, k)
  {
    assert (u + v)[..|u|] == u && (u + v)[|u|..] == v;
  }

  lemma ThenNull(k: Lang)
    ensures Then(Null, k) == k
  {
    forall w ensures w in Then(Null, k) <==> w in k {
      if w in k { assert w[..0] == [] && w[0..] == w; }
      if w in Then(Null, k) {
        var n: nat :| n <= |w| && InLang(Null, w[..n]) && w[n..] in k;
        assert n == 0 && w[0..] == w;
      }
    }
  }

  lemma ThenMono(e: Rexp, k: Lang, k': Lang)
    requires k <= k'
    ensures Then(e, k) <= Then(e, k')
  {
  }

  lemma ConcatWords(a: Rexp, b: Rexp, u: Text, v: Text)
    requires InLang(a, u) && InLang(b, v)
    ensures InLang(Concat(a, b), u + v)
  {
    assert (u + v)[..|u|] == u && (u + v)[|u|..] == v;
  }

  lemma StarWords(a: Rexp, u: Text, v: Text)
    requires InLang(a, u) && InStar(a, v)
    ensures InLang(Plus(a), u + v) && InLang(Star(a), u + v)
  {
    assert (u + v)[..|u|] == u && (u + v)[|u|..] == v;
    if u == [] { assert u + v == v; }
  }

  /** Takes a word of Then(e, k) apart. */
  lemma Apart(e: Rexp, k: Lang, w: Text) returns (u: Text, v: Text)
    requires w in Then(e, k)
    ensures w == u + v && InLang(e, u) && v in k
  {
    var n: nat :| n <= |w| && InLang(e, w[..n]) && w[n..] in k;
    u, v := w[..n], w[n..];
  }

  lemma ThenConcat(a: Rexp, b: Rexp, k: Lang)
    ensures Then(a, Then(b, k)) <= Then(Concat(a, b), k)
  {
    hide Then, InLang;
    forall w | w in Then(a, Then(b, k)) ensures w in Then(Concat(a, b), k) {
      var u, v := Apart(a, Then(b, k), w);
      var u', v' := Apart(b, k, v);
      ConcatWords(a, b, u, u');
      JoinsIntro(Concat(a, b), k, u + u', v');
      assert (u + u') + v' == w;
    }
  }

  lemma ThenStar(a: Rexp, k: Lang)
    ensures k <= Then(Star(a), k)
    ensures Then(a, Then(Star(a), k)) <= Then(Star(a), k)
    ensures Then(a, Then(Star(a), k)) <= Then(Plus(a), k)
  {
    hide Then;
    forall w | w in k ensures w in Then(Star(a), k) {
      JoinsIntro(Star(a), k, [], w);
      assert [] + w == w;
    }
    forall w | w in Then(a, Then(Star(a), k)) ensures w in Then(Star(a), k) && w in Then(Plus(a), k) {
      var u, v := Apart(a, Then(Star(a), k), w);
      var u', v' := Apart(Star(a), k, v);
      StarWords(a, u, u');
      JoinsIntro(Star(a), k, u + u', v');
      JoinsIntro(Plus(a), k, u + u', v');
      assert (u + u') + v' == w;
    }
  }

  lemma {:induction false} BuiltLabel(g: Graph, e: Rexp, start: Option<nat>, end: Option<nat>,
                          k: Lang) returns (lab: Label)
    requires GivenOk(g, start, end) && ContextFree(e) && NonEmptyStrings(e)
    ensures var f := Built(g, e, start, end);
      Labels(lab, g, f.g) && lab(f.end) == k && lab(f.start) <= Then(e, k)
    decreases e, 2
  {
    hide Then, EdgeFits;
    GrowsGiven(g, start);
    if e.Null? {
      lab := (q: nat) => k;
      ThenNull(k);
    } else {
      var g1 := WithGiven(g, start);
      var g2 := WithGiven(g1, end);
      var f := BuiltNode(g2, e, Given(g, start), Given(g1, end));
      NodeShape(g2, e, Given(g, start), Given(g1, end));
      GivenShape(g, start, end, f);
      lab := NodeLabel(g2, e, Given(g, start), Given(g1, end), k);
    }
  }

  lemma {:induction false} NodeLabel(g: Graph, e: Rexp, s: nat, t: nat, k: Lang) returns (lab: Label)
    requires s < |g| && t < |g| && s != t && !e.Null? && ContextFree(e) && NonEmptyStrings(e)
    ensures var f := BuiltNode(g, e, s, t);
      Labels(lab, g, f.g) && lab(f.end) == k && lab(s) <= Then(e, k)
    decreases e, 1
  {
    hide Then, EdgeFits, Grows, IsNew, NewEdges, Built, BuiltStar, BuiltAlt, Shaped, Labels, InLang;
    match e
    case Cset(cs) =>
      OneWord(cs);
      lab := OneLabel(g, cs, s, t, k, e);
    case Str(text) => lab := StrLabel(g, text, s, t, k);
    case Opt(a) =>
      var f := Built(g, a, Some(s), Some(t));
      BuiltShape(g, a, Some(s), Some(t));
      var la := BuiltLabel(g, a, Some(s), Some(t), k);
      lab := OptLabel(g, f, a, k, la);
    case Plus(a) =>
      ThenStar(a, k);
      var first := Built(g, a, Some(s), None);
      BuiltShape(g, a, Some(s), None);
      BuiltShape(first.g, a, None, None);
      var l1 := BuiltLabel(g, a, Some(s), None, Then(Star(a), k));
      var l2 := BuiltLabel(first.g, a, None, None, Then(Star(a), k));
      lab := PlusLabel(g, first, Built(first.g, a, None, None), s, t, a, k, l1, l2);
    case Star(a) =>
      BuiltShape(g, a, None, None);
      var l := BuiltLabel(g, a, None, None, Then(Star(a), k));
      lab := StarLabel(g, Built(g, a, None, None), s, t, a, k, l);
    case Interval(a, min, max) =>
      BuiltShape(g, a, None, None);
      var l := BuiltLabel(g, a, None, None, Then(Star(a), k));
      lab := StarLabel(g, Built(g, a, None, None), s, t, a, k, l);
      IntervalIsStar(a, min, max, k);
    case Parens(n, a) =>
      lab := BuiltLabel(g, a, Some(s), Some(t), k);
      ParensIsBody(n, a, k);
    case Concat(a, b) =>
      var first := Built(g, a, Some(s), None);
      BuiltShape(g, a, Some(s), None);
      var second := Built(first.g, b, Some(first.end), Some(t));
      BuiltShape(first.g, b, Some(first.end), Some(t));
      var l2 := BuiltLabel(first.g, b, Some(first.end), Some(t), k);
      var l1 := BuiltLabel(g, a, Some(s), None, l2(first.end));
      lab := ConcatLabel(g, first, second, s, t, l1, l2);
      ThenMono(a, l2(first.end), Then(b, k));
      ThenConcat(a, b, k);
    case Alt(a, b) =>
      var l := Built(g, a, None, None);
      BuiltShape(g, a, None, None);
      BuiltShape(l.g, b, None, None);
      var l1 := BuiltLabel(g, a, None, None, k);
      var l2 := BuiltLabel(l.g, b, None, None, k);
      lab := AltLabel(g, l, Built(l.g, b, None, None), s, t, k, l1, l2);
      ThenAlt(a, b, k);
  }

  lemma IntervalIsStar(a: Rexp, min: nat, max: nat, k: Lang)
    ensures Then(Interval(a, min, max), k) == Then(Star(a), k)
  {
    forall w: Text ensures InLang(Interval(a, min, max), w) <==> InLang(Star(a), w) {}
    assert forall w :: Joins(Interval(a, min, max), k, w) <==> Joins(Star(a), k, w);
  }

  lemma ParensIsBody(n: nat, a: Rexp, k: Lang)
    ensures Then(Parens(n, a), k) == Then(a, k)
  {
    forall w: Text ensures InLang(Parens(n, a), w) <==> InLang(a, w) {}
    assert forall w :: Joins(Parens(n, a), k, w) <==> Joins(a, k, w);
  }

  lemma ThenAlt(a: Rexp, b: Rexp, k: Lang)
    ensures Then(a, k) <= Then(Alt(a, b), k) && Then(b, k) <= Then(Alt(a, b), k)
  {
    forall w | w in Then(a, k) ensures w in Then(Alt(a, b), k) {
      var n: nat :| n <= |w| && InLang(a, w[..n]) && w[n..] in k;
      assert InLang(Alt(a, b), w[..n]);
    }
    forall w | w in Then(b, k) ensures w in Then(Alt(a, b), k) {
      var n: nat :| n <= |w| && InLang(b, w[..n]) && w[n..] in k;
      assert InLang(Alt(a, b), w[..n]);
    }
  }

  lemma OneWord(cs: set<Byte>)
    ensures forall c: Byte :: c in cs ==> InLang(Cset(cs), [c])
  {
  }

  lemma OneLabel(g: Graph, cs: set<Byte>, s: nat, t: nat, k: Lang, e: Rexp) returns (lab: Label)
    requires s < |g| && t < |g| && s != t
    requires forall c: Byte :: c in cs ==> InLang(e, [c])
    ensures Labels(lab, g, AddEdge(g, s, On(cs, t))) && lab(t) == k && lab(s) <= Then(e, k)
  {
    var front := iset w: Text | w != [] && w[0] in cs && w[1..] in k;
    lab := (q: nat) => if q == s then front else k;
    GrowsSelf(g);
    GrowsAdd(g, g, s, On(cs, t));
    forall c: Byte, w | c in cs && w in k ensures [c] + w in front {
      assert ([c] + w)[1..] == w;
    }
    forall w | w in front ensures w in Then(e, k) {
      JoinsIntro(e, k, [w[0]], w[1..]);
      assert [w[0]] + w[1..] == w;
    }
  }

  lemma {:induction false} StrLabel(g: Graph, text: Text, s: nat, t: nat, k: Lang) returns (lab: Label)
    requires text != [] && s < |g| && t < |g| && s != t
    ensures Labels(lab, g, BuiltStr(g, text, s, t).g) && lab(t) == k && lab(s) <= Then(Str(text), k)
    decreases |text|
  {
    if |text| == 1 {
      assert forall c: Byte :: c in {text[0]} ==> [c] == text;
      lab := OneLabel(g, {text[0]}, s, t, k, Str(text));
    } else {
      var g1 := g + [[]];
      GrowsGiven(g, None);
      StrShape(g1, text[1..], |g|, t);
      var rest := BuiltStr(g1, text[1..], |g|, t);
      GrowsTrans(g, g1, rest.g);
      GrowsAdd(g, rest.g, s, On({text[0]}, |g|));
      var l := StrLabel(g1, text[1..], |g|, t, k);
      lab := StrFront(g, rest, text, s, t, k, l);
    }
  }

  lemma StrFront(g: Graph, rest: Fragment, text: Text, s: nat, t: nat, k: Lang, l: Label) returns (lab: Label)
    requires |text| > 1 && s < |g| && t < |g| && s != t && s < |rest.g|
    requires Shaped(g + [[]], rest) && rest.start == |g| && rest.end == t
    requires Labels(l, g + [[]], rest.g) && l(t) == k && l(|g|) <= Then(Str(text[1..]), k)
    requires forall q: nat, e :: IsNew(g, AddEdge(rest.g, s, On({text[0]}, |g|)), q, e) <==>
      (q == s && e == On({text[0]}, |g|)) || IsNew(g + [[]], rest.g, q, e)
    ensures Labels(lab, g, AddEdge(rest.g, s, On({text[0]}, |g|))) && lab(t) == k && lab(s) <= Then(Str(text), k)
  {
    hide IsNew;
    var front := iset w: Text | w != [] && w[0] == text[0] && w[1..] in l(|g|);
    lab := (q: nat) => if q == s then front else l(q);
    forall c: Byte, w | c == text[0] && w in l(|g|) ensures [c] + w in front {
      assert ([c] + w)[1..] == w;
    }
    forall w | w in front ensures w in Then(Str(text), k) {
      var v := w[1..];
      var n: nat :| n <= |v| && InLang(Str(text[1..]), v[..n]) && v[n..] in k;
      assert w[..n + 1] == [w[0]] + v[..n] && [text[0]] + text[1..] == text && w[n + 1..] == v[n..];
    }
  }

  lemma OptLabel(g: Graph, f: Fragment, a: Rexp, k: Lang, l: Label) returns (lab: Label)
    requires Shaped(g, f) && f.start < |f.g| && Labels(l, g, f.g) && l(f.end) == k && l(f.start) <= Then(a, k)
    ensures Labels(lab, g, BuiltOpt(f).g) && lab(f.end) == k && lab(f.start) <= Then(Opt(a), k)
  {
    hide IsNew, AddEdge, Then;
    GrowsAdd(g, f.g, f.start, Eps(f.end));
    lab := (q: nat) => if q == f.start then l(q) + k else l(q);
    ThenOpt(a, k);
  }

  lemma ThenOpt(a: Rexp, k: Lang)
    ensures k <= Then(Opt(a), k) && Then(a, k) <= Then(Opt(a), k)
  {
    hide Then;
    forall w | w in k ensures w in Then(Opt(a), k) {
      JoinsIntro(Opt(a), k, [], w);
      assert [] + w == w;
    }
    forall w | w in Then(a, k) ensures w in Then(Opt(a), k) {
      var u, v := Apart(a, k, w);
      JoinsIntro(Opt(a), k, u, v);
    }
  }

  lemma StarLabel(g: Graph, body: Fragment, s: nat, t: nat, a: Rexp, k: Lang, l: Label) returns (lab: Label)
    requires s < |g| && t < |g| && s != t && FromTo(g, body, |g|)
    requires Labels(l, g, body.g) && l(body.end) == Then(Star(a), k) && l(body.start) <= Then(a, Then(Star(a), k))
    ensures Labels(lab, g, BuiltStar(body, s, t).g) && lab(t) == k && lab(s) <= Then(Star(a), k)
  {
    hide IsNew, BuiltStar, Then;
    ThenStar(a, k);
    LoopEdges(g, body, s, t);
    lab := (q: nat) => if q == t then k else if q == s || q == body.start then Then(Star(a), k) else l(q);
  }

  lemma PlusLabel(g: Graph, first: Fragment, body: Fragment, s: nat, t: nat, a: Rexp, k: Lang, l1: Label, l2: Label)
    returns (lab: Label)
    requires s < |g| && t < |g| && s != t && FromTo(g, first, s) && FromTo(first.g, body, |first.g|)
    requires Labels(l1, g, first.g) && l1(first.end) == Then(Star(a), k) && l1(s) <= Then(a, Then(Star(a), k))
    requires Labels(l2, first.g, body.g) && l2(body.end) == Then(Star(a), k)
    requires l2(body.start) <= Then(a, Then(Star(a), k))
    ensures Labels(lab, g, BuiltStar(body, first.end, t).g) && lab(t) == k && lab(s) <= Then(Plus(a), k)
  {
    hide IsNew, BuiltStar, Then;
    ThenStar(a, k);
    GrowsTrans(g, first.g, body.g);
    LoopEdges(g, body, first.end, t);
    lab := (q: nat) =>
      if q == t then k
      else if q == body.start then Then(Star(a), k)
      else if q < |first.g| then l1(q) else l2(q);
  }

  lemma ConcatLabel(g: Graph, first: Fragment, second: Fragment, s: nat, t: nat, l1: Label,
                    l2: Label) returns (lab: Label)
    requires s < |g| && t < |g| && s != t && FromTo(g, first, s)
    requires Shaped(first.g, second) && second.start == first.end && first.end < |second.g|
    requires second.end == first.end || second.end >= |first.g| || second.end == t
    requires Labels(l1, g, first.g) && Labels(l2, first.g, second.g) && l1(first.end) == l2(first.end)
    ensures Labels(lab, g, second.g) && lab(second.end) == l2(second.end) && lab(s) == l1(s)
  {
    hide IsNew;
    GrowsTrans(g, first.g, second.g);
    lab := (q: nat) => if q == first.end || q == second.end || q >= |first.g| then l2(q) else l1(q);
  }

  lemma AltLabel(g: Graph, l: Fragment, r: Fragment, s: nat, t: nat, k: Lang, l1: Label, l2: Label) returns (lab: Label)
    requires s < |g| && t < |g| && s != t && FromTo(g, l, |g|) && FromTo(l.g, r, |l.g|)
    requires Labels(l1, g, l.g) && Labels(l2, l.g, r.g) && l1(l.end) == k && l2(r.end) == k
    ensures Labels(lab, g, BuiltAlt(l, r, s, t).g) && lab(t) == k && lab(s) == l1(l.start) + l2(r.start)
  {
    hide IsNew, BuiltAlt;
    GrowsTrans(g, l.g, r.g);
    AltEdges(g, l, r, s, t);
    lab := (q: nat) =>
      if q == t then k
      else if q == s then l1(l.start) + l2(r.start)
      else if q < |l.g| then l1(q) else l2(q);
  }

  // ------------------------------------------------------------------ main results

  /** For any tree and any states the caller supplies: the words on the added edges
      from start to end are those of the tree; and no edge of an older state other
      than the start is touched. */
  lemma BuildNfaExact(g: Graph, e: Rexp, start: Option<nat>, end: Option<nat>, w: Text)
    requires GivenOk(g, start, end) && ContextFree(e) && NonEmptyStrings(e)
    ensures var f := Built(g, e, start, end);
      && (Path(Delta(g, f.g), f.start, w, f.end) <==> InLang(e, w))
      && (forall q :: 0 <= q < |g| && q != f.start ==> f.g[q] == g[q])
      && (f.start < |g| ==> exists added :: f.g[f.start] == added + g[f.start])
  {
    hide Then, Grows, NewEdges, Built, Labels;
    var f := Built(g, e, start, end);
    BuiltShape(g, e, start, end);
    OldEdgesStay(g, f);
    if InLang(e, w) { BuiltAccepts(g, e, start, end, w); }
    if Path(Delta(g, f.g), f.start, w, f.end) {
      var lab := BuiltLabel(g, e, start, end, iset{[]});
      var n: nat :| PathN(Delta(g, f.g), f.start, w, f.end, n);
      Spelled(lab, g, f.g, f.start, w, f.end, n);
      var u, v := Apart(e, iset{[]}, w);
      assert w == u;
    }
  }

  lemma OldEdgesStay(g: Graph, f: Fragment)
    requires Shaped(g, f) && f.start < |f.g|
    ensures forall q :: 0 <= q < |g| && q != f.start ==> f.g[q] == g[q]
    ensures f.start < |g| ==> exists added :: f.g[f.start] == added + g[f.start]
  {
    forall q | 0 <= q < |g| && q != f.start ensures f.g[q] == g[q] {
      if NewEdges(g, f.g, q) != [] { assert IsNew(g, f.g, q, NewEdges(g, f.g, q)[0]); }
      assert f.g[q] == NewEdges(g, f.g, q) + g[q];
    }
    if f.start < |g| { assert f.g[f.start] == NewEdges(g, f.g, f.start) + g[f.start]; }
  }

  /** The automaton of a tree, built from nothing as `rx_unfa_rx` does. */
  lemma WholeNfaExact(e: Rexp, w: Text)
    requires ContextFree(e) && NonEmptyStrings(e)
    ensures var f := Built([], e, None, None);
      Closed(f.g) && (Path(f.g, f.start, w, f.end) <==> InLang(e, w))
  {
    var f := Built([], e, None, None);
    BuildNfaExact([], e, None, None, w);
    assert Delta([], f.g) == f.g;
    BuiltShape([], e, None, None);
    forall q, k | 0 <= q < |f.g| && 0 <= k < |f.g[q]| ensures f.g[q][k].dest < |f.g| {
      assert IsNew([], f.g, q, f.g[q][k]);
    }
  }
}
