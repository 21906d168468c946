/** Epsilon closures by a depth-first walk that marks only the states on the current
    path, and the proof that it nevertheless finds every reachable state and leaves no
    mark behind. */
module RxEclose {
  import opened RxNfa
  import opened RxStateSet

  /** `n` epsilon edges lead from `p` to `q` through states outside `avoid`. */
  ghost predicate EpsN(g: Graph, avoid: set<nat>, p: nat, q: nat, n: nat)
    decreases n
  {
    p < |g| && p !in avoid &&
    if n == 0 then p == q
    else exists d: nat :: Eps(d) in g[p] && EpsN(g, avoid, d, q, n - 1)
  }

  ghost predicate EpsReach(g: Graph, avoid: set<nat>, p: nat, q: nat) {
    exists n: nat :: EpsN(g, avoid, p, q, n)
  }

  /** The states the walk from `p` adds when those of `avoid` are marked. */
  ghost function Visited(g: Graph, avoid: set<nat>, p: nat): set<nat> {
    set q | 0 <= q < |g| && EpsReach(g, avoid, p, q)
  }

  lemma {:induction false} EpsEnd(g: Graph, avoid: set<nat>, p: nat, q: nat, n: nat)
    requires EpsN(g, avoid, p, q, n)
    ensures q < |g|
    decreases n
  {
    if n > 0 {
      var d: nat :| Eps(d) in g[p] && EpsN(g, avoid, d, q, n - 1);
      EpsEnd(g, avoid, d, q, n - 1);
    }
  }

  /** A walk avoids `p`, or a walk at most as long starts at `p`. */
  lemma {:induction false} Shortcut(g: Graph, avoid: set<nat>, p: nat, d: nat, q: nat, n: nat) returns (m: nat)
    requires EpsN(g, avoid, d, q, n)
    ensures EpsN(g, avoid + {p}, d, q, n) || (m <= n && EpsN(g, avoid, p, q, m))
    decreases n
  {
    m := n;
    if d != p && n > 0 {
      var d': nat :| Eps(d') in g[d] && EpsN(g, avoid, d', q, n - 1);
      m := Shortcut(g, avoid, p, d', q, n - 1);
    }
  }

  /** What is reachable from `p` is `p` and what its successors reach without `p`. */
  lemma {:induction false} FirstStep(g: Graph, avoid: set<nat>, p: nat, q: nat, n: nat)
    requires EpsN(g, avoid, p, q, n) && q != p
    ensures exists d: nat :: Eps(d) in g[p] && EpsReach(g, avoid + {p}, d, q)
    decreases n
  {
    var d: nat :| Eps(d) in g[p] && EpsN(g, avoid, d, q, n - 1);
    var m := Shortcut(g, avoid, p, d, q, n - 1);
    if !EpsN(g, avoid + {p}, d, q, n - 1) { FirstStep(g, avoid, p, q, m); }
  }

  lemma {:induction false} AvoidLess(g: Graph, avoid: set<nat>, less: set<nat>, p: nat, q: nat, n: nat)
    requires EpsN(g, avoid, p, q, n) && less <= avoid
    ensures EpsN(g, less, p, q, n)
    decreases n
  {
    if n > 0 {
      var d: nat :| Eps(d) in g[p] && EpsN(g, avoid, d, q, n - 1);
      AvoidLess(g, avoid, less, d, q, n - 1);
    }
  }

  lemma VisitedUnfold(g: Graph, avoid: set<nat>, p: nat)
    requires p < |g|
    ensures p in avoid ==> Visited(g, avoid, p) == {}
    ensures p !in avoid ==> forall q :: q in Visited(g, avoid, p) <==>
      q == p || exists d: nat :: Eps(d) in g[p] && q in Visited(g, avoid + {p}, d)
  {
    if p !in avoid {
      forall q ensures q in Visited(g, avoid, p) <==>
        q == p || exists d: nat :: Eps(d) in g[p] && q in Visited(g, avoid + {p}, d)
      {
        if q == p { assert EpsN(g, avoid, p, p, 0); }
        if q in Visited(g, avoid, p) && q != p {
          var n: nat :| EpsN(g, avoid, p, q, n);
          FirstStep(g, avoid, p, q, n);
        }
        if d: nat :| Eps(d) in g[p] && q in Visited(g, avoid + {p}, d) {
          var n: nat :| EpsN(g, avoid + {p}, d, q, n);
          AvoidLess(g, avoid + {p}, avoid, d, q, n);
          assert EpsN(g, avoid, p, q, n + 1);
        }
      }
    }
  }

  // ------------------------------------------------------------------------ walk

  ghost function Marked(mark: seq<bool>): set<nat> {
    set q | 0 <= q < |mark| && mark[q]
  }

  ghost function Unmarked(mark: seq<bool>): set<nat> {
    set q | 0 <= q < |mark| && !mark[q]
  }

  /** The states reached through the first `k` edges of `p`. */
  ghost predicate Through(g: Graph, avoid: set<nat>, p: nat, k: nat, q: nat)
    requires p < |g| && k <= |g[p]|
  {
    exists i :: 0 <= i < k && g[p][i].Eps? && q in Visited(g, avoid, g[p][i].dest)
  }

  /** `eclose_node`, for an automaton without side effects: adds to the destination set
      of the state whose closure is being computed. */
  method EcloseNode(g: Graph, mark: array<bool>, node: nat, destset: States) returns (result: States)
    requires Closed(g) && mark.Length == |g| && node < |g| && Sorted(destset)
    modifies mark
    ensures mark[..] == old(mark[..])
    ensures Sorted(result) && Members(result) == Members(destset) + Visited(g, Marked(mark[..]), node)
    decreases Unmarked(mark[..])
  {
    ghost var avoid := Marked(mark[..]);
    VisitedUnfold(g, avoid, node);
    if mark[node] { return destset; }
    mark[node] := true;
    ghost var during := mark[..];
    MarkOne(old(mark[..]), node);
    assert during == old(mark[..])[node := true];
    result := Enjoin(node, destset);
    EnjoinAdds(node, destset);
    assert forall q :: q in result <==> q in Members(result);
    var k := 0;
    while k < |g[node]|
      invariant 0 <= k <= |g[node]| && mark[..] == during
      invariant Sorted(result)
      invariant forall q :: q in result <==>
        q in destset || q == node || Through(g, avoid + {node}, node, k, q)
    {
      ghost var before := result;
      var edge := g[node][k];
      if edge.Eps? {
        result := EcloseNode(g, mark, edge.dest, result);
      }
      forall q ensures q in result <==>
        q in destset || q == node || Through(g, avoid + {node}, node, k + 1, q)
      {
        ThroughStep(g, avoid + {node}, node, k, q);
        assert edge.Eps? ==> (q in Members(result) <==>
          q in Members(before) || q in Visited(g, avoid + {node}, edge.dest));
      }
      k := k + 1;
    }
    mark[node] := false;
    assert mark[..] == old(mark[..]);
    forall q ensures Through(g, avoid + {node}, node, k, q) <==>
      exists d: nat :: Eps(d) in g[node] && q in Visited(g, avoid + {node}, d)
    {
      if d: nat :| Eps(d) in g[node] && q in Visited(g, avoid + {node}, d) {
        var i :| 0 <= i < |g[node]| && g[node][i] == Eps(d);
      }
    }
  }

  lemma ThroughStep(g: Graph, avoid: set<nat>, p: nat, k: nat, q: nat)
    requires p < |g| && k < |g[p]|
    ensures Through(g, avoid, p, k + 1, q) <==>
      Through(g, avoid, p, k, q) || (g[p][k].Eps? && q in Visited(g, avoid, g[p][k].dest))
  {
  }

  lemma MarkOne(mark: seq<bool>, p: nat)
    requires p < |mark| && !mark[p]
    ensures Marked(mark[p := true]) == Marked(mark) + {p} && p !in Marked(mark)
    ensures Unmarked(mark[p := true]) < Unmarked(mark)
  {
    assert p in Unmarked(mark);
  }

  // -------------------------------------------------------------------- the closure

  /** All states an empty path leads to. */
  ghost function Closure(g: Graph, p: nat): set<nat> {
    set q | 0 <= q < |g| && Path(g, p, [], q)
  }

  lemma {:induction false} EpsIsEmptyPath(g: Graph, p: nat, q: nat, n: nat)
    ensures EpsN(g, {}, p, q, n) <==> PathN(g, p, [], q, n)
    decreases n
  {
    if n > 0 && p < |g| {
      if EpsN(g, {}, p, q, n) {
        var d: nat :| Eps(d) in g[p] && EpsN(g, {}, d, q, n - 1);
        EpsIsEmptyPath(g, d, q, n - 1);
        assert StepN(g, Eps(d), [], q, n);
      }
      if PathN(g, p, [], q, n) {
        var edge :| edge in g[p] && StepN(g, edge, [], q, n);
        EpsIsEmptyPath(g, edge.dest, q, n - 1);
        assert edge == Eps(edge.dest);
      }
    }
  }

  lemma VisitedIsClosure(g: Graph, p: nat)
    ensures Visited(g, {}, p) == Closure(g, p)
  {
    forall q ensures q in Visited(g, {}, p) <==> q in Closure(g, p) {
      if q in Visited(g, {}, p) {
        var n: nat :| EpsN(g, {}, p, q, n);
        EpsIsEmptyPath(g, p, q, n);
      }
      if q in Closure(g, p) {
        var n: nat :| PathN(g, p, [], q, n);
        EpsIsEmptyPath(g, p, q, n);
      }
    }
  }

  /** `rx_state_possible_futures`: the closure, computed once for each state. */
  class Futures {
    const g: Graph
    const mark: array<bool>
    var computed: map<nat, States>

    ghost predicate Valid()
      reads this, mark
    {
      && Closed(g) && mark.Length == |g| && (forall q :: 0 <= q < |g| ==> !mark[q])
      && forall q :: q in computed ==> q < |g| && Sorted(computed[q]) && Members(computed[q]) == Closure(g, q)
    }

    constructor (g: Graph)
      requires Closed(g)
      ensures Valid() && this.g == g && fresh(mark)
    {
      this.g := g;
      mark := new bool[|g|](_ => false);
      computed := map[];
    }

    method PossibleFutures(q: nat) returns (destset: States)
      requires Valid() && q < |g|
      modifies this, mark
      ensures Valid() && Sorted(destset) && Members(destset) == Closure(g, q)
    {
      if q in computed { return computed[q]; }
      assert Marked(mark[..]) == {};
      destset := EcloseNode(g, mark, q, []);
      VisitedIsClosure(g, q);
      assert forall p :: 0 <= p < |g| ==> mark[p] == mark[..][p];
      computed := computed[q := destset];
    }
  }
}
