/** The automaton of a tree together with its superstate cache, and the test whether a
    text is in the language of the tree. */
module RxUnfa {
  import opened Wrappers
  import opened RxNode
  import opened RxNfa
  import opened RxThompson
  import opened RxEclose
  import opened RxStep
  import opened RxTame
  import opened RxCache
  import opened RxSuper

  /** From tree to cached superstates, the language is the same. */
  lemma WholeChain(e: Rexp, w: Text)
    requires ContextFree(e) && NonEmptyStrings(e)
    ensures var f := Built([], e, None, None);
      Closed(f.g) && f.start < |f.g| && (f.end in Run(f.g, Closure(f.g, f.start), w) <==> InLang(e, w))
  {
    hide Built, Run, Closure, Path, InLang;
    var f := Built([], e, None, None);
    WholeNfaExact(e, w);
    SubsetConstruction(f.g, f.start, f.end, w);
  }

  /** What the engine answers for a tree and a text, be it right or not. */
  ghost predicate Accepts(e: Rexp, w: Text)
    requires ContextFree(e) && NonEmptyStrings(e)
  {
    var f := Built([], e, None, None);
    f.end in EngineRun(f.g, Closure(f.g, f.start), w)
  }

  /** The engine never rejects a word of the tree. */
  lemma AcceptsCovers(e: Rexp, w: Text)
    requires ContextFree(e) && NonEmptyStrings(e) && InLang(e, w)
    ensures Accepts(e, w)
  {
    hide Built, Run, EngineRun, Closure;
    var f := Built([], e, None, None);
    WholeChain(e, w);
    EngineRunCovers(f.g, Closure(f.g, f.start), Closure(f.g, f.start), w);
  }

  lemma AcceptsNothing(e: Rexp)
    requires ContextFree(e) && NonEmptyStrings(e)
    ensures Accepts(e, []) <==> InLang(e, [])
  {
    hide Built, Closure;
    WholeChain(e, []);
  }

  /** On the way through `w` the engine makes no wrong step. */
  ghost predicate Followed(e: Rexp, w: Text)
    requires ContextFree(e) && NonEmptyStrings(e)
  {
    var f := Built([], e, None, None);
    RightAllAlong(f.g, Closure(f.g, f.start), w)
  }

  /** Then its answer is right. */
  lemma AcceptsFollowed(e: Rexp, w: Text)
    requires ContextFree(e) && NonEmptyStrings(e) && Followed(e, w)
    ensures Accepts(e, w) <==> InLang(e, w)
  {
    hide Built, Closure, Run, EngineRun, RightAllAlong, InLang;
    var f := Built([], e, None, None);
    var from := Closure(f.g, f.start);
    WholeChain(e, w);
    EngineRunExact(f.g, from, w);
    assert AgreesAt(f.g, from, w, |w|) && w[..|w|] == w;
  }

  ghost predicate TextTameFor(e: Rexp, w: Text) {
    forall k :: 0 <= k < |w| ==> TameFor(e, w[k])
  }

  /** So it is for texts whose characters have twins outside the last word. */
  lemma AcceptsTame(e: Rexp, w: Text)
    requires ContextFree(e) && NonEmptyStrings(e) && TextTameFor(e, w)
    ensures Followed(e, w) && (Accepts(e, w) <==> InLang(e, w))
  {
    var f := Built([], e, None, None);
    forall k | 0 <= k < |w| ensures Tame(f.g, w[k]) { TreeIsTame(e, w[k]); }
    TameIsRight(f.g, Closure(f.g, f.start), w);
    AcceptsFollowed(e, w);
  }

  // ------------------------------------------------------------- where it is wrong

  /** The tree of a pattern that reads: the byte 255 and `b`, or `a`. */
  const FORKED: Rexp := Alt(Str([255, 98]), Str([97]))

  function ForkedGraph(): Graph {
    [[Eps(5), Eps(2)], [], [On({255}, 4)], [Eps(1)], [On({98}, 3)], [On({97}, 6)], [Eps(1)]]
  }

  lemma ForkedAutomaton()
    ensures Built([], FORKED, None, None) == Fragment(ForkedGraph(), 0, 1)
  {
    var g2: Graph := [[], []];
    var g4: Graph := [[], [], [], []];
    var g5: Graph := [[], [], [], [], []];
    var h5: Graph := [[], [], [], [], [On({98}, 3)]];
    var l: Graph := [[], [], [On({255}, 4)], [], [On({98}, 3)]];
    var l7: Graph := [[], [], [On({255}, 4)], [], [On({98}, 3)], [], []];
    var r: Graph := [[], [], [On({255}, 4)], [], [On({98}, 3)], [On({97}, 6)], []];
    assert WithGiven(WithGiven([], None), None) == g2 && WithGiven(WithGiven(g2, None), None) == g4 && g4 + [[]] == g5;
    assert [255, 98][1..] == [98];
    assert AddEdge(g5, 4, On({98}, 3)) == h5 by { assert [On({98}, 3)] + g5[4] == h5[4]; }
    assert AddEdge(h5, 2, On({255}, 4)) == l by { assert [On({255}, 4)] + h5[2] == l[2]; }
    assert BuiltStr(g5, [98], 4, 3) == Fragment(h5, 4, 3);
    assert BuiltStr(g4, [255, 98], 2, 3) == Fragment(l, 2, 3);
    assert Built(g2, Str([255, 98]), None, None) == Fragment(l, 2, 3);
    assert WithGiven(WithGiven(l, None), None) == l7;
    assert AddEdge(l7, 5, On({97}, 6)) == r by { assert [On({97}, 6)] + l7[5] == r[5]; }
    assert Built(l, Str([97]), None, None) == Fragment(r, 5, 6);
    var a1, a2 := AddEdge(r, 0, Eps(2)), AddEdge(AddEdge(r, 0, Eps(2)), 0, Eps(5));
    assert a2[0] == [Eps(5), Eps(2)];
    var a3 := AddEdge(a2, 3, Eps(1));
    assert a2[3] == [] && a3[3] == [Eps(1)] && a3[6] == [];
    assert AddEdge(a3, 6, Eps(1)) == ForkedGraph() by { assert AddEdge(a3, 6, Eps(1))[6] == [Eps(1)]; }
    assert BuiltNode(g2, FORKED, 0, 1) == BuiltAlt(Fragment(l, 2, 3), Fragment(r, 5, 6), 0, 1);
  }

  /** The edge on `a` is taken for the byte 255, since nothing tells the class of that
      byte, which is in the last word, from the empty set. */
  lemma LastWordMisjudged()
    ensures Accepts(FORKED, [255]) && !InLang(FORKED, [255])
  {
    ForkedAutomaton();
    ForkedStep();
    hide Built, ForkedGraph;
    OneCharacter(ForkedGraph(), Closure(ForkedGraph(), 0), 255);
  }

  lemma ForkedStep()
    ensures 1 in EngineNext(ForkedGraph(), Closure(ForkedGraph(), 0), 255)
  {
    var g := ForkedGraph();
    assert g[0][0] == Eps(5) && g[0][1] == Eps(2) && g[2][0] == On({255}, 4) && g[5][0] == On({97}, 6) && g[6][0] ==
      Eps(1);
    assert |g| ==
      7 && Eps(5) in g[0] && Eps(2) in g[0] && On({255}, 4) in g[2] && On({97}, 6) in g[5] && Eps(1) in g[6];
    hide ForkedGraph;
    EpsPath(g, 0, 2);
    EpsPath(g, 0, 5);
    EpsPath(g, 6, 1);
    hide Path;
    var l := Listed(7, Closure(g, 0));
    assert Leaves(g, l, 2, On({255}, 4)) && Leaves(g, l, 5, On({97}, 6));
    assert SubsetTest(Class(g, l, 255), {97});
    assert DestinationHas(g, l, Class(g, l, 255), 1);
  }

  // --------------------------------------------------------------- the pre-check

  /** No text that begins with `w` can be accepted: no state is left. */
  ghost predicate Dead(e: Rexp, w: Text)
    requires ContextFree(e) && NonEmptyStrings(e)
  {
    var f := Built([], e, None, None);
    EngineRun(f.g, Closure(f.g, f.start), w) == {}
  }

  /** The walk dies after `n` characters without having been in a final state since the
      first of them. */
  ghost predicate DiesAt(e: Rexp, w: Text, n: nat)
    requires ContextFree(e) && NonEmptyStrings(e) && n < |w|
  {
    && Dead(e, w[..n + 1]) && !Accepts(e, w[..n])
    && forall m :: 1 <= m <= n ==> !Dead(e, w[..m]) && !Accepts(e, w[..m])
  }

  ghost predicate Dies(e: Rexp, w: Text)
    requires ContextFree(e) && NonEmptyStrings(e)
  {
    exists n: nat :: n < |w| && DiesAt(e, w, n)
  }

  lemma DeadStays(e: Rexp, w: Text, m: nat, n: nat)
    requires ContextFree(e) && NonEmptyStrings(e) && m <= n <= |w| && Dead(e, w[..m])
    ensures Dead(e, w[..n]) && !Accepts(e, w[..n])
  {
    var f := Built([], e, None, None);
    assert w[..n] == w[..m] + w[m..n];
    EngineRunInTwo(f.g, Closure(f.g, f.start), w[..m], w[m..n]);
    DeadEngineRun(f.g, w[m..n]);
  }

  /** A walk that dies has seen no match but perhaps the empty one. */
  lemma DiesSound(e: Rexp, w: Text, k: nat)
    requires ContextFree(e) && NonEmptyStrings(e) && Dies(e, w) && k <= |w| && Accepts(e, w[..k])
    ensures k == 0 && exists n: nat :: 0 < n < |w| && DiesAt(e, w, n)
  {
    var n: nat :| n < |w| && DiesAt(e, w, n);
    if k > n { DeadStays(e, w, n + 1, k); }
    assert w[..0] == [];
  }

  /** What `rx_advance_to_final` returns decides whether the walk dies. */
  lemma DiesDecided(e: Rexp, w: Text, n: nat, tag: bool)
    requires ContextFree(e) && NonEmptyStrings(e) && n <= |w|
    requires tag <==> Accepts(e, w[..n])
    requires forall m :: 1 <= m < n ==> !Accepts(e, w[..m])
    requires forall m :: 1 <= m <= n ==> !Dead(e, w[..m])
    requires n < |w| ==> (n > 0 && tag) || Dead(e, w[..n + 1])
    ensures Dies(e, w) <==> !tag && n < |w|
  {
    if !tag && n < |w| { assert DiesAt(e, w, n); }
    if n': nat :| n' < |w| && DiesAt(e, w, n') {
      assert n <= n';
      assert n' <= n;
    }
  }

  class Unfa {
    const exp: Rexp
    const start: nat
    const cache: Cache

    ghost predicate Valid()
      reads this, cache, cache.nfa, cache.nfa.mark
    {
      && ContextFree(exp) && NonEmptyStrings(exp)
      && Fragment(cache.g, start, cache.final) == Built([], exp, None, None)
      && cache.Valid() && cache.nfa.Valid()
    }

    /** `rx_unfa_rx` and an empty cache. */
    constructor (e: Rexp)
      requires ContextFree(e) && NonEmptyStrings(e)
      ensures Valid() && exp == e && fresh(cache) && fresh(cache.nfa) && fresh(cache.nfa.mark)
    {
      hide Built, Closed;
      var rx := new Rx();
      var s, t := rx.BuildNfa(e, None, None);
      WholeChain(e, []);
      exp, start := e, s;
      cache := new Cache(rx.g, t);
    }

    /** Does the engine take the text for a word of the tree?  Any number of earlier tests may have left
        any states in the cache, and other matchers may hold locks on some. */
    method Fits(w: Text) returns (fits: bool)
      requires Valid()
      modifies cache, cache.nfa, cache.nfa.mark
      ensures Valid() && (fits <==> Accepts(exp, w))
      ensures forall s :: Locks(cache.supers, s) == Locks(old(cache.supers), s)
    {
      hide Built, EngineRun, Run, InLang, Closure, Handed, Linked, Meaning, Tabled, Framed, Named, Numbered, Queued;
      hide ContextFree, NonEmptyStrings, Closed;
      ghost var na, a, ea := cache.next, cache.supers, cache.edges;
      WholeChain(exp, []);
      var s := cache.StartSuperstate(start, None);
      ghost var nb, b := cache.next, cache.supers;
      var state: Option<nat>;
      fits, state := cache.FitP(s, w);
      HandedBoth(na, a, ea, nb, b, s, cache.next, cache.supers, state);
      ghost var c := cache.supers;
      if state.Some? {
        cache.Unlock(state.value);
        UnlockLocks(c, state.value);
      }
    }

    /** The pre-check of `rx_regexec` on the rest of a subject. */
    method Hopeless(w: Text, state: Option<nat>) returns (hopeless: bool, state': Id)
      requires Valid()
      requires state.Some? ==> Locks(cache.supers, state.value) > 0
      modifies cache, cache.nfa, cache.nfa.mark
      ensures Valid() && (hopeless <==> Dies(exp, w)) && Locks(cache.supers, state') > 0
      ensures Handed(old(cache.next), old(cache.supers), state, cache.next, cache.supers, Some(state'))
    {
      hide Built, EngineRun, Run, InLang, Closure, Handed, Linked, Meaning, Tabled, Framed, Named, Numbered, Queued;
      hide ContextFree, NonEmptyStrings, Closed, Dies;
      ghost var na, a, ea := cache.next, cache.supers, cache.edges;
      WholeChain(exp, []);
      var s := cache.StartSuperstate(start, state);
      ghost var nb, b := cache.next, cache.supers;
      var amt, tag;
      amt, tag, state' := cache.AdvanceToFinal(s, w);
      HandedTwice(na, a, ea, state, nb, b, Some(s), cache.next, cache.supers, Some(state'));
      DiesDecided(exp, w, amt, tag);
      hopeless := !tag && amt < |w|;
    }
  }

  lemma UnlockLocks(a: Supers, s: Id)
    requires s in a && a[s].locks > 0
    ensures forall x :: Locks(Relocked(a, s, a[s].locks - 1), x) == Locks(a, x) - Held(Some(s), x)
  {
    assert Relocked(a, s, a[s].locks - 1).Keys == a.Keys;
  }

  lemma HandedBoth(na: Id, a: Supers, ea: Edges, nb: Id, b: Supers, s: Id, nc: Id, c: Supers, state: Option<nat>)
    requires Numbered(na, a, ea)
    requires Handed(na, a, None, nb, b, Some(s)) && Handed(nb, b, Some(s), nc, c, state)
    ensures forall x :: Locks(c, x) == Locks(a, x) + Held(state, x)
  {
    HandedTwice(na, a, ea, None, nb, b, Some(s), nc, c, state);
    forall x ensures Held(None, x) == 0 {}
  }

  /** One test with a new automaton. */
  method Fit(e: Rexp, w: Text) returns (b: bool)
    requires ContextFree(e) && NonEmptyStrings(e)
    ensures b <==> Accepts(e, w)
  {
    var unfa := new Unfa(e);
    b := unfa.Fits(w);
  }
}
