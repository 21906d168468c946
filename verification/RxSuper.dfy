/** The cache of superstates: a deterministic automaton that is built while it runs and
    pulled down again when memory is short.  States are demoted to "semifree", revived,
    and freed; the tables hold copies of instruction frames that have to be patched.
    The answer of `FitP` is nevertheless that of the automaton it was built from. */
module RxSuper {
  import opened Wrappers
  import opened RxNode
  import opened RxNfa
  import opened RxStateSet
  import opened RxEclose
  import opened RxStep
  import opened RxCache

  class Cache {
    const g: Graph
    const final: nat
    const nfa: Futures

    var supers: Supers
    var edges: Edges
    var lru: seq<Id>
    var semi: seq<Id>
    var superstates: nat
    var semifreeSuperstates: nat
    var bySet: map<States, Id>
    var next: Id

    constructor (g: Graph, final: nat)
      requires Closed(g)
      ensures Valid() && this.g == g && this.final == final && supers == map[] && nfa.Valid()
      ensures fresh(nfa) && fresh(nfa.mark)
    {
      this.g, this.final := g, final;
      supers, edges, lru, semi := map[], map[], [], [];
      superstates, semifreeSuperstates, bySet, next := 0, 0, map[], 0;
      nfa := new Futures(g);
    }

    ghost predicate Queues()
      reads this
    {
      && Queued(lru, semi, supers) && superstates == |lru| + |semi| && semifreeSuperstates == |semi|
      && Named(bySet, supers) && Numbered(next, supers, edges)
    }

    ghost predicate Graphs()
      reads this
    {
      Linked(supers, edges) && Meaning(g, supers, edges) && Tabled(g, supers, edges)
    }

    ghost predicate Valid()
      reads this
    {
      Closed(g) && nfa.g == g && Queues() && Graphs() && Framed(g, final, supers, edges)
    }

    twostate predicate Same()
      reads this
    {
      Kept(old(supers), old(edges), supers, edges) && Grown(old(next), old(supers), next, supers)
    }

    /** Gives an edge a new frame and copies it to the table of the state it leaves. */
    method SetFrame(d: Id, inx: Inx)
      requires Linked(supers, edges) && Tabled(g, supers, edges) && d in edges
      modifies `supers, `edges
      ensures Retabled(old(supers), supers) && Tabled(g, supers, edges)
      ensures edges == old(edges)[d := old(edges)[d].(frame := inx)]
    {
      var p := edges[d].present;
      assert TableOk(g, p, supers[p], edges);
      var table := InstallTransition(supers[p].table, inx, edges[d].cset);
      FrameInstalled(g, supers, edges, d, inx, table);
      supers := supers[p := supers[p].(table := table)];
      edges := edges[d := edges[d].(frame := inx)];
    }

    /** Patches every edge that leads to `t`. */
    method PatchRing(t: Id, fault: bool)
      requires Linked(supers, edges) && Tabled(g, supers, edges) && t in supers
      modifies `supers, `edges
      ensures Retabled(old(supers), supers) && Tabled(g, supers, edges)
      ensures Patched(final, old(supers), old(edges), edges, t, {}, fault)
    {
      hide Tabled, Linked, Retabled, Reframed, Patched;
      var todo := set d | d in edges && edges[d].ring == t;
      ghost var a, ea := supers, edges;
      Unpatched(final, a, ea, t, todo, fault);
      while todo != {}
        invariant Retabled(a, supers) && Tabled(g, supers, edges) && Linked(supers, edges)
        invariant Patched(final, a, ea, edges, t, todo, fault)
        invariant forall d :: d in todo ==> d in ea && ea[d].ring == t
        decreases |todo|
      {
        var d :| d in todo;
        StillThere(final, a, ea, supers, edges, t, todo, fault, d);
        ghost var b, eb := supers, edges;
        SetFrame(d, Entering(final, supers, d, t, fault));
        PatchOne(final, a, ea, eb, t, todo, fault, d);
        RetabledTwice(a, b, supers);
        PatchedLinked(final, a, ea, supers, edges, t, todo - {d}, fault);
        todo := todo - {d};
      }
    }

    /** `semifree_superstate`: demotes the oldest state that is not locked. */
    method Semifree()
      requires Valid()
      modifies this
      ensures Valid() && Same() && superstates == old(superstates)
      ensures semi == old(semi) + Oldest(old(lru), old(supers)) && supers.Keys == old(supers).Keys
    {
      hide Linked, Meaning, Tabled, Framed, Named, Numbered, Kept, Queued;
      KeptSame(supers, edges);
      var found := SkipLocked();
      if found { Demote(); } else { assert semi == old(semi) + []; }
    }

    method SkipLocked() returns (found: bool)
      requires Queued(lru, semi, supers) && superstates == |lru| + |semi| && semifreeSuperstates == |semi|
      modifies `lru
      ensures Queued(lru, semi, supers) && |lru| == old(|lru|)
      ensures found ==> lru != [] && lru[0] in supers && supers[lru[0]].locks == 0
      ensures Oldest(old(lru), supers) == if found then [lru[0]] else []
    {
      hide Forth, Queued;
      var disqualified := semifreeSuperstates;
      if disqualified == superstates { return false; }
      QueuedOnce(lru, semi, supers, lru[0]);
      ghost var was, k := lru, 0;
      assert was[0..] + was[..0] == was;
      while supers[lru[0]].locks > 0
        invariant Queued(lru, semi, supers) && |lru| == |was| > 0 && lru[0] in supers
        invariant semifreeSuperstates <= disqualified < superstates
        invariant k == disqualified - semifreeSuperstates < |was| && lru == was[k..] + was[..k]
        invariant Oldest(was, supers) == Oldest(was[k..], supers)
        decreases superstates - disqualified
      {
        TurnedQueued(lru, semi, supers);
        Rotated(was, k, supers);
        lru, k := Forth(lru), k + 1;
        disqualified := disqualified + 1;
        if disqualified == superstates { return false; }
        QueuedOnce(lru, semi, supers, lru[0]);
      }
      Rotated(was, k, supers);
      found := true;
    }

    method Demote()
      requires Valid() && lru != [] && lru[0] in supers && supers[lru[0]].locks == 0
      modifies this
      ensures Valid() && Same() && superstates == old(superstates) && semi == old(semi + [lru[0]])
      ensures supers.Keys == old(supers).Keys
    {
      hide Linked, Meaning, Tabled, Framed, Named, Numbered, Kept, Retabled, Patched, Queued;
      ghost var a, ea := supers, edges;
      var it := lru[0];
      DemotedQueue(lru, semi, supers);
      lru, semi := lru[1..], semi + [it];
      semifreeSuperstates := semifreeSuperstates + 1;
      supers := Flagged(supers, it, true);
      FlagNames(g, a, edges, bySet, next, it, true);
      PatchRing(it, true);
      TabledNames(Flagged(a, it, true), ea, supers, edges, bySet, next, lru, semi, final, it, true);
      FlagFlipped(g, final, a, ea, supers, edges, it, true);
      PatchedKeeps(final, Flagged(a, it, true), ea, supers, edges, it, {}, true);
    }

    /** `refresh_semifree_superstate`: the edges to the state are patched back. */
    method RefreshSemifree(s: Id)
      requires Valid() && s in supers && supers[s].semifree
      modifies this
      ensures Valid() && Same() && superstates == old(superstates)
      ensures lru == old(lru) + [s] && semi == Without(old(semi), s)
      ensures Retabled(Flagged(old(supers), s, false), supers)
      ensures s in supers && !supers[s].semifree && supers.Keys == old(supers).Keys
      ensures Reframed(old(edges), edges)
    {
      hide Linked, Meaning, Tabled, Framed, Named, Numbered, Kept, Retabled, Patched, Queued;
      ghost var a, ea := supers, edges;
      PromotedQueue(lru, semi, supers, s);
      lru, semi := lru + [s], Without(semi, s);
      semifreeSuperstates := semifreeSuperstates - 1;
      supers := Flagged(supers, s, false);
      FlagNames(g, a, edges, bySet, next, s, false);
      PatchRing(s, false);
      TabledNames(Flagged(a, s, false), ea, supers, edges, bySet, next, lru, semi, final, s, false);
      FlagFlipped(g, final, a, ea, supers, edges, s, false);
      PatchedKeeps(final, Flagged(a, s, false), ea, supers, edges, s, {}, false);
    }

    /** `rx_refresh_this_superstate`: the state becomes the last to be given up. */
    method RefreshThis(s: Id)
      requires Valid() && s in supers
      modifies this
      ensures Valid() && Same() && superstates == old(superstates)
      ensures s in supers && !supers[s].semifree && supers.Keys == old(supers).Keys
      ensures Reframed(old(edges), edges)
      ensures lru != [] && lru[|lru| - 1] == s
    {
      hide Linked, Meaning, Tabled, Framed, Named, Numbered, Kept, Queued;
      KeptSame(supers, edges);
      if supers[s].semifree {
        RefreshSemifree(s);
      } else {
        MovedToTail(lru, semi, supers, s);
        if lru[0] == s {
          lru := Forth(lru);
        } else if lru[|lru| - 1] != s {
          lru := Unlink(lru, s) + [s];
        }
      }
    }

    method ClearRing(it: Id)
      modifies `edges
      ensures edges == map d | d in old(edges) :: Severed(old(edges)[d], d, it)
    {
      ghost var ea := edges;
      var todo: set<Id> := set d | d in edges && edges[d].ring == it;
      while todo != {}
        invariant edges.Keys == ea.Keys
        invariant forall d :: d in todo ==> d in ea && ea[d].ring == it
        invariant forall d :: d in ea ==> edges[d] == if d in todo then ea[d] else Severed(ea[d], d, it)
        decreases |todo|
      {
        var d: Id :| d in todo;
        edges := edges[d := edges[d].(future := None, frame := MissEdge(d))];
        todo := todo - {d};
      }
    }

    method DropEdges(list: seq<Id>)
      modifies `edges
      ensures edges == old(edges) - (set d | d in list)
    {
      var k := 0;
      while k < |list|
        invariant 0 <= k <= |list| && edges == old(edges) - (set d | d in list[..k])
      {
        assert list[..k + 1] == list[..k] + [list[k]];
        edges := edges - {list[k]};
        k := k + 1;
      }
      assert list[..k] == list;
    }

    /** `rx_really_free_superstate`: frees the state that has been semifree longest; it
        fails only when every state is locked. */
    method ReallyFree() returns (freed: bool)
      requires Valid()
      modifies this
      ensures Valid() && Same() && supers.Keys <= old(supers).Keys
      ensures superstates == old(superstates) - (if freed then 1 else 0)
      ensures freed <==> exists s :: s in old(supers) && Locks(old(supers), s) == 0
    {
      hide Linked, Meaning, Tabled, Framed, Named, Numbered, Kept, Queued;
      KeptSame(supers, edges);
      ghost var na, a, ea := next, supers, edges;
      if superstates == 0 {
        NoStates(lru, semi, supers);
        return false;
      }
      Semifree();
      ghost var nb, b, eb := next, supers, edges;
      Semifree();
      KeptTwice(na, a, ea, nb, b, eb, next, supers, edges);
      nb, b, eb := next, supers, edges;
      ghost var lru2 := lru;
      Semifree();
      KeptTwice(na, a, ea, nb, b, eb, next, supers, edges);
      if semi == [] {
        AllLocked(lru2, b);
        KeptLocks(a, ea, b, eb);
        return false;
      }
      assert Locks(supers, semi[0]) == 0 && semi[0] in supers by { FreedQueue(lru, semi, supers); }
      KeptLocks(a, ea, supers, edges);
      nb, b, eb := next, supers, edges;
      FreeHead();
      KeptTwice(na, a, ea, nb, b, eb, next, supers, edges);
      freed := true;
    }

    method FreeHead()
      requires Valid() && semi != []
      modifies this
      ensures Valid() && Same() && superstates == old(superstates) - 1
      ensures semi == old(semi)[1..] && lru == old(lru) && supers == old(supers) - {old(semi)[0]}
    {
      hide Linked, Meaning, Tabled, Framed, Named, Numbered, Kept, Queued, Orphaned, Severed;
      ghost var a, ea := supers, edges;
      var it := semi[0];
      FreedQueue(lru, semi, supers);
      FreedNames(supers, bySet, next, edges, it);
      Freed(g, final, a, ea, it);
      semi := semi[1..];
      semifreeSuperstates := semifreeSuperstates - 1;
      ClearRing(it);
      DropEdges(supers[it].edges);
      OrphanedIs(a, ea, it, edges);
      bySet := bySet - {supers[it].contents};
      supers := supers - {it};
      superstates := superstates - 1;
    }

    /** `rx_superstate`: the state of a set of automaton states, found or made.  Memory
        may be short at any time and for any number of states. */
    method RxSuperstate(t: States) returns (s: Id)
      requires Valid() && InGraph(g, t)
      modifies this
      ensures Valid() && Same() && s in supers && supers[s].contents == t && !supers[s].semifree
    {
      hide Linked, Meaning, Tabled, Framed, Named, Numbered, Kept, Queued;
      if t in bySet {
        s := bySet[t];
        assert s in supers && supers[s].contents == t by { Found(bySet, supers, t); }
        ghost var a, ea := supers, edges;
        RefreshThis(s);
        KeptLocks(a, ea, supers, edges);
        return;
      }
      MakeRoom(t);
      ghost var na, a, ea := next, supers, edges;
      s := Create(t);
      KeptTwice(old(next), old(supers), old(edges), na, a, ea, next, supers, edges);
    }

    method MakeRoom(t: States)
      requires Valid() && t !in bySet
      modifies this
      ensures Valid() && Same() && t !in bySet
    {
      hide Linked, Meaning, Tabled, Framed, Named, Numbered, Kept, Queued;
      KeptSame(supers, edges);
      ghost var na, a, ea, names := next, supers, edges, bySet;
      while *
        invariant Valid() && t !in bySet && supers.Keys <= a.Keys
        invariant Kept(a, ea, supers, edges) && Grown(na, a, next, supers)
        decreases superstates
      {
        ghost var nb, b, eb := next, supers, edges;
        var freed := ReallyFree();
        KeptTwice(na, a, ea, nb, b, eb, next, supers, edges);
        KeptLocks(a, ea, supers, edges);
        StillUnnamed(a, names, supers, bySet, t);
        if !freed { break; }
      }
    }

    method Create(t: States) returns (s: Id)
      requires Valid() && InGraph(g, t) && t !in bySet
      modifies this
      ensures Valid() && Same() && s in supers && supers[s].contents == t && !supers[s].semifree
    {
      hide Linked, Meaning, Tabled, Framed, Named, Numbered, Kept, Queued;
      s := next;
      Created(g, final, supers, edges, s, t);
      CreatedQueue(lru, semi, supers, bySet, s, t, edges);
      next := next + 1;
      superstates := superstates + 1;
      lru := lru + [s];
      bySet := bySet[t := s];
      supers := supers[s := NewState(t)];
    }

    // ---------------------------------------------------------------- cache misses

    /** `rx_lock_superstate`. */
    method Lock(s: Id)
      requires Valid() && s in supers && !supers[s].semifree
      modifies `supers
      ensures Valid() && supers == Relocked(old(supers), s, old(supers)[s].locks + 1)
    {
      hide Linked, Meaning, Tabled, Framed, Named, Numbered, Queued;
      LockChanged(g, final, supers, edges, s, supers[s].locks + 1);
      LockNames(lru, semi, supers, bySet, next, edges, s, supers[s].locks + 1);
      supers := Relocked(supers, s, supers[s].locks + 1);
    }

    /** `rx_unlock_superstate`. */
    method Unlock(s: Id)
      requires Valid() && s in supers && supers[s].locks > 0
      modifies `supers
      ensures Valid() && supers == Relocked(old(supers), s, old(supers)[s].locks - 1) && !supers[s].semifree
    {
      hide Linked, Meaning, Tabled, Framed, Named, Numbered, Queued;
      assert !supers[s].semifree by { LockedStays(lru, semi, supers, s); }
      LockChanged(g, final, supers, edges, s, supers[s].locks - 1);
      LockNames(lru, semi, supers, bySet, next, edges, s, supers[s].locks - 1);
      supers := Relocked(supers, s, supers[s].locks - 1);
    }

    /** Fills in the word of `chr` in the table of `s`. */
    method Fill(s: Id, inx: Inx, cset: set<Byte>, chr: Byte)
      requires Valid() && s in supers
      requires forall c: Byte :: c in cset ==> EntryOk(g, s, supers[s].contents, edges, c, inx)
      modifies `supers
      ensures Valid() && Steady(old(next), old(supers), next, supers) && Retabled(old(supers), supers)
    {
      hide Linked, Meaning, Tabled, Framed, Named, Numbered, Queued, EntryOk, Steady;
      assert TableOk(g, s, supers[s], edges) by { TableOf(g, supers, edges, s); }
      var table := InstallPartial(supers[s].table, inx, cset, chr / 32);
      assert TableOk(g, s, supers[s].(table := table), edges);
      TableReplaced(g, final, supers, edges, s, table);
      TableNames(lru, semi, supers, bySet, next, edges, s, table);
      supers := supers[s := supers[s].(table := table)];
    }

    /** `rx_super_edge` for a class on which the state goes somewhere. */
    method AddSuperEdge(s: Id, cset: set<Byte>, ghost chr: Byte) returns (d: Id)
      requires Valid() && s in supers && !NoEdge(g, supers[s].contents, chr)
      requires cset == Class(g, supers[s].contents, chr)
      requires forall e :: e in supers[s].edges ==> !Carries(edges, e, chr)
      modifies this
      ensures Valid() && Steady(old(next), old(supers), next, supers)
      ensures supers == WithEdge(old(supers), s, d) && d in edges
      ensures edges[d] == SuperEdge(s, cset, None, MissEdge(d), d)
    {
      hide Linked, Meaning, Tabled, Framed, Named, Numbered, Queued, Class, Steady;
      d := next;
      EdgeAdded(g, final, supers, edges, s, d, chr);
      EdgeNames(lru, semi, supers, bySet, d, edges, s, SuperEdge(s, cset, None, MissEdge(d), d));
      next := next + 1;
      edges := edges[d := SuperEdge(s, cset, None, MissEdge(d), d)];
      supers := WithEdge(supers, s, d);
    }

    /** Links the edges of `ring` into the ring of `dest`. */
    method JoinRing(ring: Id, dest: Id)
      requires dest in supers && ring != dest
      modifies `edges
      ensures edges == Joining(old(edges), ring, dest, NextChar(dest, final in supers[dest].contents))
    {
      ghost var ea := edges;
      var inx := NextChar(dest, final in supers[dest].contents);
      var todo: set<Id> := set d | d in edges && edges[d].ring == ring;
      while todo != {}
        invariant edges.Keys == ea.Keys
        invariant forall d :: d in todo ==> d in ea && ea[d].ring == ring
        invariant forall d :: d in ea ==> edges[d] == if d in todo then ea[d] else Joined(ea[d], ring, dest, inx)
        decreases |todo|
      {
        var d: Id :| d in todo;
        edges := edges[d := edges[d].(future := Some(dest), frame := inx, ring := dest)];
        todo := todo - {d};
      }
    }

    /** `solve_destination`, for an edge of a locked state. */
    method SolveDestination(d: Id)
      requires Valid() && nfa.Valid() && d in edges && Locks(supers, edges[d].present) > 0 && edges[d].future == None
      modifies this, nfa, nfa.mark
      ensures Valid() && nfa.Valid() && Steady(old(next), old(supers), next, supers)
      ensures Resolved(old(edges), edges, d)
    {
      hide Linked, Meaning, Tabled, Framed, Named, Numbered, Queued, Kept, KeptEdge, Steady, Grown, Destination;
      hide Resolved;
      ghost var na, a, ea := next, supers, edges;
      KeptSame(a, ea);
      SteadySame(na, a);
      assert Leaving(supers, edges, d) &&
        InGraph(g, supers[edges[d].present].contents) by { EdgeInGraph(g, supers, edges, d); }
      var solution := Solution(nfa, supers[edges[d].present].contents, edges[d].cset);
      if solution == [] {
        NoFuture(g, na, a, ea, na, a, ea, d);
        SetBacktrack(g, final, supers, edges, d);
        edges := edges[d := edges[d].(frame := Backtrack)];
        BacktrackNames(next, supers, ea, d);
        return;
      }
      assert solution[0] in Members(solution);
      var dest := RxSuperstate(solution);
      KeptSteady(na, a, ea, next, supers, edges);
      NoFuture(g, na, a, ea, next, supers, edges, d);
      JoinAll(g, final, supers, edges, dest, d);
      JoinNames(supers, edges, next, edges[d].ring, dest, NextChar(dest, final in supers[dest].contents));
      JoinedResolves(ea, edges, edges[d].ring, dest, NextChar(dest, final in supers[dest].contents), d);
      JoinRing(edges[d].ring, dest);
    }

    /** What a cache miss in the state `s` comes to. */
    twostate predicate Answered(s: Id, chr: Byte, data: Option<nat>, inx: Inx)
      requires s in old(supers)
      reads this, nfa, nfa.mark
    {
      && Valid() && nfa.Valid() && Steady(old(next), old(supers), next, supers) && s in supers && !supers[s].semifree
      && ((data == None && Faults(edges, s, chr, inx))
        || FrameMeans(g, final, supers, old(supers)[s].contents, chr, inx))
    }

    method FindEdge(s: Id, chr: Byte) returns (found: Option<nat>)
      requires Valid() && s in supers
      ensures found.Some? ==> Carries(edges, found.value, chr) && edges[found.value].present == s
      ensures found == None ==> forall d :: d in supers[s].edges ==> !Carries(edges, d, chr)
    {
      hide Meaning, Tabled, Framed, Named, Numbered, Queued, Linked;
      var list, k := supers[s].edges, 0;
      while k < |list|
        invariant 0 <= k <= |list| && forall i :: 0 <= i < k ==> !Carries(edges, list[i], chr)
      {
        OwnEdge(supers, edges, s, list[k]);
        if Carries(edges, list[k], chr) { return Some(list[k]); }
        k := k + 1;
      }
      found := None;
    }

    /** The edge exists and the table does not show it yet. */
    method FillKnown(s: Id, chr: Byte, d: Id) returns (inx: Inx)
      requires Valid() && nfa.Valid() && s in supers && !supers[s].semifree
      requires Carries(edges, d, chr) && edges[d].present == s
      modifies this
      ensures Answered(s, chr, None, inx)
    {
      hide Linked, Meaning, Tabled, Framed, Named, Numbered, Queued, Steady, Retabled, FrameMeans;
      inx := edges[d].frame;
      forall c: Byte | c in edges[d].cset ensures EntryOk(g, s, supers[s].contents, edges, c, inx) {
        assert StandsFor(s, edges, c, inx, d);
      }
      ghost var a := supers;
      Fill(s, inx, edges[d].cset, chr);
      RetabledSame(a, supers, s);
      FrameExact(g, final, supers, edges, d, chr);
    }

    /** The edge does not exist: the class is computed, with the state locked. */
    method NewEdge(s: Id, chr: Byte) returns (inx: Inx)
      requires Valid() && nfa.Valid() && s in supers && !supers[s].semifree
      requires forall d :: d in supers[s].edges ==> !Carries(edges, d, chr)
      modifies this
      ensures Answered(s, chr, None, inx)
    {
      hide Linked, Meaning, Tabled, Framed, Named, Numbered, Queued, Steady, Retabled, FrameMeans, Class, NoEdge;
      hide EngineStep;
      ghost var na, a := next, supers;
      assert Fits(g, supers[s].contents) by { StateInGraph(g, supers, edges, s); }
      Lock(s);
      var cset, found := ComputeSuperEdge(g, supers[s].contents, chr);
      ClassHasChr(g, supers[s].contents, chr);
      if !found {
        inx := Backtrack;
        ClassNoEdge(g, supers[s].contents, chr);
        Fill(s, inx, cset, chr);
        NoEdgeNoStep(g, a[s].contents, chr);
        assert FrameMeans(g, final, supers, a[s].contents, chr, Backtrack) by {
          BacktrackMeans(g, final, supers, a[s].contents, chr);
        }
        LockedAndBack(na, a, s, next, supers);
        Unlock(s);
        BacktrackMeans(g, final, supers, a[s].contents, chr);
      } else {
        ghost var nb, b, eb := next, supers, edges;
        var d := AddSuperEdge(s, cset, chr);
        inx := edges[d].frame;
        forall c: Byte | c in cset ensures EntryOk(g, s, supers[s].contents, edges, c, inx) {
          assert StandsFor(s, edges, c, inx, d);
        }
        ghost var nc, c := next, supers;
        Fill(s, inx, cset, chr);
        SteadyTwice(nb, b, eb, nc, c, next, supers);
        LockedAndBack(na, a, s, next, supers);
        Unlock(s);
      }
    }

    /** The destination exists; if it is semifree it is revived. */
    method Revive(s: Id, chr: Byte, d: Id) returns (inx: Inx)
      requires Valid() && nfa.Valid() && s in supers && !supers[s].semifree
      requires Carries(edges, d, chr) && edges[d].present == s && edges[d].future.Some?
      modifies this
      ensures Answered(s, chr, Some(d), inx)
    {
      hide Linked, Meaning, Tabled, Framed, Named, Numbered, Queued, Steady, Retabled, FrameMeans, Reframed, Kept;
      hide Grown;
      SteadySame(next, supers);
      ghost var na, a, ea := next, supers, edges;
      FutureOf(g, supers, edges, d);
      var t := edges[d].future.value;
      if supers[t].semifree {
        RefreshSemifree(t);
        StillUp(a, t, supers, s);
        KeptSteady(na, a, ea, next, supers, edges);
        ReframedEdge(ea, edges, d);
      }
      inx := edges[d].frame;
      EntersDirectly(g, final, supers, edges, d);
      FrameExact(g, final, supers, edges, d, chr);
    }

    /** The destination is not known: it is computed, with the state locked. */
    method Resolve(s: Id, chr: Byte, d: Id) returns (inx: Inx)
      requires Valid() && nfa.Valid() && s in supers && !supers[s].semifree
      requires Carries(edges, d, chr) && edges[d].present == s && edges[d].future == None
      modifies this, nfa, nfa.mark
      ensures Answered(s, chr, Some(d), inx)
    {
      hide Linked, Meaning, Tabled, Framed, Named, Numbered, Queued, Steady, Retabled, FrameMeans;
      ghost var na, a := next, supers;
      Lock(s);
      ghost var b, eb := supers, edges;
      SolveDestination(d);
      LockedAndBack(na, a, s, next, supers);
      inx := edges[d].frame;
      forall c: Byte | c in edges[d].cset ensures EntryOk(g, s, supers[s].contents, edges, c, inx) {
        assert StandsFor(s, edges, c, inx, d);
      }
      ghost var nc, c := next, supers;
      Fill(s, inx, edges[d].cset, chr);
      SteadyTwice(na, b, eb, nc, c, next, supers);
      LockedAndBack(na, a, s, next, supers);
      Unlock(s);
      FrameExact(g, final, supers, edges, d, chr);
    }

    /** `rx_handle_cache_miss`. */
    method HandleCacheMiss(s: Id, chr: Byte, data: Option<nat>) returns (inx: Inx)
      requires Valid() && nfa.Valid() && s in supers && !supers[s].semifree
      requires data.Some? ==> Carries(edges, data.value, chr) && edges[data.value].present == s
      modifies this, nfa, nfa.mark
      ensures Answered(s, chr, data, inx)
    {
      hide Linked, Meaning, Tabled, Framed, Named, Numbered, Queued, Steady, Retabled, FrameMeans;
      match data
      case None =>
        var known := FindEdge(s, chr);
        if known.Some? { inx := FillKnown(s, chr, known.value); }
        else { inx := NewEdge(s, chr); }
      case Some(d) =>
        if edges[d].future.Some? { inx := Revive(s, chr, d); }
        else { inx := Resolve(s, chr, d); }
    }

    // ---------------------------------------------------------------------- matching

    /** `rx_start_superstate`: the state of a matcher, if it has one, is given up for the
        one of the closure of `start`. */
    method StartSuperstate(start: nat, state: Option<nat>) returns (s: Id)
      requires Valid() && nfa.Valid() && start < |g|
      requires state.Some? ==> Locks(supers, state.value) > 0
      modifies this, nfa, nfa.mark
      ensures Valid() && nfa.Valid() && Handed(old(next), old(supers), state, next, supers, Some(s))
      ensures s in supers && supers[s].locks > 0 && Members(supers[s].contents) == Closure(g, start)
    {
      hide Linked, Meaning, Tabled, Framed, Named, Numbered, Queued, Steady, Grown, Handed, Kept, Closure;
      var destset := nfa.PossibleFutures(start);
      ClosureFits(g, start, destset);
      var contents := Union([], destset);
      UnionFromNothing(destset);
      if contents in bySet { s := StartAgain(contents, state); } else { s := StartNew(contents, state); }
    }

    /** The start state is in the cache; it may be semifree, and must not stay so. */
    method StartAgain(contents: States, state: Option<nat>) returns (s: Id)
      requires Valid() && contents in bySet && (state.Some? ==> Locks(supers, state.value) > 0)
      modifies this
      ensures Valid() && Handed(old(next), old(supers), state, next, supers, Some(s))
      ensures s in supers && supers[s].locks > 0 && supers[s].contents == contents
    {
      hide Linked, Meaning, Tabled, Framed, Named, Numbered, Queued, Steady, Grown, Handed, Kept;
      ghost var na, a := next, supers;
      s := bySet[contents];
      Found(bySet, supers, contents);
      ReleasedContents(a, state);
      if state.Some? { Unlock(state.value); }
      ghost var b, eb := supers, edges;
      RefreshThis(s);
      KeptLocks(b, eb, supers, edges);
      KeptSteady(na, b, eb, next, supers, edges);
      HandOver(na, a, state, next, supers, Some(s));
      Lock(s);
    }

    method StartNew(contents: States, state: Option<nat>) returns (s: Id)
      requires Valid() && InGraph(g, contents) && (state.Some? ==> Locks(supers, state.value) > 0)
      modifies this
      ensures Valid() && Handed(old(next), old(supers), state, next, supers, Some(s))
      ensures s in supers && supers[s].locks > 0 && supers[s].contents == contents
    {
      hide Linked, Meaning, Tabled, Framed, Named, Numbered, Queued, Steady, Grown, Handed, Kept, InGraph;
      ghost var na, a, ea := next, supers, edges;
      s := RxSuperstate(contents);
      KeptSteady(na, a, ea, next, supers, edges);
      HandOverLate(na, a, state, next, supers, s);
      ReleasedContents(supers, state);
      if state.Some? { Unlock(state.value); }
      Lock(s);
    }

    /** Follows one character, through as many faults as it takes. */
    method Follow(s: Id, chr: Byte) returns (inx: Inx)
      requires Valid() && nfa.Valid() && s in supers && !supers[s].semifree
      modifies this, nfa, nfa.mark
      ensures Valid() && nfa.Valid() && Steady(old(next), old(supers), next, supers)
      ensures FrameMeans(g, final, supers, old(supers)[s].contents, chr, inx)
    {
      hide Linked, Meaning, Tabled, Framed, Named, Numbered, Queued, Steady, FrameMeans;
      SteadySame(next, supers);
      ghost var na, a, ea, t := next, supers, edges, supers[s].contents;
      assert |supers[s].table| == 256 by { var _ := EntryExact(g, final, supers, edges, s, chr); }
      inx := supers[s].table[chr];
      ghost var inx' := EntryExact(g, final, supers, edges, s, chr);
      while inx.Miss? || inx.MissEdge?
        invariant Valid() && nfa.Valid() && Steady(na, a, next, supers) && s in supers && !supers[s].semifree
        invariant supers[s].contents == t
        invariant inx == Miss || Faults(edges, s, chr, inx) || FrameMeans(g, final, supers, t, chr, inx)
        decreases if inx.Miss? then 2 else if inx.MissEdge? then 1 else 0
      {
        ghost var was := inx;
        ghost var nb, b := next, supers;
        FaultNotFrame(g, final, supers, t, chr, inx);
        inx := HandleCacheMiss(s, chr, if inx.Miss? then None else Some(inx.edge));
        SteadyTwice(na, a, ea, nb, b, next, supers);
        SteadyContents(nb, b, next, supers, s);
        if was.MissEdge? { FaultNotFrame(g, final, supers, t, chr, inx); }
        FaultNotFrame(g, final, supers, t, chr, inx);
      }
    }

    /** `rx_fit_p`: whatever is in the cache and whatever is thrown out of it on the
        way, the answer is that of the automaton. */
    method FitP(state: Id, burst: Text) returns (answer: bool, state': Option<nat>)
      requires Valid() && nfa.Valid() && state in supers && supers[state].locks > 0
      modifies this, nfa, nfa.mark
      ensures Valid() && nfa.Valid() && Handed(old(next), old(supers), Some(state), next, supers, state')
      ensures answer <==> final in EngineRun(g, Members(old(supers)[state].contents), burst)
      ensures Stands(g, Members(old(supers)[state].contents), burst, supers, state')
    {
      hide Linked, Meaning, Tabled, Framed, Named, Numbered, Queued, Steady, FrameMeans, Grown, EngineRun, Handed;
      ghost var na, a, from := next, supers, Members(supers[state].contents);
      if |burst| == 0 {
        KeepsLock(next, supers, state);
        RunNothing(g, from);
        answer := final in supers[state].contents;
        return answer, Some(state);
      }
      Unlock(state);
      SteadySame(next, supers);
      ghost var a1, e1 := supers, edges;
      var at, k := state, 0;
      answer := false;
      assert burst[0..] == burst;
      while k < |burst|
        invariant 0 <= k <= |burst| && Valid() && nfa.Valid() && Steady(na, a1, next, supers)
        invariant at in supers && !supers[at].semifree
        invariant EngineRun(g, Members(supers[at].contents), burst[k..]) == EngineRun(g, from, burst)
        invariant k > 0 ==> (answer <==> final in supers[at].contents)
      {
        ghost var nb, b := next, supers;
        EngineStepIsNext(g, supers[at].contents, burst[k]);
        EngineRunOn(g, Members(supers[at].contents), burst, k);
        assert burst[k..] == [burst[k]] + burst[k + 1..];
        var inx := Follow(at, burst[k]);
        SteadyTwice(na, a1, e1, nb, b, next, supers);
        FrameGoes(g, final, supers, b[at].contents, burst[k], inx);
        if inx.Backtrack? {
          DeadEngineRun(g, burst[k + 1..]);
          HandOver(na, a, Some(state), next, supers, None);
          return false, None;
        }
        at, answer := inx.dest, inx.final;
        k := k + 1;
      }
      assert burst[k..] == [];
      RunNothing(g, Members(supers[at].contents));
      HandOver(na, a, Some(state), next, supers, Some(at));
      Lock(at);
      state' := Some(at);
    }

    /** `rx_advance_to_final`: stops at the first final state after at least one
        character, before the character on which nothing is left, or at the end. */
    method AdvanceToFinal(state: Id, burst: Text) returns (n: nat, tag: bool, state': Id)
      requires Valid() && nfa.Valid() && state in supers && supers[state].locks > 0
      modifies this, nfa, nfa.mark
      ensures Valid() && nfa.Valid() && Handed(old(next), old(supers), Some(state), next, supers, Some(state'))
      ensures n <= |burst| && Stands(g, Members(old(supers)[state].contents), burst[..n], supers, Some(state'))
      ensures tag <==> final in EngineRun(g, Members(old(supers)[state].contents), burst[..n])
      ensures forall m :: 1 <= m < n ==> final !in EngineRun(g, Members(old(supers)[state].contents), burst[..m])
      ensures forall m :: 1 <= m <= n ==> EngineRun(g, Members(old(supers)[state].contents), burst[..m]) != {}
      ensures n < |burst| ==> (n > 0 && tag) || EngineRun(g, Members(old(supers)[state].contents), burst[..n + 1]) == {}
    {
      hide Linked, Meaning, Tabled, Framed, Named, Numbered, Queued, Steady, FrameMeans, Grown, EngineRun, Handed;
      ghost var na, a, e0, from := next, supers, edges, Members(supers[state].contents);
      KeepsLock(next, supers, state);
      RunNothing(g, from);
      state', n := state, 0;
      while n < |burst|
        invariant n <= |burst| && Valid() && nfa.Valid() && Handed(na, a, Some(state), next, supers, Some(state'))
        invariant Stands(g, from, burst[..n], supers, Some(state'))
        invariant forall m ::
          1 <= m <= n ==> final !in EngineRun(g, from, burst[..m]) && EngineRun(g, from, burst[..m]) != {}
      {
        assert !supers[state'].semifree by { LockedStays(lru, semi, supers, state'); }
        ghost var nb, b, t, last := next, supers, supers[state'].contents, state';
        var inx := Follow(state', burst[n]);
        FrameGoes(g, final, supers, t, burst[n], inx);
        RunFurther(g, from, burst, n, t);
        if inx.Backtrack? {
          SteadyHanded(nb, b, state', next, supers);
          HandedTwice(na, a, e0, Some(state), nb, b, Some(state'), next, supers, Some(state'));
          StillLocked(nb, b, state', next, supers);
          break;
        }
        HandOverLate(nb, b, Some(state'), next, supers, inx.dest);
        Unlock(state');
        state', n := inx.dest, n + 1;
        Lock(state');
        HandedTwice(na, a, e0, Some(state), nb, b, Some(last), next, supers, Some(state'));
        if final in supers[state'].contents { break; }
      }
      tag := final in supers[state'].contents;
    }
  }
}
