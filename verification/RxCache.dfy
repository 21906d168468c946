/** The data of the superstate cache, what holds of it between operations, and why each
    small change to it keeps that. */
module RxCache {
  import opened Wrappers
  import opened RxNode
  import opened RxNfa
  import opened RxStateSet
  import opened RxEclose
  import opened RxStep

  type Id = nat

  /** An instruction frame (`rx_inx`). */
  datatype Inx = Miss | MissEdge(edge: Id) | NextChar(dest: Id, final: bool) | Backtrack

  /** `rx_superstate`; `table` is what the matcher looks up. */
  datatype Superstate = Superstate(contents: States, locks: nat, semifree: bool, edges: seq<Id>, table: seq<Inx>)

  /** An `rx_super_edge` with its one `rx_distinct_future`.  Edges with the same `ring`
      are linked by `next_same_dest`; the ring of a state that exists is named by it. */
  datatype SuperEdge = SuperEdge(present: Id, cset: set<Byte>, future: Option<nat>, frame: Inx, ring: Id)

  type Supers = map<Id, Superstate>

  type Edges = map<Id, SuperEdge>

  // -------------------------------------------------------------------- invariants

  /** The two queues hold each state once, the semifree ones in the second. */
  ghost predicate Queued(lru: seq<Id>, semi: seq<Id>, supers: Supers) {
    && multiset(lru) + multiset(semi) == multiset(supers.Keys)
    && forall s :: s in supers ==> (supers[s].semifree <==> s in semi) && (supers[s].locks > 0 ==> !supers[s].semifree)
  }

  /** A set of automaton states has at most one superstate. */
  ghost predicate Named(bySet: map<States, Id>, supers: Supers) {
    && (forall t :: t in bySet ==> bySet[t] in supers && supers[bySet[t]].contents == t)
    && (forall s :: s in supers ==> supers[s].contents in bySet && bySet[supers[s].contents] == s)
  }

  /** Edges hang on the state they leave, and no two of them share a character. */
  ghost predicate Linked(supers: Supers, edges: Edges) {
    && (forall s, d :: s in supers && d in supers[s].edges ==> d in edges && edges[d].present == s)
    && (forall d :: d in edges ==> edges[d].present in supers && d in supers[edges[d].present].edges)
    && (forall d, e, c ::
      Carries(edges, d, c) && Carries(edges, e, c) && edges[d].present == edges[e].present ==> d == e)
  }

  predicate Carries(edges: Edges, d: Id, c: Byte) {
    d in edges && c in edges[d].cset
  }

  ghost predicate Numbered(next: Id, supers: Supers, edges: Edges) {
    && (forall s :: s in supers ==> s < next)
    && (forall d :: d in edges ==> d < next && edges[d].ring < next)
  }

  /** The set is the class of some character that an edge carries. */
  ghost predicate SomeClass(g: Graph, t: States, cset: set<Byte>) {
    exists c: Byte :: c in cset && ClassOf(g, t, c, cset)
  }

  ghost predicate ClassOf(g: Graph, t: States, c: Byte, cset: set<Byte>) {
    !NoEdge(g, t, c) && cset == Class(g, t, c)
  }

  ghost function Target(g: Graph, supers: Supers, edges: Edges, d: Id): set<nat>
    requires d in edges && edges[d].present in supers
  {
    Destination(g, supers[edges[d].present].contents, edges[d].cset)
  }

  ghost predicate InGraph(g: Graph, t: States) {
    Sorted(t) && Fits(g, t) && t != []
  }

  ghost predicate Fits(g: Graph, t: States) {
    forall i :: 0 <= i < |t| ==> t[i] < |g|
  }

  ghost predicate EdgeMeans(g: Graph, supers: Supers, edges: Edges, d: Id)
    requires d in edges && edges[d].present in supers
  {
    var e := edges[d];
    && SomeClass(g, supers[e.present].contents, e.cset)
    && e.future == (if e.ring in supers then Some(e.ring) else None)
    && (e.ring in supers ==> Members(supers[e.ring].contents) == Target(g, supers, edges, d))
  }

  /** What states and edges stand for. */
  ghost predicate Meaning(g: Graph, supers: Supers, edges: Edges)
    requires Linked(supers, edges)
  {
    && (forall s :: s in supers ==> InGraph(g, supers[s].contents))
    && (forall d :: d in edges ==> EdgeMeans(g, supers, edges, d))
    && (forall d, e :: d in edges && e in edges && edges[d].ring == edges[e].ring ==>
          Target(g, supers, edges, d) == Target(g, supers, edges, e))
  }

  ghost predicate FrameOk(g: Graph, final: nat, supers: Supers, edges: Edges, d: Id)
    requires d in edges && edges[d].present in supers
  {
    var e := edges[d];
    if e.ring in supers then e.frame == Entering(final, supers, d, e.ring, supers[e.ring].semifree)
    else e.frame == MissEdge(d) || (e.frame == Backtrack && Target(g, supers, edges, d) == {})
  }

  /** The frame of an edge to the state `t`: taken at once, or by way of a fault. */
  function Entering(final: nat, supers: Supers, d: Id, t: Id, fault: bool): Inx
    requires t in supers
  {
    if fault then MissEdge(d) else NextChar(t, final in supers[t].contents)
  }

  ghost predicate Framed(g: Graph, final: nat, supers: Supers, edges: Edges)
    requires Linked(supers, edges)
  {
    forall d :: d in edges ==> FrameOk(g, final, supers, edges, d)
  }


  /** A table entry is empty, a failure, or stands for the edge on its character: by a
      fault, or by a copy of the frame the edge has now. */
  ghost predicate EntryOk(g: Graph, s: Id, t: States, edges: Edges, c: Byte, inx: Inx) {
    || inx == Miss
    || (inx == Backtrack && NoEdge(g, t, c))
    || exists d :: StandsFor(s, edges, c, inx, d)
  }

  ghost predicate StandsFor(s: Id, edges: Edges, c: Byte, inx: Inx, d: Id) {
    d in edges && edges[d].present == s && c in edges[d].cset && (inx == MissEdge(d) || inx == edges[d].frame)
  }

  ghost predicate TableOk(g: Graph, s: Id, super: Superstate, edges: Edges) {
    |super.table| == 256 && forall c: Byte :: EntryOk(g, s, super.contents, edges, c, super.table[c])
  }

  ghost predicate Tabled(g: Graph, supers: Supers, edges: Edges) {
    forall s :: s in supers ==> TableOk(g, s, supers[s], edges)
  }

  function Locks(supers: Supers, s: Id): nat {
    if s in supers then supers[s].locks else 0
  }

  // ------------------------------------------------------------------ what steps keep

  /** Only tables differ. */
  ghost predicate Retabled(a: Supers, b: Supers) {
    b.Keys == a.Keys && forall s :: s in a ==> b[s] == a[s].(table := b[s].table)
  }

  /** Only frames differ. */
  ghost predicate Reframed(a: Edges, b: Edges) {
    b.Keys == a.Keys && forall d :: d in a ==> b[d] == a[d].(frame := b[d].frame)
  }

  /** What every operation leaves alone: the contents of the states that stay, all
      locks, and the edges of locked states. */
  ghost predicate Kept(a: Supers, ea: Edges, b: Supers, eb: Edges) {
    && (forall s :: s in a && s in b ==> b[s].contents == a[s].contents)
    && (forall s :: Locks(b, s) == Locks(a, s))
    && (forall d :: d in ea && Locks(a, ea[d].present) > 0 ==> KeptEdge(ea, eb, d))
  }

  ghost predicate KeptEdge(ea: Edges, eb: Edges, d: Id) {
    d in ea && d in eb && eb[d].present == ea[d].present && eb[d].cset == ea[d].cset && eb[d].ring == ea[d].ring
  }

  lemma Relinked(a: Supers, ea: Edges, b: Supers, eb: Edges)
    requires Linked(a, ea) && Retabled(a, b) && Reframed(ea, eb)
    ensures Linked(b, eb)
  {
    assert forall d, c :: Carries(eb, d, c) <==> Carries(ea, d, c);
  }

  lemma KeptSame(a: Supers, ea: Edges)
    ensures Kept(a, ea, a, ea)
  {
  }

  lemma Coreless(g: Graph, a: Supers, ea: Edges, b: Supers, eb: Edges)
    requires Linked(a, ea) && Meaning(g, a, ea) && Retabled(a, b) && Reframed(ea, eb)
    ensures Linked(b, eb) && Meaning(g, b, eb) && Kept(a, ea, b, eb)
  {
    hide Destination, SomeClass, InGraph, Carries;
    assert Linked(b, eb) by { Relinked(a, ea, b, eb); }
    forall d | d in eb ensures Target(g, b, eb, d) == Target(g, a, ea, d) && EdgeMeans(g, b, eb, d) {
      assert EdgeMeans(g, a, ea, d);
    }
  }

  // -------------------------------------------------------------------------- tables

  /** `install_partial_transition`: the characters of one word. */
  method InstallPartial(table: seq<Inx>, answer: Inx, cset: set<Byte>, word: nat) returns (table': seq<Inx>)
    requires |table| == 256 && word < 8
    ensures |table'| == 256
    ensures forall c: Byte :: table'[c] == if c in cset && c / 32 == word then answer else table[c]
  {
    table' := table;
    var chr := 32 * word;
    while chr < 32 * word + 32
      invariant 32 * word <= chr <= 32 * word + 32 && |table'| == 256
      invariant forall c: Byte :: table'[c] == if c in cset && 32 * word <= c < chr then answer else table[c]
    {
      if chr in cset { table' := table'[chr := answer]; }
      chr := chr + 1;
    }
  }

  /** `install_transition`: all the characters of a set. */
  method InstallTransition(table: seq<Inx>, answer: Inx, cset: set<Byte>) returns (table': seq<Inx>)
    requires |table| == 256
    ensures |table'| == 256
    ensures forall c: Byte :: table'[c] == if c in cset then answer else table[c]
  {
    table' := table;
    var word := 0;
    while word < 8
      invariant 0 <= word <= 8 && |table'| == 256
      invariant forall c: Byte :: table'[c] == if c in cset && c / 32 < word then answer else table[c]
    {
      table' := InstallPartial(table', answer, cset, word);
      word := word + 1;
    }
  }

  lemma FrameInstalled(g: Graph, supers: Supers, edges: Edges, d: Id, inx: Inx, table: seq<Inx>)
    requires Linked(supers, edges) && Tabled(g, supers, edges) && d in edges && |table| == 256
    requires forall c: Byte ::
      table[c] == if c in edges[d].cset then inx else supers[edges[d].present].table[c]
    ensures Tabled(g, supers[edges[d].present := supers[edges[d].present].(table := table)],
                   edges[d := edges[d].(frame := inx)])
  {
    hide NoEdge;
    var p := edges[d].present;
    var b, eb := supers[p := supers[p].(table := table)], edges[d := edges[d].(frame := inx)];
    forall s, c: Byte | s in b ensures EntryOk(g, s, b[s].contents, eb, c, b[s].table[c]) {
      if s == p && c in edges[d].cset {
        assert StandsFor(s, eb, c, inx, d);
      } else {
        assert EntryOk(g, s, supers[s].contents, edges, c, supers[s].table[c]);
        if e :| StandsFor(s, edges, c, supers[s].table[c], e) {
          assert StandsFor(s, eb, c, b[s].table[c], e);
        }
      }
    }
  }

  /** The ring of `t` has its new frames, but for the edges of `todo`. */
  ghost predicate Patched(final: nat, supers: Supers, ea: Edges, eb: Edges, t: Id, todo: set<Id>, fault: bool)
    requires t in supers
  {
    && Reframed(ea, eb)
    && forall d :: d in ea ==>
         eb[d].frame == (if ea[d].ring == t && d !in todo then Entering(final, supers, d, t, fault) else ea[d].frame)
  }

  lemma Unpatched(final: nat, supers: Supers, edges: Edges, t: Id, todo: set<Id>, fault: bool)
    requires t in supers && forall d :: d in edges && edges[d].ring == t ==> d in todo
    ensures Patched(final, supers, edges, edges, t, todo, fault) && Retabled(supers, supers)
  {
  }

  lemma StillThere(final: nat, a: Supers, ea: Edges, b: Supers, eb: Edges, t: Id, todo: set<Id>, fault: bool, d: Id)
    requires t in a && Retabled(a, b) && Patched(final, a, ea, eb, t, todo, fault) && d in ea
    ensures t in b && d in eb && Entering(final, b, d, t, fault) == Entering(final, a, d, t, fault)
  {
  }

  lemma RetabledTwice(a: Supers, b: Supers, c: Supers)
    requires Retabled(a, b) && Retabled(b, c)
    ensures Retabled(a, c)
  {
  }

  lemma PatchedLinked(final: nat, a: Supers, ea: Edges, b: Supers, eb: Edges, t: Id, todo: set<Id>, fault: bool)
    requires t in a && Linked(a, ea) && Retabled(a, b) && Patched(final, a, ea, eb, t, todo, fault)
    ensures Linked(b, eb)
  {
    Relinked(a, ea, b, eb);
  }

  lemma PatchedKeeps(final: nat, a: Supers, ea: Edges, b: Supers, eb: Edges, t: Id, todo: set<Id>, fault: bool)
    requires t in a && Retabled(a, b) && Patched(final, a, ea, eb, t, todo, fault)
    ensures t in b && b[t].semifree == a[t].semifree && b.Keys == a.Keys && Reframed(ea, eb)
  {
  }

  lemma MovedToTail(lru: seq<Id>, semi: seq<Id>, supers: Supers, s: Id)
    requires Queued(lru, semi, supers) && s in supers && !supers[s].semifree
    ensures s in lru && Queued(Forth(lru), semi, supers) && Queued(Unlink(lru, s) + [s], semi, supers)
    ensures |Forth(lru)| == |lru| == |Unlink(lru, s)| + 1 && (lru[0] == s ==> Forth(lru)[|lru| - 1] == s)
  {
    assert s in multiset(supers.Keys) && s in multiset(lru) + multiset(semi);
    UnlinkRemoves(lru, s);
    TurnedQueue(lru);
    hide Queued, Unlink;
    assert |multiset(Unlink(lru, s))| == |lru| - 1;
    Requeued(lru, Forth(lru), semi, supers);
    Requeued(lru, Unlink(lru, s) + [s], semi, supers);
  }

  lemma Requeued(lru: seq<Id>, lru': seq<Id>, semi: seq<Id>, supers: Supers)
    requires Queued(lru, semi, supers) && multiset(lru') == multiset(lru)
    ensures Queued(lru', semi, supers)
  {
  }

  lemma PatchOne(final: nat, supers: Supers, ea: Edges, eb: Edges, t: Id, todo: set<Id>, fault: bool, d: Id)
    requires t in supers && Patched(final, supers, ea, eb, t, todo, fault) && d in todo && d in eb && ea[d].ring == t
    ensures Patched(final, supers, ea,
      eb[d := eb[d].(frame := Entering(final, supers, d, t, fault))], t, todo - {d}, fault)
  {
  }

  function Flagged(supers: Supers, t: Id, semifree: bool): Supers
    requires t in supers
  {
    supers[t := supers[t].(semifree := semifree)]
  }

  lemma FlagMeans(g: Graph, a: Supers, ea: Edges, t: Id, fault: bool)
    requires Linked(a, ea) && Meaning(g, a, ea) && t in a
    ensures Linked(Flagged(a, t, fault), ea) && Meaning(g, Flagged(a, t, fault), ea)
    ensures Kept(a, ea, Flagged(a, t, fault), ea)
  {
    hide Destination, SomeClass, InGraph, Carries;
    var a1 := Flagged(a, t, fault);
    assert a1.Keys == a.Keys && forall s :: s in a ==> a1[s].contents == a[s].contents;
    forall d | d in ea ensures EdgeMeans(g, a1, ea, d) && Target(g, a1, ea, d) == Target(g, a, ea, d) {
      assert EdgeMeans(g, a, ea, d);
    }
  }

  lemma FlagFrames(g: Graph, final: nat, a: Supers, ea: Edges, b: Supers, eb: Edges, t: Id, fault: bool)
    requires Linked(a, ea) && Framed(g, final, a, ea) && t in a && Linked(b, eb)
    requires Retabled(Flagged(a, t, fault), b) && Patched(final, Flagged(a, t, fault), ea, eb, t, {}, fault)
    ensures Framed(g, final, b, eb)
  {
    hide Destination, SomeClass, InGraph, Carries, Linked;
    forall d | d in eb ensures Leaving(a, ea, d) && Leaving(b, eb, d) && FrameOk(g, final, b, eb, d) {
      LinkedEdge(a, ea, d);
      LinkedEdge(b, eb, d);
      assert FrameOk(g, final, a, ea, d) && Target(g, b, eb, d) == Target(g, a, ea, d);
    }
  }

  predicate Leaving(supers: Supers, edges: Edges, d: Id) { d in edges && edges[d].present in supers }

  lemma LinkedEdge(supers: Supers, edges: Edges, d: Id)
    requires Linked(supers, edges) && d in edges
    ensures Leaving(supers, edges, d)
  {
  }

  /** A state may change its flag if the edges to it are patched accordingly. */
  lemma FlagFlipped(g: Graph, final: nat, a: Supers, ea: Edges, b: Supers, eb: Edges, t: Id, fault: bool)
    requires Linked(a, ea) && Meaning(g, a, ea) && Framed(g, final, a, ea) && t in a
    requires Retabled(Flagged(a, t, fault), b) && Patched(final, Flagged(a, t, fault), ea, eb, t, {}, fault)
    ensures Linked(b, eb) && Meaning(g, b, eb) && Framed(g, final, b, eb) && Kept(a, ea, b, eb)
  {
    hide Destination, SomeClass, InGraph, Carries, Linked, Meaning, Framed;
    FlagMeans(g, a, ea, t, fault);
    Coreless(g, Flagged(a, t, fault), ea, b, eb);
    FlagFrames(g, final, a, ea, b, eb, t, fault);
  }

  // ------------------------------------------------------------------------- freeing

  function Severed(e: SuperEdge, d: Id, it: Id): SuperEdge {
    if e.ring == it then e.(future := None, frame := MissEdge(d)) else e
  }

  /** The edges that remain without the state `it`. */
  function Orphaned(edges: Edges, it: Id): Edges {
    map d | d in edges && edges[d].present != it :: Severed(edges[d], d, it)
  }

  lemma OrphanedLinks(a: Supers, ea: Edges, it: Id)
    requires Linked(a, ea)
    ensures Linked(a - {it}, Orphaned(ea, it))
  {
    var eb := Orphaned(ea, it);
    assert forall d, c :: Carries(eb, d, c) ==> Carries(ea, d, c) && eb[d].present == ea[d].present;
  }

  lemma OrphanedMeaning(g: Graph, a: Supers, ea: Edges, it: Id)
    requires Linked(a, ea) && Meaning(g, a, ea) && Linked(a - {it}, Orphaned(ea, it))
    ensures Meaning(g, a - {it}, Orphaned(ea, it))
  {
    hide Destination, SomeClass, InGraph, Linked, Carries;
    var b, eb := a - {it}, Orphaned(ea, it);
    forall d | d in eb
      ensures Leaving(b, eb, d) && Target(g, b, eb, d) == Target(g, a, ea, d) && EdgeMeans(g, b, eb, d)
    {
      LinkedEdge(a, ea, d);
      LinkedEdge(b, eb, d);
      assert EdgeMeans(g, a, ea, d);
    }
  }

  lemma OrphanedFrames(g: Graph, final: nat, a: Supers, ea: Edges, it: Id)
    requires Linked(a, ea) && Framed(g, final, a, ea) && Linked(a - {it}, Orphaned(ea, it))
    ensures Framed(g, final, a - {it}, Orphaned(ea, it))
  {
    hide Destination, Linked, Carries;
    var b, eb := a - {it}, Orphaned(ea, it);
    forall d | d in eb ensures Leaving(b, eb, d) && FrameOk(g, final, b, eb, d) {
      LinkedEdge(a, ea, d);
      LinkedEdge(b, eb, d);
      assert FrameOk(g, final, a, ea, d) && Target(g, b, eb, d) == Target(g, a, ea, d);
    }
  }

  /** No table needs patching: the edges to a semifree state fault already. */
  lemma OrphanedTables(g: Graph, final: nat, a: Supers, ea: Edges, it: Id)
    requires Linked(a, ea) && Framed(g, final, a, ea) && Tabled(g, a, ea) && it in a && a[it].semifree
    ensures Tabled(g, a - {it}, Orphaned(ea, it))
  {
    hide Destination, Linked, Carries, NoEdge;
    var b, eb := a - {it}, Orphaned(ea, it);
    forall s, c: Byte | s in b ensures EntryOk(g, s, b[s].contents, eb, c, b[s].table[c]) {
      assert EntryOk(g, s, a[s].contents, ea, c, a[s].table[c]);
      if d :| StandsFor(s, ea, c, a[s].table[c], d) {
        LinkedEdge(a, ea, d);
        assert FrameOk(g, final, a, ea, d);
        assert StandsFor(s, eb, c, b[s].table[c], d);
      }
    }
  }

  lemma OrphanedIs(a: Supers, ea: Edges, it: Id, eb: Edges)
    requires Linked(a, ea) && it in a
    requires eb == (map d | d in ea :: Severed(ea[d], d, it)) - (set d | d in a[it].edges)
    ensures eb == Orphaned(ea, it)
  {
  }

  lemma OrphanedKept(a: Supers, ea: Edges, it: Id)
    requires it in a && a[it].locks == 0
    ensures Kept(a, ea, a - {it}, Orphaned(ea, it))
  {
  }

  lemma Freed(g: Graph, final: nat, a: Supers, ea: Edges, it: Id)
    requires Linked(a, ea) && Meaning(g, a, ea) && Framed(g, final, a, ea) && Tabled(g, a, ea)
    requires it in a && a[it].semifree && a[it].locks == 0
    ensures Linked(a - {it}, Orphaned(ea, it)) && Meaning(g, a - {it}, Orphaned(ea, it))
    ensures Framed(g, final, a - {it}, Orphaned(ea, it)) && Tabled(g, a - {it}, Orphaned(ea, it))
    ensures Kept(a, ea, a - {it}, Orphaned(ea, it))
  {
    hide Linked, Meaning, Tabled, Framed, Kept;
    OrphanedLinks(a, ea, it);
    OrphanedMeaning(g, a, ea, it);
    OrphanedFrames(g, final, a, ea, it);
    OrphanedTables(g, final, a, ea, it);
    OrphanedKept(a, ea, it);
  }

  /** New states have new numbers. */
  ghost predicate Grown(na: Id, a: Supers, nb: Id, b: Supers) {
    na <= nb && forall s :: s in b ==> s in a || na <= s
  }

  lemma KeptTwice(na: Id, a: Supers, ea: Edges, nb: Id, b: Supers, eb: Edges, nc: Id, c: Supers, ec: Edges)
    requires Kept(a, ea, b, eb) && Kept(b, eb, c, ec) && Grown(na, a, nb, b) && Grown(nb, b, nc, c)
    requires Numbered(na, a, ea)
    ensures Kept(a, ea, c, ec) && Grown(na, a, nc, c)
  {
    forall s | s in a && s in c ensures s in b {}
    forall d | d in ea && Locks(a, ea[d].present) > 0 ensures KeptEdge(ea, ec, d) {
      assert KeptEdge(ea, eb, d) && KeptEdge(eb, ec, d);
    }
  }

  // ------------------------------------------------------------------------- queues

  /** A queue after one of its members is unlinked. */
  function Unlink(q: seq<Id>, x: Id): seq<Id> {
    if q == [] then [] else if q[0] == x then q[1..] else [q[0]] + Unlink(q[1..], x)
  }

  lemma {:induction false} UnlinkRemoves(q: seq<Id>, x: Id)
    requires x in q
    ensures multiset(Unlink(q, x)) == multiset(q) - multiset{x}
  {
    assert q == [q[0]] + q[1..];
    if q[0] != x { UnlinkRemoves(q[1..], x); }
  }

  /** A queue that starts one place earlier. */
  function Back(q: seq<Id>): seq<Id> {
    if q == [] then [] else [q[|q| - 1]] + q[..|q| - 1]
  }

  /** A queue that starts one place later. */
  function Forth(q: seq<Id>): seq<Id> {
    if q == [] then [] else q[1..] + [q[0]]
  }

  lemma TurnedQueue(q: seq<Id>)
    ensures multiset(Back(q)) == multiset(q) && multiset(Forth(q)) == multiset(q)
    ensures |Back(q)| == |q| && |Forth(q)| == |q|
  {
    if q != [] {
      assert q == [q[0]] + q[1..];
      assert q == q[..|q| - 1] + [q[|q| - 1]];
    }
  }

  lemma TurnedQueued(lru: seq<Id>, semi: seq<Id>, supers: Supers)
    requires Queued(lru, semi, supers)
    ensures Queued(Forth(lru), semi, supers) && |Forth(lru)| == |lru|
  {
    TurnedQueue(lru);
  }

  lemma QueuedOnce(lru: seq<Id>, semi: seq<Id>, supers: Supers, s: Id)
    requires Queued(lru, semi, supers) && s in lru + semi
    ensures s in supers && multiset(lru)[s] + multiset(semi)[s] == 1
    ensures s in lru <==> s !in semi
  {
    assert s in multiset(lru) + multiset(semi);
    assert s in multiset(supers.Keys);
  }

  /** The queues after `s` has moved from one to the other. */
  lemma MovedQueue(lru: seq<Id>, semi: seq<Id>, supers: Supers, s: Id, lru': seq<Id>, semi': seq<Id>, semifree: bool)
    requires Queued(lru, semi, supers) && s in supers && (semifree ==> supers[s].locks == 0)
    requires multiset(lru') + multiset(semi') == multiset(lru) + multiset(semi)
    requires s in semi' <==> semifree
    requires forall x :: x != s ==> (x in semi' <==> x in semi)
    ensures Queued(lru', semi', Flagged(supers, s, semifree))
  {
    assert Flagged(supers, s, semifree).Keys == supers.Keys;
  }

  /** The first state of the queue that is not locked, as a list. */
  function Oldest(lru: seq<Id>, supers: Supers): seq<Id> {
    if lru == [] then [] else if Locks(supers, lru[0]) == 0 then [lru[0]] else Oldest(lru[1..], supers)
  }

  lemma Rotated(was: seq<Id>, k: nat, supers: Supers)
    requires k < |was|
    ensures (was[k..] + was[..k])[0] == was[k] && Forth(was[k..] + was[..k]) == was[k + 1..] + was[..k + 1]
    ensures Oldest(was[k..], supers) == if Locks(supers, was[k]) == 0 then [was[k]] else Oldest(was[k + 1..], supers)
    ensures k + 1 == |was| ==> Oldest(was[k + 1..], supers) == []
  {
    assert was[k..] == [was[k]] + was[k + 1..];
  }

  lemma PromotedQueue(lru: seq<Id>, semi: seq<Id>, supers: Supers, s: Id)
    requires Queued(lru, semi, supers) && s in supers && supers[s].semifree
    ensures Queued(lru + [s], Without(semi, s), Flagged(supers, s, false)) && |Without(semi, s)| == |semi| - 1
  {
    QueuedOnce(lru, semi, supers, s);
    var semi' := Without(semi, s);
    WithoutRemoves(semi, s);
    assert forall x :: x in semi <==> multiset(semi)[x] > 0;
    assert forall x :: x in semi' <==> multiset(semi')[x] > 0;
    MovedQueue(lru, semi, supers, s, lru + [s], semi', false);
  }

  lemma WithoutRemoves(semi: seq<Id>, s: Id)
    requires s in semi
    ensures multiset(Without(semi, s)) == multiset(semi) - multiset{s} && |Without(semi, s)| == |semi| - 1
  {
    if semi[0] == s {
      assert semi == [s] + semi[1..];
      TurnedQueue(semi[1..]);
    } else {
      UnlinkRemoves(semi, s);
    }
    assert |multiset(Without(semi, s))| == |semi| - 1;
  }

  /** The semifree queue without `s`; if that was its head, the last state is the new one. */
  function Without(semi: seq<Id>, s: Id): seq<Id> {
    if semi != [] && semi[0] == s then Back(semi[1..]) else Unlink(semi, s)
  }

  lemma DemotedQueue(lru: seq<Id>, semi: seq<Id>, supers: Supers)
    requires Queued(lru, semi, supers) && lru != [] && lru[0] in supers && supers[lru[0]].locks == 0
    ensures Queued(lru[1..], semi + [lru[0]], Flagged(supers, lru[0], true))
  {
    assert lru == [lru[0]] + lru[1..];
    QueuedOnce(lru, semi, supers, lru[0]);
    MovedQueue(lru, semi, supers, lru[0], lru[1..], semi + [lru[0]], true);
  }

  /** What does not look at flags, tables and frames. */
  lemma FlagNames(g: Graph, supers: Supers, edges: Edges, bySet: map<States, Id>, next: Id, t: Id, fault: bool)
    requires Linked(supers, edges) && Tabled(g, supers, edges) && Named(bySet, supers) && Numbered(next, supers, edges)
    requires t in supers
    ensures Linked(Flagged(supers, t, fault), edges) && Tabled(g, Flagged(supers, t, fault), edges)
    ensures Named(bySet, Flagged(supers, t, fault)) && Numbered(next, Flagged(supers, t, fault), edges)
  {
    hide EntryOk;
    var a1 := Flagged(supers, t, fault);
    forall s | s in a1 ensures TableOk(g, s, a1[s], edges) { assert TableOk(g, s, supers[s], edges); }
  }

  lemma TabledNames(a: Supers, ea: Edges, b: Supers, eb: Edges, bySet: map<States, Id>, next: Id,
                    lru: seq<Id>, semi: seq<Id>, final: nat, t: Id, fault: bool)
    requires t in a && Retabled(a, b) && Patched(final, a, ea, eb, t, {}, fault)
    requires Named(bySet, a) && Numbered(next, a, ea) && Queued(lru, semi, a)
    ensures Named(bySet, b) && Numbered(next, b, eb) && Queued(lru, semi, b)
  {
  }

  lemma NoStates(lru: seq<Id>, semi: seq<Id>, supers: Supers)
    requires Queued(lru, semi, supers) && |lru| + |semi| == 0
    ensures supers.Keys == {}
  {
    assert |multiset(supers.Keys)| == 0;
  }

  lemma {:induction false} NoneOldest(lru: seq<Id>, supers: Supers)
    requires Oldest(lru, supers) == []
    ensures forall s :: s in lru ==> Locks(supers, s) > 0
  {
    if lru != [] { NoneOldest(lru[1..], supers); }
  }

  lemma AllLocked(lru: seq<Id>, supers: Supers)
    requires Queued(lru, [], supers) && Oldest(lru, supers) == []
    ensures forall s :: s in supers ==> Locks(supers, s) > 0
  {
    NoneOldest(lru, supers);
    forall s | s in supers ensures s in lru {
      assert s in multiset(supers.Keys);
    }
  }

  lemma KeptLocks(a: Supers, ea: Edges, b: Supers, eb: Edges)
    requires Kept(a, ea, b, eb)
    ensures forall s :: Locks(b, s) == Locks(a, s)
    ensures forall s :: s in a && s in b ==> b[s].contents == a[s].contents
  {
  }

  lemma HeadFreed(q: seq<Id>)
    requires q != [] && multiset(q)[q[0]] == 1
    ensures multiset(q[1..]) == multiset(q) - multiset{q[0]}
    ensures forall x :: x in q[1..] <==> x in q && x != q[0]
  {
    assert q == [q[0]] + q[1..];
    assert forall x :: x in q[1..] <==> multiset(q[1..])[x] > 0;
    assert forall x :: x in q <==> multiset(q)[x] > 0;
  }

  lemma FreedQueue(lru: seq<Id>, semi: seq<Id>, supers: Supers)
    requires Queued(lru, semi, supers) && semi != []
    ensures semi[0] in supers && supers[semi[0]].semifree && supers[semi[0]].locks == 0
    ensures Queued(lru, semi[1..], supers - {semi[0]})
  {
    var it := semi[0];
    QueuedOnce(lru, semi, supers, it);
    HeadFreed(semi);
    assert (supers - {it}).Keys == supers.Keys - {it};
    assert multiset(supers.Keys - {it}) == multiset(supers.Keys) - multiset{it};
    assert multiset(lru) + multiset(semi[1..]) == multiset((supers - {it}).Keys);
  }

  lemma FreedNames(supers: Supers, bySet: map<States, Id>, next: Id, edges: Edges, it: Id)
    requires it in supers && Named(bySet, supers) && Numbered(next, supers, edges)
    ensures Named(bySet - {supers[it].contents}, supers - {it})
    ensures Numbered(next, supers - {it}, Orphaned(edges, it))
  {
  }

  // ------------------------------------------------------------------------ creating

  function NewState(t: States): Superstate {
    Superstate(t, 0, false, [], seq(256, _ => Miss))
  }

  lemma Created(g: Graph, final: nat, a: Supers, ea: Edges, s: Id, t: States)
    requires Linked(a, ea) && Meaning(g, a, ea) && Framed(g, final, a, ea) && Tabled(g, a, ea)
    requires Numbered(s, a, ea) && InGraph(g, t)
    ensures Linked(a[s := NewState(t)], ea) && Meaning(g, a[s := NewState(t)], ea)
    ensures Framed(g, final, a[s := NewState(t)], ea) && Tabled(g, a[s := NewState(t)], ea)
    ensures Kept(a, ea, a[s := NewState(t)], ea)
  {
    hide Destination, SomeClass, InGraph, Carries;
    var b := a[s := NewState(t)];
    assert forall x :: x in a ==> x in b && b[x] == a[x];
    forall d | d in ea
      ensures Target(g, b, ea, d) == Target(g, a, ea, d) && EdgeMeans(g, b, ea, d) && FrameOk(g, final, b, ea, d)
    {
      assert EdgeMeans(g, a, ea, d) && FrameOk(g, final, a, ea, d);
    }
    assert TableOk(g, s, b[s], ea);
  }

  lemma CreatedQueue(lru: seq<Id>, semi: seq<Id>, supers: Supers, bySet: map<States, Id>, s: Id, t: States,
                     edges: Edges)
    requires Queued(lru, semi, supers) && Named(bySet, supers) && Numbered(s, supers, edges) && t !in bySet
    ensures Queued(lru + [s], semi, supers[s := NewState(t)])
    ensures Named(bySet[t := s], supers[s := NewState(t)]) && Numbered(s + 1, supers[s := NewState(t)], edges)
  {
    var b := supers[s := NewState(t)];
    assert b.Keys == supers.Keys + {s};
    assert multiset(supers.Keys + {s}) == multiset(supers.Keys) + multiset{s};
    if s in semi { QueuedOnce(lru, semi, supers, s); }
  }

  lemma Found(bySet: map<States, Id>, supers: Supers, t: States)
    requires Named(bySet, supers) && t in bySet
    ensures bySet[t] in supers && supers[bySet[t]].contents == t
  {
  }

  lemma StillUnnamed(a: Supers, bySet: map<States, Id>, b: Supers, bySet': map<States, Id>, t: States)
    requires Named(bySet, a) && Named(bySet', b) && t !in bySet && b.Keys <= a.Keys
    requires forall s :: s in a && s in b ==> b[s].contents == a[s].contents
    ensures t !in bySet'
  {
    forall x | x in bySet' ensures x in bySet { assert a[bySet'[x]].contents == x; }
  }

  // --------------------------------------------------------------------------- edges

  /** Characters of one class are in the same classes. */
  lemma ClassesMeet(g: Graph, t: States, x: Byte, y: Byte, c: Byte)
    requires c in Class(g, t, x) && c in Class(g, t, y)
    ensures Class(g, t, x) == Class(g, t, y) && x in Class(g, t, y)
  {
  }

  function WithEdge(supers: Supers, s: Id, d: Id): Supers
    requires s in supers
  {
    supers[s := supers[s].(edges := [d] + supers[s].edges)]
  }

  lemma EdgeAdded(g: Graph, final: nat, a: Supers, ea: Edges, s: Id, d: Id, chr: Byte)
    requires Linked(a, ea) && Meaning(g, a, ea) && Framed(g, final, a, ea) && Tabled(g, a, ea)
    requires Numbered(d, a, ea) && s in a && !NoEdge(g, a[s].contents, chr)
    requires forall e :: e in a[s].edges ==> !Carries(ea, e, chr)
    ensures var b, eb := WithEdge(a, s, d), ea[d := SuperEdge(s, Class(g, a[s].contents, chr), None, MissEdge(d), d)];
      Linked(b, eb) && Meaning(g, b, eb) && Framed(g, final, b, eb) && Tabled(g, b, eb)
  {
    var cset := Class(g, a[s].contents, chr);
    var b, eb := WithEdge(a, s, d), ea[d := SuperEdge(s, cset, None, MissEdge(d), d)];
    EdgeLinked(g, a, ea, s, d, chr);
    ClassHasChr(g, a[s].contents, chr);
    assert ClassOf(g, a[s].contents, chr, cset);
    EdgeMeaning(g, final, a, ea, s, d, cset);
    EdgeTabled(g, a, ea, s, d, cset);
  }

  lemma EdgeLinked(g: Graph, a: Supers, ea: Edges, s: Id, d: Id, chr: Byte)
    requires Linked(a, ea) && Meaning(g, a, ea) && Numbered(d, a, ea) && s in a
    requires forall e :: e in a[s].edges ==> !Carries(ea, e, chr)
    ensures Linked(WithEdge(a, s, d), ea[d := SuperEdge(s, Class(g, a[s].contents, chr), None, MissEdge(d), d)])
  {
    hide Class;
    var cset := Class(g, a[s].contents, chr);
    var b, eb := WithEdge(a, s, d), ea[d := SuperEdge(s, cset, None, MissEdge(d), d)];
    forall e, c | Carries(ea, e, c) && ea[e].present == s ensures c !in cset { SharedClass(g, a, ea, s, chr, e, c); }
    assert forall e, c :: Carries(eb, e, c) <==> if e == d then c in cset else Carries(ea, e, c);
    assert b[s].edges[0] == d && b[s].edges[1..] == a[s].edges;
    assert d !in ea;
    forall x, e | x in b && e in b[x].edges ensures e in eb && eb[e].present == x {
      if x == s { assert e == d || e in a[s].edges; }
    }
    forall x, e | x in a && e in a[x].edges ensures e in b[x].edges {
      if x == s { assert e in b[s].edges[1..]; }
    }
  }

  lemma SharedClass(g: Graph, a: Supers, ea: Edges, s: Id, chr: Byte, e: Id, c: Byte)
    requires Linked(a, ea) && Meaning(g, a, ea) && s in a && Carries(ea, e, c) && ea[e].present == s
    ensures c in Class(g, a[s].contents, chr) ==> Carries(ea, e, chr)
  {
    assert EdgeMeans(g, a, ea, e);
    var x: Byte :| x in ea[e].cset && ClassOf(g, a[s].contents, x, ea[e].cset);
    ClassHasChr(g, a[s].contents, chr);
    if c in Class(g, a[s].contents, chr) { ClassesMeet(g, a[s].contents, x, chr, c); }
  }

  lemma EdgeMeaning(g: Graph, final: nat, a: Supers, ea: Edges, s: Id, d: Id, cset: set<Byte>)
    requires Linked(a, ea) && Meaning(g, a, ea) && Framed(g, final, a, ea)
    requires Numbered(d, a, ea) && s in a && SomeClass(g, a[s].contents, cset)
    requires Linked(WithEdge(a, s, d), ea[d := SuperEdge(s, cset, None, MissEdge(d), d)])
    ensures Meaning(g, WithEdge(a, s, d), ea[d := SuperEdge(s, cset, None, MissEdge(d), d)])
    ensures Framed(g, final, WithEdge(a, s, d), ea[d := SuperEdge(s, cset, None, MissEdge(d), d)])
  {
    hide Destination, SomeClass, InGraph, Linked, Carries;
    var b, eb := WithEdge(a, s, d), ea[d := SuperEdge(s, cset, None, MissEdge(d), d)];
    assert b.Keys == a.Keys && forall x :: x in a ==> b[x].contents == a[x].contents && b[x].semifree == a[x].semifree;
    forall e | e in eb ensures Leaving(b, eb, e) && EdgeMeans(g, b, eb, e) && FrameOk(g, final, b, eb, e) {
      LinkedEdge(b, eb, e);
      if e != d {
        LinkedEdge(a, ea, e);
        assert EdgeMeans(g, a, ea, e) && FrameOk(g, final, a, ea, e) && Target(g, b, eb, e) == Target(g, a, ea, e);
      }
    }
    forall e | e in ea ensures Target(g, b, eb, e) == Target(g, a, ea, e) { LinkedEdge(a, ea, e); }
  }

  lemma EdgeTabled(g: Graph, a: Supers, ea: Edges, s: Id, d: Id, cset: set<Byte>)
    requires Tabled(g, a, ea) && d !in ea && s in a
    ensures Tabled(g, WithEdge(a, s, d), ea[d := SuperEdge(s, cset, None, MissEdge(d), d)])
  {
    hide NoEdge;
    var b, eb := WithEdge(a, s, d), ea[d := SuperEdge(s, cset, None, MissEdge(d), d)];
    forall x, c: Byte | x in b ensures EntryOk(g, x, b[x].contents, eb, c, b[x].table[c]) {
      assert EntryOk(g, x, a[x].contents, ea, c, a[x].table[c]);
      if e :| StandsFor(x, ea, c, a[x].table[c], e) { assert StandsFor(x, eb, c, b[x].table[c], e); }
    }
  }

  // --------------------------------------------------------------------------- rings

  function Joined(e: SuperEdge, ring: Id, dest: Id, inx: Inx): SuperEdge {
    if e.ring == ring then e.(future := Some(dest), frame := inx, ring := dest) else e
  }

  /** The edges once those of a ring lead to `dest` and are linked into its ring. */
  function Joining(edges: Edges, ring: Id, dest: Id, inx: Inx): Edges {
    map d | d in edges :: Joined(edges[d], ring, dest, inx)
  }

  lemma JoinLinks(a: Supers, ea: Edges, ring: Id, dest: Id, inx: Inx)
    requires Linked(a, ea)
    ensures Linked(a, Joining(ea, ring, dest, inx))
  {
    var eb := Joining(ea, ring, dest, inx);
    assert forall d, c :: Carries(eb, d, c) <==> Carries(ea, d, c);
  }

  lemma JoinMeaning(g: Graph, final: nat, a: Supers, ea: Edges, ring: Id, dest: Id, d: Id)
    requires Linked(a, ea) && Meaning(g, a, ea) && Framed(g, final, a, ea)
    requires ring !in a && dest in a && !a[dest].semifree
    requires d in ea && ea[d].ring == ring && Members(a[dest].contents) == Target(g, a, ea, d)
    requires Linked(a, Joining(ea, ring, dest, NextChar(dest, final in a[dest].contents)))
    ensures Meaning(g, a, Joining(ea, ring, dest, NextChar(dest, final in a[dest].contents)))
    ensures Framed(g, final, a, Joining(ea, ring, dest, NextChar(dest, final in a[dest].contents)))
  {
    hide Destination, SomeClass, InGraph, Linked, Carries, Members;
    var eb := Joining(ea, ring, dest, NextChar(dest, final in a[dest].contents));
    forall e | e in eb
      ensures Leaving(a, eb, e) && Target(g, a, eb, e) == Target(g, a, ea, e)
      ensures EdgeMeans(g, a, eb, e) && FrameOk(g, final, a, eb, e)
    {
      LinkedEdge(a, ea, e);
      assert EdgeMeans(g, a, ea, e) && FrameOk(g, final, a, ea, e);
    }
  }

  lemma JoinTables(g: Graph, final: nat, a: Supers, ea: Edges, ring: Id, dest: Id, inx: Inx)
    requires Linked(a, ea) && Framed(g, final, a, ea) && Tabled(g, a, ea) && ring !in a
    requires forall d :: d in ea && ea[d].ring == ring ==> Target(g, a, ea, d) != {}
    ensures Tabled(g, a, Joining(ea, ring, dest, inx))
  {
    hide Destination, Linked, Carries, NoEdge;
    var eb := Joining(ea, ring, dest, inx);
    forall s, c: Byte | s in a ensures EntryOk(g, s, a[s].contents, eb, c, a[s].table[c]) {
      assert EntryOk(g, s, a[s].contents, ea, c, a[s].table[c]);
      if d :| StandsFor(s, ea, c, a[s].table[c], d) {
        LinkedEdge(a, ea, d);
        assert FrameOk(g, final, a, ea, d);
        assert StandsFor(s, eb, c, a[s].table[c], d);
      }
    }
  }

  // ------------------------------------------------------------ what an edge does

  /** What an instruction frame found for `c` in a state with the states `t` is good for. */
  ghost predicate FrameMeans(g: Graph, final: nat, supers: Supers, t: States, c: Byte, inx: Inx) {
    match inx
    case NextChar(d, f) =>
      && d in supers && !supers[d].semifree && (f <==> final in supers[d].contents)
      && Members(supers[d].contents) == EngineStep(g, t, c) && supers[d].contents != []
    case Backtrack => EngineStep(g, t, c) == {}
    case _ => false
  }

  /** A frame sends the matcher where the engine's step goes. */
  lemma FrameExact(g: Graph, final: nat, supers: Supers, edges: Edges, d: Id, c: Byte)
    requires Linked(supers, edges) && Meaning(g, supers, edges) && Framed(g, final, supers, edges)
    requires Carries(edges, d, c)
    ensures edges[d].frame ==
      MissEdge(d) || FrameMeans(g, final, supers, supers[edges[d].present].contents, c, edges[d].frame)
    ensures Target(g, supers, edges, d) == EngineStep(g, supers[edges[d].present].contents, c)
  {
    hide Destination, Class, NoEdge;
    var t := supers[edges[d].present].contents;
    assert EdgeMeans(g, supers, edges, d) && FrameOk(g, final, supers, edges, d);
    assert edges[d].ring in supers ==> InGraph(g, supers[edges[d].ring].contents);
    var x: Byte :| x in edges[d].cset && ClassOf(g, t, x, edges[d].cset);
    EngineStepOfClass(g, t, x, c);
  }

  lemma NoEdgeNoStep(g: Graph, t: States, c: Byte)
    requires NoEdge(g, t, c)
    ensures EngineStep(g, t, c) == {}
  {
  }

  /** A table entry is empty, or faults on the edge for its character, or is right. */
  lemma EntryExact(g: Graph, final: nat, supers: Supers, edges: Edges, s: Id, c: Byte) returns (inx: Inx)
    requires Linked(supers, edges) && Meaning(g, supers, edges) && Framed(g, final, supers, edges)
    requires Tabled(g, supers, edges)
    requires s in supers
    ensures |supers[s].table| == 256 && inx == supers[s].table[c]
    ensures inx == Miss || Faults(edges, s, c, inx) || FrameMeans(g, final, supers, supers[s].contents, c, inx)
  {
    hide NoEdge, EngineStep;
    assert TableOk(g, s, supers[s], edges);
    inx := supers[s].table[c];
    assert EntryOk(g, s, supers[s].contents, edges, c, inx);
    if d :| StandsFor(s, edges, c, inx, d) {
      FrameExact(g, final, supers, edges, d, c);
    } else if inx == Backtrack {
      NoEdgeNoStep(g, supers[s].contents, c);
    }
  }

  ghost predicate Faults(edges: Edges, s: Id, c: Byte, inx: Inx) {
    inx.MissEdge? && Carries(edges, inx.edge, c) && edges[inx.edge].present == s
  }

  /** Every state is an edge set, so a failing test on the class is a failing one on all. */
  lemma ClassNoEdge(g: Graph, t: States, chr: Byte)
    requires NoEdge(g, t, chr)
    ensures forall c :: c in Class(g, t, chr) ==> NoEdge(g, t, c)
  {
  }

  // ------------------------------------------------------- classes and destinations

  method Universe() returns (u: set<Byte>)
    ensures forall c: Byte :: c in u
  {
    u := {};
    var k: nat := 0;
    while k < 256
      invariant 0 <= k <= 256 && forall c: Byte :: c < k ==> c in u
    {
      u := u + {k};
      k := k + 1;
    }
  }

  /** The characters of `cset` that the first `k` edges of `p` treat like `chr`. */
  ghost predicate Agrees(g: Graph, p: nat, k: nat, chr: Byte, c: Byte)
    requires p < |g| && k <= |g[p]|
  {
    forall i :: 0 <= i < k && g[p][i].On? ==> (c in g[p][i].cs <==> chr in g[p][i].cs)
  }

  ghost predicate Goes(g: Graph, p: nat, k: nat, chr: Byte)
    requires p < |g| && k <= |g[p]|
  {
    exists i :: 0 <= i < k && g[p][i].On? && chr in g[p][i].cs
  }

  /** The inner loop of `compute_super_edge`: the edges of one automaton state. */
  method NarrowClass(g: Graph, p: nat, chr: Byte, cset: set<Byte>, found: bool)
      returns (cset': set<Byte>, found': bool)
    requires p < |g|
    ensures forall c: Byte :: c in cset' <==> c in cset && Agrees(g, p, |g[p]|, chr, c)
    ensures found' <==> found || Goes(g, p, |g[p]|, chr)
  {
    cset', found' := cset, found;
    var k := 0;
    while k < |g[p]|
      invariant 0 <= k <= |g[p]|
      invariant forall c: Byte :: c in cset' <==> c in cset && Agrees(g, p, k, chr, c)
      invariant found' <==> found || Goes(g, p, k, chr)
    {
      if g[p][k].On? {
        if chr in g[p][k].cs {
          cset', found' := cset' * g[p][k].cs, true;
        } else {
          cset' := cset' - g[p][k].cs;
        }
      }
      forall c: Byte ensures Agrees(g, p, k + 1, chr, c) <==>
        Agrees(g, p, k, chr, c) && (g[p][k].On? ==> (c in g[p][k].cs <==> chr in g[p][k].cs))
      {
      }
      k := k + 1;
    }
  }

  ghost predicate AllAgree(g: Graph, t: States, k: nat, chr: Byte, c: Byte)
    requires k <= |t| && Fits(g, t)
  {
    forall i :: 0 <= i < k ==> Agrees(g, t[i], |g[t[i]]|, chr, c)
  }

  ghost predicate SomeGoes(g: Graph, t: States, k: nat, chr: Byte)
    requires k <= |t| && Fits(g, t)
  {
    exists i :: 0 <= i < k && Goes(g, t[i], |g[t[i]]|, chr)
  }

  /** `compute_super_edge`: the class of a character, and whether it goes anywhere. */
  method ComputeSuperEdge(g: Graph, t: States, chr: Byte) returns (csetout: set<Byte>, found: bool)
    requires Fits(g, t)
    ensures csetout == Class(g, t, chr)
    ensures !found <==> NoEdge(g, t, chr)
  {
    csetout := Universe();
    found := false;
    var k := 0;
    while k < |t|
      invariant 0 <= k <= |t|
      invariant forall c: Byte :: c in csetout <==> AllAgree(g, t, k, chr, c)
      invariant found <==> SomeGoes(g, t, k, chr)
    {
      csetout, found := NarrowClass(g, t[k], chr, csetout, found);
      assert forall c: Byte :: AllAgree(g, t, k + 1, chr, c) <==>
        AllAgree(g, t, k, chr, c) && Agrees(g, t[k], |g[t[k]]|, chr, c);
      k := k + 1;
    }
    forall c: Byte ensures AllAgree(g, t, |t|, chr, c) <==> Alike(g, t, chr, c) { AllAgreeIsAlike(g, t, chr, c); }
    SomeGoesIsEdge(g, t, chr);
  }

  lemma AllAgreeIsAlike(g: Graph, t: States, chr: Byte, c: Byte)
    requires Fits(g, t)
    ensures AllAgree(g, t, |t|, chr, c) <==> Alike(g, t, chr, c)
  {
    if Alike(g, t, chr, c) {
      forall i, k | 0 <= i < |t| && 0 <= k < |g[t[i]]| && g[t[i]][k].On?
        ensures c in g[t[i]][k].cs <==> chr in g[t[i]][k].cs
      {
        assert Leaves(g, t, t[i], g[t[i]][k]);
      }
    }
    if AllAgree(g, t, |t|, chr, c) {
      forall p: nat, edge | Leaves(g, t, p, edge) ensures c in edge.cs <==> chr in edge.cs {
        var i :| 0 <= i < |t| && t[i] == p;
        var k :| 0 <= k < |g[p]| && g[p][k] == edge;
        assert Agrees(g, t[i], |g[t[i]]|, chr, c);
      }
    }
  }

  lemma SomeGoesIsEdge(g: Graph, t: States, chr: Byte)
    requires Fits(g, t)
    ensures SomeGoes(g, t, |t|, chr) <==> !NoEdge(g, t, chr)
  {
    if SomeGoes(g, t, |t|, chr) {
      var i :| 0 <= i < |t| && Goes(g, t[i], |g[t[i]]|, chr);
      var k :| 0 <= k < |g[t[i]]| && g[t[i]][k].On? && chr in g[t[i]][k].cs;
      assert Leaves(g, t, t[i], g[t[i]][k]);
    }
    if !NoEdge(g, t, chr) {
      var p: nat, edge :| Leaves(g, t, p, edge) && chr in edge.cs;
      var i :| 0 <= i < |t| && t[i] == p;
      var k :| 0 <= k < |g[p]| && g[p][k] == edge;
      assert Goes(g, t[i], |g[t[i]]|, chr);
    }
  }

  /** What the first `k` edges of `p` contribute to the destination. */
  ghost predicate ReachedBy(g: Graph, p: nat, k: nat, cset: set<Byte>, q: nat)
    requires p < |g| && k <= |g[p]|
  {
    exists i :: 0 <= i < k && Contributes(g, g[p][i], cset, q)
  }

  ghost predicate Contributes(g: Graph, edge: Edge, cset: set<Byte>, q: nat) {
    edge.On? && SubsetTest(cset, edge.cs) && q in Closure(g, edge.dest)
  }

  /** The inner loop of `solve_destination`. */
  method AddTargets(nfa: Futures, p: nat, cset: set<Byte>, solution: States) returns (solution': States)
    requires nfa.Valid() && p < |nfa.g| && Sorted(solution)
    modifies nfa, nfa.mark
    ensures nfa.Valid() && Sorted(solution')
    ensures forall q: nat :: q in solution' <==> q in solution || ReachedBy(nfa.g, p, |nfa.g[p]|, cset, q)
  {
    hide Closure, SubsetTest, Sorted;
    var g := nfa.g;
    solution' := solution;
    var k := 0;
    while k < |g[p]|
      invariant 0 <= k <= |g[p]| && nfa.Valid() && Sorted(solution')
      invariant forall q: nat :: q in solution' <==> q in solution || ReachedBy(g, p, k, cset, q)
    {
      ghost var before := solution';
      var edge := g[p][k];
      if edge.On? && SubsetTest(cset, edge.cs) {
        var destset := nfa.PossibleFutures(edge.dest);
        UnionMerges(solution', destset);
        assert forall q: nat :: q in destset <==> q in Members(destset);
        solution' := Union(solution', destset);
      }
      forall q: nat ensures q in solution' <==> q in before || Contributes(g, edge, cset, q) {}
      forall q: nat
        ensures ReachedBy(g, p, k + 1, cset, q) <==> ReachedBy(g, p, k, cset, q) || Contributes(g, edge, cset, q)
      {
      }
      k := k + 1;
    }
  }

  ghost predicate Solved(g: Graph, t: States, k: nat, cset: set<Byte>, q: nat)
    requires k <= |t| && Fits(g, t)
  {
    exists i :: 0 <= i < k && ReachedBy(g, t[i], |g[t[i]]|, cset, q)
  }

  lemma SolvedIsDestination(g: Graph, t: States, cset: set<Byte>, q: nat)
    requires Fits(g, t)
    ensures Solved(g, t, |t|, cset, q) <==> DestinationHas(g, t, cset, q)
  {
    hide Closure, SubsetTest;
    if Solved(g, t, |t|, cset, q) {
      var i :| 0 <= i < |t| && ReachedBy(g, t[i], |g[t[i]]|, cset, q);
      var k :| 0 <= k < |g[t[i]]| && Contributes(g, g[t[i]][k], cset, q);
      assert Leaves(g, t, t[i], g[t[i]][k]);
    }
    if DestinationHas(g, t, cset, q) {
      var p: nat, edge :| Leaves(g, t, p, edge) && SubsetTest(cset, edge.cs) && q in Closure(g, edge.dest);
      var i :| 0 <= i < |t| && t[i] == p;
      var k :| 0 <= k < |g[p]| && g[p][k] == edge;
      assert Contributes(g, g[p][k], cset, q);
      assert ReachedBy(g, t[i], |g[t[i]]|, cset, q);
    }
  }

  /** The outer loop of `solve_destination`. */
  method Solution(nfa: Futures, t: States, cset: set<Byte>) returns (solution: States)
    requires nfa.Valid() && Fits(nfa.g, t)
    modifies nfa, nfa.mark
    ensures nfa.Valid() && Sorted(solution) && Members(solution) == Destination(nfa.g, t, cset)
    ensures Fits(nfa.g, solution)
  {
    hide Closure, SubsetTest, DestinationHas;
    var g := nfa.g;
    solution := [];
    var k := 0;
    while k < |t|
      invariant 0 <= k <= |t| && nfa.Valid() && Sorted(solution)
      invariant forall q: nat :: q in solution <==> Solved(g, t, k, cset, q)
    {
      solution := AddTargets(nfa, t[k], cset, solution);
      forall q: nat ensures Solved(g, t, k + 1, cset, q) <==>
        Solved(g, t, k, cset, q) || ReachedBy(g, t[k], |g[t[k]]|, cset, q) {}
      k := k + 1;
    }
    forall q: nat ensures q in solution <==> DestinationHas(g, t, cset, q) { SolvedIsDestination(g, t, cset, q); }
    DestinationFits(g, t, cset, solution);
  }

  lemma DestinationFits(g: Graph, t: States, cset: set<Byte>, solution: States)
    requires forall q: nat :: q in solution <==> DestinationHas(g, t, cset, q)
    ensures Fits(g, solution) && Members(solution) == Destination(g, t, cset)
  {
    forall q: nat | q in solution ensures q < |g| {
      var p, edge :| Leaves(g, t, p, edge) && SubsetTest(cset, edge.cs) && q in Closure(g, edge.dest);
    }
    assert forall i :: 0 <= i < |solution| ==> solution[i] in solution;
  }

  // -------------------------------------------------------------- smaller changes

  /** The contents and locks of the states that stay are the same. */
  ghost predicate Steady(na: Id, a: Supers, nb: Id, b: Supers) {
    && Grown(na, a, nb, b)
    && (forall s :: s in a && s in b ==> b[s].contents == a[s].contents)
    && (forall s :: Locks(b, s) == Locks(a, s))
  }

  lemma SteadyTwice(na: Id, a: Supers, ea: Edges, nb: Id, b: Supers, nc: Id, c: Supers)
    requires Steady(na, a, nb, b) && Steady(nb, b, nc, c) && Numbered(na, a, ea)
    ensures Steady(na, a, nc, c)
  {
    forall s | s in a && s in c ensures s in b {}
  }

  function Relocked(supers: Supers, s: Id, locks: nat): Supers
    requires s in supers
  {
    supers[s := supers[s].(locks := locks)]
  }

  lemma LockChanged(g: Graph, final: nat, supers: Supers, edges: Edges, s: Id, locks: nat)
    requires Linked(supers, edges) && Meaning(g, supers, edges) && Framed(g, final, supers, edges)
    requires Tabled(g, supers, edges)
    requires s in supers
    ensures Linked(Relocked(supers, s, locks), edges) && Meaning(g, Relocked(supers, s, locks), edges)
    ensures Framed(g, final, Relocked(supers, s, locks), edges) && Tabled(g, Relocked(supers, s, locks), edges)
  {
    hide Linked, Meaning, Framed, Tabled;
    LockEdges(g, final, supers, edges, s, locks);
    LockTables(g, supers, edges, s, locks);
  }

  lemma LockEdges(g: Graph, final: nat, supers: Supers, edges: Edges, s: Id, locks: nat)
    requires Linked(supers, edges) && Meaning(g, supers, edges) && Framed(g, final, supers, edges) && s in supers
    ensures var b := Relocked(supers, s, locks); Linked(b, edges) && Meaning(g, b, edges) && Framed(g, final, b, edges)
  {
    hide Destination, SomeClass, InGraph, Carries;
    var b := Relocked(supers, s, locks);
    assert b.Keys == supers.Keys && forall x ::
      x in b ==> b[x].contents == supers[x].contents && b[x].semifree == supers[x].semifree;
    forall d | d in edges
      ensures EdgeMeans(g, b, edges, d) && Target(g, b, edges, d) == Target(g, supers, edges, d)
      ensures FrameOk(g, final, b, edges, d)
    {
      assert EdgeMeans(g, supers, edges, d) && FrameOk(g, final, supers, edges, d);
    }
  }

  lemma LockTables(g: Graph, supers: Supers, edges: Edges, s: Id, locks: nat)
    requires Tabled(g, supers, edges) && s in supers
    ensures Tabled(g, Relocked(supers, s, locks), edges)
  {
    hide EntryOk;
    forall x | x in supers ensures TableOk(g, x, Relocked(supers, s, locks)[x], edges) {
      assert TableOk(g, x, supers[x], edges);
    }
  }

  lemma LockedStays(lru: seq<Id>, semi: seq<Id>, supers: Supers, s: Id)
    requires Queued(lru, semi, supers) && s in supers && supers[s].locks > 0
    ensures !supers[s].semifree
  {
  }

  lemma TableOf(g: Graph, supers: Supers, edges: Edges, s: Id)
    requires Tabled(g, supers, edges) && s in supers
    ensures TableOk(g, s, supers[s], edges)
  {
  }

  lemma LockNames(lru: seq<Id>, semi: seq<Id>, supers: Supers, bySet: map<States, Id>, next: Id, edges: Edges, s: Id,
                  locks: nat)
    requires Queued(lru, semi, supers) && Named(bySet, supers) && Numbered(next, supers, edges)
    requires s in supers && !supers[s].semifree
    ensures Queued(lru, semi, Relocked(supers, s, locks)) && Named(bySet, Relocked(supers, s, locks))
    ensures Numbered(next, Relocked(supers, s, locks), edges)
  {
    assert Relocked(supers, s, locks).Keys == supers.Keys;
  }

  /** A table may be replaced by one that is as good. */
  lemma TableReplaced(g: Graph, final: nat, supers: Supers, edges: Edges, s: Id, table: seq<Inx>)
    requires Linked(supers, edges) && Meaning(g, supers, edges) && Framed(g, final, supers, edges)
    requires Tabled(g, supers, edges)
    requires s in supers && TableOk(g, s, supers[s].(table := table), edges)
    ensures var b := supers[s := supers[s].(table := table)];
      Linked(b, edges) && Meaning(g, b, edges) && Framed(g, final, b, edges) && Tabled(g, b, edges)
  {
    hide Destination, SomeClass, InGraph, Carries, EntryOk;
    var b := supers[s := supers[s].(table := table)];
    Coreless(g, supers, edges, b, edges);
    forall d | d in edges ensures FrameOk(g, final, b, edges, d) {
      assert FrameOk(g, final, supers, edges, d) && Target(g, b, edges, d) == Target(g, supers, edges, d);
    }
  }

  lemma TableNames(lru: seq<Id>, semi: seq<Id>, supers: Supers, bySet: map<States, Id>, next: Id, edges: Edges, s: Id,
                   table: seq<Inx>)
    requires Queued(lru, semi, supers) && Named(bySet, supers) && Numbered(next, supers, edges) && s in supers
    ensures var b := supers[s := supers[s].(table := table)];
      Queued(lru, semi, b) && Named(bySet, b) && Numbered(next, b, edges) && Steady(next, supers, next, b)
  {
    assert supers[s := supers[s].(table := table)].Keys == supers.Keys;
  }

  lemma EdgeNames(lru: seq<Id>, semi: seq<Id>, supers: Supers, bySet: map<States, Id>, d: Id, edges: Edges, s: Id,
                  e: SuperEdge)
    requires Queued(lru, semi, supers) && Named(bySet, supers) && Numbered(d, supers, edges) && s in supers
    requires e.ring == d
    ensures Queued(lru, semi, WithEdge(supers, s, d)) && Named(bySet, WithEdge(supers, s, d))
    ensures Numbered(d + 1, WithEdge(supers, s, d), edges[d := e])
    ensures Steady(d, supers, d + 1, WithEdge(supers, s, d))
  {
    assert WithEdge(supers, s, d).Keys == supers.Keys;
  }

  lemma SetBacktrack(g: Graph, final: nat, supers: Supers, edges: Edges, d: Id)
    requires Linked(supers, edges) && Meaning(g, supers, edges) && Framed(g, final, supers, edges)
    requires Tabled(g, supers, edges)
    requires d in edges && edges[d].ring !in supers && Target(g, supers, edges, d) == {}
    ensures var eb := edges[d := edges[d].(frame := Backtrack)];
      Linked(supers, eb) && Meaning(g, supers, eb) && Framed(g, final, supers, eb) && Tabled(g, supers, eb)
  {
    hide Destination, SomeClass, InGraph, NoEdge;
    var eb := edges[d := edges[d].(frame := Backtrack)];
    SetFrameMeans(g, final, supers, edges, d);
    forall s, c: Byte | s in supers ensures EntryOk(g, s, supers[s].contents, eb, c, supers[s].table[c]) {
      assert EntryOk(g, s, supers[s].contents, edges, c, supers[s].table[c]);
      if e :| StandsFor(s, edges, c, supers[s].table[c], e) {
        assert FrameOk(g, final, supers, edges, e);
        assert StandsFor(s, eb, c, supers[s].table[c], e);
      }
    }
  }

  lemma SetFrameMeans(g: Graph, final: nat, supers: Supers, edges: Edges, d: Id)
    requires Linked(supers, edges) && Meaning(g, supers, edges) && Framed(g, final, supers, edges)
    requires d in edges && edges[d].ring !in supers && Target(g, supers, edges, d) == {}
    ensures var eb := edges[d := edges[d].(frame := Backtrack)];
      Linked(supers, eb) && Meaning(g, supers, eb) && Framed(g, final, supers, eb)
  {
    hide Destination, SomeClass, InGraph, Carries;
    var eb := edges[d := edges[d].(frame := Backtrack)];
    Coreless(g, supers, edges, supers, eb);
    forall e | e in eb ensures FrameOk(g, final, supers, eb, e) {
      assert FrameOk(g, final, supers, edges, e) && Target(g, supers, eb, e) == Target(g, supers, edges, e);
    }
  }

  /** The ring of an edge whose destination is not known has no state. */
  lemma NoFuture(g: Graph, na: Id, a: Supers, ea: Edges, nb: Id, b: Supers, eb: Edges, d: Id)
    requires Linked(a, ea) && Meaning(g, a, ea) && Numbered(na, a, ea) && d in ea && ea[d].future == None
    requires Kept(a, ea, b, eb) && Grown(na, a, nb, b) && Locks(a, ea[d].present) > 0
    ensures KeptEdge(ea, eb, d) && d in eb && eb[d].ring !in b && ea[d].ring !in a && eb[d].present in b
    ensures b[eb[d].present].contents == a[ea[d].present].contents
    ensures Target(g, b, eb, d) == Target(g, a, ea, d)
  {
    hide Destination, SomeClass, InGraph, Carries;
    assert EdgeMeans(g, a, ea, d);
    assert Locks(b, ea[d].present) > 0;
  }

  lemma SameRingTargets(g: Graph, a: Supers, ea: Edges, d: Id)
    requires Linked(a, ea) && Meaning(g, a, ea) && d in ea && Target(g, a, ea, d) != {}
    ensures forall e :: e in ea && ea[e].ring == ea[d].ring ==> Target(g, a, ea, e) != {}
  {
    hide Destination;
  }

  lemma JoinAll(g: Graph, final: nat, a: Supers, ea: Edges, dest: Id, d: Id)
    requires Linked(a, ea) && Meaning(g, a, ea) && Framed(g, final, a, ea) && Tabled(g, a, ea)
    requires d in ea && ea[d].ring !in a && dest in a && !a[dest].semifree
    requires Members(a[dest].contents) == Target(g, a, ea, d) != {}
    ensures var eb := Joining(ea, ea[d].ring, dest, NextChar(dest, final in a[dest].contents));
      Linked(a, eb) && Meaning(g, a, eb) && Framed(g, final, a, eb) && Tabled(g, a, eb)
  {
    hide Linked, Meaning, Framed, Tabled, Target, Members;
    var inx := NextChar(dest, final in a[dest].contents);
    JoinLinks(a, ea, ea[d].ring, dest, inx);
    JoinMeaning(g, final, a, ea, ea[d].ring, dest, d);
    SameRingTargets(g, a, ea, d);
    JoinTables(g, final, a, ea, ea[d].ring, dest, inx);
  }

  lemma JoinNames(a: Supers, ea: Edges, next: Id, ring: Id, dest: Id, inx: Inx)
    requires Numbered(next, a, ea) && dest in a
    ensures Numbered(next, a, Joining(ea, ring, dest, inx))
  {
  }

  lemma KeptSteady(na: Id, a: Supers, ea: Edges, nb: Id, b: Supers, eb: Edges)
    requires Kept(a, ea, b, eb) && Grown(na, a, nb, b)
    ensures Steady(na, a, nb, b)
  {
  }

  lemma SteadySame(na: Id, a: Supers)
    ensures Steady(na, a, na, a) && Grown(na, a, na, a)
  {
  }

  lemma EdgeInGraph(g: Graph, supers: Supers, edges: Edges, d: Id)
    requires Linked(supers, edges) && Meaning(g, supers, edges) && d in edges
    ensures Leaving(supers, edges, d) && InGraph(g, supers[edges[d].present].contents)
  {
  }

  lemma BacktrackNames(next: Id, supers: Supers, edges: Edges, d: Id)
    requires Numbered(next, supers, edges) && d in edges
    ensures Numbered(next, supers, edges[d := edges[d].(frame := Backtrack)])
    ensures Resolved(edges, edges[d := edges[d].(frame := Backtrack)], d)
  {
  }

  lemma JoinedResolves(ea: Edges, eb: Edges, ring: Id, dest: Id, inx: Inx, d: Id)
    requires KeptEdge(ea, eb, d) && eb[d].ring == ring && inx.NextChar?
    ensures Resolved(ea, Joining(eb, ring, dest, inx), d)
  {
  }

  lemma LockedAndBack(na: Id, a: Supers, s: Id, nb: Id, b: Supers)
    requires s in a && Steady(na, Relocked(a, s, a[s].locks + 1), nb, b)
    ensures s in b && b[s].locks > 0 && b[s].contents == a[s].contents
    ensures Steady(na, a, nb, Relocked(b, s, b[s].locks - 1))
  {
    var a1 := Relocked(a, s, a[s].locks + 1);
    assert Locks(b, s) == Locks(a1, s) == a[s].locks + 1;
    var c := Relocked(b, s, b[s].locks - 1);
    assert c.Keys == b.Keys && a1.Keys == a.Keys;
    forall x ensures Locks(c, x) == Locks(a, x) { assert Locks(b, x) == Locks(a1, x); }
  }

  lemma StillUp(a: Supers, t: Id, b: Supers, s: Id)
    requires t in a && Retabled(Flagged(a, t, false), b) && s in a && !a[s].semifree
    ensures s in b && !b[s].semifree && b[s].contents == a[s].contents
  {
    assert Flagged(a, t, false).Keys == a.Keys;
  }

  lemma RetabledSame(a: Supers, b: Supers, s: Id)
    requires Retabled(a, b) && s in a
    ensures s in b && b[s].contents == a[s].contents && b[s].semifree == a[s].semifree && b[s].locks == a[s].locks
    ensures b[s].edges == a[s].edges
  {
  }

  lemma StateInGraph(g: Graph, supers: Supers, edges: Edges, s: Id)
    requires Linked(supers, edges) && Meaning(g, supers, edges) && s in supers
    ensures InGraph(g, supers[s].contents)
  {
  }

  lemma BacktrackMeans(g: Graph, final: nat, supers: Supers, t: States, c: Byte)
    requires EngineStep(g, t, c) == {}
    ensures FrameMeans(g, final, supers, t, c, Backtrack)
  {
  }

  lemma FaultNotFrame(g: Graph, final: nat, supers: Supers, t: States, c: Byte, inx: Inx)
    ensures FrameMeans(g, final, supers, t, c, inx) ==> inx.NextChar? || inx.Backtrack?
  {
  }

  lemma FrameGoes(g: Graph, final: nat, supers: Supers, t: States, c: Byte, inx: Inx)
    requires FrameMeans(g, final, supers, t, c, inx)
    ensures inx.NextChar? || inx.Backtrack?
    ensures inx.Backtrack? ==> EngineStep(g, t, c) == {}
    ensures inx.NextChar? ==> inx.dest in supers && !supers[inx.dest].semifree
    ensures inx.NextChar? ==> Members(supers[inx.dest].contents) == EngineStep(g, t, c) != {}
    ensures inx.NextChar? ==> (inx.final <==> final in supers[inx.dest].contents)
  {
    if inx.NextChar? { assert supers[inx.dest].contents[0] in Members(supers[inx.dest].contents); }
  }

  lemma SteadyContents(na: Id, a: Supers, nb: Id, b: Supers, s: Id)
    requires Steady(na, a, nb, b) && s in a && s in b
    ensures b[s].contents == a[s].contents
  {
  }

  lemma SteadyHanded(na: Id, a: Supers, s: Id, nb: Id, b: Supers)
    requires Steady(na, a, nb, b) && s in a
    ensures Handed(na, a, Some(s), nb, b, Some(s))
  {
  }

  lemma StillLocked(na: Id, a: Supers, s: Id, nb: Id, b: Supers)
    requires Steady(na, a, nb, b) && s in a && a[s].locks > 0
    ensures s in b && b[s].locks > 0 && b[s].contents == a[s].contents
  {
    assert Locks(b, s) > 0;
  }

  lemma RunFurther(g: Graph, from: set<nat>, w: Text, n: nat, t: States)
    requires n < |w| && Members(t) == EngineRun(g, from, w[..n])
    ensures EngineRun(g, from, w[..n + 1]) == EngineStep(g, t, w[n])
  {
    assert w[..n + 1] == w[..n] + [w[n]];
    EngineRunInTwo(g, from, w[..n], [w[n]]);
    EngineStepIsNext(g, t, w[n]);
    OneCharacter(g, Members(t), w[n]);
  }

  lemma RunNothing(g: Graph, s: set<nat>)
    ensures EngineRun(g, s, []) == s
  {
  }

  lemma FutureOf(g: Graph, supers: Supers, edges: Edges, d: Id)
    requires Linked(supers, edges) && Meaning(g, supers, edges) && d in edges && edges[d].future.Some?
    ensures edges[d].future.value in supers && edges[d].ring == edges[d].future.value
  {
    assert EdgeMeans(g, supers, edges, d);
  }

  lemma EntersDirectly(g: Graph, final: nat, supers: Supers, edges: Edges, d: Id)
    requires Linked(supers, edges) && Framed(g, final, supers, edges) && d in edges
    requires edges[d].ring in supers && !supers[edges[d].ring].semifree
    ensures edges[d].frame.NextChar?
  {
    assert FrameOk(g, final, supers, edges, d);
  }

  lemma ReframedEdge(ea: Edges, eb: Edges, d: Id)
    requires Reframed(ea, eb) && d in ea
    ensures d in eb && eb[d] == ea[d].(frame := eb[d].frame)
  {
  }

  lemma OwnEdge(supers: Supers, edges: Edges, s: Id, d: Id)
    requires Linked(supers, edges) && s in supers && d in supers[s].edges
    ensures d in edges && edges[d].present == s
  {
  }

  /** The lock on one state is given up and another state, perhaps, is locked. */
  ghost predicate Handed(na: Id, a: Supers, from: Option<nat>, nb: Id, b: Supers, to: Option<nat>) {
    && Grown(na, a, nb, b)
    && (forall s :: s in a && s in b ==> b[s].contents == a[s].contents)
    && (forall s :: Locks(b, s) + Held(from, s) == Locks(a, s) + Held(to, s))
  }

  function Held(state: Option<nat>, s: Id): nat {
    if state == Some(s) then 1 else 0
  }

  function Released(supers: Supers, from: Option<nat>): Supers
    requires from.Some? ==> Locks(supers, from.value) > 0
  {
    if from == None then supers else Relocked(supers, from.value, supers[from.value].locks - 1)
  }

  function Taken(supers: Supers, to: Option<nat>): Supers
    requires to.Some? ==> to.value in supers
  {
    if to == None then supers else Relocked(supers, to.value, supers[to.value].locks + 1)
  }

  lemma HandOver(na: Id, a: Supers, from: Option<nat>, nb: Id, b: Supers, to: Option<nat>)
    requires from.Some? ==> Locks(a, from.value) > 0
    requires Steady(na, Released(a, from), nb, b) && (to.Some? ==> to.value in b)
    ensures Handed(na, a, from, nb, Taken(b, to), to)
  {
    var a1, b1 := Released(a, from), Taken(b, to);
    assert a1.Keys == a.Keys && b1.Keys == b.Keys;
    forall s ensures Locks(a1, s) + Held(from, s) == Locks(a, s) {}
    forall s ensures Locks(b1, s) == Locks(b, s) + Held(to, s) {}
  }

  lemma {:induction false} UnionFromNothing(ecl: States)
    ensures Union([], ecl) == ecl
    decreases |ecl|
  {
    if ecl != [] { UnionFromNothing(ecl[1..]); }
  }

  lemma ReleasedContents(a: Supers, from: Option<nat>)
    requires from.Some? ==> Locks(a, from.value) > 0
    ensures Released(a, from).Keys == a.Keys
    ensures forall s ::
      s in a ==> Released(a, from)[s].contents == a[s].contents && Released(a, from)[s].semifree == a[s].semifree
  {
  }

  lemma ClosureFits(g: Graph, p: nat, t: States)
    requires Members(t) == Closure(g, p) && p < |g|
    ensures Fits(g, t) && t != []
  {
    EmptyPath(g, p);
    assert p in Members(t);
    assert forall i :: 0 <= i < |t| ==> t[i] in Members(t);
  }

  lemma HandOverLate(na: Id, a: Supers, from: Option<nat>, nb: Id, b: Supers, to: Id)
    requires Steady(na, a, nb, b) && to in b && (from.Some? ==> Locks(a, from.value) > 0)
    ensures from.Some? ==> Locks(b, from.value) > 0
    ensures Released(b, from).Keys == b.Keys && Handed(na, a, from, nb, Taken(Released(b, from), Some(to)), Some(to))
  {
    assert from.Some? ==> Locks(b, from.value) > 0;
    var b1 := Released(b, from);
    var b2 := Taken(b1, Some(to));
    assert b1.Keys == b.Keys && b2.Keys == b.Keys;
    forall s ensures Locks(b1, s) + Held(from, s) == Locks(b, s) {}
    forall s ensures Locks(b2, s) == Locks(b1, s) + Held(Some(to), s) {}
  }

  lemma HandedTwice(na: Id, a: Supers, ea: Edges, x: Option<nat>, nb: Id, b: Supers, y: Option<nat>, nc: Id,
                    c: Supers, z: Option<nat>)
    requires Handed(na, a, x, nb, b, y) && Handed(nb, b, y, nc, c, z) && Numbered(na, a, ea)
    ensures Handed(na, a, x, nc, c, z)
  {
    forall s | s in a && s in c ensures s in b {}
    forall s ensures Locks(c, s) + Held(x, s) == Locks(a, s) + Held(z, s) {
      assert Locks(b, s) + Held(x, s) == Locks(a, s) + Held(y, s);
    }
  }

  lemma KeepsLock(na: Id, a: Supers, s: Id)
    requires s in a
    ensures Handed(na, a, Some(s), na, a, Some(s))
  {
  }

  /** The state a matcher is in after reading `w` from the states `from`. */
  ghost predicate Stands(g: Graph, from: set<nat>, w: Text, supers: Supers, at: Option<nat>) {
    if at == None then EngineRun(g, from, w) == {}
    else at.value in supers && supers[at.value].locks > 0 && Members(supers[at.value].contents) == EngineRun(g, from, w)
  }

  /** The edge is still that of `ea`, and has a way to go on. */
  ghost predicate Resolved(ea: Edges, eb: Edges, d: Id) {
    d in ea && d in eb && eb[d].present == ea[d].present && eb[d].cset == ea[d].cset && !eb[d].frame.MissEdge?
  }
}
