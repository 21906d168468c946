/** One step of the subset construction: the character class the engine computes for a
    set of states, the destination it computes for the class, and why these agree with
    the automaton. */
module RxStep {
  import opened RxNode
  import opened RxNfa
  import opened RxStateSet
  import opened RxEclose
  import opened RxTame
  import RxBitset

  /** What `rx_bitset_is_subset` answers for sets of 256 characters: it never looks at
      the last word (RxBitset.IsSubset). */
  predicate SubsetTest(a: set<Byte>, b: set<Byte>) {
    forall c | c in a && Low(c) :: c in b
  }

  /** The characters of a set of eight words. */
  ghost function CharsOf(b: seq<RxBitset.Word>): set<Byte>
    requires |b| == 8
  {
    set c: Byte | RxBitset.Bit(b[c / 32], BitOf(c))
  }

  function BitOf(c: Byte): RxBitset.BitNo {
    (c % 32) as bv32
  }

  lemma BitOfPlace(x: nat, k: RxBitset.BitNo) returns (c: Byte)
    requires x < 8
    ensures c / 32 == x && BitOf(c) == k
  {
    var j := k as nat;
    assert j < 32;
    c := 32 * x + j;
    assert c % 32 == j && j as bv32 == k;
  }

  /** The loop over the words makes that test on the sets they stand for. */
  lemma WordsTestChars(a: seq<RxBitset.Word>, b: seq<RxBitset.Word>)
    requires |a| == |b| == 8
    ensures RxBitset.SubsetButLast(a, b) <==> SubsetTest(CharsOf(a), CharsOf(b))
  {
    if SubsetTest(CharsOf(a), CharsOf(b)) {
      forall x, k: RxBitset.BitNo | 0 <= x < 7 && RxBitset.Member(a, x, k) ensures RxBitset.Member(b, x, k) {
        var c := BitOfPlace(x, k);
        assert c in CharsOf(a) && Low(c);
      }
    }
    if RxBitset.SubsetButLast(a, b) {
      forall c | c in CharsOf(a) && Low(c) ensures c in CharsOf(b) {
        assert RxBitset.Member(a, c / 32, BitOf(c));
      }
    }
  }

  /** An edge on a character set that leaves some state of the list. */
  ghost predicate Leaves(g: Graph, s: States, p: nat, edge: Edge) {
    p in s && p < |g| && edge in g[p] && edge.On?
  }

  /** The states reached from `s` by one `c` and then empty moves. */
  ghost function Step(g: Graph, s: States, c: Byte): set<nat> {
    set q | 0 <= q < |g| && StepTo(g, s, c, q)
  }

  ghost predicate StepTo(g: Graph, s: States, c: Byte, q: nat) {
    exists p, edge :: Leaves(g, s, p, edge) && c in edge.cs && q in Closure(g, edge.dest)
  }

  /** The characters that every edge leaving `s` treats like `chr`. */
  ghost function Class(g: Graph, s: States, chr: Byte): set<Byte> {
    set c: Byte | Alike(g, s, chr, c)
  }

  ghost predicate Alike(g: Graph, s: States, chr: Byte, c: Byte) {
    forall p, edge :: Leaves(g, s, p, edge) ==> (c in edge.cs <==> chr in edge.cs)
  }

  /** The states reached from `s` by edges that pass the subset test for a class. */
  ghost function Destination(g: Graph, s: States, cset: set<Byte>): set<nat> {
    set q | 0 <= q < |g| && DestinationHas(g, s, cset, q)
  }

  ghost predicate DestinationHas(g: Graph, s: States, cset: set<Byte>, q: nat) {
    exists p, edge :: Leaves(g, s, p, edge) && SubsetTest(cset, edge.cs) && q in Closure(g, edge.dest)
  }

  /** On one edge, the test gives the right answer for the class of `chr` exactly when
      the edge carries `chr` or the class reaches outside the last word. */
  lemma SubsetTestRight(g: Graph, s: States, chr: Byte, p: nat, edge: Edge)
    requires Leaves(g, s, p, edge)
    ensures (SubsetTest(Class(g, s, chr), edge.cs) <==> chr in edge.cs) <==>
      (chr in edge.cs || exists c :: c in Class(g, s, chr) && Low(c))
  {
    var same := Class(g, s, chr);
    assert forall c :: c in same ==> (c in edge.cs <==> chr in edge.cs);
  }

  /** For a class with a character outside the last word, the destination is the
      subset-construction successor on each of its characters. */
  lemma DestinationIsStep(g: Graph, s: States, chr: Byte, c: Byte)
    requires c in Class(g, s, chr)
    requires exists d :: d in Class(g, s, chr) && Low(d)
    ensures Destination(g, s, Class(g, s, chr)) == Step(g, s, c)
  {
    var same := Class(g, s, chr);
    forall q ensures q in Destination(g, s, same) <==> q in Step(g, s, c) {
      forall p, edge | Leaves(g, s, p, edge) ensures SubsetTest(same, edge.cs) <==> c in edge.cs {
        SubsetTestRight(g, s, chr, p, edge);
      }
    }
  }

  /** Characters that no edge tells apart have one class. */
  lemma TwinClass(g: Graph, s: States, c: Byte, l: Byte)
    requires Twins(g, c, l)
    ensures Class(g, s, c) == Class(g, s, l) && l in Class(g, s, c)
  {
    forall p: nat, edge | Leaves(g, s, p, edge) ensures c in edge.cs <==> l in edge.cs {
      var k :| 0 <= k < |g[p]| && g[p][k] == edge;
    }
  }

  lemma ClassHasChr(g: Graph, s: States, chr: Byte)
    ensures chr in Class(g, s, chr)
  {
  }

  ghost predicate NoEdge(g: Graph, s: States, c: Byte) {
    forall p, edge :: Leaves(g, s, p, edge) ==> c !in edge.cs
  }

  // --------------------------------------------------------------- the engine's step

  /** What the engine takes for the successor: nothing if no edge carries the character,
      and otherwise the destination it computes for the class. */
  ghost function EngineStep(g: Graph, s: States, c: Byte): set<nat> {
    if NoEdge(g, s, c) then {} else Destination(g, s, Class(g, s, c))
  }

  /** When the engine's step is the right one. */
  ghost predicate StepRight(g: Graph, s: States, c: Byte) {
    || NoEdge(g, s, c)
    || (exists d :: d in Class(g, s, c) && Low(d))
    || (forall p, edge :: Leaves(g, s, p, edge) && c !in edge.cs ==> Closure(g, edge.dest) <= Step(g, s, c))
  }

  /** The engine's step never misses a state, and is exact if and only if the class has a
      character outside the last word or the edges it takes by mistake lead nowhere new. */
  lemma EngineStepExact(g: Graph, s: States, c: Byte)
    ensures Step(g, s, c) <= EngineStep(g, s, c)
    ensures EngineStep(g, s, c) == Step(g, s, c) <==> StepRight(g, s, c)
  {
    var same := Class(g, s, c);
    ClassHasChr(g, s, c);
    if NoEdge(g, s, c) {
      assert Step(g, s, c) == {};
    } else if d :| d in same && Low(d) {
      DestinationIsStep(g, s, c, c);
    } else {
      assert forall p, edge :: Leaves(g, s, p, edge) ==> SubsetTest(same, edge.cs);
      assert forall p, edge :: Leaves(g, s, p, edge) ==> Closure(g, edge.dest) <= Destination(g, s, same);
      assert Step(g, s, c) <= Destination(g, s, same);
      forall q | q in Destination(g, s, same) && StepRight(g, s, c) ensures q in Step(g, s, c) {
        var p, edge :| Leaves(g, s, p, edge) && q in Closure(g, edge.dest);
        if c in edge.cs { assert StepTo(g, s, c, q); }
      }
    }
  }

  /** The same for all characters of a class, so one super edge serves them. */
  lemma EngineStepOfClass(g: Graph, s: States, x: Byte, c: Byte)
    requires c in Class(g, s, x)
    ensures EngineStep(g, s, c) == EngineStep(g, s, x) && (NoEdge(g, s, c) <==> NoEdge(g, s, x))
  {
    assert forall p, edge :: Leaves(g, s, p, edge) ==> (c in edge.cs <==> x in edge.cs);
    assert Class(g, s, c) == Class(g, s, x);
  }

  // -------------------------------------------------------------- whole subjects

  /** The states after reading `w`. */
  ghost function Run(g: Graph, s: set<nat>, w: Text): set<nat>
    decreases |w|
  {
    if w == [] then s else Run(g, Successors(g, s, w[0]), w[1..])
  }

  ghost function Successors(g: Graph, s: set<nat>, c: Byte): set<nat> {
    set q | 0 <= q < |g| && StepFrom(g, s, c, q)
  }

  ghost predicate StepFrom(g: Graph, s: set<nat>, c: Byte, q: nat) {
    exists p, edge :: p in s && 0 <= p < |g| && edge in g[p] && edge.On? && c in edge.cs && q in Closure(g, edge.dest)
  }

  lemma StepIsStepFrom(g: Graph, s: States, c: Byte, w: Text)
    ensures Run(g, Members(s), [c] + w) == Run(g, Step(g, s, c), w)
  {
    assert ([c] + w)[1..] == w;
    forall q: nat ensures StepFrom(g, Members(s), c, q) <==> StepTo(g, s, c, q) {
      if StepTo(g, s, c, q) {
        var p, edge :| Leaves(g, s, p, edge) && c in edge.cs && q in Closure(g, edge.dest);
        assert p in Members(s);
      }
      if StepFrom(g, Members(s), c, q) {
        var p, edge :| p in Members(s) && 0 <= p < |g| &&
          edge in g[p] && edge.On? && c in edge.cs && q in Closure(g, edge.dest);
        assert Leaves(g, s, p, edge);
      }
    }
    assert Step(g, s, c) == Successors(g, Members(s), c);
  }

  lemma {:induction false} DeadRun(g: Graph, w: Text)
    ensures Run(g, {}, w) == {}
    decreases |w|
  {
    if w != [] {
      assert Successors(g, {}, w[0]) == {};
      DeadRun(g, w[1..]);
    }
  }

  const NOTHING: Text := []

  lemma NothingTwice()
    ensures NOTHING + NOTHING == []
  {
  }

  /** A path that spells `[c] + w` goes by empty moves to an edge on `c`, along it, and on. */
  lemma {:induction false} FirstCharacter(g: Graph, p: nat, w: Text, q: nat, n: nat) returns (p': nat, edge: Edge)
    requires PathN(g, p, w, q, n) && w != []
    ensures Path(g, p, [], p') && p' < |g| && edge in g[p'] && edge.On? && w[0] in edge.cs
    ensures Path(g, edge.dest, w[1..], q)
    decreases n
  {
    var first :| first in g[p] && StepN(g, first, w, q, n);
    if first.Eps? {
      p', edge := FirstCharacter(g, first.dest, w, q, n - 1);
      EpsPath(g, p, first.dest);
      PathJoin(g, p, [], first.dest, [], p');
      NothingTwice();
    } else {
      p', edge := p, first;
      assert PathN(g, first.dest, w[1..], q, n - 1);
      EmptyPath(g, p);
    }
  }

  /** Closed under empty moves. */
  ghost predicate Saturated(g: Graph, s: set<nat>) {
    forall p, q :: p in s && q in Closure(g, p) ==> q in s
  }

  lemma {:induction false} RunIsPaths(g: Graph, s: set<nat>, w: Text, q: nat)
    requires Closed(g) && (forall p :: p in s ==> 0 <= p < |g|) && Saturated(g, s)
    ensures q in Run(g, s, w) <==> exists p :: p in s && Path(g, p, w, q)
    decreases |w|
  {
    if w == [] {
      if q in s { EmptyPath(g, q); }
      forall p | p in s && Path(g, p, [], q) ensures q in s {
        var n: nat :| PathN(g, p, [], q, n);
        PathEnd(g, p, [], q, n);
        assert q in Closure(g, p);
      }
    } else {
      var t := Successors(g, s, w[0]);
      SuccessorSaturated(g, s, w[0]);
      RunIsPaths(g, t, w[1..], q);
      forall p | p in t && Path(g, p, w[1..], q) ensures exists p0 :: p0 in s && Path(g, p0, w, q) {
        var p0, edge :| p0 in s && 0 <= p0 < |g| &&
          edge in g[p0] && edge.On? && w[0] in edge.cs && p in Closure(g, edge.dest);
        var k :| 0 <= k < |g[p0]| && g[p0][k] == edge;
        OnPath(g, p0, edge.cs, w[0], edge.dest);
        PathJoin(g, edge.dest, [], p, w[1..], q);
        PathJoin(g, p0, [w[0]], edge.dest, [] + w[1..], q);
        assert [w[0]] + ([] + w[1..]) == w;
      }
      forall p0 | p0 in s && Path(g, p0, w, q) ensures exists p :: p in t && Path(g, p, w[1..], q) {
        var n: nat :| PathN(g, p0, w, q, n);
        var p', edge := FirstCharacter(g, p0, w, q, n);
        assert p' in Closure(g, p0);
        var m: nat :| PathN(g, edge.dest, w[1..], q, m);
        EmptyPath(g, edge.dest);
        assert edge.dest in Closure(g, edge.dest);
        assert edge.dest in t;
      }
    }
  }

  lemma {:induction false} PathEnd(g: Graph, p: nat, w: Text, q: nat, n: nat)
    requires PathN(g, p, w, q, n)
    ensures q < |g|
    decreases n
  {
    if n > 0 {
      var edge :| edge in g[p] && StepN(g, edge, w, q, n);
      PathEnd(g, edge.dest, if edge.Eps? then w else w[1..], q, n - 1);
    }
  }

  lemma SuccessorSaturated(g: Graph, s: set<nat>, c: Byte)
    ensures Saturated(g, Successors(g, s, c))
  {
    var t := Successors(g, s, c);
    forall p, q | p in t && q in Closure(g, p) ensures q in t {
      var p0, edge :| p0 in s && 0 <= p0 < |g| &&
        edge in g[p0] && edge.On? && c in edge.cs && p in Closure(g, edge.dest);
      PathJoin(g, edge.dest, [], p, [], q);
      NothingTwice();
      assert q in Closure(g, edge.dest);
    }
  }

  /** The subset construction accepts what the automaton accepts. */
  lemma SubsetConstruction(g: Graph, start: nat, final: nat, w: Text)
    requires Closed(g) && start < |g|
    ensures final in Run(g, Closure(g, start), w) <==> Path(g, start, w, final)
  {
    forall p, q | p in Closure(g, start) && q in Closure(g, p) ensures q in Closure(g, start) {
      PathJoin(g, start, [], p, [], q);
      NothingTwice();
    }
    RunIsPaths(g, Closure(g, start), w, final);
    EmptyPath(g, start);
    forall p | p in Closure(g, start) && Path(g, p, w, final) ensures Path(g, start, w, final) {
      PathJoin(g, start, [], p, w, final);
      assert [] + w == w;
    }
    assert start in Closure(g, start);
  }

  // ---------------------------------------------------------------- the engine's run

  /** A set of states as a list, newest first. */
  ghost function Listed(n: nat, s: set<nat>): (l: States)
    ensures forall q :: q in l <==> q in s && q < n
  {
    if n == 0 then [] else (if n - 1 in s then [n - 1] else []) + Listed(n - 1, s)
  }

  ghost function EngineNext(g: Graph, s: set<nat>, c: Byte): set<nat> {
    EngineStep(g, Listed(|g|, s), c)
  }

  /** The states that the engine is in after reading `w`. */
  ghost function EngineRun(g: Graph, s: set<nat>, w: Text): set<nat>
    decreases |w|
  {
    if w == [] then s else EngineRun(g, EngineNext(g, s, w[0]), w[1..])
  }

  lemma EngineStepIsNext(g: Graph, s: States, c: Byte)
    ensures EngineNext(g, Members(s), c) == EngineStep(g, s, c)
  {
    var l := Listed(|g|, Members(s));
    forall p, edge ensures Leaves(g, l, p, edge) <==> Leaves(g, s, p, edge) {
      assert p in s <==> p in Members(s);
    }
    assert Class(g, l, c) == Class(g, s, c);
    assert forall q :: DestinationHas(g, l, Class(g, s, c), q) <==> DestinationHas(g, s, Class(g, s, c), q);
  }

  lemma {:induction false} DeadEngineRun(g: Graph, w: Text)
    ensures EngineRun(g, {}, w) == {}
    decreases |w|
  {
    if w != [] {
      var l := Listed(|g|, {});
      assert NoEdge(g, l, w[0]);
      DeadEngineRun(g, w[1..]);
    }
  }

  lemma {:induction false} EngineRunInTwo(g: Graph, s: set<nat>, u: Text, v: Text)
    ensures EngineRun(g, s, u + v) == EngineRun(g, EngineRun(g, s, u), v)
    decreases |u|
  {
    if u == [] {
      assert u + v == v;
    } else {
      assert (u + v)[1..] == u[1..] + v;
      EngineRunInTwo(g, EngineNext(g, s, u[0]), u[1..], v);
    }
  }

  lemma NextExact(g: Graph, s: set<nat>, t: set<nat>, c: Byte)
    requires s <= t
    ensures Successors(g, s, c) <= EngineNext(g, t, c)
    ensures EngineNext(g, s, c) == Successors(g, s, c) <==> StepRight(g, Listed(|g|, s), c)
  {
    EngineStepExact(g, Listed(|g|, s), c);
    EngineStepExact(g, Listed(|g|, t), c);
    SuccessorsListed(g, s, c);
    SuccessorsListed(g, t, c);
    forall q | q in Successors(g, s, c) ensures q in Successors(g, t, c) {
      var p, edge :| p in s && 0 <= p < |g| && edge in g[p] && edge.On? && c in edge.cs && q in Closure(g, edge.dest);
      assert StepFrom(g, t, c, q);
    }
  }

  lemma SuccessorsListed(g: Graph, s: set<nat>, c: Byte)
    ensures Successors(g, s, c) == Step(g, Listed(|g|, s), c)
  {
    var l := Listed(|g|, s);
    forall q: nat ensures StepFrom(g, s, c, q) <==> StepTo(g, l, c, q) {
      if StepTo(g, l, c, q) {
        var p, edge :| Leaves(g, l, p, edge) && c in edge.cs && q in Closure(g, edge.dest);
        assert p in s;
      }
      if StepFrom(g, s, c, q) {
        var p, edge :| p in s && 0 <= p < |g| && edge in g[p] && edge.On? && c in edge.cs && q in Closure(g, edge.dest);
        assert Leaves(g, l, p, edge);
      }
    }
  }

  /** The engine is never without a state it should be in. */
  lemma {:induction false} EngineRunCovers(g: Graph, s: set<nat>, t: set<nat>, w: Text)
    requires s <= t
    ensures Run(g, s, w) <= EngineRun(g, t, w)
    decreases |w|
  {
    if w != [] {
      NextExact(g, s, t, w[0]);
      EngineRunCovers(g, Successors(g, s, w[0]), EngineNext(g, t, w[0]), w[1..]);
    }
  }

  /** Every step on the way is the right one. */
  ghost predicate RightAllAlong(g: Graph, s: set<nat>, w: Text) {
    forall k :: 0 <= k < |w| ==> RightAt(g, s, w, k)
  }

  ghost predicate RightAt(g: Graph, s: set<nat>, w: Text, k: nat)
    requires k < |w|
  {
    StepRight(g, Listed(|g|, Run(g, s, w[..k])), w[k])
  }

  ghost predicate AgreesAt(g: Graph, s: set<nat>, w: Text, k: nat)
    requires k <= |w|
  {
    EngineRun(g, s, w[..k]) == Run(g, s, w[..k])
  }

  /** The engine follows the subset construction through a text exactly if every step on
      the way is the right one. */
  lemma {:induction false} EngineRunExact(g: Graph, s: set<nat>, w: Text)
    ensures (forall k :: 0 <= k <= |w| ==> AgreesAt(g, s, w, k)) <==> RightAllAlong(g, s, w)
    decreases |w|
  {
    hide StepRight;
    assert w[..|w|] == w;
    if w != [] {
      var n := |w| - 1;
      var u := w[..n];
      EngineRunExact(g, s, u);
      forall k | 0 <= k <= n ensures u[..k] == w[..k] {}
      assert forall k :: 0 <= k <= n ==> (AgreesAt(g, s, w, k) <==> AgreesAt(g, s, u, k));
      assert forall k :: 0 <= k < n ==> (RightAt(g, s, w, k) <==> RightAt(g, s, u, k));
      LastStep(g, s, w);
      assert RightAllAlong(g, s, w) <==> RightAllAlong(g, s, u) && RightAt(g, s, w, n);
    }
  }

  lemma LastStep(g: Graph, s: set<nat>, w: Text)
    requires w != []
    ensures AgreesAt(g, s, w, |w| - 1) ==> (AgreesAt(g, s, w, |w|) <==> RightAt(g, s, w, |w| - 1))
  {
    hide StepRight;
    var n := |w| - 1;
    assert w[..|w|] == w == w[..n] + [w[n]];
    EngineRunInTwo(g, s, w[..n], [w[n]]);
    RunTwo(g, s, w[..n], [w[n]]);
    var t := Run(g, s, w[..n]);
    OneCharacter(g, t, w[n]);
    OneCharacter(g, EngineRun(g, s, w[..n]), w[n]);
    NextExact(g, t, t, w[n]);
  }

  lemma EngineRunOn(g: Graph, s: set<nat>, w: Text, k: nat)
    requires k < |w|
    ensures EngineRun(g, s, w[k..]) == EngineRun(g, EngineNext(g, s, w[k]), w[k + 1..])
  {
    assert w[k..][1..] == w[k + 1..];
  }

  lemma OneCharacter(g: Graph, s: set<nat>, c: Byte)
    ensures Run(g, s, [c]) == Successors(g, s, c) && EngineRun(g, s, [c]) == EngineNext(g, s, c)
  {
    assert [c][1..] == [];
    assert Run(g, Successors(g, s, c), []) == Successors(g, s, c);
    assert EngineRun(g, EngineNext(g, s, c), []) == EngineNext(g, s, c);
  }

  lemma {:induction false} RunTwo(g: Graph, s: set<nat>, u: Text, v: Text)
    ensures Run(g, s, u + v) == Run(g, Run(g, s, u), v)
    decreases |u|
  {
    if u == [] {
      assert u + v == v;
    } else {
      assert (u + v)[1..] == u[1..] + v;
      RunTwo(g, Successors(g, s, u[0]), u[1..], v);
    }
  }

  /** One case of it: every character has a twin outside the last word. */
  lemma TameIsRight(g: Graph, s: set<nat>, w: Text)
    requires TameText(g, w)
    ensures RightAllAlong(g, s, w) && EngineRun(g, s, w) == Run(g, s, w)
  {
    forall k | 0 <= k < |w| ensures RightAt(g, s, w, k) {
      var l :| Low(l) && Twins(g, w[k], l);
      TwinClass(g, Listed(|g|, Run(g, s, w[..k])), w[k], l);
    }
    EngineRunExact(g, s, w);
    assert AgreesAt(g, s, w, |w|) && w[..|w|] == w;
  }
}
