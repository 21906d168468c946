/** G-lines: a dictionary by target, a heap by lifetime, and the timer that expires them,
    kept in step through additions, refreshes, removals and expiry. */
module Gline {
  import opened Wrappers
  import opened IrcCase
  import Dict
  import Heap

  type Ptr = Heap.Ptr

  type Time = nat

  datatype Entry =
    Entry(target: Key, issuer: string, reason: string, issued: Time, lastmod: Time, expires: Time, lifetime: Time)

  type Entries = map<Ptr, Entry>

  function Lifetime(ents: Entries, p: Ptr): Time {
    if p in ents then ents[p].lifetime else 0
  }

  // --------------------------------------------------------------- the comparator

  /** The value of an unsigned 64-bit difference returned as a 32-bit int. */
  function AsInt(d: int): int {
    (d + 0x8000_0000) % 0x1_0000_0000 - 0x8000_0000
  }

  predicate SameSign(a: int, b: int) {
    (a < 0 <==> b < 0) && (a > 0 <==> b > 0)
  }

  predicate RightSign(a: Time, b: Time) {
    SameSign(AsInt(a - b), a - b)
  }

  /** The comparator has the right sign exactly if the low 32 bits of the difference are
      zero for equal lifetimes, and below 2^31 just if the first is the later one. */
  lemma SignExact(a: Time, b: Time)
    ensures var r := (a - b) % 0x1_0000_0000;
      RightSign(a, b) <==> if a == b then r == 0 else if a > b then 0 < r < 0x8000_0000 else r >= 0x8000_0000
  {
    ResidueAsInt(a - b);
  }

  lemma ResidueAsInt(d: int)
    ensures var r := d % 0x1_0000_0000; AsInt(d) == if r < 0x8000_0000 then r else r - 0x1_0000_0000
  {
    var q, r := d / 0x1_0000_0000, d % 0x1_0000_0000;
    var x := d + 0x8000_0000;
    if r < 0x8000_0000 { assert x / 0x1_0000_0000 == q; } else { assert x / 0x1_0000_0000 == q + 1; }
  }

  /** So within 2^32 seconds it is right exactly within 2^31 seconds. */
  lemma CloseLifetimes(a: Time, b: Time)
    requires -0x1_0000_0000 < a - b < 0x1_0000_0000
    ensures RightSign(a, b) <==> -0x8000_0000 <= a - b < 0x8000_0000
  {
    SignExact(a, b);
  }

  /** `gline_comparator`, as the entries stand now. */
  function Comparator(ents: Entries): Heap.Comparator {
    (a, b) =>
      var d := Lifetime(ents, a) - Lifetime(ents, b);
      if a in ents && b in ents then AsInt(d) else d
  }

  /** It has the right sign for the lifetime `t` and that of each entry. */
  ghost predicate Near(ents: Entries, t: Time) {
    forall p :: p in ents ==> RightSign(ents[p].lifetime, t) && RightSign(t, ents[p].lifetime)
  }

  /** ... for those of any two entries. */
  ghost predicate Close(ents: Entries) {
    forall p :: p in ents ==> Near(ents, ents[p].lifetime)
  }

  lemma SignRight(ents: Entries, a: Ptr, b: Ptr)
    requires Close(ents)
    ensures SameSign(Comparator(ents)(a, b), Lifetime(ents, a) - Lifetime(ents, b))
  {
    if a in ents && b in ents { assert Near(ents, ents[b].lifetime); }
  }

  /** Then it is an order for the heap. */
  lemma ComparatorOrders(ents: Entries)
    requires Close(ents)
    ensures Heap.TotalPreorder(Comparator(ents))
  {
    hide AsInt, Close, Comparator, SameSign, Heap.TotalPreorder;
    var m := p => Lifetime(ents, p);
    forall a, b ensures SameSign(Comparator(ents)(a, b), m(a) - m(b)) { SignRight(ents, a, b); }
    SignOrders(Comparator(ents), m);
  }

  lemma SignOrders(cmp: Heap.Comparator, m: Ptr -> int)
    requires forall a, b :: SameSign(cmp(a, b), m(a) - m(b))
    ensures Heap.TotalPreorder(cmp)
  {
  }

  /** Of two lifetimes just over 2^31 seconds apart the heap wants the later one on top:
      the timer is then set for it, and the other entry outlives its time. */
  lemma LaterOnTop(ents: Entries, early: Ptr, late: Ptr)
    requires early in ents && late in ents
    requires ents[late].lifetime == ents[early].lifetime + 0x8000_0001
    ensures var x, y := Heap.Item(early, early), Heap.Item(late, late);
      Heap.Ordered(Comparator(ents), [y, x]) && !Heap.Ordered(Comparator(ents), [x, y])
  {
    var x, y, cmp := Heap.Item(early, early), Heap.Item(late, late), Comparator(ents);
    ResidueAsInt(0x8000_0001);
    ResidueAsInt(-0x8000_0001);
    assert cmp(late, early) < 0 < cmp(early, late);
    assert Heap.Parent(1) == 0;
    assert !Heap.Below(cmp, [x, y], 1);
  }

  lemma CloseWith(ents: Entries, p: Ptr, e: Entry)
    requires Close(ents) && Near(ents, e.lifetime)
    ensures Close(ents[p := e])
  {
    assert RightSign(e.lifetime, e.lifetime);
    hide AsInt;
    var b := ents[p := e];
    forall q | q in b ensures Near(b, b[q].lifetime) {
      assert q in ents ==> Near(ents, ents[q].lifetime);
    }
  }

  lemma CloseWithout(ents: Entries, p: Ptr)
    requires Close(ents)
    ensures Close(ents - {p})
  {
    hide AsInt;
    forall q | q in ents - {p} ensures Near(ents - {p}, ents[q].lifetime) { assert Near(ents, ents[q].lifetime); }
  }

  /** A refreshed entry has its old lifetime or the new one. */
  lemma CloseRefreshed(ents: Entries, p: Ptr, n: Entry)
    requires Close(ents) && Near(ents, n.lifetime) && p in ents
    ensures Close(ents[p := Refreshed(ents[p], n)])
  {
    assert Near(ents, ents[p].lifetime);
    CloseWith(ents, p, Refreshed(ents[p], n));
  }

  // ---------------------------------------------------------------------- invariants

  /** The dictionary has each entry once, under its target. */
  ghost predicate Indexed(ents: Entries, dict: map<seq<int>, Dict.Entry>) {
    && (forall f :: f in dict ==> dict[f].data in ents && Folded(ents[dict[f].data].target) == f)
    && (forall p :: p in ents ==> Folded(ents[p].target) in dict && dict[Folded(ents[p].target)].data == p)
  }

  /** The heap holds each entry once, as its own key. */
  ghost predicate Heaped(ents: Entries, items: seq<Heap.Item>) {
    forall x :: multiset(items)[x] == if x.key == x.data && x.data in ents then 1 else 0
  }

  ghost predicate NoEntry(ents: Entries) {
    forall p :: p !in ents
  }

  /** One timer is pending if there is an entry, no later than the least lifetime. */
  ghost predicate Armed(ents: Entries, timers: multiset<Time>) {
    if NoEntry(ents) then timers == multiset{}
    else exists t :: timers == multiset{t} && forall p :: p in ents ==> t <= ents[p].lifetime
  }

  /** What `gline_add` makes of an entry that exists. */
  function Refreshed(e: Entry, n: Entry): Entry {
    var e1 := if e.issued > n.lastmod then e.(issued := n.lastmod) else e;
    var e2 := if e1.lastmod < n.lastmod
      then e1.(lastmod := n.lastmod, expires := n.expires, reason := n.reason) else e1;
    if e2.lifetime < n.lifetime then e2.(lifetime := n.lifetime) else e2
  }

  /** The entry `ent` is `n`, or what was there refreshed by `n`; the others are as before. */
  ghost predicate Stored(a: Entries, b: Entries, n: Entry, ent: Ptr) {
    && ent in b && b == a[ent := b[ent]] && Folded(b[ent].target) == Folded(n.target)
    && b[ent] == (if ent in a then Refreshed(a[ent], n) else n)
  }

  /** A call of `gline_add`, and the time of it. */
  datatype Request =
    Request(issuer: string, target: Key, duration: Time, reason: string, issued: Time, lastmod: Time, life: Time,
            now: Time)

  /** The lifetime asked for; at least the duration. */
  predicate AsksFor(q: Request, t: Time) {
    t == q.life >= q.now + q.duration || t == q.now + q.duration >= q.life
  }

  /** A new entry is as the request says. */
  predicate MadeBy(q: Request, e: Entry) {
    && e.target == q.target && e.issuer == q.issuer && e.reason == q.reason
    && e.issued == q.issued && e.lastmod == q.lastmod
    && e.expires == q.now + q.duration && AsksFor(q, e.lifetime)
  }

  /** In an entry that exists a later modification replaces expiry and reason, the lifetime
      only grows, and the time of issue only goes back. */
  predicate ChangedBy(a: Entry, q: Request, e: Entry) {
    && e.target == a.target && e.issuer == a.issuer
    && e.issued <= a.issued && e.issued <= q.lastmod && (e.issued == a.issued || e.issued == q.lastmod)
    && (if q.lastmod > a.lastmod
          then e.lastmod == q.lastmod && e.expires == q.now + q.duration && e.reason == q.reason
          else e.lastmod == a.lastmod && e.expires == a.expires && e.reason == a.reason)
    && e.lifetime >= a.lifetime && e.lifetime >= q.life && e.lifetime >= q.now + q.duration
    && (e.lifetime == a.lifetime || AsksFor(q, e.lifetime))
  }

  /** What a request does. */
  ghost predicate Added(a: Entries, b: Entries, q: Request, ent: Ptr) {
    && ent in b && b == a[ent := b[ent]] && SameKey(b[ent].target, q.target)
    && if ent in a then ChangedBy(a[ent], q, b[ent]) else MadeBy(q, b[ent])
  }

  lemma StoredAdded(a: Entries, b: Entries, q: Request, ent: Ptr)
    requires Stored(a, b, Entry(q.target, q.issuer, q.reason, q.issued, q.lastmod, q.now + q.duration,
      Later(q.life, q.now + q.duration)), ent)
    ensures Added(a, b, q, ent)
  {
    SameKeyExact(b[ent].target, q.target);
    hide Folded, SameKey;
  }

  /** The entry that requests, one after the other, make and refresh. */
  ghost predicate History(states: seq<Entries>, qs: seq<Request>, ent: Ptr) {
    && |states| == |qs| + 1 && ent !in states[0]
    && forall k :: 0 <= k < |qs| ==> Added(states[k], states[k + 1], qs[k], ent)
  }

  /** The first request with the latest modification. */
  ghost predicate Latest(qs: seq<Request>, k: int) {
    && 0 <= k < |qs|
    && (forall l :: 0 <= l < |qs| ==> qs[l].lastmod <= qs[k].lastmod)
    && (forall l :: 0 <= l < k ==> qs[l].lastmod < qs[k].lastmod)
  }

  /** Modification, expiry and reason are those of the first request with the latest
      modification. */
  ghost predicate LatestWins(qs: seq<Request>, e: Entry) {
    exists k :: Latest(qs, k) &&
      e.lastmod == qs[k].lastmod && e.expires == qs[k].now + qs[k].duration && e.reason == qs[k].reason
  }

  /** The lifetime is the longest asked for. */
  ghost predicate LongestLife(qs: seq<Request>, e: Entry) {
    && (exists k :: 0 <= k < |qs| && AsksFor(qs[k], e.lifetime))
    && forall k :: 0 <= k < |qs| ==> e.lifetime >= qs[k].life && e.lifetime >= qs[k].now + qs[k].duration
  }

  /** The time of issue is the earliest of the first one and the later modifications. */
  ghost predicate EarliestIssue(qs: seq<Request>, e: Entry)
    requires qs != []
  {
    && (e.issued == qs[0].issued || exists k :: 0 < k < |qs| && e.issued == qs[k].lastmod)
    && e.issued <= qs[0].issued && forall k :: 0 < k < |qs| ==> e.issued <= qs[k].lastmod
  }

  /** What any number of requests, one after the other, leave of an entry. */
  lemma {:induction false} HistoryOfEntry(states: seq<Entries>, qs: seq<Request>, ent: Ptr)
    requires History(states, qs, ent) && qs != []
    ensures ent in states[|qs|]
    ensures var e := states[|qs|][ent];
      && e.target == qs[0].target && e.issuer == qs[0].issuer
      && LatestWins(qs, e) && LongestLife(qs, e) && EarliestIssue(qs, e)
  {
    var n := |qs| - 1;
    assert Added(states[n], states[n + 1], qs[n], ent);
    if n == 0 {
      assert Latest(qs, 0);
    } else {
      hide LatestWins, LongestLife, EarliestIssue, ChangedBy, MadeBy;
      HistoryOfEntry(states[..n + 1], qs[..n], ent);
      OneMoreRequest(qs, states[n][ent], states[n + 1][ent]);
    }
  }

  lemma OneMoreRequest(qs: seq<Request>, a: Entry, e: Entry)
    requires |qs| > 1 && ChangedBy(a, qs[|qs| - 1], e) && LatestWins(qs[..|qs| - 1], a)
    requires LongestLife(qs[..|qs| - 1], a) && EarliestIssue(qs[..|qs| - 1], a)
    ensures LatestWins(qs, e) && LongestLife(qs, e) && EarliestIssue(qs, e)
    ensures e.target == a.target && e.issuer == a.issuer
  {
    hide LatestWins, LongestLife, EarliestIssue;
    LatestStill(qs, a, e);
    LongestStill(qs, a, e);
    EarliestStill(qs, a, e);
  }

  lemma LatestStill(qs: seq<Request>, a: Entry, e: Entry)
    requires |qs| > 1 && ChangedBy(a, qs[|qs| - 1], e) && LatestWins(qs[..|qs| - 1], a)
    ensures LatestWins(qs, e)
  {
    var n := |qs| - 1;
    var k :| Latest(qs[..n], k) && a.lastmod == qs[..n][k].lastmod &&
      a.expires == qs[..n][k].now + qs[..n][k].duration && a.reason == qs[..n][k].reason;
    hide AsksFor;
    assert forall l :: 0 <= l < n ==> qs[..n][l] == qs[l];
    if qs[n].lastmod > a.lastmod { assert Latest(qs, n); } else { assert Latest(qs, k); }
  }

  lemma LongestStill(qs: seq<Request>, a: Entry, e: Entry)
    requires |qs| > 1 && ChangedBy(a, qs[|qs| - 1], e) && LongestLife(qs[..|qs| - 1], a)
    ensures LongestLife(qs, e)
  {
    var n := |qs| - 1;
    var k :| 0 <= k < n && AsksFor(qs[..n][k], a.lifetime);
    assert AsksFor(qs[if e.lifetime == a.lifetime then k else n], e.lifetime);
    assert forall l :: 0 <= l < n ==> qs[..n][l] == qs[l];
  }

  lemma EarliestStill(qs: seq<Request>, a: Entry, e: Entry)
    requires |qs| > 1 && ChangedBy(a, qs[|qs| - 1], e) && EarliestIssue(qs[..|qs| - 1], a)
    ensures EarliestIssue(qs, e)
  {
    hide AsksFor;
    assert forall l :: 0 <= l < |qs| - 1 ==> qs[..|qs| - 1][l] == qs[l];
  }

  /** Nothing is forgotten, and no lifetime or modification time goes back. */
  ghost predicate Advances(a: Entries, b: Entries) {
    forall p :: p in a ==>
      && p in b && b[p].target == a[p].target
      && a[p].lifetime <= b[p].lifetime && a[p].lastmod <= b[p].lastmod && b[p].issued <= a[p].issued
  }

  /** What is left are the entries that are not due, as they were. */
  ghost predicate Outlasting(a: Entries, b: Entries, now: Time) {
    && (forall p :: p in b <==> p in a && a[p].lifetime > now)
    && (forall p :: p in b ==> b[p] == a[p])
  }

  lemma HeapedPut(ents: Entries, items: seq<Heap.Item>, items': seq<Heap.Item>, p: Ptr, e: Entry)
    requires Heaped(ents - {p}, items) && multiset(items') == multiset(items) + multiset{Heap.Item(p, p)}
    ensures Heaped(ents[p := e], items')
  {
  }

  lemma HeapedDrop(ents: Entries, items: seq<Heap.Item>, items': seq<Heap.Item>, p: Ptr)
    requires Heaped(ents, items) && p in ents
    requires forall x :: multiset(items')[x] == if x.data == p then 0 else multiset(items)[x]
    ensures Heaped(ents - {p}, items')
  {
  }

  lemma HeapedTop(ents: Entries, items: seq<Heap.Item>)
    requires Heaped(ents, items)
    ensures items == [] <==> NoEntry(ents)
    ensures items != [] ==> items[0].key == items[0].data && items[0].data in ents
    ensures forall p :: p in ents ==> Heap.Item(p, p) in items
  {
    if items != [] { assert multiset(items)[items[0]] > 0; }
    forall p | p in ents ensures Heap.Item(p, p) in items { assert multiset(items)[Heap.Item(p, p)] == 1; }
  }

  /** The order of the heap does not look at entries that are not in it. */
  lemma OrderedElsewhere(a: Entries, b: Entries, items: seq<Heap.Item>)
    requires Close(a) && Close(b) && Heap.Ordered(Comparator(a), items)
    requires forall k :: 0 <= k < |items| ==> Lifetime(a, items[k].key) == Lifetime(b, items[k].key)
    ensures Heap.Ordered(Comparator(b), items)
  {
    hide Comparator;
    forall i | 0 < i < |items| ensures Heap.Below(Comparator(b), items, i) {
      assert Heap.Below(Comparator(a), items, i);
      SignRight(a, items[Heap.Parent(i)].key, items[i].key);
      SignRight(b, items[Heap.Parent(i)].key, items[i].key);
    }
  }

  // -------------------------------------------------------------------------- state

  class Glines {
    const dict: Dict.Dictionary
    const heap: Heap.Heap
    var ents: Entries
    var timers: multiset<Time>
    var next: Ptr

    ghost predicate Valid()
      reads this, dict, dict.repr, heap, heap.data
    {
      InStep() && Armed(ents, timers)
    }

    /** Everything but the timer. */
    ghost predicate InStep()
      reads this, dict, dict.repr, heap, heap.data
    {
      && dict.Valid() && heap.Valid() && Close(ents)
      && Indexed(ents, dict.Contents()) && Heaped(ents, heap.Contents())
      && Heap.Ordered(Comparator(ents), heap.Contents()) && forall p :: p in ents ==> p < next
    }

    constructor ()
      ensures Valid() && ents == map[] && fresh(dict) && fresh(heap) && fresh(heap.data) && dict.repr == {}
    {
      dict := new Dict.Dictionary();
      heap := new Heap.Heap();
      ents, timers, next := map[], multiset{}, 0;
    }

    method Find(target: Key) returns (p: Option<Ptr>)
      requires InStep()
      modifies dict, dict.repr
      ensures InStep() && dict.repr == old(dict.repr) && dict.Contents() == old(dict.Contents())
      ensures p == if Folded(target) in dict.Contents() then Some(dict.Contents()[Folded(target)].data) else None
    {
      hide Indexed, Heaped, Heap.Ordered;
      p := dict.Find(target);
    }

    /** Takes an entry out of the heap. */
    method TakeOut(p: Ptr)
      requires InStep() && p in ents
      modifies heap, heap.data
      ensures heap.Valid() && Heap.Ordered(Comparator(ents), heap.Contents()) && heap.data == old(heap.data)
      ensures Heaped(ents - {p}, heap.Contents()) && dict.Valid() && dict.Contents() == old(dict.Contents())
    {
      hide Close, Near, Comparator, Indexed, Heaped, Heap.Ordered, Heap.TotalPreorder, Dict.Dictionary.Valid;
      hide Dict.Dictionary.Contents, Folded;
      ghost var items := heap.Contents();
      ComparatorOrders(ents);
      var _ := heap.RemovePred(Comparator(ents), (x: Heap.Item) => x.data == p);
      HeapedDrop(ents, items, heap.Contents(), p);
    }

    /** Takes an entry out of the heap and puts it back changed. */
    method Refresh(p: Ptr, e: Entry)
      requires InStep() && p in ents && e.target == ents[p].target && Close(ents[p := e])
      modifies `ents, heap, heap.data
      ensures InStep() && ents == old(ents)[p := e] && (heap.data == old(heap.data) || fresh(heap.data))
    {
      hide Close, Near, Comparator, Indexed, Heaped, Heap.Ordered, Heap.TotalPreorder, Dict.Dictionary.Valid;
      hide Dict.Dictionary.Contents, Folded;
      ghost var was := ents;
      TakeOut(p);
      ghost var items := heap.Contents();
      ents := ents[p := e];
      Reorder(was, ents, items, p);
      ComparatorOrders(ents);
      heap.Insert(Comparator(ents), p, p);
      HeapedPut(was, items, heap.Contents(), p, e);
      IndexedSame(was, dict.Contents(), p, e);
    }

    /** Makes a new entry. */
    method Enter(e: Entry) returns (p: Ptr)
      requires InStep() && Folded(e.target) !in dict.Contents() && Near(ents, e.lifetime)
      modifies this, dict, dict.repr, heap, heap.data
      ensures InStep() && p !in old(ents) && ents == old(ents)[p := e] && timers == old(timers)
      ensures (heap.data == old(heap.data) || fresh(heap.data)) && fresh(dict.repr - old(dict.repr))
    {
      hide Close, Near, Comparator, Indexed, Heaped, Heap.Ordered, Heap.TotalPreorder, Dict.Dictionary.Valid;
      hide Dict.Dictionary.Contents, Folded;
      ghost var was, items := ents, heap.Contents();
      p := next;
      next := next + 1;
      CloseWith(ents, p, e);
      IndexedNew(ents, dict.Contents(), p, e);
      dict.Insert(e.target, p);
      ents := ents[p := e];
      HeapedNew(was, items, p);
      Reorder(was, ents, items, p);
      ComparatorOrders(ents);
      heap.Insert(Comparator(ents), p, p);
      HeapedPut(was, items, heap.Contents(), p, e);
    }

    /** The entry for the target is refreshed if there is one, and made if not. */
    method Store(n: Entry) returns (ent: Ptr)
      requires InStep() && Near(ents, n.lifetime)
      modifies this, dict, dict.repr, heap, heap.data
      ensures InStep() && timers == old(timers) && Stored(old(ents), ents, n, ent)
      ensures (heap.data == old(heap.data) || fresh(heap.data)) && fresh(dict.repr - old(dict.repr))
    {
      hide Close, Near, Comparator, Indexed, Heaped, Heap.Ordered, Heap.TotalPreorder, Dict.Dictionary.Valid;
      hide Dict.Dictionary.Contents, Folded;
      var known := Find(n.target);
      if known.Some? {
        ent := known.value;
        IndexedEntry(ents, dict.Contents(), Folded(n.target));
        RefreshStored(ents, ent, n);
        CloseRefreshed(ents, ent, n);
        Refresh(ent, Refreshed(ents[ent], n));
      } else {
        ghost var was := ents;
        ent := Enter(n);
        EnterStored(was, ent, n);
      }
    }

    /** `gline_add`: the timer is moved forward if the entry is now due before the one that
        was due first. */
    method Add(issuer: string, target: Key, duration: Time, reason: string, issued: Time, lastmod: Time, life: Time,
               now: Time)
        returns (ent: Ptr)
      requires Valid() && Near(ents, Later(life, now + duration))
      modifies this, dict, dict.repr, heap, heap.data
      ensures Valid() && Advances(old(ents), ents)
      ensures Added(old(ents), ents, Request(issuer, target, duration, reason, issued, lastmod, life, now), ent)
      ensures (heap.data == old(heap.data) || fresh(heap.data)) && fresh(dict.repr - old(dict.repr))
    {
      hide Close, Near, Comparator, Indexed, Heaped, Heap.Ordered, Heap.TotalPreorder, Dict.Dictionary.Valid;
      hide Dict.Dictionary.Contents, Folded, First, Armed, Stored, Advances, NoEntry;
      var argh := heap.Peek();
      var none := heap.used == 0;
      ghost var was := ents;
      TopIsFirst(ents, heap.Contents());
      var expires := now + duration;
      var lifetime := if life < expires then expires else life;
      ghost var n := Entry(target, issuer, reason, issued, lastmod, expires, lifetime);
      ent := Store(Entry(target, issuer, reason, issued, lastmod, expires, lifetime));
      StoredFirst(was, ents, n, ent, none, argh.data);
      StoredAdded(was, ents, Request(issuer, target, duration, reason, issued, lastmod, life, now), ent);
      Rearm(ent, none, argh.data, was, n);
    }

    /** A timer for the new entry if it is now due first. */
    method Rearm(ent: Ptr, none: bool, first: Ptr, ghost was: Entries, ghost n: Entry)
      requires InStep() && Stored(was, ents, n, ent) && ent in ents && (none || first in ents)
      requires (if none then NoEntry(was) else First(was, first)) && Armed(was, timers)
      modifies `timers
      ensures Valid()
    {
      hide Close, Near, Comparator, Indexed, Heaped, Heap.Ordered, Heap.TotalPreorder, Dict.Dictionary.Valid;
      hide Dict.Dictionary.Contents, Folded, First, Armed, Stored, Advances, NoEntry;
      if none || ents[ent].lifetime < ents[first].lifetime {
        ArmedAnew(was, ents, n, ent, none, first);
        timers := multiset{};
        timers := timers + multiset{ents[ent].lifetime};
      } else {
        ArmedStill(was, ents, timers, n, ent, first);
      }
    }

    /** `gline_remove`: the entry stays, but no longer has any effect. */
    method Remove(target: Key, now: Time) returns (found: bool)
      requires Valid()
      modifies `ents, dict, dict.repr
      ensures Valid() && dict.repr == old(dict.repr) && dict.Contents() == old(dict.Contents())
      ensures found <==> Folded(target) in dict.Contents()
      ensures found ==> var p := dict.Contents()[Folded(target)].data;
        p in old(ents) && ents == old(ents)[p := old(ents)[p].(expires := now)]
      ensures !found ==> ents == old(ents)
    {
      hide Close, Near, Comparator, Indexed, Heaped, Heap.Ordered, Heap.TotalPreorder, Dict.Dictionary.Valid;
      hide Dict.Dictionary.Contents, Folded, Armed;
      var gl := Find(target);
      found := gl.Some?;
      if found {
        var p := gl.value;
        IndexedEntry(ents, dict.Contents(), Folded(target));
        Neutral(ents, timers, dict.Contents(), heap.Contents(), p, ents[p].(expires := now));
        ents := ents[p := ents[p].(expires := now)];
      }
    }

    /** The heap's share of forgetting the entry that is due first. */
    method PopFirst() returns (p: Ptr)
      requires heap.Valid() && Heaped(ents, heap.Contents()) && Heap.Ordered(Comparator(ents), heap.Contents())
      requires heap.used > 0 && Close(ents)
      modifies heap, heap.data
      ensures heap.Valid() && heap.used == old(heap.used) - 1 && heap.data == old(heap.data)
      ensures p in ents && old(heap.Contents())[0].data == p && Heaped(ents - {p}, heap.Contents())
      ensures Heap.Ordered(Comparator(ents - {p}), heap.Contents()) && Close(ents - {p})
    {
      hide Close, Comparator, Heaped, Heap.Ordered, Heap.TotalPreorder;
      var wraa := heap.Peek();
      p := wraa.data;
      ghost var items := heap.Contents();
      HeapedTop(ents, items);
      ComparatorOrders(ents);
      heap.Pop(Comparator(ents));
      HeapedPop(ents, items, heap.Contents());
      CloseWithout(ents, p);
      Reorder(ents, ents - {p}, heap.Contents(), p);
    }

    /** Forgets the entry that is due first. */
    method DropFirst()
      requires InStep() && heap.used > 0
      modifies `ents, dict, dict.repr, heap, heap.data
      ensures InStep() && old(heap.Contents())[0].data in old(ents)
      ensures ents == old(ents) - {old(heap.Contents())[0].data}
      ensures heap.data == old(heap.data) && dict.repr <= old(dict.repr) && heap.used == old(heap.used) - 1
    {
      hide Close, Near, Comparator, Indexed, Heaped, Heap.Ordered, Heap.TotalPreorder, Dict.Dictionary.Valid;
      hide Dict.Dictionary.Contents, Folded;
      var p := PopFirst();
      IndexedOut(ents, dict.Contents(), p);
      var _ := dict.Remove(ents[p].target);
      ents := ents - {p};
    }

    /** `gline_expire`, called when the pending timer has just been taken off the queue. */
    method Expire(now: Time)
      requires InStep() && timers == multiset{}
      modifies this, dict, dict.repr, heap, heap.data
      ensures Valid() && Outlasting(old(ents), ents, now) && forall t :: t in timers ==> t > now
      ensures heap.data == old(heap.data) && dict.repr <= old(dict.repr)
    {
      hide Close, Near, Comparator, Indexed, Heaped, Heap.Ordered, Heap.TotalPreorder, Dict.Dictionary.Valid;
      hide Dict.Dictionary.Contents, Folded, Armed, First, NoEntry, Outlasting;
      ghost var was := ents;
      var stopped := 0;
      AllSurvive(was, now);
      while heap.used > 0
        invariant InStep() && timers == multiset{} && Surviving(was, ents, now)
        invariant heap.data == old(heap.data) && dict.repr <= old(dict.repr)
        decreases heap.used
      {
        var wraa := heap.Peek();
        TopIsFirst(ents, heap.Contents());
        FirstIn(ents, wraa.data);
        stopped := ents[wraa.data].lifetime;
        if stopped > now { break; }
        DropFirst();
      }
      TopIsFirst(ents, heap.Contents());
      if heap.used > 0 {
        timers := timers + multiset{stopped};
        ArmedAt(was, ents, heap.Contents()[0].data, now);
      } else {
        ArmedNone(was, ents, now);
      }
    }

    /** The timer queue at the time `now`: afterwards exactly the entries that are due are
        gone, whether or not the timer was. */
    method TimeqRun(now: Time)
      requires Valid()
      modifies this, dict, dict.repr, heap, heap.data
      ensures Valid() && Outlasting(old(ents), ents, now) && forall t :: t in timers ==> t > now
      ensures heap.data == old(heap.data) && dict.repr <= old(dict.repr)
    {
      hide Indexed, Heaped, Heap.Ordered, Dict.MapOf, Outlasting, NoEntry;
      if timers == multiset{} {
        UnarmedNone(ents, timers, now);
        return;
      }
      var t: Time :| t in timers;
      ArmedOne(ents, timers, t, now);
      if t > now { return; }
      timers := timers - multiset{t};
      Expire(now);
    }
  }

  function Later(a: Time, b: Time): Time { if a < b then b else a }

  lemma RefreshStored(ents: Entries, p: Ptr, n: Entry)
    requires p in ents && Folded(ents[p].target) == Folded(n.target)
    ensures Refreshed(ents[p], n).target == ents[p].target
    ensures Stored(ents, ents[p := Refreshed(ents[p], n)], n, p)
  {
  }

  lemma EnterStored(ents: Entries, p: Ptr, n: Entry)
    requires p !in ents
    ensures Stored(ents, ents[p := n], n, p)
  {
  }

  lemma StoredFirst(a: Entries, b: Entries, n: Entry, ent: Ptr, none: bool, first: Ptr)
    requires Stored(a, b, n, ent) && (none || First(a, first))
    ensures ent in b && Advances(a, b) && (none || first in b)
  {
  }

  /** No entry is due before this one. */
  ghost predicate First(ents: Entries, first: Ptr) {
    first in ents && forall p :: p in ents ==> ents[first].lifetime <= ents[p].lifetime
  }

  lemma TopIsFirst(ents: Entries, items: seq<Heap.Item>)
    requires Close(ents) && Heaped(ents, items) && Heap.Ordered(Comparator(ents), items)
    ensures if items == [] then NoEntry(ents) else First(ents, items[0].data) && items[0].key == items[0].data
  {
    HeapedTop(ents, items);
    ComparatorOrders(ents);
    if items != [] {
      forall p | p in ents ensures ents[items[0].data].lifetime <= ents[p].lifetime {
        var k :| 0 <= k < |items| && items[k] == Heap.Item(p, p);
        Heap.TopIsLeast(Comparator(ents), items, k);
        SignRight(ents, items[0].key, p);
      }
    }
  }

  lemma ArmedAnew(a: Entries, b: Entries, n: Entry, ent: Ptr, none: bool, first: Ptr)
    requires Stored(a, b, n, ent)
    requires if none then NoEntry(a) else First(a, first) && b[ent].lifetime < b[first].lifetime
    ensures Armed(b, multiset{} + multiset{b[ent].lifetime})
  {
    var t := b[ent].lifetime;
    assert multiset{} + multiset{t} == multiset{t};
    assert forall p :: p in b ==> t <= b[p].lifetime;
  }

  lemma ArmedStill(a: Entries, b: Entries, timers: multiset<Time>, n: Entry, ent: Ptr, first: Ptr)
    requires Stored(a, b, n, ent) && Armed(a, timers) && First(a, first) && b[first].lifetime <= b[ent].lifetime
    ensures Armed(b, timers)
  {
    var t :| timers == multiset{t} && forall p :: p in a ==> t <= a[p].lifetime;
    assert forall p :: p in b ==> t <= b[p].lifetime;
  }

  lemma FirstIn(ents: Entries, p: Ptr)
    requires First(ents, p)
    ensures p in ents
  {
  }

  /** Only entries that are due have gone. */
  ghost predicate Surviving(a: Entries, b: Entries, now: Time) {
    && (forall p :: p in b ==> p in a && b[p] == a[p])
    && (forall p :: p in a && a[p].lifetime > now ==> p in b)
  }

  lemma AllSurvive(a: Entries, now: Time)
    ensures Surviving(a, a, now)
  {
  }

  lemma ArmedAt(a: Entries, b: Entries, first: Ptr, now: Time)
    requires Surviving(a, b, now) && First(b, first) && b[first].lifetime > now
    ensures Outlasting(a, b, now) && Armed(b, multiset{} + multiset{b[first].lifetime})
  {
    assert multiset{} + multiset{b[first].lifetime} == multiset{b[first].lifetime};
  }

  lemma UnarmedNone(ents: Entries, timers: multiset<Time>, now: Time)
    requires Armed(ents, timers) && timers == multiset{}
    ensures Outlasting(ents, ents, now)
  {
    assert forall t: Time :: |multiset{t}| == 1;
  }

  lemma ArmedOne(ents: Entries, timers: multiset<Time>, t: Time, now: Time)
    requires Armed(ents, timers) && t in timers
    ensures timers - multiset{t} == multiset{}
    ensures (t > now ==> Outlasting(ents, ents, now) && forall t' :: t' in timers ==> t' > now)
  {
  }

  lemma ArmedNone(a: Entries, b: Entries, now: Time)
    requires Surviving(a, b, now) && NoEntry(b)
    ensures Outlasting(a, b, now) && Armed(b, multiset{})
  {
  }

  lemma HeapedPop(ents: Entries, items: seq<Heap.Item>, items': seq<Heap.Item>)
    requires Heaped(ents, items) && items != [] && items[0].data in ents
    requires multiset(items') == multiset(items) - multiset{items[0]}
    ensures Heaped(ents - {items[0].data}, items')
  {
    assert items[0] in multiset(items);
  }

  /** A change that leaves target and lifetime alone disturbs nothing. */
  lemma Neutral(ents: Entries, timers: multiset<Time>, dict: map<seq<int>, Dict.Entry>, items: seq<Heap.Item>, p: Ptr,
                e: Entry)
    requires p in ents && e.target == ents[p].target && e.lifetime == ents[p].lifetime
    requires Close(ents) && Indexed(ents, dict) && Heaped(ents, items) && Heap.Ordered(Comparator(ents), items)
    requires Armed(ents, timers)
    ensures var b := ents[p := e];
      && Close(b) && Indexed(b, dict) && Heaped(b, items) && Heap.Ordered(Comparator(b), items)
      && Armed(b, timers)
  {
    hide Close, Heap.Ordered, Comparator, Folded, AsInt, Heaped;
    NeutralOrder(ents, items, p, e);
    SameHeaped(ents, items, p, e);
    if t :| timers == multiset{t} && forall q :: q in ents ==> t <= ents[q].lifetime {
      var b := ents[p := e];
      assert forall q :: q in b ==> t <= b[q].lifetime;
    }
  }

  lemma SameHeaped(ents: Entries, items: seq<Heap.Item>, p: Ptr, e: Entry)
    requires p in ents && Heaped(ents, items)
    ensures Heaped(ents[p := e], items)
  {
    forall x ensures multiset(items)[x] == if x.key == x.data && x.data in ents[p := e] then 1 else 0 {
      assert x.data in ents <==> x.data in ents[p := e];
    }
  }

  lemma NeutralOrder(ents: Entries, items: seq<Heap.Item>, p: Ptr, e: Entry)
    requires p in ents && e.lifetime == ents[p].lifetime && Close(ents) && Heap.Ordered(Comparator(ents), items)
    ensures Close(ents[p := e]) && Heap.Ordered(Comparator(ents[p := e]), items)
  {
    hide RightSign, Heap.Ordered, Comparator;
    assert Near(ents, ents[p].lifetime);
    CloseWith(ents, p, e);
    OrderedElsewhere(ents, ents[p := e], items);
  }

  lemma IndexedEntry(ents: Entries, dict: map<seq<int>, Dict.Entry>, f: seq<int>)
    requires Indexed(ents, dict) && f in dict
    ensures dict[f].data in ents && Folded(ents[dict[f].data].target) == f
  {
  }

  lemma IndexedSame(ents: Entries, dict: map<seq<int>, Dict.Entry>, p: Ptr, e: Entry)
    requires Indexed(ents, dict) && p in ents && e.target == ents[p].target
    ensures Indexed(ents[p := e], dict)
  {
  }

  lemma IndexedNew(ents: Entries, dict: map<seq<int>, Dict.Entry>, p: Ptr, e: Entry)
    requires Indexed(ents, dict) && p !in ents && Folded(e.target) !in dict
    ensures Indexed(ents[p := e], dict[Folded(e.target) := Dict.Entry(e.target, p)])
  {
  }

  lemma IndexedOut(ents: Entries, dict: map<seq<int>, Dict.Entry>, p: Ptr)
    requires Indexed(ents, dict) && p in ents
    ensures Indexed(ents - {p}, dict - {Folded(ents[p].target)})
  {
  }

  lemma HeapedNew(ents: Entries, items: seq<Heap.Item>, p: Ptr)
    requires Heaped(ents, items) && p !in ents
    ensures Heaped(ents - {p}, items)
  {
    assert ents - {p} == ents;
  }

  /** A change to an entry that is not in the heap does not disturb its order. */
  lemma Reorder(a: Entries, b: Entries, items: seq<Heap.Item>, p: Ptr)
    requires Close(a) && Close(b) && Heaped(a - {p}, items) && Heap.Ordered(Comparator(a), items)
    requires forall q :: q != p ==> Lifetime(a, q) == Lifetime(b, q)
    ensures Heap.Ordered(Comparator(b), items)
  {
    forall k | 0 <= k < |items| ensures Lifetime(a, items[k].key) == Lifetime(b, items[k].key) {
      assert items[k] in multiset(items);
    }
    OrderedElsewhere(a, b, items);
  }
}