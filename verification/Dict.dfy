/** The dictionary on top of the splay tree: its operations are those of a map from
    case-folded keys, and the thread always lists the nodes in key order. */
module Dict {
  import opened Wrappers
  import opened IrcCase
  import opened DictSplay

  // ----------------------------------------------------------------------- entries

  datatype Entry = Entry(key: Key, data: Data)

  ghost predicate Increasing(es: seq<Entry>) {
    forall i, j :: 0 <= i < j < |es| ==> Compare(es[i].key, es[j].key) < 0
  }

  /** The map a list of entries stands for. */
  ghost function MapOf(es: seq<Entry>): map<seq<int>, Entry> {
    if es == [] then map[] else MapOf(es[..|es| - 1])[Folded(es[|es| - 1].key) := es[|es| - 1]]
  }

  lemma OneInMap(e: Entry)
    ensures MapOf([e]) == map[Folded(e.key) := e]
  {
    assert [e][..0] == [];
  }

  lemma {:induction false} MapOfHas(es: seq<Entry>, f: seq<int>)
    ensures f in MapOf(es) <==> exists i :: 0 <= i < |es| && Folded(es[i].key) == f
    ensures f in MapOf(es) ==> MapOf(es)[f] in es && Folded(MapOf(es)[f].key) == f
  {
    if es != [] {
      var rest := es[..|es| - 1];
      MapOfHas(rest, f);
      if f in MapOf(rest) {
        var i :| 0 <= i < |rest| && Folded(rest[i].key) == f;
        assert es[i] == rest[i];
        assert MapOf(rest)[f] in es;
      }
    }
  }

  lemma IncreasingParts(a: seq<Entry>, e: Entry, b: seq<Entry>)
    requires Increasing(a + [e] + b)
    ensures Increasing(a + b)
    ensures forall x :: x in a + b ==> Folded(x.key) != Folded(e.key)
  {
    var es := a + [e] + b;
    assert es[|a|] == e;
    forall i, j | 0 <= i < j < |a + b| ensures Compare((a + b)[i].key, (a + b)[j].key) < 0 {
      var i', j' := if i < |a| then i else i + 1, if j < |a| then j else j + 1;
      assert es[i'] == (a + b)[i] && es[j'] == (a + b)[j];
    }
    forall x | x in a + b ensures Folded(x.key) != Folded(e.key) {
      var i :| 0 <= i < |a + b| && (a + b)[i] == x;
      CompareEqual(x.key, e.key);
      CompareEqual(e.key, x.key);
      if i < |a| { assert es[i] == x; } else { assert es[i + 1] == x; }
    }
  }

  /** An increasing list holds one entry for a folded key. */
  lemma OneEntry(es: seq<Entry>, i: nat)
    requires Increasing(es) && i < |es|
    ensures Folded(es[i].key) in MapOf(es) && MapOf(es)[Folded(es[i].key)] == es[i]
  {
    var f := Folded(es[i].key);
    MapOfHas(es, f);
    var j :| 0 <= j < |es| && es[j] == MapOf(es)[f];
    CompareEqual(es[i].key, es[j].key);
    CompareEqual(es[j].key, es[i].key);
  }

  lemma InsertedKey(a: seq<Entry>, e: Entry, b: seq<Entry>, f: seq<int>)
    requires Increasing(a + [e] + b) && Increasing(a + b)
    ensures f in MapOf(a + [e] + b) <==> f in MapOf(a + b) || f == Folded(e.key)
  {
    hide MapOf, Folded, Compare;
    var es, fs := a + [e] + b, a + b;
    MapOfHas(es, f);
    MapOfHas(fs, f);
    assert es[|a|] == e;
    if i :| 0 <= i < |es| && Folded(es[i].key) == f {
      if i != |a| { assert es[i] == fs[if i < |a| then i else i - 1]; }
    }
    if i :| 0 <= i < |fs| && Folded(fs[i].key) == f { assert fs[i] == es[if i < |a| then i else i + 1]; }
  }

  lemma InsertedMap(a: seq<Entry>, e: Entry, b: seq<Entry>)
    requires Increasing(a + [e] + b)
    ensures MapOf(a + [e] + b) == MapOf(a + b)[Folded(e.key) := e]
    ensures MapOf(a + b) == MapOf(a + [e] + b) - {Folded(e.key)}
  {
    hide MapOf, Folded, Compare;
    var es, fs := a + [e] + b, a + b;
    IncreasingParts(a, e, b);
    forall f ensures f in MapOf(es) <==> f in MapOf(fs) || f == Folded(e.key) { InsertedKey(a, e, b, f); }
    forall f | f in MapOf(fs) ensures f != Folded(e.key) && f in MapOf(es) && MapOf(es)[f] == MapOf(fs)[f] {
      MapOfHas(fs, f);
      var i :| 0 <= i < |fs| && fs[i] == MapOf(fs)[f];
      var i' := if i < |a| then i else i + 1;
      assert es[i'] == fs[i];
      OneEntry(es, i');
      assert fs[i] in a + b;
    }
    OneEntry(es, |a|);
  }

  /** The first entry, in key order, that `it` holds of. */
  ghost predicate StopsAt(es: seq<Entry>, it: Entry -> bool, i: nat, key: Key)
    requires i < |es|
  {
    it(es[i]) && key == es[i].key && forall j :: 0 <= j < i ==> !it(es[j])
  }

  lemma Stopped(es: seq<Entry>, it: Entry -> bool, i: nat)
    requires i < |es| && it(es[i]) && forall j :: 0 <= j < i ==> !it(es[j])
    ensures StopsAt(es, it, i, es[i].key)
  {
  }

  // ------------------------------------------------------------------------ thread

  ghost function Entries(s: seq<Node>): (es: seq<Entry>)
    reads Elems(s)`key, Elems(s)`data
    ensures |es| == |s| && forall i :: 0 <= i < |s| ==> es[i] == Entry(s[i].key, s[i].data)
  {
    if s == [] then [] else
      assert s[0] in Elems(s) && Elems(s[1..]) <= Elems(s);
      [Entry(s[0].key, s[0].data)] + Entries(s[1..])
  }

  ghost function Before(s: seq<Node>, i: int): Node?
    requires 0 <= i <= |s|
  {
    if i == 0 then null else s[i - 1]
  }

  ghost function After(s: seq<Node>, i: int): Node?
    requires -1 <= i < |s|
  {
    if i == |s| - 1 then null else s[i + 1]
  }

  /** The nodes are doubly linked in this order. */
  ghost predicate Threaded(s: seq<Node>, first: Node?, last: Node?)
    reads Elems(s)`prev, Elems(s)`next
  {
    && first == After(s, -1) && last == Before(s, |s|)
    && forall i :: 0 <= i < |s| ==> InPlace(s, i)
  }

  ghost predicate InPlace(s: seq<Node>, i: nat)
    requires i < |s|
    reads Elems(s)`prev, Elems(s)`next
  {
    assert s[i] in Elems(s);
    s[i].prev == Before(s, i) && s[i].next == After(s, i)
  }

  /** `node` is linked in at position `k`, and nothing else has changed. */
  ghost predicate LinkedAt(s: seq<Node>, k: nat, node: Node, first: Node?, last: Node?)
    requires k <= |s|
    reads Elems(s)`prev, Elems(s)`next, node`prev, node`next
  {
    && node.prev == Before(s, k) && node.next == After(s, k - 1)
    && first == (if k == 0 then node else s[0]) && last == (if k == |s| then node else s[|s| - 1])
    && forall i :: 0 <= i < |s| ==> BesideAt(s, k, node, i)
  }

  ghost predicate BesideAt(s: seq<Node>, k: nat, node: Node, i: nat)
    requires i < |s|
    reads Elems(s)`prev, Elems(s)`next
  {
    assert s[i] in Elems(s);
    && s[i].prev == (if i == k then node else Before(s, i))
    && s[i].next == (if i == k - 1 then node else After(s, i))
  }

  lemma LinkedThreaded(s: seq<Node>, k: nat, node: Node, first: Node?, last: Node?)
    requires k <= |s| && LinkedAt(s, k, node, first, last)
    ensures Threaded(InsertAt(s, k, node), first, last)
  {
    var s' := InsertAt(s, k, node);
    forall i | 0 <= i < |s'| ensures InPlace(s', i) {
      if i < k { assert BesideAt(s, k, node, i); }
      if i > k { assert BesideAt(s, k, node, i - 1); }
    }
  }

  lemma {:induction false} EntriesJoin(a: seq<Node>, b: seq<Node>)
    ensures Entries(a + b) == Entries(a) + Entries(b)
  {
    assert forall i :: 0 <= i < |a| ==> (a + b)[i] == a[i];
    assert forall i :: 0 <= i < |b| ==> (a + b)[|a| + i] == b[i];
  }

  /** A node put where its key belongs. */
  lemma InsertedNode(x: seq<Node>, n: Node, y: seq<Node>)
    requires Sorted(x + y)
    requires AllBelow(Elems(x), n.key) && AllAbove(Elems(y), n.key)
    ensures Distinct(x + [n] + y) && Sorted(x + [n] + y) && Elems(x + [n] + y) == Elems(x + y) + {n}
    ensures MapOf(Entries(x + [n] + y)) == MapOf(Entries(x + y))[Folded(n.key) := Entry(n.key, n.data)]
  {
    var s := x + [n] + y;
    InsertedSorted(x, n, y);
    EntriesJoin(x, y);
    EntriesJoin(x, [n]);
    EntriesJoin(x + [n], y);
    assert Entries([n]) == [Entry(n.key, n.data)];
    InsertedMap(Entries(x), Entry(n.key, n.data), Entries(y));
  }

  lemma InsertedSorted(x: seq<Node>, n: Node, y: seq<Node>)
    requires Sorted(x + y)
    requires AllBelow(Elems(x), n.key) && AllAbove(Elems(y), n.key)
    ensures Distinct(x + [n] + y) && Sorted(x + [n] + y) && Elems(x + [n] + y) == Elems(x + y) + {n}
    ensures Increasing(Entries(x + [n] + y))
  {
    ElemsOfThree(x, [n], y);
    ElemsOfThree(x, [], y);
    ElemsOfOne(n);
    assert x + [] + y == x + y;
    var s := x + [n] + y;
    hide Compare, Sorted, AllBelow, AllAbove, Distinct, Elems;
    forall i, j | 0 <= i < j < |s| ensures Compare(s[i].key, s[j].key) < 0 { InsertedPair(x, n, y, i, j); }
    assert Sorted(s) by { SortedBy(s); }
    SortedDistinct(s);
  }

  lemma SortedBy(s: seq<Node>)
    requires forall i, j :: 0 <= i < j < |s| ==> Compare(s[i].key, s[j].key) < 0
    ensures Sorted(s)
  {
  }

  lemma SortedDistinct(s: seq<Node>)
    requires Sorted(s)
    ensures Distinct(s)
  {
    forall i, j | 0 <= i < j < |s| ensures s[i] != s[j] { CompareEqual(s[i].key, s[j].key); }
  }

  lemma InsertedPair(x: seq<Node>, n: Node, y: seq<Node>, i: nat, j: nat)
    requires Sorted(x + y) && AllBelow(Elems(x), n.key) && AllAbove(Elems(y), n.key)
    requires i < j < |x + [n] + y|
    ensures Compare((x + [n] + y)[i].key, (x + [n] + y)[j].key) < 0
  {
    hide Compare;
    var s := x + [n] + y;
    if i == |x| {
      assert s[j] == y[j - |x| - 1] && y[j - |x| - 1] in Elems(y);
    } else if j == |x| {
      assert s[i] == x[i] && x[i] in Elems(x);
      CompareFlips(n.key, s[i].key);
    } else {
      var i', j' := if i < |x| then i else i - 1, if j < |x| then j else j - 1;
      assert s[i] == (x + y)[i'] && s[j] == (x + y)[j'];
    }
  }

  function InsertAt(s: seq<Node>, k: nat, node: Node): (s': seq<Node>)
    requires k <= |s|
    ensures |s'| == |s| + 1
  {
    s[..k] + [node] + s[k..]
  }

  /** A node goes next to one that all others are apart from by its key. */
  lemma BesideSorted(a: seq<Node>, r: Node, b: seq<Node>, node: Node, k: nat)
    requires Sorted(a + [r] + b) && AllBelow(Elems(a), node.key) && AllAbove(Elems(b), node.key)
    requires Compare(node.key, r.key) != 0 && k == |a| + if Compare(node.key, r.key) < 0 then 0 else 1
    ensures var s := a + [r] + b;
      && Distinct(InsertAt(s, k, node)) && Sorted(InsertAt(s, k, node))
      && Elems(InsertAt(s, k, node)) == Elems(s) + {node}
      && MapOf(Entries(InsertAt(s, k, node))) == MapOf(Entries(s))[Folded(node.key) := Entry(node.key, node.data)]
  {
    hide Distinct, Sorted, MapOf, Folded, Compare;
    var s := a + [r] + b;
    ElemsOfOne(r);
    ElemsOfThree(a, [], [r]);
    ElemsOfThree([r], [], b);
    assert a + [] + [r] == a + [r] && [r] + [] + b == [r] + b;
    assert s == s[..k] + s[k..];
    if k == |a| { assert s[..k] == a && s[k..] == [r] + b; }
    else { assert s[..k] == a + [r] && s[k..] == b; }
    InsertedNode(s[..k], node, s[k..]);
  }

  lemma BesideTree(t: Tree, node: Node)
    requires t.Branch?
    ensures var k, s := |InOrder(t.left)|, InOrder(t);
      && k < |s| && s[k] == t.node
      && InOrder(Branch(t.left, node, Branch(Nil, t.node, t.right))) == InsertAt(s, k, node)
      && InOrder(Branch(Branch(t.left, t.node, Nil), node, t.right)) == InsertAt(s, k + 1, node)
  {
    hide InOrder, InsertAt;
    InOrderBranch(t.left, t.node, t.right);
    InsertedMiddle(InOrder(t.left), t.node, InOrder(t.right), node);
    BeforeRoot(t, node);
    AfterRoot(t, node);
  }

  lemma BeforeRoot(t: Tree, node: Node)
    requires t.Branch?
    ensures InOrder(Branch(t.left, node, Branch(Nil, t.node, t.right)))
      == InOrder(t.left) + [node] + ([t.node] + InOrder(t.right))
  {
    hide InOrder;
    InOrderBranch(t.left, node, Branch(Nil, t.node, t.right));
    InOrderBranch(Nil, t.node, t.right);
    assert [] + [t.node] == [t.node];
  }

  lemma AfterRoot(t: Tree, node: Node)
    requires t.Branch?
    ensures InOrder(Branch(Branch(t.left, t.node, Nil), node, t.right))
      == (InOrder(t.left) + [t.node]) + [node] + InOrder(t.right)
  {
    hide InOrder;
    InOrderBranch(Branch(t.left, t.node, Nil), node, t.right);
    InOrderBranch(t.left, t.node, Nil);
    assert InOrder(t.left) + [t.node] + [] == InOrder(t.left) + [t.node];
  }

  lemma InOrderBranch(left: Tree, n: Node, right: Tree)
    ensures InOrder(Branch(left, n, right)) == InOrder(left) + [n] + InOrder(right) && InOrder(Nil) == []
  {
  }

  lemma BesideNodes(t: Tree, node: Node)
    requires t.Branch?
    ensures Nodes(Branch(t.left, node, Branch(Nil, t.node, t.right))) == Nodes(t) + {node}
    ensures Nodes(Branch(Branch(t.left, t.node, Nil), node, t.right)) == Nodes(t) + {node}
  {
    assert Nodes(Branch(Nil, t.node, t.right)) == {t.node} + Nodes(t.right);
    assert Nodes(Branch(t.left, t.node, Nil)) == Nodes(t.left) + {t.node};
  }

  lemma InsertedMiddle(a: seq<Node>, n: Node, b: seq<Node>, node: Node)
    ensures (a + [n] + b)[|a|] == n
    ensures InsertAt(a + [n] + b, |a|, node) == a + [node] + ([n] + b)
    ensures InsertAt(a + [n] + b, |a| + 1, node) == (a + [n]) + [node] + b
  {
    var s := a + [n] + b;
    assert s[..|a|] == a && s[|a|..] == [n] + b;
    assert s[..|a| + 1] == a + [n] && s[|a| + 1..] == b;
  }

  function RemoveAt(s: seq<Node>, k: nat): (s': seq<Node>)
    requires k < |s|
    ensures |s'| == |s| - 1
  {
    s[..k] + s[k + 1..]
  }

  /** The node at `k` is linked out, and nothing else has changed. */
  ghost predicate UnlinkedAt(s: seq<Node>, k: nat, first: Node?, last: Node?)
    requires k < |s|
    reads Elems(s)`prev, Elems(s)`next
  {
    && first == (if k == 0 then After(s, 0) else s[0])
    && last == (if k == |s| - 1 then Before(s, k) else s[|s| - 1])
    && forall i :: 0 <= i < |s| && i != k ==> AcrossAt(s, k, i)
  }

  ghost predicate AcrossAt(s: seq<Node>, k: nat, i: nat)
    requires i < |s| && k < |s|
    reads Elems(s)`prev, Elems(s)`next
  {
    assert s[i] in Elems(s);
    && s[i].prev == (if i == k + 1 then Before(s, k) else Before(s, i))
    && s[i].next == (if i == k - 1 then After(s, k) else After(s, i))
  }

  lemma UnlinkedThreaded(s: seq<Node>, k: nat, first: Node?, last: Node?)
    requires k < |s| && UnlinkedAt(s, k, first, last) && Elems(RemoveAt(s, k)) <= Elems(s)
    ensures Threaded(RemoveAt(s, k), first, last)
  {
    var s' := RemoveAt(s, k);
    forall i | 0 <= i < |s'| ensures InPlace(s', i) {
      assert AcrossAt(s, k, if i < k then i else i + 1);
    }
  }

  /** Taking a node out of a sorted list. */
  lemma RemovedNode(a: seq<Node>, n: Node, b: seq<Node>)
    requires Sorted(a + [n] + b)
    ensures Distinct(a + b) && Sorted(a + b) && Elems(a + b) == Elems(a + [n] + b) - {n}
    ensures MapOf(Entries(a + b)) == MapOf(Entries(a + [n] + b)) - {Folded(n.key)}
  {
    var s, o := a + [n] + b, a + b;
    RemovedSorted(a, n, b);
    EntriesJoin(a, b);
    EntriesJoin(a, [n]);
    EntriesJoin(a + [n], b);
    assert Entries([n]) == [Entry(n.key, n.data)];
    InsertedMap(Entries(a), Entry(n.key, n.data), Entries(b));
  }

  lemma RemovedSorted(a: seq<Node>, n: Node, b: seq<Node>)
    requires Sorted(a + [n] + b)
    ensures Distinct(a + b) && Sorted(a + b) && Elems(a + b) == Elems(a + [n] + b) - {n}
    ensures Increasing(Entries(a + [n] + b))
  {
    var s, o := a + [n] + b, a + b;
    SortedDistinct(s);
    DistinctParts(a, [n], b);
    ElemsOfThree(a, [n], b);
    ElemsOfThree(a, [], b);
    ElemsOfOne(n);
    assert a + [] + b == o;
    hide Compare, Distinct, Elems;
    forall i, j | 0 <= i < j < |o| ensures Compare(o[i].key, o[j].key) < 0 {
      var i', j' := if i < |a| then i else i + 1, if j < |a| then j else j + 1;
      assert o[i] == s[i'] && o[j] == s[j'];
    }
    SortedBy(o);
    SortedDistinct(o);
  }

  lemma DescendsPart(a: seq<Node>, b: seq<Node>, key: Key)
    requires Descends(a + b, key)
    ensures Descends(a, key)
  {
    assert forall i :: 0 <= i < |a| ==> (a + b)[i] == a[i];
  }

  /** A tree of smaller keys parts only at its end. */
  lemma NothingAbove(t: Tree, key: Key)
    requires t.Branch? && Parted(t, key) && AllBelow(Nodes(t), key)
    ensures t.right == Nil
  {
    NoNodes(t.right);
    assert Nodes(t.right) == {};
  }

  lemma NoNodes(t: Tree)
    ensures Nodes(t) == {} <==> t == Nil
  {
    assert t.Branch? ==> t.node in Nodes(t);
  }

  lemma JoinedTree(t: Tree, n: Node, right: Tree)
    requires t.Branch? && t.right == Nil && n !in Nodes(t) && n !in Nodes(right)
    ensures InOrder(Branch(t.left, t.node, right)) == InOrder(t) + InOrder(right)
    ensures Nodes(Branch(t.left, t.node, right)) == Nodes(t) + Nodes(right)
  {
    assert InOrder(t) == InOrder(t.left) + [t.node];
  }

  // -------------------------------------------------------------------- dictionary

  /** Every entry is under its folded key. */
  ghost predicate Keyed(m: map<seq<int>, Entry>) {
    forall f :: f in m ==> Folded(m[f].key) == f
  }

  /** The entries of which the key is not `key`, up to case. */
  ghost function Others(es: set<Entry>, key: Key): set<Entry> {
    set e | e in es && !SameKey(e.key, key)
  }

  /** What the map says of a key, said of the entries. */
  lemma KeyedHas(m: map<seq<int>, Entry>, key: Key)
    requires Keyed(m)
    ensures Folded(key) in m <==> exists e :: e in m.Values && SameKey(e.key, key)
    ensures Folded(key) in m ==> m[Folded(key)] in m.Values && SameKey(m[Folded(key)].key, key)
    ensures (m - {Folded(key)}).Values == Others(m.Values, key)
    ensures forall d :: m[Folded(key) := Entry(key, d)].Values == Others(m.Values, key) + {Entry(key, d)}
  {
    hide Folded, SameKey;
    var g := Folded(key);
    forall f | f in m ensures f == g <==> SameKey(m[f].key, key) { SameKeyExact(m[f].key, key); }
    forall e | e in m.Values ensures m[Folded(e.key)] == e && Folded(e.key) in m { }
    forall e | e in Others(m.Values, key) ensures e in (m - {g}).Values { assert Folded(e.key) in m - {g}; }
    forall d ensures m[g := Entry(key, d)].Values == Others(m.Values, key) + {Entry(key, d)} {
      var m' := m[g := Entry(key, d)];
      forall e | e in Others(m.Values, key) ensures e in m'.Values { assert Folded(e.key) in m'; }
      assert g in m';
    }
  }

  class Dictionary {
    var root: Node?
    var first: Node?
    var last: Node?
    var count: nat

    ghost var tree: Tree
    ghost var order: seq<Node>
    ghost var repr: set<Node>

    ghost predicate Valid()
      reads this, repr
    {
      && repr == Nodes(tree) && repr == Elems(order) && order == InOrder(tree)
      && Shape(root, tree) && Distinct(order) && Sorted(order)
      && Threaded(order, first, last) && count == |order|
    }

    ghost function Contents(): map<seq<int>, Entry>
      requires Valid()
      reads this, repr
    {
      MapOf(Entries(order))
    }

    lemma EntriesKeyed()
      requires Valid()
      ensures Keyed(Contents())
    {
      forall f | f in Contents() ensures Folded(Contents()[f].key) == f { MapOfHas(Entries(order), f); }
    }

    /** No two entries have the same key, up to case. */
    lemma OnePerKey(a: Entry, b: Entry)
      requires Valid() && a in Contents().Values && b in Contents().Values && SameKey(a.key, b.key)
      ensures a == b
    {
      hide Shape, Threaded, Distinct, Sorted, Folded, MapOf, InOrder, Nodes, Elems, Entries, SameKey;
      EntriesKeyed();
      SameKeyExact(a.key, b.key);
    }

    constructor ()
      ensures Valid() && Contents() == map[] && repr == {}
    {
      root, first, last, count := null, null, null, 0;
      tree, order, repr := Nil, [], {};
    }

    /** The splay that starts every operation changes nothing but the shape. */
    method SplayRoot(key: Key)
      requires Valid() && root != null
      modifies `root, `tree, repr`l, repr`r
      ensures Valid() && root != null && Sought(root, tree, key) && Entries(order) == old(Entries(order))
    {
      hide Distinct, Elems, Sorted, Descends, Threaded, InOrder, Parted;
      SortedDescends(order, key);
      root, tree := Splay(root, key, tree, repr);
    }

    lemma RootInOrder()
      requires Valid() && tree.Branch?
      ensures order == InOrder(tree.left) + [tree.node] + InOrder(tree.right)
    {
    }

    /** After the splay the root decides whether the key is there. */
    lemma Lookup(key: Key)
      requires Valid() && root != null && Sought(root, tree, key)
      ensures Compare(key, root.key) == 0 <==> Folded(key) in Contents()
      ensures Folded(key) in Contents() ==> Contents()[Folded(key)] == Entry(root.key, root.data)
    {
      hide Shape, Threaded, Distinct, Folded, Compare, MapOf;
      var es, a, b := Entries(order), InOrder(tree.left), InOrder(tree.right);
      assert order[|a|] == root by { OnlyRoot(key); }
      MapOfHas(es, Folded(key));
      CompareEqual(key, root.key);
      if Compare(key, root.key) == 0 {
        OneEntry(es, |a|);
      }
      OnlyRoot(key);
      forall i | 0 <= i < |es| ensures Compare(key, es[i].key) == 0 <==> Folded(key) == Folded(es[i].key) {
        CompareEqual(key, es[i].key);
      }
    }

    lemma OnlyRoot(key: Key)
      requires Valid() && root != null && Sought(root, tree, key)
      ensures |InOrder(tree.left)| < |order| && order[|InOrder(tree.left)|] == root
      ensures forall i :: 0 <= i < |order| && i != |InOrder(tree.left)| ==> Compare(key, order[i].key) != 0
    {
      var a, b := InOrder(tree.left), InOrder(tree.right);
      RootInOrder();
      NodesInOrder(tree.left);
      NodesInOrder(tree.right);
      forall i | 0 <= i < |order| && i != |a| ensures Compare(key, order[i].key) != 0 {
        if i < |a| { assert order[i] == a[i] && a[i] in Elems(a); }
        else { assert order[i] == b[i - |a| - 1] && b[i - |a| - 1] in Elems(b); }
      }
    }

    lemma EmptyTree()
      requires Valid()
      ensures root == null <==> order == []
      ensures root == null <==> tree == Nil
      ensures order == [] ==> Contents() == map[]
    {
    }

    /** `dict_find`. */
    method Find(key: Key) returns (data: Option<Data>)
      requires Valid()
      modifies `root, `tree, repr`l, repr`r
      ensures Valid() && Contents() == old(Contents())
      ensures data == if Folded(key) in Contents() then Some(Contents()[Folded(key)].data) else None
      ensures data.None? <==> forall e :: e in Contents().Values ==> !SameKey(e.key, key)
      ensures data.Some? ==> exists e :: e in Contents().Values && SameKey(e.key, key) && e.data == data.value
    {
      EntriesKeyed();
      KeyedHas(Contents(), key);
      hide Shape, Threaded, Distinct, Sorted, Folded, Compare, MapOf, Sought, InOrder, Nodes, Elems, Entries;
      EmptyTree();
      if root == null { return None; }
      SplayRoot(key);
      Lookup(key);
      data := if Compare(key, root.key) == 0 then Some(root.data) else None;
    }

    /** The thread part of an insertion just before the root, which is at `k`. */
    method ThreadBefore(node: Node, ghost k: nat)
      requires root != null && Threaded(order, first, last) && Distinct(order) && Elems(order) == repr
      requires k < |order| && order[k] == root && node !in repr
      modifies `first, repr`prev, repr`next, node`prev, node`next
      ensures LinkedAt(order, k, node, first, last)
    {
      assert InPlace(order, k) && (k > 0 ==> InPlace(order, k - 1) && order[k - 1] in Elems(order));
      label Start:
      if root.prev != null {
        root.prev.next := node;
      } else {
        first := node;
      }
      node.prev := root.prev;
      node.next := root;
      root.prev := node;
      forall i | 0 <= i < |order| ensures BesideAt(order, k, node, i) {
        assert old@Start(InPlace(order, i));
      }
    }

    /** The thread part of an insertion just after the root. */
    method ThreadAfter(node: Node, ghost k: nat)
      requires root != null && Threaded(order, first, last) && Distinct(order) && Elems(order) == repr
      requires k < |order| && order[k] == root && node !in repr
      modifies `last, repr`prev, repr`next, node`prev, node`next
      ensures LinkedAt(order, k + 1, node, first, last)
    {
      assert InPlace(order, k) && (k + 1 < |order| ==> InPlace(order, k + 1) && order[k + 1] in Elems(order));
      label Start:
      if root.next != null {
        root.next.prev := node;
      } else {
        last := node;
      }
      node.next := root.next;
      node.prev := root;
      root.next := node;
      ghost var at := k + 1;
      forall i | 0 <= i < |order| ensures BesideAt(order, at, node, i) {
        assert old@Start(InPlace(order, i));
      }
    }

    /** `node` takes the root's left subtree and the root itself. */
    method ShapeBefore(node: Node)
      requires root != null && repr == Nodes(tree) && Shape(root, tree) && Distinct(InOrder(tree)) && node !in repr
      modifies `root, `tree, root`l, node`l, node`r
      ensures root == node && Shape(root, tree)
      ensures old(tree).Branch? && tree == Branch(old(tree).left, node, Branch(Nil, old(tree).node, old(tree).right))
    {
      BranchApart(tree);
      node.l := root.l;
      node.r := root;
      root.l := null;
      tree := Branch(tree.left, node, Branch(Nil, tree.node, tree.right));
      root := node;
    }

    /** `node` takes the root's right subtree and the root itself. */
    method ShapeAfter(node: Node)
      requires root != null && repr == Nodes(tree) && Shape(root, tree) && Distinct(InOrder(tree)) && node !in repr
      modifies `root, `tree, root`r, node`l, node`r
      ensures root == node && Shape(root, tree)
      ensures old(tree).Branch? && tree == Branch(Branch(old(tree).left, old(tree).node, Nil), node, old(tree).right)
    {
      BranchApart(tree);
      node.r := root.r;
      node.l := root;
      root.r := null;
      tree := Branch(Branch(tree.left, tree.node, Nil), node, tree.right);
      root := node;
    }

    /** Where the key of `node` belongs. */
    lemma BesideOrder(node: Node, k: nat)
      requires Valid() && root != null && node !in repr && Sought(root, tree, node.key)
      requires Compare(node.key, root.key) != 0
      requires k == |InOrder(tree.left)| + if Compare(node.key, root.key) < 0 then 0 else 1
      ensures k <= |order| && Distinct(InsertAt(order, k, node)) && Sorted(InsertAt(order, k, node))
      ensures Elems(InsertAt(order, k, node)) == repr + {node}
      ensures MapOf(Entries(InsertAt(order, k, node))) == Contents()[Folded(node.key) := Entry(node.key, node.data)]
    {
      hide Compare, Distinct, Threaded, Shape, Sorted, MapOf, Folded, InOrder, AllBelow, AllAbove;
      var a, b := InOrder(tree.left), InOrder(tree.right);
      RootInOrder();
      NodesInOrder(tree.left);
      NodesInOrder(tree.right);
      BesideSorted(a, root, b, node, k);
    }

    method InsertThread(node: Node, ghost k: nat)
      requires root != null && Threaded(order, first, last) && Distinct(order) && Elems(order) == repr
      requires k < |order| && order[k] == root && node !in repr && Compare(node.key, root.key) != 0
      modifies `first, `last, repr`prev, repr`next, node`prev, node`next
      ensures Threaded(InsertAt(order, k + if Compare(node.key, root.key) < 0 then 0 else 1, node), first, last)
    {
      hide Distinct, Threaded, Compare, LinkedAt, InsertAt;
      if Compare(node.key, root.key) < 0 {
        ThreadBefore(node, k);
        LinkedThreaded(order, k, node, first, last);
      } else {
        ThreadAfter(node, k);
        LinkedThreaded(order, k + 1, node, first, last);
      }
    }

    method InsertShape(node: Node)
      requires root != null && repr == Nodes(tree) && order == InOrder(tree) && Shape(root, tree) && Distinct(order)
      requires node !in repr
      requires Compare(node.key, root.key) != 0
      modifies `root, `tree, root`l, root`r, node`l, node`r
      ensures root == node && Shape(root, tree) && Nodes(tree) == repr + {node}
      ensures old(tree).Branch? && |InOrder(old(tree).left)| < |order| && tree.Branch?
      ensures InOrder(tree) ==
        InsertAt(order, |InOrder(old(tree).left)| + if Compare(node.key, old(root.key)) < 0 then 0 else 1, node)
    {
      hide Distinct, Compare, InsertAt, InOrder;
      BesideTree(tree, node);
      BesideNodes(tree, node);
      if Compare(node.key, root.key) < 0 { ShapeBefore(node); } else { ShapeAfter(node); }
    }

    /** The pointers of an insertion next to the root. */
    method LinkBeside(node: Node)
      requires Valid() && root != null && node !in repr && Sought(root, tree, node.key)
      requires Compare(node.key, root.key) != 0
      modifies `root, `tree, `first, `last, repr, node`l, node`r, node`prev, node`next
      ensures old(tree).Branch?
      ensures var k := |InOrder(old(tree).left)| + if Compare(node.key, old(root.key)) < 0 then 0 else 1;
        && k <= |order| && Threaded(InsertAt(order, k, node), first, last)
        && InOrder(tree) == InsertAt(order, k, node)
      ensures root == node && Shape(root, tree) && Nodes(tree) == repr + {node}
      ensures forall n :: n in repr + {node} ==> n.key == old(n.key) && n.data == old(n.data)
    {
      hide Distinct, Sorted, Threaded, Compare, MapOf, Folded, InOrder, Nodes, Parted, InsertAt, Shape, Elems;
      assert order[|InOrder(tree.left)|] == root && |InOrder(tree.left)| < |order| by { BesideTree(tree, node); }
      assert root in repr by { ShapeTop(root, tree); }
      ghost var k := |InOrder(tree.left)| + if Compare(node.key, root.key) < 0 then 0 else 1;
      BesideOrder(node, k);
      InsertThread(node, |InOrder(tree.left)|);
      ghost var s := InsertAt(order, k, node);
      assert Threaded(s, first, last);
      InsertShape(node);
      assert Threaded(s, first, last);
    }

    /** Puts a new node just before or after the root, which is where its key belongs. */
    method InsertBeside(node: Node)
      requires Valid() && root != null && node !in repr && Sought(root, tree, node.key)
      requires Compare(node.key, root.key) != 0
      modifies this, repr, node
      ensures Valid() && repr == old(repr) + {node}
      ensures Contents() == old(Contents())[old(Folded(node.key)) := old(Entry(node.key, node.data))]
    {
      hide Distinct, Sorted, Threaded, Compare, MapOf, Folded, InOrder, Nodes, Parted, InsertAt, Shape, Elems, Entries;
      ghost var k := |InOrder(tree.left)| + if Compare(node.key, root.key) < 0 then 0 else 1;
      BesideOrder(node, k);
      LinkBeside(node);
      order := InsertAt(order, k, node);
      repr := repr + {node};
      count := count + 1;
    }

    method InsertOnly(node: Node)
      requires Valid() && root == null && node !in repr
      requires node.l == null && node.r == null && node.prev == null && node.next == null
      modifies this
      ensures Valid() && repr == {node}
      ensures Contents() == map[Folded(node.key) := Entry(node.key, node.data)]
    {
      root, first, last := node, node, node;
      count := count + 1;
      tree, order, repr := Branch(Nil, node, Nil), [node], {node};
      assert Entries(order) == [] + [Entry(node.key, node.data)];
      OneInMap(Entry(node.key, node.data));
    }

    /** An equal key is there: the node gets the new key and the new data. */
    method Replace(key: Key, data: Data)
      requires Valid() && root != null && Sought(root, tree, key) && Compare(key, root.key) == 0
      modifies root`key, root`data
      ensures Valid() && Contents() == old(Contents())[Folded(key) := Entry(key, data)]
    {
      hide Compare, Distinct, Threaded, Shape, Sorted, MapOf, Folded, InOrder, Elems, Nodes;
      ghost var a, b := InOrder(tree.left), InOrder(tree.right);
      RootInOrder();
      NodesInOrder(tree.left);
      NodesInOrder(tree.right);
      assert root in repr by { ShapeTop(root, tree); }
      CompareEqual(key, root.key);
      RemovedNode(a, root, b);
      root.key := key;
      root.data := data;
      InsertedNode(a, root, b);
    }

    /** `dict_insert`. */
    method Insert(key: Key, data: Data)
      requires Valid()
      modifies this, repr
      ensures Valid() && fresh(repr - old(repr))
      ensures Contents() == old(Contents())[Folded(key) := Entry(key, data)]
      ensures Contents().Values == Others(old(Contents()).Values, key) + {Entry(key, data)}
    {
      hide Compare, Distinct, Threaded, Shape, Sorted, MapOf, Folded, InOrder, Elems, Nodes, Sought, Entries;
      hide Others, SameKey;
      EntriesKeyed();
      KeyedHas(Contents(), key);
      EmptyTree();
      var node := new Node(key, data);
      if root == null {
        InsertOnly(node);
      } else {
        SplayRoot(key);
        if Compare(key, root.key) != 0 {
          InsertBeside(node);
        } else {
          ShapeTop(root, tree);
          Replace(key, data);
        }
      }
    }

    /** The thread part of a removal of the root, which is at `k`. */
    method Unthread(ghost k: nat)
      requires root != null && Threaded(order, first, last) && Distinct(order) && Elems(order) == repr
      requires k < |order| && order[k] == root
      modifies `first, `last, repr`prev, repr`next
      ensures UnlinkedAt(order, k, first, last)
    {
      assert InPlace(order, k) && root in repr;
      assert k > 0 ==> InPlace(order, k - 1) && order[k - 1] in Elems(order);
      assert k + 1 < |order| ==> InPlace(order, k + 1) && order[k + 1] in Elems(order);
      label Start:
      if root.prev != null { root.prev.next := root.next; }
      if first == root { first := first.next; }
      if root.next != null { root.next.prev := root.prev; }
      if last == root { last := last.prev; }
      forall i | 0 <= i < |order| && i != k ensures AcrossAt(order, k, i) {
        assert old@Start(InPlace(order, i));
      }
    }

    /** The tree without its root: the largest node of the left subtree is splayed up and
        takes the right subtree. */
    method RemoveShape(key: Key) returns (newRoot: Node?, ghost t': Tree)
      requires Valid() && root != null && Sought(root, tree, key)
      modifies repr`l, repr`r
      ensures Shape(newRoot, t') && Nodes(t') == repr - {root}
      ensures InOrder(t') == InOrder(tree.left) + InOrder(tree.right)
    {
      hide Compare, Distinct, Threaded, Sorted, InOrder, Elems, Descends, AllBelow, AllAbove;
      BranchApart(tree);
      RootInOrder();
      ShapeTop(root, tree);
      InOrderBranch(tree.left, root, tree.right);
      if root.l == null {
        assert InOrder(tree.right) == [] + InOrder(tree.right);
        return root.r, tree.right;
      }
      SortedDescends(order, key);
      assert order == InOrder(tree.left) + ([root] + InOrder(tree.right));
      DescendsPart(InOrder(tree.left), [root] + InOrder(tree.right), key);
      newRoot, t' := Splay(root.l, key, tree.left, Nodes(tree.left));
      NothingAbove(t', key);
      BranchApart(t');
      JoinedTree(t', root, tree.right);
      newRoot.r := root.r;
      t' := Branch(t'.left, newRoot, tree.right);
    }

    /** What is left without the root, which is at `k`. */
    lemma WithoutRoot(k: nat)
      requires Valid() && root != null && k == |InOrder(tree.left)|
      ensures k < |order| && order[k] == root && root in repr
      ensures RemoveAt(order, k) == InOrder(tree.left) + InOrder(tree.right)
      ensures Distinct(RemoveAt(order, k)) && Sorted(RemoveAt(order, k)) && Elems(RemoveAt(order, k)) == repr - {root}
      ensures MapOf(Entries(RemoveAt(order, k))) == Contents() - {Folded(root.key)}
    {
      hide Compare, Distinct, Threaded, Sorted, MapOf, Folded, Elems, Nodes;
      var a, b := InOrder(tree.left), InOrder(tree.right);
      ShapeTop(root, tree);
      RootInOrder();
      assert order[k] == root && order[..k] == a && order[k + 1..] == b;
      RemovedNode(a, root, b);
    }

    /** `dict_remove2`. */
    method Remove(key: Key) returns (found: bool)
      requires Valid()
      modifies this, repr
      ensures Valid() && repr <= old(repr)
      ensures found <==> Folded(key) in old(Contents())
      ensures Contents() == old(Contents()) - {Folded(key)}
      ensures found <==> exists e :: e in old(Contents()).Values && SameKey(e.key, key)
      ensures Contents().Values == Others(old(Contents()).Values, key)
    {
      hide Compare, Distinct, Threaded, Shape, Sorted, MapOf, Folded, InOrder, Elems, Nodes, Sought, Entries;
      hide Others, SameKey;
      EntriesKeyed();
      KeyedHas(Contents(), key);
      EmptyTree();
      if root == null { return false; }
      SplayRoot(key);
      Lookup(key);
      CompareEqual(key, root.key);
      if Compare(key, root.key) != 0 { return false; }
      RemoveRoot(key);
      found := true;
    }

    method RemoveRoot(key: Key)
      requires Valid() && root != null && Sought(root, tree, key)
      modifies this, repr
      ensures Valid() && repr == old(repr) - {old(root)}
      ensures Contents() == old(Contents()) - {old(Folded(root.key))}
    {
      hide Compare, Distinct, Threaded, Shape, Sorted, MapOf, Folded, InOrder, Elems, Nodes, Sought, Entries;
      hide RemoveAt, UnlinkedAt;
      ShapeTop(root, tree);
      ghost var k := |InOrder(tree.left)|;
      WithoutRoot(k);
      var newRoot;
      ghost var t';
      newRoot, t' := RemoveShape(key);
      Unthread(k);
      UnlinkedThreaded(order, k, first, last);
      order := RemoveAt(order, k);
      repr := repr - {root};
      root, tree := newRoot, t';
      count := count - 1;
    }

    lemma Links()
      requires Valid()
      ensures first == if order == [] then null else order[0]
      ensures |Entries(order)| == |order|
      ensures forall k :: 0 <= k < |order| ==>
        && order[k].next == (if k + 1 == |order| then null else order[k + 1])
        && Entries(order)[k] == Entry(order[k].key, order[k].data)
    {
      hide Shape, Sorted, Distinct, InOrder, Nodes, MapOf;
      forall k | 0 <= k < |order|
        ensures order[k].next == if k + 1 == |order| then null else order[k + 1]
      {
        assert InPlace(order, k);
      }
    }

    /** `dict_foreach`, for a callback without effects: the key at which it stops. */
    method Foreach(it: Entry -> bool) returns (stopped: Option<Key>)
      requires Valid()
      ensures stopped == None ==> forall i :: 0 <= i < |order| ==> !it(Entries(order)[i])
      ensures stopped.Some? ==> exists i :: 0 <= i < |order| && StopsAt(Entries(order), it, i, stopped.value)
    {
      hide *;
      Links();
      ghost var es := Entries(order);
      var node := first;
      ghost var k := 0;
      while node != null
        invariant 0 <= k <= |order| && node == (if k == |order| then null else order[k])
        invariant forall j :: 0 <= j < k ==> !it(es[j])
        decreases |order| - k
      {
        if it(Entry(node.key, node.data)) {
          Stopped(es, it, k);
          return Some(node.key);
        }
        node := node.next;
        k := k + 1;
      }
      stopped := None;
    }

    /** `dict_sanity_check` finds nothing wrong: every child is on its side of its parent
        and the count is right. */
    method SanityCheck() returns (ok: bool)
      requires Valid()
      ensures ok
    {
      var nodes := 0;
      var bad := false;
      if root != null {
        bad, nodes := SanityCheckNode(root, tree, repr);
      }
      EmptyTree();
      ok := !bad && nodes == count;
    }
  }

  /** `dict_sanity_check_node`. */
  method SanityCheckNode(node: Node, ghost t: Tree, ghost all: set<Node>) returns (bad: bool, nodes: nat)
    requires Shape(node, t) && Sorted(InOrder(t)) && Nodes(t) <= all
    ensures !bad && nodes == |InOrder(t)|
    decreases t
  {
    hide Compare, Sorted, Elems;
    SortedAround(t);
    NodesInOrder(t.left);
    NodesInOrder(t.right);
    bad, nodes := false, 0;
    if node.l != null {
      var n;
      bad, n := SanityCheckNode(node.l, t.left, all);
      if bad { return; }
      if Compare(node.l.key, node.key) >= 0 { return true, nodes; }
      nodes := nodes + n;
    }
    if node.r != null {
      var n;
      bad, n := SanityCheckNode(node.r, t.right, all);
      if bad { return; }
      if Compare(node.key, node.r.key) >= 0 { return true, nodes; }
      nodes := nodes + n;
    }
    nodes := nodes + 1;
  }

  lemma SortedAround(t: Tree)
    requires t.Branch? && Sorted(InOrder(t))
    ensures Sorted(InOrder(t.left)) && Sorted(InOrder(t.right))
    ensures t.left.Branch? ==> Compare(t.left.node.key, t.node.key) < 0
    ensures t.right.Branch? ==> Compare(t.node.key, t.right.node.key) < 0
  {
    hide Compare, InOrder;
    var a, b := InOrder(t.left), InOrder(t.right);
    InOrderBranch(t.left, t.node, t.right);
    SortedParts(a, t.node, b);
    if t.left.Branch? { TopInOrder(t.left); }
    if t.right.Branch? { TopInOrder(t.right); }
  }

  lemma TopInOrder(t: Tree)
    requires t.Branch?
    ensures t.node in InOrder(t)
  {
    InOrderBranch(t.left, t.node, t.right);
    assert InOrder(t)[|InOrder(t.left)|] == t.node;
  }

  lemma SortedParts(a: seq<Node>, n: Node, b: seq<Node>)
    requires Sorted(a + [n] + b)
    ensures Sorted(a) && Sorted(b)
    ensures forall x :: x in a ==> Compare(x.key, n.key) < 0
    ensures forall x :: x in b ==> Compare(n.key, x.key) < 0
  {
    hide Compare;
    var s := a + [n] + b;
    assert s[|a|] == n;
    assert forall i :: 0 <= i < |a| ==> s[i] == a[i];
    assert forall i :: 0 <= i < |b| ==> s[|a| + 1 + i] == b[i];
  }
}
