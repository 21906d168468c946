/** Hash tables whose full buckets become tables, as deep as there are masks. */
module RxHash {

  newtype Hash = h: int | 0 <= h < 0x1_0000_0000
  type Bucket = nat

  // --------------------------------------------------------------------- buckets

  function Mask(depth: nat): bv32
    requires depth <= 3
  {
    match depth
    case 0 => 0x12488421
    case 1 => 0x96699669
    case 2 => 0xbe7dd7eb
    case _ => 0xffffffff
  }

  function JoinByte(h: bv32, b: bv32): bv32 {
    (h + (h << 3) + b) & 0xf
  }

  /** `H2B (hash & mask)`: the argument of the macro is not in parentheses there, so it is
      the mask alone that is shifted. */
  function ToBucket(hash: bv32, mask: bv32): bv32 {
    JoinByte(JoinByte(JoinByte(hash & mask & 0xf, hash & (mask >> 8) & 0xf), hash & (mask >> 16) & 0xf),
      hash & (mask >> 24) & 0xf)
  }

  function BucketAt(hash: Hash, depth: nat): Bucket
    requires depth <= 3
  {
    ToBucket(hash as bv32, Mask(depth)) as nat
  }

  /** Only four bits of a hash are ever looked at, */
  lemma LowBitsOnly(hash: bv32, mask: bv32)
    ensures ToBucket(hash, mask) == ToBucket(hash & 0xf, mask)
  {
  }

  /** and the first table looks at them all: what shares a bucket there will share a
      bucket at every depth. */
  lemma NeverSeparated(h1: Hash, h2: Hash, depth: nat)
    requires depth <= 3
    ensures BucketAt(h1, 0) == BucketAt(h2, 0) <==> h1 as bv32 & 0xf == h2 as bv32 & 0xf
    ensures BucketAt(h1, 0) == BucketAt(h2, 0) ==> BucketAt(h1, depth) == BucketAt(h2, depth)
  {
    var a, b := h1 as bv32, h2 as bv32;
    FourBits(a, b, Mask(depth));
    FourBits(a, b, Mask(0));
    hide ToBucket;
    assert BucketAt(h1, 0) as bv32 == ToBucket(a, Mask(0)) && BucketAt(h2, 0) as bv32 == ToBucket(b, Mask(0));
  }

  lemma FourBits(h1: bv32, h2: bv32, mask: bv32)
    ensures ToBucket(h1, Mask(0)) == ToBucket(h2, Mask(0)) <==> h1 & 0xf == h2 & 0xf
    ensures h1 & 0xf == h2 & 0xf ==> ToBucket(h1, mask) == ToBucket(h2, mask)
  {
    LowBitsOnly(h1, Mask(0));
    LowBitsOnly(h2, Mask(0));
    FirstMask(h1 & 0xf);
    FirstMask(h2 & 0xf);
    LowBitsOnly(h1, mask);
    LowBitsOnly(h2, mask);
    Undo(h1 & 0xf);
    Undo(h2 & 0xf);
    hide ToBucket;
  }

  lemma FirstMask(x: bv32)
    requires x == x & 0xf
    ensures ToBucket(x, Mask(0)) == (x + ((x & 1) << 3)) & 0xf
  {
  }

  lemma Undo(x: bv32)
    requires x == x & 0xf
    ensures var b := (x + ((x & 1) << 3)) & 0xf; (b + ((b & 1) << 3)) & 0xf == x
  {
  }

  // ------------------------------------------------------------- tables and items

  /** What a bucket holds; `nested_p` says which. The items are in the order of their
      `next_same_hash` links. */
  datatype Child = List(items: seq<Item>) | Nested(table: Table)

  class Table {
    var parent: Table?
    var refs: int
    var children: map<Bucket, Child>     // a bucket that is not there is a null pointer

    constructor (parent: Table?)
      ensures this.parent == parent && refs == 0 && children == map[]
    {
      this.parent := parent;
      refs, children := 0, map[];
    }
  }

  type Data = int

  class Item {
    var table: Table
    const hash: Hash
    const data: Data

    constructor (table: Table, hash: Hash, data: Data)
      ensures this.table == table && this.hash == hash && this.data == data
    {
      this.table := table;
      this.hash, this.data := hash, data;
    }
  }

  // The same as values.
  datatype Tab = Tab(parent: Table?, refs: int, children: map<Bucket, Child>)
  type Tabs = map<Table, Tab>
  type Homes = map<Item, Table>
  type Paths = map<Table, seq<Bucket>>

  function At(children: map<Bucket, Child>, b: Bucket): Child {
    if b in children then children[b] else List([])
  }

  /** The buckets that lead to a table are those of the hash `h`. */
  ghost predicate OnRoute(path: seq<Bucket>, h: Hash) {
    |path| <= 3 && forall k :: 0 <= k < |path| ==> path[k] == BucketAt(h, k)
  }

  /** The tables form a tree, `path` naming the buckets from the root to each. */
  ghost predicate Tree(root: Table, tabs: Tabs, path: Paths) {
    && root in tabs && tabs.Keys == path.Keys && path[root] == [] && tabs[root].parent == null
    && (forall t {:trigger Below(tabs, path, t)} :: t in tabs && t != root ==> Below(tabs, path, t))
    && (forall t, b {:trigger Leads(root, tabs, path, t, b)} ::
      t in tabs && At(tabs[t].children, b).Nested? ==> Leads(root, tabs, path, t, b))
  }

  ghost predicate Below(tabs: Tabs, path: Paths, t: Table)
    requires t in tabs && tabs.Keys == path.Keys
  {
    var p := path[t];
    && 1 <= |p| <= 3 && tabs[t].parent != null && tabs[t].parent in tabs
    && path[tabs[t].parent] == p[..|p| - 1] && At(tabs[tabs[t].parent].children, p[|p| - 1]) == Nested(t)
  }

  ghost predicate Leads(root: Table, tabs: Tabs, path: Paths, t: Table, b: Bucket)
    requires t in tabs && tabs.Keys == path.Keys && At(tabs[t].children, b).Nested?
  {
    var u := At(tabs[t].children, b).table;
    u in tabs && u != root && tabs[u].parent == t && path[u] == path[t] + [b]
  }

  ghost predicate NoTwice(l: seq<Item>) {
    forall i, j :: 0 <= i < j < |l| ==> l[i] != l[j]
  }

  /** The items of one list belong there. */
  ghost predicate ListOk(homes: Homes, path: seq<Bucket>, t: Table, b: Bucket, l: seq<Item>) {
    && NoTwice(l) && |path| <= 3 && (|path| < 3 ==> |l| <= |path|)
    && forall i :: i in l ==> i in homes && homes[i] == t && BucketAt(i.hash, |path|) == b
  }

  ghost predicate Lists(tabs: Tabs, homes: Homes, path: Paths)
    requires tabs.Keys == path.Keys
  {
    forall t, b ::
      t in tabs && At(tabs[t].children, b).List? ==> ListOk(homes, path[t], t, b, At(tabs[t].children, b).items)
  }

  /** Where an item is. */
  ghost predicate Housed(tabs: Tabs, homes: Homes, path: Paths, i: Item)
    requires i in homes && tabs.Keys == path.Keys
  {
    var t := homes[i];
    t in tabs && OnRoute(path[t], i.hash) &&
    var c := At(tabs[t].children, BucketAt(i.hash, |path[t]|));
    c.List? && i in c.items
  }

  ghost predicate AllHoused(tabs: Tabs, homes: Homes, path: Paths)
    requires tabs.Keys == path.Keys
  {
    forall i :: i in homes ==> Housed(tabs, homes, path, i)
  }

  ghost function Direct(homes: Homes, t: Table): set<Item> {
    set i | i in homes && homes[i] == t
  }

  ghost function Subs(tabs: Tabs, t: Table): set<Table> {
    set u | u in tabs && tabs[u].parent == t
  }

  /** `refs` counts the items and the tables that are directly in a table. */
  ghost predicate Counted(tabs: Tabs, homes: Homes, t: Table)
    requires t in tabs
  {
    tabs[t].refs == |Direct(homes, t)| + |Subs(tabs, t)|
  }

  /** Everything is right, but that the table `hole` may be empty. */
  ghost predicate Ok(root: Table, tabs: Tabs, homes: Homes, path: Paths, hole: Table?) {
    && Tree(root, tabs, path) && Lists(tabs, homes, path)
    && AllHoused(tabs, homes, path)
    && (forall t :: t in tabs ==> Counted(tabs, homes, t))
    && (forall t :: t in tabs && t != root && t != hole ==> tabs[t].refs > 0)
  }

  // -------------------------------------------------------------------- the tree

  lemma {:induction false} SamePath(root: Table, tabs: Tabs, path: Paths, t: Table, u: Table)
    requires Tree(root, tabs, path) && t in tabs && u in tabs && path[t] == path[u]
    ensures t == u
    decreases |path[t]|
  {
    assert (t != root ==> Below(tabs, path, t)) && (u != root ==> Below(tabs, path, u));
    if t != root {
      SamePath(root, tabs, path, tabs[t].parent, tabs[u].parent);
    }
  }

  /** Above a table there is one for each shorter path, with a table in its bucket. */
  lemma {:induction false} Above(root: Table, tabs: Tabs, path: Paths, t: Table, u: Table)
    requires Tree(root, tabs, path) && t in tabs && u in tabs && path[u] < path[t]
    ensures At(tabs[u].children, path[t][|path[u]|]).Nested?
    decreases |path[t]|
  {
    assert Below(tabs, path, t);
    var p := tabs[t].parent;
    if |path[p]| == |path[u]| {
      SamePath(root, tabs, path, p, u);
    } else {
      Above(root, tabs, path, p, u);
    }
  }

  /** A descent for `h` ends at bucket `b` of the table `t`, with the list `l`. */
  ghost predicate Reached(tabs: Tabs, path: Paths, t: Table, h: Hash, b: Bucket, l: seq<Item>) {
    && t in tabs && tabs.Keys == path.Keys && OnRoute(path[t], h)
    && b == BucketAt(h, |path[t]|) && At(tabs[t].children, b) == List(l)
  }

  lemma TreeKeys(root: Table, tabs: Tabs, path: Paths)
    requires Tree(root, tabs, path)
    ensures tabs.Keys == path.Keys && root in tabs
  {
  }

  /** Any item whose hash has the same buckets is in the list that a descent ends at. */
  lemma Located(root: Table, tabs: Tabs, homes: Homes, path: Paths, hole: Table?, t: Table, h: Hash, b: Bucket,
                l: seq<Item>, i: Item)
    requires Ok(root, tabs, homes, path, hole) && Reached(tabs, path, t, h, b, l) && i in homes && i.hash == h
    ensures homes[i] == t && i in l
  {
    hide Lists, Counted, BucketAt;
    assert Housed(tabs, homes, path, i);
    hide Tree;
    var v := homes[i];
    if |path[v]| < |path[t]| {
      assert path[t][..|path[v]|] == path[v];
      Above(root, tabs, path, t, v);
    } else if |path[t]| < |path[v]| {
      assert path[v][..|path[t]|] == path[t];
      Above(root, tabs, path, v, t);
    } else {
      assert path[v] == path[t];
      SamePath(root, tabs, path, v, t);
    }
  }

  lemma Deeper(root: Table, tabs: Tabs, path: Paths, t: Table, h: Hash)
    requires Tree(root, tabs, path) && t in tabs && OnRoute(path[t], h)
    requires At(tabs[t].children, BucketAt(h, |path[t]|)).Nested?
    ensures var u := At(tabs[t].children, BucketAt(h, |path[t]|)).table;
      u in tabs && OnRoute(path[u], h) && |path[u]| == |path[t]| + 1
  {
    var b := BucketAt(h, |path[t]|);
    assert Leads(root, tabs, path, t, b);
    assert Below(tabs, path, At(tabs[t].children, b).table);
  }

  // --------------------------------------------------------------------- changes

  /** The table with another list in one bucket. */
  function Relisted(tab: Tab, b: Bucket, l: seq<Item>, refs: int): Tab {
    Tab(tab.parent, refs, tab.children[b := List(l)])
  }

  /** A new item in front of a list. */
  lemma Added(root: Table, tabs: Tabs, homes: Homes, path: Paths, hole: Table?, t: Table, i: Item, b: Bucket,
              l: seq<Item>)
    requires Ok(root, tabs, homes, path, hole) && (hole == null || hole == t) && i !in homes
    requires Reached(tabs, path, t, i.hash, b, l) && (|path[t]| < 3 ==> |l| < |path[t]|)
    ensures Ok(root, tabs[t := Relisted(tabs[t], b, [i] + l, tabs[t].refs + 1)], homes[i := t], path, null)
  {
    hide Tree, Lists, AllHoused, Counted, OnRoute, BucketAt, At;
    var tabs' := tabs[t := Relisted(tabs[t], b, [i] + l, tabs[t].refs + 1)];
    TreeSame(root, tabs, path, t, b, l, [i] + l, tabs[t].refs + 1);
    AddedLists(tabs, homes, path, t, i, b, l);
    forall u | u in tabs' ensures Counted(tabs', homes[i := t], u) && (u != root ==> tabs'[u].refs > 0) {
      AddedCounts(tabs, homes, tabs', t, i, u);
    }
  }

  lemma AddedCounts(tabs: Tabs, homes: Homes, tabs': Tabs, t: Table, i: Item, u: Table)
    requires t in tabs && u in tabs && i !in homes && Counted(tabs, homes, u)
    requires t in tabs' && tabs' == tabs[t := tabs'[t]] && tabs'[t].parent == tabs[t].parent
    requires tabs'[t].refs == tabs[t].refs + 1
    ensures Counted(tabs', homes[i := t], u) && (u == t ==> tabs'[u].refs > 0)
  {
    assert Subs(tabs', u) == Subs(tabs, u);
    if u == t {
      assert Direct(homes[i := t], u) == Direct(homes, u) + {i};
    } else {
      assert Direct(homes[i := t], u) == Direct(homes, u);
    }
  }

  /** A change of one list leaves the tree. */
  lemma TreeSame(root: Table, tabs: Tabs, path: Paths, t: Table, b: Bucket, l: seq<Item>, l': seq<Item>, refs: int)
    requires Tree(root, tabs, path) && t in tabs && At(tabs[t].children, b) == List(l)
    ensures Tree(root, tabs[t := Relisted(tabs[t], b, l', refs)], path)
  {
    var tabs' := tabs[t := Relisted(tabs[t], b, l', refs)];
    forall u | u in tabs' && u != root ensures Below(tabs', path, u) {
      assert Below(tabs, path, u);
    }
    forall u, b' | u in tabs' && At(tabs'[u].children, b').Nested? ensures Leads(root, tabs', path, u, b') {
      assert Leads(root, tabs, path, u, b');
    }
  }

  lemma AddedLists(tabs: Tabs, homes: Homes, path: Paths, t: Table, i: Item, b: Bucket, l: seq<Item>)
    requires Reached(tabs, path, t, i.hash, b, l) && i !in homes && (|path[t]| < 3 ==> |l| < |path[t]|)
    requires Lists(tabs, homes, path) && AllHoused(tabs, homes, path)
    ensures var tabs' := tabs[t := Relisted(tabs[t], b, [i] + l, tabs[t].refs + 1)];
      Lists(tabs', homes[i := t], path) && AllHoused(tabs', homes[i := t], path)
  {
    hide BucketAt;
    var tabs', homes' := tabs[t := Relisted(tabs[t], b, [i] + l, tabs[t].refs + 1)], homes[i := t];
    assert ListOk(homes, path[t], t, b, l);
    ListGrows(homes, path[t], t, b, l, i);
    forall u, b' | u in tabs' && At(tabs'[u].children, b').List?
      ensures ListOk(homes', path[u], u, b', At(tabs'[u].children, b').items)
    {
      if u != t || b' != b {
        assert ListOk(homes, path[u], u, b', At(tabs[u].children, b').items);
        ListKeeps(homes, homes', path[u], u, b', At(tabs[u].children, b').items);
      }
    }
    forall j | j in homes' ensures Housed(tabs', homes', path, j) {
      assert j != i ==> Housed(tabs, homes, path, j);
      assert i in [i] + l && forall k :: k in l ==> k in [i] + l;
    }
  }

  lemma ListGrows(homes: Homes, path: seq<Bucket>, t: Table, b: Bucket, l: seq<Item>, i: Item)
    requires ListOk(homes, path, t, b, l) && i !in homes && BucketAt(i.hash, |path|) == b
    requires (|path| < 3 ==> |l| < |path|)
    ensures ListOk(homes[i := t], path, t, b, [i] + l)
  {
  }

  lemma ListKeeps(homes: Homes, homes': Homes, path: seq<Bucket>, t: Table, b: Bucket, l: seq<Item>)
    requires ListOk(homes, path, t, b, l) && forall i :: i in l && i in homes ==> i in homes' && homes'[i] == homes[i]
    ensures ListOk(homes', path, t, b, l)
  {
  }

  /** A list without one of its items. */
  function Unlinked(l: seq<Item>, k: nat): seq<Item>
    requires k < |l|
  {
    l[..k] + l[k + 1..]
  }

  lemma UnlinkedHas(l: seq<Item>, k: nat)
    requires NoTwice(l) && k < |l|
    ensures NoTwice(Unlinked(l, k)) && forall x :: x in Unlinked(l, k) <==> x in l && x != l[k]
  {
    var r := Unlinked(l, k);
    assert forall i :: 0 <= i < |r| ==> r[i] == l[if i < k then i else i + 1];
    forall x | x in l && x != l[k] ensures x in r {
      var i :| 0 <= i < |l| && l[i] == x;
      assert r[if i < k then i else i - 1] == x;
    }
  }

  lemma ItemHome(tabs: Tabs, homes: Homes, path: Paths, t: Table, b: Bucket, l: seq<Item>, k: nat)
    requires tabs.Keys == path.Keys && Lists(tabs, homes, path) && t in tabs && At(tabs[t].children, b) == List(l)
    requires k < |l|
    ensures l[k] in homes && homes[l[k]] == t && |path[t]| <= 3 && BucketAt(l[k].hash, |path[t]|) == b
  {
    assert ListOk(homes, path[t], t, b, l);
    assert l[k] in l;
  }

  /** An item is taken off its list; its table may be empty then. */
  lemma Removed(root: Table, tabs: Tabs, homes: Homes, path: Paths, t: Table, b: Bucket, l: seq<Item>, k: nat)
    requires Ok(root, tabs, homes, path, null) && t in tabs && At(tabs[t].children, b) == List(l) && k < |l|
    ensures Ok(root, tabs[t := Relisted(tabs[t], b, Unlinked(l, k), tabs[t].refs - 1)], homes - {l[k]}, path, t)
  {
    hide Tree, Lists, AllHoused, Counted, At, Unlinked, BucketAt, NoTwice, Relisted;
    TreeKeys(root, tabs, path);
    ItemHome(tabs, homes, path, t, b, l, k);
    TreeSame(root, tabs, path, t, b, l, Unlinked(l, k), tabs[t].refs - 1);
    RemovedLists(tabs, homes, path, t, b, l, k);
    var tab' := Relisted(tabs[t], b, Unlinked(l, k), tabs[t].refs - 1);
    RelistedIs(tabs[t], b, Unlinked(l, k), tabs[t].refs - 1);
    RemovedAll(tabs, homes, tabs[t := tab'], t, l[k]);
  }

  lemma RelistedIs(tab: Tab, b: Bucket, l: seq<Item>, refs: int)
    ensures Relisted(tab, b, l, refs).parent == tab.parent && Relisted(tab, b, l, refs).refs == refs
  {
  }

  lemma RemovedAll(tabs: Tabs, homes: Homes, tabs': Tabs, t: Table, i: Item)
    requires t in tabs && i in homes && homes[i] == t && forall u :: u in tabs ==> Counted(tabs, homes, u)
    requires t in tabs' && tabs' == tabs[t := tabs'[t]] && tabs'[t].parent == tabs[t].parent
    requires tabs'[t].refs == tabs[t].refs - 1
    ensures forall u :: u in tabs' ==> Counted(tabs', homes - {i}, u)
  {
    hide Counted;
    forall u | u in tabs' ensures Counted(tabs', homes - {i}, u) {
      RemovedCounts(tabs, homes, tabs', t, i, u);
    }
  }

  lemma RemovedLists(tabs: Tabs, homes: Homes, path: Paths, t: Table, b: Bucket, l: seq<Item>, k: nat)
    requires tabs.Keys == path.Keys && Lists(tabs, homes, path) && AllHoused(tabs, homes, path)
    requires t in tabs && At(tabs[t].children, b) == List(l) && k < |l|
    ensures var tabs' := tabs[t := Relisted(tabs[t], b, Unlinked(l, k), tabs[t].refs - 1)];
      Lists(tabs', homes - {l[k]}, path) && AllHoused(tabs', homes - {l[k]}, path)
  {
    hide BucketAt, Unlinked;
    var tabs', homes' := tabs[t := Relisted(tabs[t], b, Unlinked(l, k), tabs[t].refs - 1)], homes - {l[k]};
    assert ListOk(homes, path[t], t, b, l);
    assert l[k] in l;
    UnlinkedHas(l, k);
    ListShrinks(homes, path[t], t, b, l, k);
    forall u, b' | u in tabs' && At(tabs'[u].children, b').List?
      ensures ListOk(homes', path[u], u, b', At(tabs'[u].children, b').items)
    {
      if u != t || b' != b {
        assert ListOk(homes, path[u], u, b', At(tabs[u].children, b').items);
        OtherList(homes, path[u], u, b', At(tabs[u].children, b').items, path[t], t, b, l, k);
      }
    }
    forall j | j in homes' ensures Housed(tabs', homes', path, j) {
      assert Housed(tabs, homes, path, j);
    }
  }

  lemma ListShrinks(homes: Homes, path: seq<Bucket>, t: Table, b: Bucket, l: seq<Item>, k: nat)
    requires ListOk(homes, path, t, b, l) && k < |l|
    ensures ListOk(homes - {l[k]}, path, t, b, Unlinked(l, k))
  {
    UnlinkedHas(l, k);
  }

  lemma OtherList(homes: Homes, path: seq<Bucket>, t: Table, b: Bucket, l: seq<Item>, path': seq<Bucket>, t': Table,
                  b': Bucket, l': seq<Item>, k: nat)
    requires ListOk(homes, path, t, b, l) && ListOk(homes, path', t', b', l') && k < |l'| && (t != t' || b != b')
    requires (t == t' ==> path == path')
    ensures ListOk(homes - {l'[k]}, path, t, b, l)
  {
    hide BucketAt;
    assert l'[k] in l';
  }

  lemma RemovedCounts(tabs: Tabs, homes: Homes, tabs': Tabs, t: Table, i: Item, u: Table)
    requires t in tabs && u in tabs && i in homes && homes[i] == t && Counted(tabs, homes, u)
    requires t in tabs' && tabs' == tabs[t := tabs'[t]] && tabs'[t].parent == tabs[t].parent
    requires tabs'[t].refs == tabs[t].refs - 1
    ensures Counted(tabs', homes - {i}, u)
  {
    assert Subs(tabs', u) == Subs(tabs, u);
    if u == t {
      assert Direct(homes - {i}, u) == Direct(homes, u) - {i};
    } else {
      assert Direct(homes - {i}, u) == Direct(homes, u);
    }
  }

  /** The tables without `t`, which was in bucket `b` of `u`. */
  function Pruned(tabs: Tabs, t: Table, u: Table, b: Bucket): (r: Tabs)
    requires u in tabs && u != t
    ensures r.Keys == tabs.Keys - {t}
    ensures forall v :: v in r ==> r[v].parent == tabs[v].parent && (v != u ==> r[v] == tabs[v])
    ensures r[u] == Relisted(tabs[u], b, [], tabs[u].refs - 1)
  {
    tabs[u := Relisted(tabs[u], b, [], tabs[u].refs - 1)] - {t}
  }

  /** A table that is empty goes, and its place in its parent with it. */
  lemma Collapsed(root: Table, tabs: Tabs, homes: Homes, path: Paths, t: Table, u: Table, b: Bucket)
    requires Ok(root, tabs, homes, path, t) && t in tabs && t != root && tabs[t].refs == 0
    requires tabs[t].parent == u && path[t] != [] && path[t][|path[t]| - 1] == b
    ensures u in tabs && u != t && path[t] == path[u] + [b] && Ok(root, Pruned(tabs, t, u, b), homes, path - {t}, u)
  {
    assert Below(tabs, path, t) && Counted(tabs, homes, t);
    assert Direct(homes, t) == {} && Subs(tabs, t) == {};
    assert path[t] == path[u] + [b] && At(tabs[u].children, b) == Nested(t) && |path[u]| <= 3;
    hide Tree, Lists, AllHoused, Counted, Direct, Subs, Pruned, Below, At;
    CollapsedTree(root, tabs, path, t, u, b);
    CollapsedLists(tabs, homes, path, t, u, b);
    forall v | v in tabs && v != t ensures Counted(Pruned(tabs, t, u, b), homes, v) {
      CollapsedCounts(tabs, homes, t, u, b, v);
    }
  }

  lemma CollapsedTree(root: Table, tabs: Tabs, path: Paths, t: Table, u: Table, b: Bucket)
    requires Tree(root, tabs, path) && t in tabs && t != root && u in tabs && u != t && Subs(tabs, t) == {}
    requires tabs[t].parent == u && path[t] == path[u] + [b]
    ensures Tree(root, Pruned(tabs, t, u, b), path - {t})
  {
    var tabs', path' := Pruned(tabs, t, u, b), path - {t};
    forall v | v in tabs' && v != root ensures Below(tabs', path', v) {
      CollapsedBelow(root, tabs, path, t, u, b, v);
    }
    forall v, b' | v in tabs' && At(tabs'[v].children, b').Nested? ensures Leads(root, tabs', path', v, b') {
      CollapsedLeads(root, tabs, path, t, u, b, v, b');
    }
    hide Below, Leads, Pruned, At;
  }

  lemma CollapsedBelow(root: Table, tabs: Tabs, path: Paths, t: Table, u: Table, b: Bucket, v: Table)
    requires Tree(root, tabs, path) && t in tabs && t != root && u in tabs && u != t && Subs(tabs, t) == {}
    requires tabs[t].parent == u && path[t] == path[u] + [b] && v in tabs && v != root && v != t
    ensures Below(Pruned(tabs, t, u, b), path - {t}, v)
  {
    assert Below(tabs, path, t) && Below(tabs, path, v);
    assert v !in Subs(tabs, t);
    assert !(tabs[v].parent == u && path[v][|path[v]| - 1] == b);
    hide Pruned, Tree;
  }

  lemma CollapsedLeads(root: Table, tabs: Tabs, path: Paths, t: Table, u: Table, b: Bucket, v: Table, b': Bucket)
    requires Tree(root, tabs, path) && t in tabs && t != root && u in tabs && u != t
    requires tabs[t].parent == u && path[t] == path[u] + [b] && v in tabs && v != t
    requires At(Pruned(tabs, t, u, b)[v].children, b').Nested?
    ensures Leads(root, Pruned(tabs, t, u, b), path - {t}, v, b')
  {
    assert At(tabs[v].children, b').Nested? && Leads(root, tabs, path, v, b');
    LastOf(path[v], b');
    LastOf(path[u], b);
    hide Pruned, Tree;
  }

  lemma LastOf(p: seq<Bucket>, b: Bucket)
    ensures (p + [b])[..|p + [b]| - 1] == p && (p + [b])[|p + [b]| - 1] == b
  {
  }

  lemma CollapsedLists(tabs: Tabs, homes: Homes, path: Paths, t: Table, u: Table, b: Bucket)
    requires tabs.Keys == path.Keys && Lists(tabs, homes, path) && AllHoused(tabs, homes, path)
    requires t in tabs && u in tabs && u != t && Direct(homes, t) == {} && At(tabs[u].children, b) == Nested(t)
    requires |path[u]| <= 3
    ensures var tabs' := Pruned(tabs, t, u, b);
      tabs'.Keys == (path - {t}).Keys && Lists(tabs', homes, path - {t}) && AllHoused(tabs', homes, path - {t})
  {
    var tabs', path' := Pruned(tabs, t, u, b), path - {t};
    hide BucketAt, Pruned;
    forall v, b' | v in tabs' && At(tabs'[v].children, b').List?
      ensures ListOk(homes, path'[v], v, b', At(tabs'[v].children, b').items)
    {
      if v != u || b' != b {
        assert ListOk(homes, path[v], v, b', At(tabs[v].children, b').items);
      }
    }
    forall j | j in homes ensures Housed(tabs', homes, path', j) {
      assert Housed(tabs, homes, path, j);
      assert homes[j] != t by { assert j !in Direct(homes, t); }
    }
  }

  lemma CollapsedCounts(tabs: Tabs, homes: Homes, t: Table, u: Table, b: Bucket, v: Table)
    requires t in tabs && v in tabs && Counted(tabs, homes, v) && v != t && u in tabs && u != t && tabs[t].parent == u
    ensures Counted(Pruned(tabs, t, u, b), homes, v)
  {
    var tabs' := Pruned(tabs, t, u, b);
    hide Pruned;
    if v == u {
      assert Subs(tabs', v) == Subs(tabs, v) - {t};
    } else {
      assert Subs(tabs', v) == Subs(tabs, v);
    }
  }

  // --------------------------------------------------------------------- splitting

  function ItemsAt(children: map<Bucket, Child>, b: Bucket): seq<Item> {
    match At(children, b) case List(l) => l case Nested(_) => []
  }

  /** The buckets of a new table at `depth` that gets the items of `l`, one by one. */
  function Spread(l: seq<Item>, depth: nat): (r: map<Bucket, Child>)
    requires depth <= 3
  {
    if l == [] then map[]
    else
      var r, x := Spread(l[..|l| - 1], depth), l[|l| - 1];
      var b := BucketAt(x.hash, depth);
      r[b := List([x] + ItemsAt(r, b))]
  }

  lemma {:induction false} SpreadHas(l: seq<Item>, depth: nat, b: Bucket)
    requires depth <= 3
    ensures var c := At(Spread(l, depth), b);
      c.List? && |c.items| <= |l| && (forall x ::
        x in c.items <==> x in l && BucketAt(x.hash, depth) == b) && (NoTwice(l) ==> NoTwice(c.items))
  {
    hide BucketAt;
    if l != [] {
      var l', x := l[..|l| - 1], l[|l| - 1];
      SpreadHas(l', depth, b);
      assert l == l' + [x];
      assert NoTwice(l) ==> x !in l';
    }
  }

  /** The list of bucket `b` of `t` goes to the new table `n`. */
  function Split(tabs: Tabs, t: Table, b: Bucket, l: seq<Item>, n: Table, depth: nat): (r: Tabs)
    requires t in tabs && depth <= 3 && n !in tabs
    ensures r.Keys == tabs.Keys + {n} && forall v :: v in tabs && v != t ==> r[v] == tabs[v]
    ensures r[t] == Tab(tabs[t].parent, tabs[t].refs - |l| + 1, tabs[t].children[b := Nested(n)])
    ensures r[n] == Tab(t, |l|, Spread(l, depth))
  {
    tabs[t := Tab(tabs[t].parent, tabs[t].refs - |l| + 1, tabs[t].children[b := Nested(n)])]
      [n := Tab(t, |l|, Spread(l, depth))]
  }

  function Moved(homes: Homes, l: seq<Item>, n: Table): (r: Homes)
    requires forall i :: i in l ==> i in homes
    ensures r.Keys == homes.Keys && forall i :: i in homes ==> r[i] == if i in l then n else homes[i]
  {
    map i | i in homes :: if i in l then n else homes[i]
  }

  lemma SplitOk(root: Table, tabs: Tabs, homes: Homes, path: Paths, t: Table, b: Bucket, l: seq<Item>, n: Table)
    requires Ok(root, tabs, homes, path, null) && t in tabs && At(tabs[t].children, b) == List(l) && |path[t]| < 3
    requires n !in tabs
    ensures forall i :: i in l ==> i in homes
    ensures Ok(root, Split(tabs, t, b, l, n, |path[t]| + 1), Moved(homes, l, n), path[n := path[t] + [b]], n)
  {
    hide Tree, Lists, AllHoused, Counted, Split, Moved, BucketAt, At, Spread, NoTwice, ListOk;
    TreeKeys(root, tabs, path);
    ItemsHome(tabs, homes, path, t, b, l);
    NewIsNowhere(root, tabs, homes, path, n);
    SplitTree(root, tabs, path, t, b, l, n);
    SplitLists(tabs, homes, path, t, b, l, n);
    SplitAll(tabs, homes, path[t], t, b, l, n);
  }

  lemma ItemsHome(tabs: Tabs, homes: Homes, path: Paths, t: Table, b: Bucket, l: seq<Item>)
    requires tabs.Keys == path.Keys && Lists(tabs, homes, path) && t in tabs && At(tabs[t].children, b) == List(l)
    ensures ListOk(homes, path[t], t, b, l) && forall i :: i in l ==> i in homes
  {
    assert ListOk(homes, path[t], t, b, l);
  }

  lemma NewIsNowhere(root: Table, tabs: Tabs, homes: Homes, path: Paths, n: Table)
    requires Tree(root, tabs, path) && AllHoused(tabs, homes, path) && n !in tabs
    ensures n !in homes.Values && forall u :: u in tabs ==> tabs[u].parent != n
  {
    forall i | i in homes ensures homes[i] != n { assert Housed(tabs, homes, path, i); }
    forall u | u in tabs ensures tabs[u].parent != n { assert u != root ==> Below(tabs, path, u); }
  }

  lemma SplitAll(tabs: Tabs, homes: Homes, path: seq<Bucket>, t: Table, b: Bucket, l: seq<Item>, n: Table)
    requires t in tabs && ListOk(homes, path, t, b, l) && |path| < 3 && n !in tabs
    requires forall v :: v in tabs ==> Counted(tabs, homes, v)
    requires n !in homes.Values && forall u :: u in tabs ==> tabs[u].parent != n
    ensures forall v :: v in tabs || v == n ==> Counted(Split(tabs, t, b, l, n, |path| + 1), Moved(homes, l, n), v)
    ensures Split(tabs, t, b, l, n, |path| + 1)[t].refs > 0
  {
    var tabs', homes' := Split(tabs, t, b, l, n, |path| + 1), Moved(homes, l, n);
    hide Counted, Split, Moved, NoTwice;
    SplitCounts(tabs, homes, path, t, b, l, n, t);
    forall v | v in tabs || v == n ensures Counted(tabs', homes', v) {
      SplitCounts(tabs, homes, path, t, b, l, n, v);
    }
  }

  lemma SplitTree(root: Table, tabs: Tabs, path: Paths, t: Table, b: Bucket, l: seq<Item>, n: Table)
    requires Tree(root, tabs, path) && t in tabs && At(tabs[t].children, b) == List(l) && |path[t]| < 3 && n !in tabs
    ensures Tree(root, Split(tabs, t, b, l, n, |path[t]| + 1), path[n := path[t] + [b]])
  {
    var tabs', path' := Split(tabs, t, b, l, n, |path[t]| + 1), path[n := path[t] + [b]];
    hide Split, Spread;
    forall v | v in tabs' && v != root ensures Below(tabs', path', v) {
      if v != n { assert Below(tabs, path, v); }
    }
    forall v, b' | v in tabs' && At(tabs'[v].children, b').Nested? ensures Leads(root, tabs', path', v, b') {
      SpreadHas(l, |path[t]| + 1, b');
      if v != n && (v != t || b' != b) { assert Leads(root, tabs, path, v, b'); }
    }
  }

  lemma SplitLists(tabs: Tabs, homes: Homes, path: Paths, t: Table, b: Bucket, l: seq<Item>, n: Table)
    requires tabs.Keys == path.Keys && Lists(tabs, homes, path) && AllHoused(tabs, homes, path)
    requires t in tabs && At(tabs[t].children, b) == List(l) && ListOk(homes, path[t], t, b, l) && |path[t]| < 3
    requires n !in tabs
    ensures var tabs', path' := Split(tabs, t, b, l, n, |path[t]| + 1), path[n := path[t] + [b]];
      tabs'.Keys == path'.Keys && Lists(tabs', Moved(homes, l, n), path') && AllHoused(tabs', Moved(homes, l, n), path')
  {
    var tabs', homes', path' := Split(tabs, t, b, l, n, |path[t]| + 1), Moved(homes, l, n), path[n := path[t] + [b]];
    hide Split, Spread, BucketAt, Moved, At, NoTwice;
    forall v, b' | v in tabs' && At(tabs'[v].children, b').List?
      ensures ListOk(homes', path'[v], v, b', At(tabs'[v].children, b').items)
    {
      SplitList(tabs, homes, path, t, b, l, n, v, b');
    }
    forall j | j in homes' ensures Housed(tabs', homes', path', j) {
      SplitHoused(tabs, homes, path, t, b, l, n, j);
    }
  }

  lemma SplitList(tabs: Tabs, homes: Homes, path: Paths, t: Table, b: Bucket, l: seq<Item>, n: Table, v: Table,
                  b': Bucket)
    requires tabs.Keys == path.Keys && Lists(tabs, homes, path) && (v in tabs || v == n)
    requires t in tabs && At(tabs[t].children, b) == List(l) && ListOk(homes, path[t], t, b, l) && |path[t]| < 3
    requires n !in tabs
    requires At(Split(tabs, t, b, l, n, |path[t]| + 1)[v].children, b').List?
    ensures ListOk(Moved(homes, l, n), path[n := path[t] + [b]][v], v, b',
      At(Split(tabs, t, b, l, n, |path[t]| + 1)[v].children, b').items)
  {
    hide Split, Spread, BucketAt, Moved;
    if v == n {
      SpreadOk(homes, path[t], t, b, l, n, b');
    } else {
      assert ListOk(homes, path[v], v, b', At(tabs[v].children, b').items);
      OtherMoved(homes, path[v], v, b', At(tabs[v].children, b').items, path[t], t, b, l, n);
    }
  }

  lemma SpreadOk(homes: Homes, path: seq<Bucket>, t: Table, b: Bucket, l: seq<Item>, n: Table, b': Bucket)
    requires ListOk(homes, path, t, b, l) && |path| < 3
    ensures At(Spread(l, |path| + 1), b').List?
    ensures ListOk(Moved(homes, l, n), path + [b], n, b', At(Spread(l, |path| + 1), b').items)
  {
    SpreadHas(l, |path| + 1, b');
    var p := path + [b];
    var items := At(Spread(l, |path| + 1), b').items;
    hide Spread, Moved, NoTwice;
    forall i | i in items ensures i in homes && Moved(homes, l, n)[i] == n && BucketAt(i.hash, |p|) == b' {
      assert i in l;
    }
    assert NoTwice(items);
    assert |p| <= 3;
    assert |p| < 3 ==> |items| <= |p|;
  }

  lemma SplitHoused(tabs: Tabs, homes: Homes, path: Paths, t: Table, b: Bucket, l: seq<Item>, n: Table, j: Item)
    requires tabs.Keys == path.Keys && j in homes && Housed(tabs, homes, path, j)
    requires t in tabs && At(tabs[t].children, b) == List(l) && ListOk(homes, path[t], t, b, l) && |path[t]| < 3
    requires n !in tabs
    ensures Housed(Split(tabs, t, b, l, n, |path[t]| + 1), Moved(homes, l, n), path[n := path[t] + [b]], j)
  {
    hide Split, Spread, BucketAt, Moved;
    if j in l {
      SpreadHas(l, |path[t]| + 1, BucketAt(j.hash, |path[t]| + 1));
    }
  }

  lemma OtherMoved(homes: Homes, path: seq<Bucket>, t: Table, b: Bucket, l: seq<Item>, path': seq<Bucket>, t': Table,
                   b': Bucket, l': seq<Item>, n: Table)
    requires ListOk(homes, path, t, b, l) && ListOk(homes, path', t', b', l') && (t != t' || b != b')
    requires (t == t' ==> path == path')
    ensures ListOk(Moved(homes, l', n), path, t, b, l)
  {
    hide BucketAt, Moved;
  }

  lemma SplitCounts(tabs: Tabs, homes: Homes, path: seq<Bucket>, t: Table, b: Bucket, l: seq<Item>, n: Table, v: Table)
    requires t in tabs && ListOk(homes, path, t, b, l) && |path| < 3 && n !in tabs && (v in tabs || v == n)
    requires (v in tabs ==> Counted(tabs, homes, v)) && n !in homes.Values && forall u ::
      u in tabs ==> tabs[u].parent != n
    ensures Counted(Split(tabs, t, b, l, n, |path| + 1), Moved(homes, l, n), v)
    ensures v == t ==> Split(tabs, t, b, l, n, |path| + 1)[v].refs > 0
  {
    SubsAfter(tabs, t, b, l, n, |path| + 1, v);
    DirectAfter(homes, path, t, b, l, n, v);
    hide Split, Moved, ListOk, Direct, Subs;
  }

  lemma SubsAfter(tabs: Tabs, t: Table, b: Bucket, l: seq<Item>, n: Table, depth: nat, v: Table)
    requires t in tabs && depth <= 3 && n !in tabs && forall u :: u in tabs ==> tabs[u].parent != n
    ensures |Subs(Split(tabs, t, b, l, n, depth), v)| ==
      if v == n then 0 else if v == t then |Subs(tabs, v)| + 1 else |Subs(tabs, v)|
  {
    var tabs' := Split(tabs, t, b, l, n, depth);
    hide Split;
    if v == n {
      assert Subs(tabs', v) == {};
    } else if v == t {
      assert Subs(tabs', v) == Subs(tabs, v) + {n};
    } else {
      assert Subs(tabs', v) == Subs(tabs, v);
    }
  }

  lemma DirectAfter(homes: Homes, path: seq<Bucket>, t: Table, b: Bucket, l: seq<Item>, n: Table, v: Table)
    requires ListOk(homes, path, t, b, l) && n !in homes.Values && n != t
    ensures |Direct(Moved(homes, l, n), v)| ==
      if v == n then |l| else if v == t then |Direct(homes, v)| - |l| else |Direct(homes, v)|
  {
    hide BucketAt, NoTwice;
    if v == n { DirectOfNew(homes, l, n); }
    else if v == t { DirectOfOld(homes, l, t, n); }
    else { DirectOfOther(homes, l, t, n, v); }
    hide Moved, Direct;
    assert |Members(l)| == |l|;
  }

  lemma DirectOfNew(homes: Homes, l: seq<Item>, n: Table)
    requires (forall i :: i in l ==> i in homes) && n !in homes.Values
    ensures Direct(Moved(homes, l, n), n) == Members(l)
  {
    hide Moved;
    assert forall i :: i in homes ==> homes[i] in homes.Values;
  }

  lemma DirectOfOld(homes: Homes, l: seq<Item>, t: Table, n: Table)
    requires (forall i :: i in l ==> i in homes && homes[i] == t) && n != t
    ensures Members(l) <= Direct(homes, t)
    ensures Direct(Moved(homes, l, n), t) == Direct(homes, t) - Members(l)
    ensures |Direct(homes, t) - Members(l)| == |Direct(homes, t)| - |Members(l)|
  {
    hide Moved;
    var d, m := Direct(homes, t), Members(l);
    assert m <= d;
    assert d == m + (d - m);
  }

  lemma DirectOfOther(homes: Homes, l: seq<Item>, t: Table, n: Table, v: Table)
    requires (forall i :: i in l ==> i in homes && homes[i] == t) && v != t && v != n
    ensures Direct(Moved(homes, l, n), v) == Direct(homes, v)
  {
    hide Moved;
  }

  ghost function Members(l: seq<Item>): (s: set<Item>)
    ensures (forall x :: x in s ==> x in l) && (forall x :: x in l ==> x in s)
    ensures NoTwice(l) ==> |s| == |l|
  {
    if l == [] then {} else
      assert l == l[..|l| - 1] + [l[|l| - 1]];
      Members(l[..|l| - 1]) + {l[|l| - 1]}
  }

  // ----------------------------------------------------------------- the operations

  /** What a caller's `eq` and hashes have to be. */
  ghost predicate Lawful(eq: (Data, Data) -> bool, hashOf: Data -> Hash) {
    && (forall a, b :: eq(a, b) ==> eq(b, a))
    && (forall a, b :: eq(a, b) ==> hashOf(a) == hashOf(b))
  }

  ghost predicate NoEquals(items: set<Item>, eq: (Data, Data) -> bool, hashOf: Data -> Hash) {
    && (forall i :: i in items ==> i.hash == hashOf(i.data))
    && (forall i, j :: i in items && j in items && i != j ==> !eq(i.data, j.data))
  }

  ghost predicate Mirrors(tabs: Tabs, homes: Homes)
    reads tabs.Keys, homes.Keys
  {
    && (forall t :: t in tabs ==> tabs[t] == Tab(t.parent, t.refs, t.children))
    && (forall i :: i in homes ==> homes[i] == i.table)
  }

  class HashTable {
    const root: Table
    const eq: (Data, Data) -> bool
    ghost const hashOf: Data -> Hash

    ghost var tabs: Tabs
    ghost var homes: Homes
    ghost var path: Paths

    ghost predicate Valid()
      reads this, tabs.Keys, homes.Keys
    {
      InStep(null) && NoEquals(homes.Keys, eq, hashOf)
    }

    ghost predicate InStep(hole: Table?)
      reads this, tabs.Keys, homes.Keys
    {
      Lawful(eq, hashOf) && Mirrors(tabs, homes) && Ok(root, tabs, homes, path, hole)
    }

    constructor (eq: (Data, Data) -> bool, ghost hashOf: Data -> Hash)
      requires Lawful(eq, hashOf)
      ensures Valid() && homes == map[] && this.eq == eq && this.hashOf == hashOf
    {
      this.eq, this.hashOf := eq, hashOf;
      var root := new Table(null);
      this.root := root;
      tabs, homes, path := map[root := Tab(null, 0, map[])], map[], map[root := []];
      new;
      assert Direct(homes, root) == {} && Subs(tabs, root) == {};
    }

    /** Follows the nested tables. */
    method Descend(hash: Hash) returns (table: Table, bucket: Bucket, depth: nat)
      requires InStep(null)
      ensures table in tabs && table.children == tabs[table].children && At(table.children, bucket).List?
      ensures Reached(tabs, path, table, hash, bucket, At(table.children, bucket).items) && depth == |path[table]|
    {
      hide Lists, AllHoused, Counted, BucketAt;
      table, depth, bucket := root, 0, BucketAt(hash, 0);
      while At(table.children, bucket).Nested?
        invariant table in tabs && OnRoute(path[table], hash) && depth == |path[table]|
        invariant bucket == BucketAt(hash, depth)
        decreases 3 - depth
      {
        Deeper(root, tabs, path, table, hash);
        table := At(table.children, bucket).table;
        depth := depth + 1;
        bucket := BucketAt(hash, depth);
      }
    }

    method Search(l: seq<Item>, value: Data) returns (it: Item?)
      requires forall i :: i in l ==> i in homes
      ensures it != null ==> it in l && eq(it.data, value)
      ensures it == null ==> forall i :: i in l ==> !eq(i.data, value)
    {
      var k := 0;
      while k < |l|
        invariant 0 <= k <= |l| && forall j :: 0 <= j < k ==> !eq(l[j].data, value)
      {
        if eq(l[k].data, value) { return l[k]; }
        k := k + 1;
      }
      it := null;
    }

    /** `rx_hash_find`. */
    method Find(hash: Hash, value: Data) returns (it: Item?)
      requires Valid() && hash == hashOf(value)
      ensures it != null ==> it in homes && eq(it.data, value)
      ensures it == null <==> forall i :: i in homes ==> !eq(i.data, value)
    {
      hide Ok;
      var table, bucket, depth := Descend(hash);
      var l := At(table.children, bucket).items;
      ListInHomes(root, tabs, homes, path, null, table, bucket, l);
      it := Search(l, value);
      if it == null {
        forall i | i in homes ensures !eq(i.data, value) {
          NotThere(root, tabs, homes, path, table, hash, bucket, l, i, eq, hashOf, value);
        }
      }
    }

    /** The items of `l` move to the new table. */
    method Move(table: Table, newtab: Table, depth: nat, l: seq<Item>)
      requires newtab != table && newtab.children == map[] && depth <= 3 && newtab.refs == 0
      modifies newtab`children, newtab`refs, table`refs, Members(l)`table
      ensures newtab.refs == |l| && newtab.children == Spread(l, depth) && table.refs == old(table.refs) - |l|
      ensures forall i :: i in l ==> i.table == newtab
    {
      hide Spread, BucketAt, NoTwice, ItemsAt;
      SpreadNothing(depth);
      var k := 0;
      while k < |l|
        invariant 0 <= k <= |l| && newtab.refs == k && newtab.children == Spread(l[..k], depth)
        invariant table.refs == old(table.refs) - k
        invariant forall j :: 0 <= j < k ==> l[j].table == newtab
      {
        var them := l[k];
        SpreadNext(l, k, depth);
        var newBuck := BucketAt(them.hash, depth);
        newtab.children := newtab.children[newBuck := List([them] + ItemsAt(newtab.children, newBuck))];
        them.table := newtab;
        newtab.refs := newtab.refs + 1;
        table.refs := table.refs - 1;
        k := k + 1;
      }
      assert l[..k] == l;
    }

    /** A new table takes the place and the items of a list. */
    method Hang(table: Table, bucket: Bucket, depth: nat, l: seq<Item>) returns (newtab: Table)
      requires depth <= 3 && table in tabs && Mirrors(tabs, homes) && forall i :: i in l ==> i in homes
      modifies table`children, table`refs, Members(l)`table
      ensures fresh(newtab) && newtab !in tabs && newtab.children == Spread(l, depth)
      ensures Mirrors(Split(tabs, table, bucket, l, newtab, depth), Moved(homes, l, newtab))
    {
      hide Spread, Split, Moved;
      newtab := new Table(table);
      Move(table, newtab, depth, l);
      table.children := table.children[bucket := Nested(newtab)];
      table.refs := table.refs + 1;
      ghost var tabs' := Split(tabs, table, bucket, l, newtab, depth);
      forall t | t in tabs' ensures tabs'[t] == Tab(t.parent, t.refs, t.children) {
        if t != newtab { assert tabs[t] == old(Tab(t.parent, t.refs, t.children)); }
      }
    }

    /** A bucket's items go to a new table at the next depth. */
    method SplitBucket(table: Table, bucket: Bucket, depth: nat, l: seq<Item>) returns (newtab: Table)
      requires InStep(null) && table in tabs && table in path && At(table.children, bucket) == List(l)
      requires depth == |path[table]| < 3
      requires forall i :: i in l ==> i in homes
      modifies this`tabs, this`homes, this`path, table, homes.Keys
      ensures fresh(newtab) && InStep(newtab) && homes.Keys == old(homes.Keys) && tabs.Keys == old(tabs.Keys) + {newtab}
      ensures newtab in path && path[newtab] == old(path)[table] + [bucket] && newtab.children == Spread(l, depth + 1)
    {
      hide Ok, Mirrors, Lawful, At, Spread, Split, Moved, BucketAt, NoTwice;
      ghost var was := path[table];
      MirrorAt(tabs, homes, table);
      newtab := Hang(table, bucket, depth + 1, l);
      SplitOk(root, tabs, homes, path, table, bucket, l, newtab);
      tabs := Split(tabs, table, bucket, l, newtab, depth + 1);
      homes := Moved(homes, l, newtab);
      path := path[newtab := was + [bucket]];
    }

    /** A new item is linked in. */
    method Link(table: Table, bucket: Bucket, hash: Hash, value: Data, ghost hole: Table?) returns (it: Item)
      requires InStep(hole) && (hole == null || hole == table) && At(table.children, bucket).List?
      requires Reached(tabs, path, table, hash, bucket, At(table.children, bucket).items)
      requires |path[table]| < 3 ==> |At(table.children, bucket).items| < |path[table]|
      modifies this`tabs, this`homes, table
      ensures InStep(null) && fresh(it) && it.hash == hash && it.data == value && homes.Keys == old(homes.Keys) + {it}
    {
      hide Ok, Reached;
      assert table in tabs by { ReachedIn(tabs, path, table, hash, bucket, At(table.children, bucket).items); }
      var l := At(table.children, bucket).items;
      it := new Item(table, hash, value);
      Added(root, tabs, homes, path, hole, table, it, bucket, l);
      table.children := table.children[bucket := List([it] + l)];
      table.refs := table.refs + 1;
      tabs := tabs[table := Relisted(tabs[table], bucket, [it] + l, tabs[table].refs + 1)];
      homes := homes[it := table];
    }

    /** `rx_hash_store`. */
    method Store(hash: Hash, value: Data) returns (it: Item)
      requires Valid() && hash == hashOf(value)
      modifies this`tabs, this`homes, this`path, tabs.Keys, homes.Keys
      ensures Valid()
      ensures (exists i :: i in old(homes) && eq(i.data, value)) ==>
        it in old(homes) && eq(it.data, value) && homes.Keys == old(homes.Keys)
      ensures (forall i :: i in old(homes) ==> !eq(i.data, value)) ==>
        fresh(it) && it.data == value && homes.Keys == old(homes.Keys) + {it}
    {
      hide Ok, Lawful, Reached, Mirrors, At, BucketAt, NoTwice, OnRoute;
      var table, bucket, depth := Descend(hash);
      var l := At(table.children, bucket).items;
      MirrorAt(tabs, homes, table);
      ReachedIn(tabs, path, table, hash, bucket, l);
      ListInHomes(root, tabs, homes, path, null, table, bucket, l);
      var found := Search(l, value);
      if found != null { return found; }
      AbsentFrom(root, tabs, homes, path, table, hash, bucket, l, eq, hashOf, value);
      it := StoreNew(table, bucket, depth, hash, value, l);
      StillNoEquals(old(homes.Keys), it, eq, hashOf);
    }

    /** The rest of `rx_hash_store`, for a value that is not there. */
    method StoreNew(t: Table, b: Bucket, depth: nat, hash: Hash, value: Data, l: seq<Item>) returns (it: Item)
      requires InStep(null) && t in tabs && At(t.children, b) == List(l) && t in path && depth == |path[t]|
      requires Reached(tabs, path, t, hash, b, l) && (forall i :: i in l ==> i in homes) && (depth < 3 ==> |l| <= depth)
      modifies this`tabs, this`homes, this`path, tabs.Keys, homes.Keys
      ensures InStep(null) && fresh(it) && it.hash == hash && it.data == value && homes.Keys == old(homes.Keys) + {it}
    {
      hide Ok, Lawful, Reached, Mirrors, At, BucketAt, NoTwice, OnRoute, Spread;
      var table, bucket := t, b;
      ghost var hole: Table? := null;
      ReachedIn(tabs, path, t, hash, b, l);
      if depth < 3 && Overflows(|l|) {
        ghost var p := path[table];
        table := SplitBucket(table, bucket, depth, l);
        hole := table;
        OkKeys(root, tabs, homes, path, hole);
        ReachedNext(tabs, homes, path, p, bucket, hash, table, l);
        bucket := BucketAt(hash, depth + 1);
      }
      it := Link(table, bucket, hash, value, hole);
    }

    /** `rx_hash_free`. */
    method Free(it: Item)
      requires Valid() && it in homes
      modifies this`tabs, this`homes, this`path, tabs.Keys
      ensures Valid() && homes.Keys == old(homes.Keys) - {it}
    {
      hide Ok, Lawful, Mirrors, Housed, At, BucketAt, NoTwice, OnRoute;
      HousedAt(root, tabs, homes, path, it);
      MirrorHome(tabs, homes, it);
      var table, hash := it.table, it.hash;
      var depth := DepthOf(table);
      var bucket := BucketAt(hash, depth);
      MirrorAt(tabs, homes, table);
      var l := At(table.children, bucket).items;
      ListInHomes(root, tabs, homes, path, null, table, bucket, l);
      Unlink(it, table, bucket, l);
      FewerNoEquals(old(homes.Keys), it, eq, hashOf);
      Cascade(table, hash, depth);
    }

    /** Counts the parents. */
    method DepthOf(table: Table) returns (depth: nat)
      requires InStep(null) && table in tabs
      ensures table in path && depth == |path[table]| <= 3
    {
      hide Lists, AllHoused, Counted;
      Parents(root, tabs, homes, path, null, table);
      if table.parent != null {
        Parents(root, tabs, homes, path, null, table.parent);
        if table.parent.parent != null {
          Parents(root, tabs, homes, path, null, table.parent.parent);
          depth := if table.parent.parent.parent != null then 3 else 2;
        } else {
          depth := 1;
        }
      } else {
        depth := 0;
      }
    }

    /** Takes an item off its list. */
    method Unlink(it: Item, table: Table, bucket: Bucket, l: seq<Item>)
      requires InStep(null) && table in tabs && At(table.children, bucket) == List(l) && it in l && NoTwice(l)
      modifies this`tabs, this`homes, table`refs, table`children
      ensures InStep(table) && homes == old(homes) - {it} && tabs.Keys == old(tabs.Keys)
    {
      hide Ok, Lawful, At, NoTwice;
      var pos := 0;
      while l[pos] != it
        invariant pos < |l| && it !in l[..pos]
        decreases |l| - pos
      {
        pos := pos + 1;
      }
      Removed(root, tabs, homes, path, table, bucket, l, pos);
      table.children := table.children[bucket := List(Unlinked(l, pos))];
      table.refs := table.refs - 1;
      tabs := tabs[table := Relisted(tabs[table], bucket, Unlinked(l, pos), tabs[table].refs - 1)];
      homes := homes - {it};
    }

    /** Empty tables go, one after the other, towards the root. */
    method Cascade(table: Table, hash: Hash, depth: nat)
      requires InStep(table) && table in tabs && table in path && depth == |path[table]| && OnRoute(path[table], hash)
      modifies this`tabs, this`path, tabs.Keys
      ensures InStep(null)
    {
      hide Ok, Lawful, OnRoute, BucketAt, Mirrors;
      var t, d := table, depth;
      MirrorAt(tabs, homes, t);
      while t.refs == 0 && d > 0
        invariant InStep(t) && t in tabs && t in path && d == |path[t]| && OnRoute(path[t], hash)
        invariant tabs.Keys <= old(tabs.Keys) && t.refs == tabs[t].refs
        decreases d
      {
        t, d := DropTable(t, hash, d);
      }
      Parents(root, tabs, homes, path, t, t);
      HoleFilled(root, tabs, homes, path, t);
    }

    /** One empty table goes. */
    method DropTable(save: Table, hash: Hash, depth: nat) returns (table: Table, d: nat)
      requires InStep(save) && save in tabs && save in path && save.refs == 0 && depth == |path[save]| > 0
      requires OnRoute(path[save], hash)
      modifies this`tabs, this`path, tabs.Keys
      ensures InStep(table) && table in tabs && table in path && d == |path[table]| == depth - 1
      ensures OnRoute(path[table], hash)
      ensures tabs.Keys <= old(tabs.Keys) && table.refs == tabs[table].refs
    {
      hide Ok, Lawful, BucketAt;
      Parents(root, tabs, homes, path, save, save);
      table := save.parent;
      d := depth - 1;
      var bucket := BucketAt(hash, d);
      Collapsed(root, tabs, homes, path, save, table, bucket);
      table.refs := table.refs - 1;
      table.children := table.children[bucket := List([])];
      tabs := Pruned(tabs, save, table, bucket);
      path := path - {save};
    }
  }

  lemma ListInHomes(root: Table, tabs: Tabs, homes: Homes, path: Paths, hole: Table?, t: Table, b: Bucket, l: seq<Item>)
    requires Ok(root, tabs, homes, path, hole) && t in tabs && At(tabs[t].children, b) == List(l)
    ensures t in path && ListOk(homes, path[t], t, b, l)
    ensures forall i :: i in l ==> i in homes
  {
    assert ListOk(homes, path[t], t, b, l);
  }

  /** If nothing in the list equals a value, nothing at all does. */
  lemma NotThere(root: Table, tabs: Tabs, homes: Homes, path: Paths, t: Table, h: Hash, b: Bucket, l: seq<Item>,
                 i: Item,
                 eq: (Data, Data) -> bool, hashOf: Data -> Hash, value: Data)
    requires Ok(root, tabs, homes, path, null) && Reached(tabs, path, t, h, b, l) && i in homes
    requires Lawful(eq, hashOf) && i.hash == hashOf(i.data) && h == hashOf(value)
    requires forall j :: j in l ==> !eq(j.data, value)
    ensures !eq(i.data, value)
  {
    hide Ok, Reached;
    if eq(i.data, value) {
      Located(root, tabs, homes, path, null, t, h, b, l, i);
    }
  }

  lemma ReachedIn(tabs: Tabs, path: Paths, t: Table, h: Hash, b: Bucket, l: seq<Item>)
    requires Reached(tabs, path, t, h, b, l)
    ensures t in tabs && t in path && |path[t]| <= 3 && OnRoute(path[t], h) && b == BucketAt(h, |path[t]|)
  {
  }

  lemma SpreadNothing(depth: nat)
    requires depth <= 3
    ensures Spread([], depth) == map[]
  {
  }

  lemma SpreadNext(l: seq<Item>, k: nat, depth: nat)
    requires depth <= 3 && k < |l|
    ensures var b := BucketAt(l[k].hash, depth);
      Spread(l[..k + 1], depth) == Spread(l[..k], depth)[b := List([l[k]] + ItemsAt(Spread(l[..k], depth), b))]
  {
    assert l[..k + 1][..k] == l[..k];
  }

  lemma OkKeys(root: Table, tabs: Tabs, homes: Homes, path: Paths, hole: Table?)
    requires Ok(root, tabs, homes, path, hole)
    ensures tabs.Keys == path.Keys && root in tabs && path[root] == []
  {
  }

  lemma MirrorAt(tabs: Tabs, homes: Homes, t: Table)
    requires t in tabs && Mirrors(tabs, homes)
    ensures tabs[t] == Tab(t.parent, t.refs, t.children)
  {
  }

  /** `overflows`: fewer than four items. */
  predicate Overflows(n: nat) {
    !(n >= 4)
  }

  lemma AbsentFrom(root: Table, tabs: Tabs, homes: Homes, path: Paths, t: Table, h: Hash, b: Bucket, l: seq<Item>,
                   eq: (Data, Data) -> bool, hashOf: Data -> Hash, value: Data)
    requires Ok(root, tabs, homes, path, null) && Reached(tabs, path, t, h, b, l)
    requires Lawful(eq, hashOf) && NoEquals(homes.Keys, eq, hashOf) && h == hashOf(value)
    requires forall j :: j in l ==> !eq(j.data, value)
    ensures forall i :: i in homes ==> !eq(i.data, value)
  {
    hide Ok, Reached, Lawful;
    forall i | i in homes ensures !eq(i.data, value) {
      NotThere(root, tabs, homes, path, t, h, b, l, i, eq, hashOf, value);
    }
  }

  /** After a split, the descent goes on to the new table. */
  lemma ReachedNext(tabs: Tabs, homes: Homes, path: Paths, p: seq<Bucket>, b: Bucket, h: Hash, n: Table, l: seq<Item>)
    requires Mirrors(tabs, homes) && tabs.Keys == path.Keys && n in tabs && path[n] == p + [b] && |p| < 3
    requires OnRoute(p, h) && b == BucketAt(h, |p|) && n.children == Spread(l, |p| + 1) && |l| <= |p|
    ensures var b', c := BucketAt(h, |p| + 1), n.children;
      At(c, b').List? && Reached(tabs, path, n, h, b', At(c, b').items) && |At(c, b').items| < |path[n]|
  {
    MirrorAt(tabs, homes, n);
    SpreadHas(l, |p| + 1, BucketAt(h, |p| + 1));
    hide BucketAt, Mirrors, Spread;
    assert |path[n]| == |p| + 1;
  }

  lemma StillNoEquals(items: set<Item>, it: Item, eq: (Data, Data) -> bool, hashOf: Data -> Hash)
    requires NoEquals(items, eq, hashOf) && Lawful(eq, hashOf) && it.hash == hashOf(it.data)
    requires forall i :: i in items ==> !eq(i.data, it.data)
    ensures NoEquals(items + {it}, eq, hashOf)
  {
  }

  /** The root is the one table without a parent, and the one with an empty path. */
  lemma Parents(root: Table, tabs: Tabs, homes: Homes, path: Paths, hole: Table?, t: Table)
    requires Ok(root, tabs, homes, path, hole) && t in tabs
    ensures t in path && |path[t]| <= 3 && (t == root <==> tabs[t].parent == null) && (t == root <==> path[t] == [])
    ensures t != root ==> tabs[t].parent in path && tabs[t].parent in tabs && |path[tabs[t].parent]| == |path[t]| - 1
  {
    assert t != root ==> Below(tabs, path, t);
  }

  lemma HoleFilled(root: Table, tabs: Tabs, homes: Homes, path: Paths, t: Table)
    requires Ok(root, tabs, homes, path, t) && t in tabs && (t == root || tabs[t].refs != 0)
    ensures Ok(root, tabs, homes, path, null)
  {
    assert Counted(tabs, homes, t);
  }

  lemma HousedAt(root: Table, tabs: Tabs, homes: Homes, path: Paths, i: Item)
    requires Ok(root, tabs, homes, path, null) && i in homes
    ensures homes[i] in tabs && homes[i] in path && OnRoute(path[homes[i]], i.hash)
    ensures var t := homes[i];
      var c := At(tabs[t].children, BucketAt(i.hash, |path[t]|));
      c.List? && i in c.items
  {
    assert Housed(tabs, homes, path, i);
  }

  lemma MirrorHome(tabs: Tabs, homes: Homes, i: Item)
    requires Mirrors(tabs, homes) && i in homes
    ensures homes[i] == i.table
  {
  }

  lemma FewerNoEquals(items: set<Item>, it: Item, eq: (Data, Data) -> bool, hashOf: Data -> Hash)
    requires NoEquals(items, eq, hashOf)
    ensures NoEquals(items - {it}, eq, hashOf)
  {
  }

  // ------------------------------------------------------------- what it amounts to

  /** The length of a list never keeps `rx_hash_store` from splitting: the root has no
      items of its own, and no list above the last level gets longer than two. */
  lemma AlwaysSplits(root: Table, tabs: Tabs, homes: Homes, path: Paths, t: Table, b: Bucket, l: seq<Item>)
    requires Ok(root, tabs, homes, path, null) && t in tabs && At(tabs[t].children, b) == List(l)
    ensures t in path && (|path[t]| < 3 ==> |l| <= |path[t]| && Overflows(|l|))
    ensures t == root ==> l == []
  {
    ListInHomes(root, tabs, homes, path, null, t, b, l);
    Parents(root, tabs, homes, path, null, t);
  }

  /** `refs` is exact, and a table below the root is never empty nor deeper than three. */
  lemma RefsExact(root: Table, tabs: Tabs, homes: Homes, path: Paths, t: Table)
    requires Ok(root, tabs, homes, path, null) && t in tabs
    ensures tabs[t].refs == |Direct(homes, t)| + |Subs(tabs, t)|
    ensures t != root ==> tabs[t].refs > 0 && exists i :: i in homes && t in path && OnRoute(path[t], i.hash)
    ensures t in path && |path[t]| <= 3
  {
    assert Counted(tabs, homes, t);
    Parents(root, tabs, homes, path, null, t);
    if t != root { var i := SomeItem(root, tabs, homes, path, t); }
  }

  /** Below every nested table there is an item. */
  lemma {:induction false} SomeItem(root: Table, tabs: Tabs, homes: Homes, path: Paths, t: Table) returns (i: Item)
    requires Ok(root, tabs, homes, path, null) && t in tabs && t != root
    ensures i in homes && t in path && OnRoute(path[t], i.hash)
    decreases if t in path then 3 - |path[t]| else 0
  {
    assert Counted(tabs, homes, t);
    Parents(root, tabs, homes, path, null, t);
    if Direct(homes, t) != {} {
      i :| i in Direct(homes, t);
      HousedAt(root, tabs, homes, path, i);
    } else {
      assert Subs(tabs, t) != {};
      var u :| u in Subs(tabs, t);
      Parents(root, tabs, homes, path, null, u);
      assert Below(tabs, path, u);
      i := SomeItem(root, tabs, homes, path, u);
      hide BucketAt;
      assert forall k :: 0 <= k < |path[t]| ==> path[t][k] == path[u][k];
    }
  }

  /** Under each bucket of the root there is one chain of tables and no tree. */
  lemma OneChain(root: Table, tabs: Tabs, homes: Homes, path: Paths, t: Table, u: Table)
    requires Ok(root, tabs, homes, path, null) && t in tabs && u in tabs && t in path && u in path
    requires |path[t]| == |path[u]| > 0 && path[t][0] == path[u][0]
    ensures t == u
  {
    Parents(root, tabs, homes, path, null, t);
    Parents(root, tabs, homes, path, null, u);
    var i := SomeItem(root, tabs, homes, path, t);
    var j := SomeItem(root, tabs, homes, path, u);
    hide Ok, BucketAt;
    forall k | 0 <= k < |path[t]| ensures path[t][k] == path[u][k] {
      NeverSeparated(i.hash, j.hash, k);
    }
    assert path[t] == path[u];
    SameByPath(root, tabs, homes, path, t, u);
  }

  lemma SameByPath(root: Table, tabs: Tabs, homes: Homes, path: Paths, t: Table, u: Table)
    requires Ok(root, tabs, homes, path, null) && t in tabs && u in tabs && t in path && u in path && path[t] == path[u]
    ensures t == u
  {
    SamePath(root, tabs, path, t, u);
  }
}
