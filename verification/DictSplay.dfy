/** The dictionary: a splay tree whose nodes are also threaded in key order. */
module DictSplay {
  import opened IrcCase

  /** A `void *`. */
  type Data = int

  class Node {
    var key: Key
    var data: Data
    var l: Node?
    var r: Node?
    var prev: Node?
    var next: Node?

    constructor (key: Key, data: Data)
      ensures this.key == key && this.data == data && l == null && r == null && prev == null && next == null
    {
      this.key, this.data := key, data;
      l, r, prev, next := null, null, null, null;
    }
  }

  /** The shape of a tree of nodes at one moment. */
  datatype Tree = Nil | Branch(left: Tree, node: Node, right: Tree)

  ghost function InOrder(t: Tree): seq<Node> {
    match t
    case Nil => []
    case Branch(a, n, b) => InOrder(a) + [n] + InOrder(b)
  }

  ghost function Nodes(t: Tree): set<Node> {
    match t
    case Nil => {}
    case Branch(a, n, b) => Nodes(a) + {n} + Nodes(b)
  }

  ghost function Elems(s: seq<Node>): set<Node> {
    set n | n in s
  }

  lemma ElemsOfThree(a: seq<Node>, b: seq<Node>, c: seq<Node>)
    ensures Elems(a + b + c) == Elems(a) + Elems(b) + Elems(c)
  {
  }

  lemma ElemsOfOne(n: Node)
    ensures Elems([n]) == {n}
  {
  }

  lemma {:induction false} NodesInOrder(t: Tree)
    ensures Nodes(t) == Elems(InOrder(t))
  {
    match t
    case Nil =>
    case Branch(a, n, b) =>
      NodesInOrder(a);
      NodesInOrder(b);
      ElemsOfOne(n);
      ElemsOfThree(InOrder(a), [n], InOrder(b));
  }

  /** The pointers from `p` down make the tree `t`. */
  ghost predicate Shape(p: Node?, t: Tree)
    reads Nodes(t)`l, Nodes(t)`r
  {
    match t
    case Nil => p == null
    case Branch(a, n, b) => p == n && Shape(n.l, a) && Shape(n.r, b)
  }

  ghost predicate Distinct(s: seq<Node>) {
    forall i, j :: 0 <= i < j < |s| ==> s[i] != s[j]
  }

  ghost predicate Sorted(s: seq<Node>)
    reads Elems(s)`key
  {
    forall i, j :: 0 <= i < j < |s| ==> Compare(s[i].key, s[j].key) < 0
  }

  /** Seen from `key` the nodes are first smaller, then perhaps one equal, then larger. */
  ghost predicate Descends(s: seq<Node>, key: Key)
    reads Elems(s)`key
  {
    forall i, j :: 0 <= i < j < |s| ==>
      && (Compare(key, s[j].key) >= 0 ==> Compare(key, s[i].key) > 0)
      && (Compare(key, s[i].key) <= 0 ==> Compare(key, s[j].key) < 0)
  }

  ghost predicate AllBelow(ns: set<Node>, key: Key)
    reads ns`key
  {
    forall n :: n in ns ==> Compare(key, n.key) > 0
  }

  ghost predicate AllAbove(ns: set<Node>, key: Key)
    reads ns`key
  {
    forall n :: n in ns ==> Compare(key, n.key) < 0
  }

  lemma SortedDescends(s: seq<Node>, key: Key)
    requires Sorted(s)
    ensures Descends(s, key)
  {
    forall i, j | 0 <= i < j < |s|
      ensures Compare(key, s[j].key) >= 0 ==> Compare(key, s[i].key) > 0
      ensures Compare(key, s[i].key) <= 0 ==> Compare(key, s[j].key) < 0
    {
      CompareFlips(key, s[i].key);
      CompareFlips(key, s[j].key);
      if Compare(key, s[j].key) >= 0 { CompareTransitive(s[i].key, s[j].key, key); }
      if Compare(key, s[i].key) <= 0 { CompareTransitive(key, s[i].key, s[j].key); }
    }
  }

  lemma DistinctParts(a: seq<Node>, b: seq<Node>, c: seq<Node>)
    requires Distinct(a + b + c)
    ensures Distinct(a) && Distinct(b) && Distinct(c)
    ensures Elems(a) !! Elems(b) !! Elems(c)
  {
    var s := a + b + c;
    assert forall i :: 0 <= i < |a| ==> s[i] == a[i];
    assert forall i :: 0 <= i < |b| ==> s[|a| + i] == b[i];
    assert forall i :: 0 <= i < |c| ==> s[|a| + |b| + i] == c[i];
  }

  // ----------------------------------------------------------- hanging side trees

  /** A node hung on the left (right) side tree, with its own left (right) subtree; its
      other pointer is free for the next one. */
  datatype Hung = Hung(node: Node, tree: Tree)

  ghost function FlatLeft(hung: seq<Hung>): seq<Node> {
    if hung == [] then [] else
      var h := hung[|hung| - 1];
      FlatLeft(hung[..|hung| - 1]) + (InOrder(h.tree) + [h.node])
  }

  ghost function FlatRight(hung: seq<Hung>): seq<Node> {
    if hung == [] then [] else
      var h := hung[|hung| - 1];
      ([h.node] + InOrder(h.tree)) + FlatRight(hung[..|hung| - 1])
  }

  ghost function HungNodes(hung: seq<Hung>): set<Node> {
    if hung == [] then {} else
      var h := hung[|hung| - 1];
      HungNodes(hung[..|hung| - 1]) + Nodes(h.tree) + {h.node}
  }

  lemma {:induction false} HungFlat(hung: seq<Hung>)
    ensures HungNodes(hung) == Elems(FlatLeft(hung)) == Elems(FlatRight(hung))
  {
    if hung != [] {
      var h, rest := hung[|hung| - 1], hung[..|hung| - 1];
      HungFlat(rest);
      NodesInOrder(h.tree);
      ElemsOfOne(h.node);
      ElemsOfThree(FlatLeft(rest), InOrder(h.tree), [h.node]);
      ElemsOfThree([h.node], InOrder(h.tree), FlatRight(rest));
      assert FlatLeft(hung) == FlatLeft(rest) + InOrder(h.tree) + [h.node];
    }
  }

  ghost function LastHung(header: Node, hung: seq<Hung>): Node {
    if hung == [] then header else hung[|hung| - 1].node
  }

  /** The header's `r` leads along the hung nodes' `r`. */
  ghost predicate LeftSpine(header: Node, hung: seq<Hung>)
    reads header`r, HungNodes(hung)`l, HungNodes(hung)`r
  {
    hung == [] ||
    var h := hung[|hung| - 1];
    var rest := hung[..|hung| - 1];
    && Shape(h.node.l, h.tree) && LeftSpine(header, rest)
    && LastHung(header, rest).r == h.node
  }

  ghost predicate RightSpine(header: Node, hung: seq<Hung>)
    reads header`l, HungNodes(hung)`l, HungNodes(hung)`r
  {
    hung == [] ||
    var h := hung[|hung| - 1];
    var rest := hung[..|hung| - 1];
    && Shape(h.node.r, h.tree) && RightSpine(header, rest)
    && LastHung(header, rest).l == h.node
  }

  /** The left side tree once `t` hangs on its free pointer. */
  ghost function LeftTree(hung: seq<Hung>, t: Tree): Tree {
    if hung == [] then t else
      var h := hung[|hung| - 1];
      LeftTree(hung[..|hung| - 1], Branch(h.tree, h.node, t))
  }

  ghost function RightTree(hung: seq<Hung>, t: Tree): Tree {
    if hung == [] then t else
      var h := hung[|hung| - 1];
      RightTree(hung[..|hung| - 1], Branch(t, h.node, h.tree))
  }

  lemma {:induction false} LeftTreeInOrder(hung: seq<Hung>, t: Tree)
    ensures InOrder(LeftTree(hung, t)) == FlatLeft(hung) + InOrder(t)
  {
    if hung != [] {
      var h := hung[|hung| - 1];
      LeftTreeInOrder(hung[..|hung| - 1], Branch(h.tree, h.node, t));
    }
  }

  lemma {:induction false} RightTreeInOrder(hung: seq<Hung>, t: Tree)
    ensures InOrder(RightTree(hung, t)) == InOrder(t) + FlatRight(hung)
  {
    if hung != [] {
      var h := hung[|hung| - 1];
      RightTreeInOrder(hung[..|hung| - 1], Branch(t, h.node, h.tree));
    }
  }

  lemma {:induction false} LeftTreeShape(header: Node, hung: seq<Hung>, t: Tree)
    requires LeftSpine(header, hung) && Shape(LastHung(header, hung).r, t)
    ensures Shape(header.r, LeftTree(hung, t))
  {
    if hung != [] {
      var h := hung[|hung| - 1];
      LeftTreeShape(header, hung[..|hung| - 1], Branch(h.tree, h.node, t));
    }
  }

  lemma {:induction false} RightTreeShape(header: Node, hung: seq<Hung>, t: Tree)
    requires RightSpine(header, hung) && Shape(LastHung(header, hung).l, t)
    ensures Shape(header.l, RightTree(hung, t))
  {
    if hung != [] {
      var h := hung[|hung| - 1];
      RightTreeShape(header, hung[..|hung| - 1], Branch(t, h.node, h.tree));
    }
  }

  // ------------------------------------------------------------- top-down splaying

  /** Where a walk down from the root stands: two side trees hang on the header, and the
      tree at `node` is what is left; together they are the nodes `s` in order. */
  ghost predicate Walking(header: Node, lefts: seq<Hung>, t: Tree, rights: seq<Hung>, node: Node?, s: seq<Node>)
    reads header`l, header`r, Nodes(t)`l, Nodes(t)`r
    reads HungNodes(lefts)`l, HungNodes(lefts)`r, HungNodes(rights)`l, HungNodes(rights)`r
  {
    && Shape(node, t) && LeftSpine(header, lefts) && RightSpine(header, rights)
    && FlatLeft(lefts) + InOrder(t) + FlatRight(rights) == s && header !in Elems(s) && Distinct(s)
  }

  lemma Apart(lefts: seq<Hung>, t: Tree, rights: seq<Hung>, s: seq<Node>)
    requires FlatLeft(lefts) + InOrder(t) + FlatRight(rights) == s && Distinct(s)
    ensures HungNodes(lefts) !! Nodes(t) !! HungNodes(rights)
    ensures Elems(s) == HungNodes(lefts) + Nodes(t) + HungNodes(rights)
    ensures Distinct(FlatLeft(lefts)) && Distinct(InOrder(t)) && Distinct(FlatRight(rights))
  {
    hide *;
    DistinctParts(FlatLeft(lefts), InOrder(t), FlatRight(rights));
    ElemsOfThree(FlatLeft(lefts), InOrder(t), FlatRight(rights));
    HungFlat(lefts);
    HungFlat(rights);
    NodesInOrder(t);
  }

  lemma BranchApart(t: Tree)
    requires t.Branch? && Distinct(InOrder(t))
    ensures t.node !in Nodes(t.left) && t.node !in Nodes(t.right) && Nodes(t.left) !! Nodes(t.right)
    ensures Distinct(InOrder(t.left)) && Distinct(InOrder(t.right))
  {
    assert InOrder(t) == InOrder(t.left) + [t.node] + InOrder(t.right);
    hide *;
    DistinctParts(InOrder(t.left), [t.node], InOrder(t.right));
    ElemsOfOne(t.node);
    NodesInOrder(t.left);
    NodesInOrder(t.right);
  }

  /** `y = node->l; node->l = y->r; y->r = node; node = y`. */
  method RotateRight(node: Node, ghost t: Tree) returns (y: Node, ghost t': Tree)
    requires Shape(node, t) && t.Branch? && t.left.Branch? && Distinct(InOrder(t))
    modifies node`l, t.left.node`r
    ensures t' == Branch(t.left.left, t.left.node, Branch(t.left.right, t.node, t.right))
    ensures Shape(y, t') && InOrder(t') == InOrder(t) && Nodes(t') == Nodes(t) && y == t'.node
  {
    BranchApart(t);
    BranchApart(t.left);
    t' := Branch(t.left.left, t.left.node, Branch(t.left.right, t.node, t.right));
    y := node.l;
    node.l := y.r;
    y.r := node;
  }

  /** `y = node->r; node->r = y->l; y->l = node; node = y`. */
  method RotateLeft(node: Node, ghost t: Tree) returns (y: Node, ghost t': Tree)
    requires Shape(node, t) && t.Branch? && t.right.Branch? && Distinct(InOrder(t))
    modifies node`r, t.right.node`l
    ensures t' == Branch(Branch(t.left, t.node, t.right.left), t.right.node, t.right.right)
    ensures Shape(y, t') && InOrder(t') == InOrder(t) && Nodes(t') == Nodes(t) && y == t'.node
  {
    BranchApart(t);
    BranchApart(t.right);
    t' := Branch(Branch(t.left, t.node, t.right.left), t.right.node, t.right.right);
    y := node.r;
    node.r := y.l;
    y.l := node;
  }

  /** Sets the free pointer of the right spine. */
  method HangRight(header: Node, ghost rights: seq<Hung>, r: Node, node: Node?)
    requires RightSpine(header, rights) && r == LastHung(header, rights)
    requires header !in HungNodes(rights) && Distinct(FlatRight(rights))
    modifies r`l
    ensures r.l == node && RightSpine(header, rights)
  {
    HungInside(header, rights);
    if rights != [] {
      LastApart(header, rights);
      HungInside(header, rights[..|rights| - 1]);
    }
    r.l := node;
  }

  method HangLeft(header: Node, ghost lefts: seq<Hung>, l: Node, node: Node?)
    requires LeftSpine(header, lefts) && l == LastHung(header, lefts)
    requires header !in HungNodes(lefts) && Distinct(FlatLeft(lefts))
    modifies l`r
    ensures l.r == node && LeftSpine(header, lefts)
  {
    HungInside(header, lefts);
    if lefts != [] {
      LastApart(header, lefts);
      HungInside(header, lefts[..|lefts| - 1]);
    }
    l.r := node;
  }

  /** `r->l = node; r = node; node = node->l`. */
  method LinkRight(header: Node, ghost lefts: seq<Hung>, ghost t: Tree, ghost rights: seq<Hung>,
                   node: Node, r: Node, ghost s: seq<Node>, ghost all: set<Node>)
      returns (down: Node?, ghost t': Tree, ghost rights': seq<Hung>)
    requires Walking(header, lefts, t, rights, node, s) && r == LastHung(header, rights) && all == Elems(s)
    modifies r`l
    ensures t.Branch? && t' == t.left && rights' == rights + [Hung(node, t.right)] && t.node == node
    ensures Walking(header, lefts, t', rights', down, s) && node == LastHung(header, rights')
  {
    hide Distinct, Elems;
    Apart(lefts, t, rights, s);
    HungInside(header, rights);
    BranchApart(t);
    t', rights' := t.left, rights + [Hung(node, t.right)];
    MoreHung(lefts, t, rights);
    HangRight(header, rights, r, node);
    down := node.l;
  }

  /** `l->r = node; l = node; node = node->r`. */
  method LinkLeft(header: Node, ghost lefts: seq<Hung>, ghost t: Tree, ghost rights: seq<Hung>,
                  node: Node, l: Node, ghost s: seq<Node>, ghost all: set<Node>)
      returns (down: Node?, ghost t': Tree, ghost lefts': seq<Hung>)
    requires Walking(header, lefts, t, rights, node, s) && l == LastHung(header, lefts) && all == Elems(s)
    modifies l`r
    ensures t.Branch? && t' == t.right && lefts' == lefts + [Hung(node, t.left)] && t.node == node
    ensures Walking(header, lefts', t', rights, down, s) && node == LastHung(header, lefts')
  {
    hide Distinct, Elems;
    Apart(lefts, t, rights, s);
    HungInside(header, lefts);
    BranchApart(t);
    t', lefts' := t.right, lefts + [Hung(node, t.left)];
    MoreHung(lefts, t, rights);
    HangLeft(header, lefts, l, node);
    down := node.r;
  }

  /** Hanging the root of the tree on one side leaves the nodes in order. */
  lemma MoreHung(lefts: seq<Hung>, t: Tree, rights: seq<Hung>)
    requires t.Branch?
    ensures FlatLeft(lefts) + InOrder(t) + FlatRight(rights)
         == FlatLeft(lefts) + InOrder(t.left) + FlatRight(rights + [Hung(t.node, t.right)])
    ensures FlatLeft(lefts) + InOrder(t) + FlatRight(rights)
         == FlatLeft(lefts + [Hung(t.node, t.left)]) + InOrder(t.right) + FlatRight(rights)
    ensures (rights + [Hung(t.node, t.right)])[..|rights|] == rights
    ensures (lefts + [Hung(t.node, t.left)])[..|lefts|] == lefts
  {
    var rs, ls := rights + [Hung(t.node, t.right)], lefts + [Hung(t.node, t.left)];
    assert rs[..|rights|] == rights && ls[..|lefts|] == lefts;
    assert FlatRight(rs) == [t.node] + InOrder(t.right) + FlatRight(rights);
    assert FlatLeft(ls) == FlatLeft(lefts) + (InOrder(t.left) + [t.node]);
    assert InOrder(t) == InOrder(t.left) + [t.node] + InOrder(t.right);
    Regroup(FlatLeft(lefts), InOrder(t.left), [t.node], InOrder(t.right), FlatRight(rights), InOrder(t),
      FlatRight(rs), FlatLeft(ls));
  }

  lemma Regroup(a: seq<Node>, b: seq<Node>, n: seq<Node>, c: seq<Node>, d: seq<Node>, x: seq<Node>, y: seq<Node>,
                z: seq<Node>)
    requires x == b + n + c && y == n + c + d && z == a + (b + n)
    ensures a + x + d == a + b + y == z + c + d
  {
  }

  lemma HungInside(header: Node, hung: seq<Hung>)
    ensures LastHung(header, hung) == header || LastHung(header, hung) in HungNodes(hung)
    ensures hung != [] ==> LastHung(header, hung) in HungNodes(hung)
  {
  }

  lemma LastApart(header: Node, hung: seq<Hung>)
    requires hung != [] && (Distinct(FlatLeft(hung)) || Distinct(FlatRight(hung)))
    ensures var h := hung[|hung| - 1]; h.node !in Nodes(h.tree) && h.node !in HungNodes(hung[..|hung| - 1])
  {
    hide Distinct;
    var h, rest := hung[|hung| - 1], hung[..|hung| - 1];
    assert FlatLeft(hung) == FlatLeft(rest) + InOrder(h.tree) + [h.node];
    assert FlatRight(hung) == [h.node] + InOrder(h.tree) + FlatRight(rest);
    hide *;
    NodesInOrder(h.tree);
    HungFlat(rest);
    ElemsOfOne(h.node);
    if Distinct(FlatLeft(hung)) { DistinctParts(FlatLeft(rest), InOrder(h.tree), [h.node]); }
    else { DistinctParts([h.node], InOrder(h.tree), FlatRight(rest)); }
  }

  /** One comparison tells on which side of `key` a node and everything beyond it is. */
  lemma Cut(a: seq<Node>, n: Node, b: seq<Node>, key: Key)
    requires Descends(a + [n] + b, key)
    ensures Compare(key, n.key) >= 0 ==> AllBelow(Elems(a), key)
    ensures Compare(key, n.key) <= 0 ==> AllAbove(Elems(b), key)
  {
    var s := a + [n] + b;
    assert s[|a|] == n;
    assert forall i :: 0 <= i < |a| ==> s[i] == a[i];
    assert forall i :: 0 <= i < |b| ==> s[|a| + 1 + i] == b[i];
  }

  lemma RootCut(lefts: seq<Hung>, t: Tree, rights: seq<Hung>, key: Key)
    requires t.Branch? && Descends(FlatLeft(lefts) + InOrder(t) + FlatRight(rights), key)
    ensures Compare(key, t.node.key) >= 0 ==> AllBelow(Nodes(t.left), key)
    ensures Compare(key, t.node.key) <= 0 ==> AllAbove(Nodes(t.right), key)
  {
    hide Descends;
    var a, b, c, d := FlatLeft(lefts), InOrder(t.left), InOrder(t.right), FlatRight(rights);
    Recentre(a, b, [t.node], c, d);
    Cut(a + b, t.node, c + d, key);
    NodesInOrder(t.left);
    NodesInOrder(t.right);
    assert Elems(b) <= Elems(a + b) && Elems(c) <= Elems(c + d);
  }

  lemma MoreNodes(hung: seq<Hung>, h: Hung)
    ensures HungNodes(hung + [h]) == HungNodes(hung) + Nodes(h.tree) + {h.node}
  {
    assert (hung + [h])[..|hung|] == hung;
  }

  /** Everything left of the root is below `key` and everything right of it above, so the
      root is the node sought, or the last one below `key`, or the first one above. */
  ghost predicate Sought(top: Node, t: Tree, key: Key)
    reads Nodes(t)`key
  {
    t.Branch? && t.node == top && Parted(t, key)
  }

  ghost predicate Parted(t: Tree, key: Key)
    requires t.Branch?
    reads Nodes(t)`key
  {
    AllBelow(Nodes(t.left), key) && AllAbove(Nodes(t.right), key)
  }

  /** The end of the splay: the side trees take the subtrees of the last node and become
      its subtrees. */
  method Assemble(header: Node, ghost lefts: seq<Hung>, ghost t: Tree, ghost rights: seq<Hung>,
                  node: Node, l: Node, r: Node, ghost s: seq<Node>, ghost all: set<Node>)
      returns (ghost t': Tree)
    requires Walking(header, lefts, t, rights, node, s) && all == Elems(s)
    requires l == LastHung(header, lefts) && r == LastHung(header, rights)
    modifies l`r, r`l, node`l, node`r
    ensures t.Branch? && t' == Branch(LeftTree(lefts, t.left), node, RightTree(rights, t.right)) && node == t.node
    ensures Shape(node, t') && InOrder(t') == s
  {
    hide Distinct, Elems, LeftTree, RightTree, InOrder, FlatLeft, FlatRight;
    Apart(lefts, t, rights, s);
    HungInside(header, lefts);
    HungInside(header, rights);
    BranchApart(t);
    SideTrees(lefts, t, rights, s);
    t' := Branch(LeftTree(lefts, t.left), node, RightTree(rights, t.right));
    HangLeft(header, lefts, l, node.l);
    HangRight(header, rights, r, node.r);
    LeftTreeShape(header, lefts, t.left);
    RightTreeShape(header, rights, t.right);
    Crown(header, node, LeftTree(lefts, t.left), RightTree(rights, t.right), all);
  }

  method Crown(header: Node, node: Node, ghost left: Tree, ghost right: Tree, ghost all: set<Node>)
    requires Shape(header.r, left) && Shape(header.l, right) && node != header
    requires node !in Nodes(left) && node !in Nodes(right) && Nodes(left) + Nodes(right) <= all
    modifies node`l, node`r
    ensures Shape(node, Branch(left, node, right))
  {
    node.l := header.r;
    node.r := header.l;
  }

  lemma SideTrees(lefts: seq<Hung>, t: Tree, rights: seq<Hung>, s: seq<Node>)
    requires FlatLeft(lefts) + InOrder(t) + FlatRight(rights) == s && Distinct(s) && t.Branch?
    ensures var left, right := LeftTree(lefts, t.left), RightTree(rights, t.right);
      && InOrder(Branch(left, t.node, right)) == s
      && t.node !in Nodes(left) && t.node !in Nodes(right) && Nodes(left) + Nodes(right) + {t.node} == Elems(s)
  {
    var left, right := LeftTree(lefts, t.left), RightTree(rights, t.right);
    assert InOrder(Branch(left, t.node, right)) == InOrder(left) + [t.node] + InOrder(right);
    assert InOrder(t) == InOrder(t.left) + [t.node] + InOrder(t.right);
    assert Nodes(Branch(left, t.node, right)) == Nodes(left) + {t.node} + Nodes(right);
    hide *;
    LeftTreeInOrder(lefts, t.left);
    RightTreeInOrder(rights, t.right);
    Recentre(FlatLeft(lefts), InOrder(t.left), [t.node], InOrder(t.right), FlatRight(rights));
    BranchApart(Branch(left, t.node, right));
    NodesInOrder(Branch(left, t.node, right));
  }

  lemma Recentre(a: seq<Node>, b: seq<Node>, n: seq<Node>, c: seq<Node>, d: seq<Node>)
    ensures a + (b + n + c) + d == (a + b) + n + (c + d)
  {
  }

  /** The side trees hold what is known to be below and above `key`. */
  ghost predicate Sides(lefts: seq<Hung>, rights: seq<Hung>, key: Key)
    reads HungNodes(lefts)`key, HungNodes(rights)`key
  {
    AllBelow(HungNodes(lefts), key) && AllAbove(HungNodes(rights), key)
  }

  ghost predicate Searching(header: Node, lefts: seq<Hung>, t: Tree, rights: seq<Hung>, node: Node?, s: seq<Node>,
                          all: set<Node>, key: Key)
    reads header`l, header`r, all, Nodes(t), HungNodes(lefts), HungNodes(rights), Elems(s)
  {
    && Walking(header, lefts, t, rights, node, s) && Sides(lefts, rights, key) && Descends(s, key)
    && all == Elems(s) && header !in all
  }

  lemma SearchReach(header: Node, lefts: seq<Hung>, t: Tree, rights: seq<Hung>, node: Node?, s: seq<Node>,
                    all: set<Node>, key: Key)
    requires Searching(header, lefts, t, rights, node, s, all, key) && node != null
    ensures t.Branch? && t.node == node && node in all && header !in all
    ensures (node.l == null <==> t.left == Nil) && (node.r == null <==> t.right == Nil)
    ensures node.l != null ==> t.left.Branch? && t.left.node == node.l && node.l in all
    ensures node.r != null ==> t.right.Branch? && t.right.node == node.r && node.r in all
    ensures LastHung(header, lefts) == header || LastHung(header, lefts) in all
    ensures LastHung(header, rights) == header || LastHung(header, rights) in all
  {
    Reach(header, lefts, t, rights, node, s);
  }

  lemma NotNull(header: Node, lefts: seq<Hung>, t: Tree, rights: seq<Hung>, node: Node?, s: seq<Node>, all: set<Node>,
                key: Key)
    requires Searching(header, lefts, t, rights, node, s, all, key) && t != Nil
    ensures node != null
  {
  }

  method TurnRight(header: Node, ghost lefts: seq<Hung>, ghost t: Tree, ghost rights: seq<Hung>,
                   node: Node, key: Key, ghost s: seq<Node>, ghost all: set<Node>) returns (y: Node, ghost t': Tree)
    requires Searching(header, lefts, t, rights, node, s, all, key) && node.l != null && node.l in all && node in all
    modifies node`l, node.l`r
    ensures t.Branch? && t.left.Branch? && t' == Branch(t.left.left, t.left.node, Branch(t.left.right, t.node, t.right))
    ensures Searching(header, lefts, t', rights, y, s, all, key) && y == old(node.l) == t'.node
  {
    hide Distinct, Elems, Descends, FlatLeft, FlatRight, Sides;
    ShapeTop(node, t);
    Apart(lefts, t, rights, s);
    y, t' := RotateRight(node, t);
  }

  method DropRight(header: Node, ghost lefts: seq<Hung>, ghost t: Tree, ghost rights: seq<Hung>,
                   node: Node, r: Node, key: Key, ghost s: seq<Node>, ghost all: set<Node>)
      returns (down: Node?, ghost t': Tree, ghost rights': seq<Hung>)
    requires Searching(header, lefts, t, rights, node, s, all, key) && r == LastHung(header, rights)
    requires Compare(key, node.key) < 0
    modifies r`l
    ensures t.Branch? && t' == t.left && rights' == rights + [Hung(node, t.right)] && t.node == node
    ensures Searching(header, lefts, t', rights', down, s, all, key) && node == LastHung(header, rights')
  {
    hide Distinct, Elems, Descends, InOrder, FlatLeft, FlatRight, LeftSpine, RightSpine, Compare;
    ShapeTop(node, t);
    Apart(lefts, t, rights, s);
    RootCut(lefts, t, rights, key);
    MoreNodes(rights, Hung(node, t.right));
    down, t', rights' := LinkRight(header, lefts, t, rights, node, r, s, all);
  }

  /** The branch for a key below that of the node. */
  method GoLeft(header: Node, ghost lefts: seq<Hung>, ghost t: Tree, ghost rights: seq<Hung>,
                node: Node, r: Node, key: Key, ghost s: seq<Node>, ghost all: set<Node>)
      returns (stuck: bool, node': Node, r': Node, ghost t': Tree, ghost rights': seq<Hung>)
    requires Searching(header, lefts, t, rights, node, s, all, key) && r == LastHung(header, rights)
    requires Compare(key, node.key) < 0
    modifies all`l, all`r, header`l
    ensures Searching(header, lefts, t', rights', node', s, all, key) && r' == LastHung(header, rights')
    ensures stuck ==> t'.Branch? && t'.node == node' && t'.left == Nil && Compare(key, node'.key) < 0
    ensures !stuck ==> t' < t
  {
    hide Searching, LastHung;
    node', r', t', rights' := node, r, t, rights;
    SearchReach(header, lefts, t, rights, node, s, all, key);
    if node'.l == null { return true, node', r', t', rights'; }
    if Compare(key, node'.l.key) < 0 {
      node', t' := TurnRight(header, lefts, t', rights, node', key, s, all);
      SearchReach(header, lefts, t', rights, node', s, all, key);
      if node'.l == null { return true, node', r', t', rights'; }
    }
    var down: Node?;
    down, t', rights' := DropRight(header, lefts, t', rights, node', r, key, s, all);
    NotNull(header, lefts, t', rights', down, s, all, key);
    stuck, node', r' := false, down, node';
  }

  method TurnLeft(header: Node, ghost lefts: seq<Hung>, ghost t: Tree, ghost rights: seq<Hung>,
                   node: Node, key: Key, ghost s: seq<Node>, ghost all: set<Node>) returns (y: Node, ghost t': Tree)
    requires Searching(header, lefts, t, rights, node, s, all, key) && node.r != null && node.r in all && node in all
    modifies node`r, node.r`l
    ensures t.Branch? && t.right.Branch?
    ensures t' == Branch(Branch(t.left, t.node, t.right.left), t.right.node, t.right.right)
    ensures Searching(header, lefts, t', rights, y, s, all, key) && y == old(node.r) == t'.node
  {
    hide Distinct, Elems, Descends, FlatLeft, FlatRight, Sides;
    ShapeTop(node, t);
    Apart(lefts, t, rights, s);
    y, t' := RotateLeft(node, t);
  }

  method DropLeft(header: Node, ghost lefts: seq<Hung>, ghost t: Tree, ghost rights: seq<Hung>,
                   node: Node, l: Node, key: Key, ghost s: seq<Node>, ghost all: set<Node>)
      returns (down: Node?, ghost t': Tree, ghost lefts': seq<Hung>)
    requires Searching(header, lefts, t, rights, node, s, all, key) && l == LastHung(header, lefts)
    requires Compare(key, node.key) > 0
    modifies l`r
    ensures t.Branch? && t' == t.right && lefts' == lefts + [Hung(node, t.left)] && t.node == node
    ensures Searching(header, lefts', t', rights, down, s, all, key) && node == LastHung(header, lefts')
  {
    hide Distinct, Elems, Descends, InOrder, FlatLeft, FlatRight, LeftSpine, RightSpine, Compare;
    ShapeTop(node, t);
    Apart(lefts, t, rights, s);
    RootCut(lefts, t, rights, key);
    MoreNodes(lefts, Hung(node, t.left));
    down, t', lefts' := LinkLeft(header, lefts, t, rights, node, l, s, all);
  }

  /** The branch for a key above that of the node. */
  method GoRight(header: Node, ghost lefts: seq<Hung>, ghost t: Tree, ghost rights: seq<Hung>,
                node: Node, l: Node, key: Key, ghost s: seq<Node>, ghost all: set<Node>)
      returns (stuck: bool, node': Node, l': Node, ghost t': Tree, ghost lefts': seq<Hung>)
    requires Searching(header, lefts, t, rights, node, s, all, key) && l == LastHung(header, lefts)
    requires Compare(key, node.key) > 0
    modifies all`l, all`r, header`r
    ensures Searching(header, lefts', t', rights, node', s, all, key) && l' == LastHung(header, lefts')
    ensures stuck ==> t'.Branch? && t'.node == node' && t'.right == Nil && Compare(key, node'.key) > 0
    ensures !stuck ==> t' < t
  {
    hide Searching, LastHung;
    node', l', t', lefts' := node, l, t, lefts;
    SearchReach(header, lefts, t, rights, node, s, all, key);
    if node'.r == null { return true, node', l', t', lefts'; }
    if Compare(key, node'.r.key) > 0 {
      node', t' := TurnLeft(header, lefts, t', rights, node', key, s, all);
      SearchReach(header, lefts, t', rights, node', s, all, key);
      if node'.r == null { return true, node', l', t', lefts'; }
    }
    var down: Node?;
    down, t', lefts' := DropLeft(header, lefts, t', rights, node', l, key, s, all);
    NotNull(header, lefts', t', rights, down, s, all, key);
    stuck, node', l' := false, down, node';
  }

  /** `dict_splay`. */
  method Splay(root: Node, key: Key, ghost t: Tree, ghost all: set<Node>) returns (node: Node, ghost t': Tree)
    requires Shape(root, t) && Distinct(InOrder(t)) && Descends(InOrder(t), key) && all == Nodes(t)
    modifies all`l, all`r
    ensures Shape(node, t') && InOrder(t') == InOrder(t) && Nodes(t') == all && Sought(node, t', key)
  {
    hide Distinct, Elems, Descends, InOrder, FlatLeft, FlatRight, LeftSpine, RightSpine, Sides, Walking;
    ghost var s := InOrder(t);
    NodesInOrder(t);
    var header: Node := new Node([], 0);
    ghost var lefts: seq<Hung>, rights: seq<Hung>, cur := [], [], t;
    var l: Node, r: Node := header, header;
    node := root;
    StartWalk(header, t, node, key);
    while true
      invariant Searching(header, lefts, cur, rights, node, s, all, key)
      invariant l == LastHung(header, lefts) && r == LastHung(header, rights)
      modifies all`l, all`r, header`l, header`r
      decreases cur
    {
      SearchReach(header, lefts, cur, rights, node, s, all, key);
      var stuck;
      if Compare(key, node.key) == 0 { break; }
      if Compare(key, node.key) < 0 {
        stuck, node, r, cur, rights := GoLeft(header, lefts, cur, rights, node, r, key, s, all);
        if stuck { break; }
      } else {
        stuck, node, l, cur, lefts := GoRight(header, lefts, cur, rights, node, l, key, s, all);
        if stuck { break; }
      }
    }
    t' := Close(header, lefts, cur, rights, node, l, r, key, s, all);
  }

  method Close(header: Node, ghost lefts: seq<Hung>, ghost t: Tree, ghost rights: seq<Hung>,
               node: Node, l: Node, r: Node, key: Key, ghost s: seq<Node>, ghost all: set<Node>)
      returns (ghost t': Tree)
    requires Searching(header, lefts, t, rights, node, s, all, key)
    requires l == LastHung(header, lefts) && r == LastHung(header, rights) && t.Branch? && t.node == node
    requires Compare(key, node.key) < 0 ==> t.left == Nil
    requires Compare(key, node.key) > 0 ==> t.right == Nil
    modifies all`l, all`r, header`l, header`r
    ensures Shape(node, t') && InOrder(t') == s && Nodes(t') == all && Sought(node, t', key)
  {
    hide Distinct, Elems, Descends, InOrder, FlatLeft, FlatRight, LeftSpine, RightSpine;
    Reach(header, lefts, t, rights, node, s);
    Finish(lefts, t, rights, key);
    t' := Assemble(header, lefts, t, rights, node, l, r, s, all);
    NodesInOrder(t');
  }

  /** What may be written from where the walk stands. */
  lemma Reach(header: Node, lefts: seq<Hung>, t: Tree, rights: seq<Hung>, node: Node?, s: seq<Node>)
    requires Walking(header, lefts, t, rights, node, s) && node != null
    ensures t.Branch? && t.node == node && node in Elems(s) && header !in Elems(s)
    ensures (node.l == null <==> t.left == Nil) && (node.r == null <==> t.right == Nil)
    ensures node.l != null ==> t.left.Branch? && t.left.node == node.l && node.l in Elems(s)
    ensures node.r != null ==> t.right.Branch? && t.right.node == node.r && node.r in Elems(s)
    ensures LastHung(header, lefts) == header || LastHung(header, lefts) in Elems(s)
    ensures LastHung(header, rights) == header || LastHung(header, rights) in Elems(s)
  {
    hide Distinct, Elems, InOrder;
    ShapeTop(node, t);
    Apart(lefts, t, rights, s);
    HungInside(header, lefts);
    HungInside(header, rights);
  }

  lemma ShapeTop(node: Node, t: Tree)
    requires Shape(node, t)
    ensures t.Branch? && t.node == node && node in Nodes(t)
    ensures (node.l == null <==> t.left == Nil) && (node.r == null <==> t.right == Nil)
    ensures node.l != null ==> t.left.Branch? && t.left.node == node.l && node.l in Nodes(t)
    ensures node.r != null ==> t.right.Branch? && t.right.node == node.r && node.r in Nodes(t)
  {
  }

  /** When the walk stops, the side trees and the rest of the tree part at `key`. */
  lemma Finish(lefts: seq<Hung>, t: Tree, rights: seq<Hung>, key: Key)
    requires t.Branch? && Descends(FlatLeft(lefts) + InOrder(t) + FlatRight(rights), key) && Sides(lefts, rights, key)
    requires Compare(key, t.node.key) < 0 ==> t.left == Nil
    requires Compare(key, t.node.key) > 0 ==> t.right == Nil
    ensures Parted(Branch(LeftTree(lefts, t.left), t.node, RightTree(rights, t.right)), key)
  {
    hide Descends;
    RootCut(lefts, t, rights, key);
    SideNodes(lefts, t.left, rights, t.right);
  }

  lemma {:induction false} SideNodes(lefts: seq<Hung>, a: Tree, rights: seq<Hung>, b: Tree)
    ensures Nodes(LeftTree(lefts, a)) == HungNodes(lefts) + Nodes(a)
    ensures Nodes(RightTree(rights, b)) == HungNodes(rights) + Nodes(b)
    decreases |lefts| + |rights|
  {
    if lefts != [] {
      var h := lefts[|lefts| - 1];
      SideNodes(lefts[..|lefts| - 1], Branch(h.tree, h.node, a), rights, b);
    } else if rights != [] {
      var h := rights[|rights| - 1];
      SideNodes(lefts, a, rights[..|rights| - 1], Branch(b, h.node, h.tree));
    }
  }

  lemma StartWalk(header: Node, t: Tree, root: Node, key: Key)
    requires Shape(root, t) && Distinct(InOrder(t)) && header !in Nodes(t)
    ensures Walking(header, [], t, [], root, InOrder(t)) && Sides([], [], key) && Elems(InOrder(t)) == Nodes(t)
  {
    NodesInOrder(t);
    assert [] + InOrder(t) + [] == InOrder(t);
  }

  /** The root is the node sought if there is one, and otherwise the last node below the
      key or the first one above. */
  lemma Nearest(top: Node, t: Tree, key: Key)
    requires Sought(top, t, key) && Sorted(InOrder(t))
    ensures (exists n :: n in Nodes(t) && Compare(key, n.key) == 0) ==> Compare(key, top.key) == 0
    ensures forall n :: n in Nodes(t) && n != top && Compare(key, n.key) > 0 ==> Compare(n.key, top.key) < 0
    ensures forall n :: n in Nodes(t) && n != top && Compare(key, n.key) < 0 ==> Compare(top.key, n.key) < 0
  {
    hide Compare;
    var a, b := InOrder(t.left), InOrder(t.right);
    var s := InOrder(t);
    assert s == a + [top] + b;
    assert s[|a|] == top;
    NodesInOrder(t.left);
    NodesInOrder(t.right);
    forall n | n in Nodes(t.left) ensures Compare(n.key, top.key) < 0 {
      var i :| 0 <= i < |a| && a[i] == n;
      assert s[i] == n;
    }
    forall n | n in Nodes(t.right) ensures Compare(top.key, n.key) < 0 {
      var i :| 0 <= i < |b| && b[i] == n;
      assert s[|a| + 1 + i] == n;
    }
  }
}
