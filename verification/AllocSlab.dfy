/** One size class of the slab allocator: pages cut into items, free lists threaded
    through the items that are free, and the list of slabs with its `child` cursor. */
module AllocSlab {

  type Addr = nat

  /** A page is named by its number; its first byte is at `page * PAGE_SIZE`. */
  type Page = nat

  const PAGE_SIZE: nat := 4096
  const TRAILER: nat := 48        // sizeof (struct slab)
  const GRAIN: nat := 8
  const SMALL_CUTOFF: nat := 576
  const SLAB_MIN: nat := 16

  // --------------------------------------------------------------- sizes and places

  /** `slabset_create` rounds the size up. */
  function RoundedSize(size: nat): (r: nat)
    ensures r >= size && r >= SLAB_MIN && r % GRAIN == 0
    ensures size >= SLAB_MIN ==> r < size + GRAIN
  {
    if size < SLAB_MIN then SLAB_MIN else (size + GRAIN - 1) / GRAIN * GRAIN
  }

  function ItemsPerSlab(size: nat): nat
    requires size > 0
  {
    (PAGE_SIZE - TRAILER) / size
  }

  /** The index into `little_slabs` is in range for exactly the sizes up to 568. */
  lemma IndexInRange(size: nat)
    ensures RoundedSize(size) / GRAIN < SMALL_CUTOFF / GRAIN <==> size <= SMALL_CUTOFF - GRAIN
  {
  }

  /** Those are the sizes that `slab_malloc` sends here, once it has added its header and
      rounded up; and they leave room for seven items at least. */
  lemma SmallRequest(user: nat)
    requires (user + GRAIN + GRAIN - 1) / GRAIN * GRAIN < SMALL_CUTOFF
    ensures var r := (user + GRAIN + GRAIN - 1) / GRAIN * GRAIN;
      r <= SMALL_CUTOFF - GRAIN && RoundedSize(r) < SMALL_CUTOFF && ItemsPerSlab(RoundedSize(r)) >= 7
  {
    var size := RoundedSize((user + GRAIN + GRAIN - 1) / GRAIN * GRAIN);
    assert size <= 568;
    AtLeast(size, 7);
  }

  lemma AtLeast(size: nat, k: nat)
    requires size > 0 && k * size <= PAGE_SIZE - TRAILER
    ensures ItemsPerSlab(size) >= k
  {
    var q := ItemsPerSlab(size);
    Floor(PAGE_SIZE - TRAILER, size);
    if q < k {
      Distribute(q, 1, size);
      Distribute(q + 1, k - q - 1, size);
    }
  }

  lemma Floor(a: nat, b: nat)
    requires b > 0
    ensures a == a / b * b + a % b && 0 <= a % b < b
  {
  }

  function Item(page: Page, size: nat, k: nat): Addr {
    page * PAGE_SIZE + k * size
  }

  /** An item lies in its page, before the trailer. */
  lemma ItemInPage(page: Page, size: nat, k: nat)
    requires size > 0 && k < ItemsPerSlab(size)
    ensures page * PAGE_SIZE <= Item(page, size, k)
    ensures Item(page, size, k) + size <= page * PAGE_SIZE + PAGE_SIZE - TRAILER
  {
    var q := ItemsPerSlab(size);
    Floor(PAGE_SIZE - TRAILER, size);
    Distribute(k, 1, size);
    Distribute(k + 1, q - k - 1, size);
  }

  /** Two items never share a byte. */
  lemma ItemsApart(p: Page, j: nat, q: Page, k: nat, size: nat)
    requires size > 0 && j < ItemsPerSlab(size) && k < ItemsPerSlab(size) && (p != q || j != k)
    ensures Item(p, size, j) + size <= Item(q, size, k) || Item(q, size, k) + size <= Item(p, size, j)
  {
    ItemInPage(p, size, j);
    ItemInPage(q, size, k);
    hide Item, ItemsPerSlab;
    if p == q {
      if j < k { Steps(p, size, j, k); } else { Steps(p, size, k, j); }
    }
  }

  lemma Steps(page: Page, size: nat, j: nat, k: nat)
    requires j < k
    ensures Item(page, size, j) + size <= Item(page, size, k)
  {
    Distribute(k - j - 1, j + 1, size);
    Distribute(j, 1, size);
  }

  lemma Distribute(a: nat, b: nat, c: nat)
    ensures (a + b) * c == a * c + b * c && a * c >= 0
  {
  }

  /** `(ptr | (pagesize - 1)) + 1`, for a page size that is a power of two. */
  function PageEnd(ptr: Addr): nat {
    ptr - ptr % PAGE_SIZE + (PAGE_SIZE - 1) + 1
  }

  /** From any item, the arithmetic of `slab_unalloc` finds the end of its page, and so
      the slab in front of it. */
  lemma TrailerFound(page: Page, size: nat, k: nat)
    requires size > 0 && k < ItemsPerSlab(size)
    ensures PageEnd(Item(page, size, k)) == page * PAGE_SIZE + PAGE_SIZE
    ensures PageEnd(Item(page, size, k)) / PAGE_SIZE - 1 == page
  {
    ItemInPage(page, size, k);
    assert Item(page, size, k) % PAGE_SIZE == k * size;
  }

  // --------------------------------------------------------------------- free lists

  /** A `struct slab`: the head of its free list and its count of live items. */
  datatype Slab = Slab(free: Addr, used: nat)

  type Memory = map<Addr, Addr>

  /** From `head`, the words of the free items lead through the items `l` to NULL. */
  ghost predicate Chain(mem: Memory, size: nat, p: Page, head: Addr, l: seq<nat>)
    decreases |l|
  {
    if l == [] then head == 0
    else head == Item(p, size, l[0]) && head in mem && Chain(mem, size, p, mem[head], l[1..])
  }

  ghost predicate Distinct(l: seq<nat>) {
    forall i, j :: 0 <= i < j < |l| ==> l[i] != l[j]
  }

  /** A list of different item numbers. */
  ghost predicate FreeList(l: seq<nat>, n: nat) {
    Distinct(l) && forall k :: k in l ==> 0 <= k < n
  }

  /** The free list and the count of a slab are right. */
  ghost predicate SlabOk(mem: Memory, size: nat, n: nat, p: Page, slab: Slab, l: seq<nat>) {
    p > 0 && Chain(mem, size, p, slab.free, l) && FreeList(l, n) && slab.used + |l| == n
  }

  predicate Within(a: Addr, item: Addr, size: nat) {
    item <= a < item + size
  }

  /** Only the `size` bytes at `item` are written. */
  ghost predicate SameOutside(mem: Memory, mem': Memory, item: Addr, size: nat) {
    forall a :: a in mem && !Within(a, item, size) ==> a in mem' && mem'[a] == mem[a]
  }

  /** `memset(item, 0, size)`. */
  function Cleared(mem: Memory, item: Addr, size: nat): (mem': Memory)
    ensures SameOutside(mem, mem', item, size)
    ensures forall a :: Within(a, item, size) ==> a in mem' && mem'[a] == 0
  {
    mem + map a | item <= a < item + size && Within(a, item, size) :: 0
  }

  /** Writes inside one item do not disturb a free list that the item is not on. */
  lemma {:induction false} ChainFrame(mem: Memory, mem': Memory, size: nat, n: nat, p: Page, head: Addr, l: seq<nat>,
                                      q: Page, j: nat)
    requires Chain(mem, size, p, head, l) && size > 0 && n <= ItemsPerSlab(size) && j < n
    requires (forall k :: k in l ==> 0 <= k < n) && (p != q || j !in l)
    requires SameOutside(mem, mem', Item(q, size, j), size)
    ensures Chain(mem', size, p, head, l)
    decreases |l|
  {
    if l != [] {
      assert l[0] in l && forall k :: k in l[1..] ==> k in l;
      ItemsApart(p, l[0], q, j, size);
      ChainFrame(mem, mem', size, n, p, mem[head], l[1..], q, j);
    }
  }

  lemma TakenFirst(l: seq<nat>, n: nat)
    requires FreeList(l, n) && l != []
    ensures FreeList(l[1..], n) && l[0] !in l[1..] && 0 <= l[0] < n && forall k :: k in l <==> k == l[0] || k in l[1..]
  {
    assert l == [l[0]] + l[1..];
    assert l[0] in l;
    forall k | k in l[1..] ensures k in l && k != l[0] {
      var i :| 0 <= i < |l[1..]| && l[1..][i] == k;
      assert l[i + 1] == k;
    }
  }

  lemma PutFirst(l: seq<nat>, n: nat, j: nat)
    requires FreeList(l, n) && j < n && j !in l
    ensures FreeList([j] + l, n) && forall k :: k in [j] + l <==> k == j || k in l
  {
  }

  function Below(n: nat): (s: set<nat>)
    ensures |s| == n && forall k :: k in s <==> 0 <= k < n
  {
    if n == 0 then {} else Below(n - 1) + {n - 1}
  }

  ghost function Members(l: seq<nat>): (s: set<nat>)
    ensures forall k :: k in s <==> k in l
    ensures Distinct(l) ==> |s| == |l|
  {
    if l == [] then {} else
      assert l == [l[0]] + l[1..];
      DistinctTail(l);
      Members(l[1..]) + {l[0]}
  }

  lemma DistinctTail(l: seq<nat>)
    requires l != []
    ensures Distinct(l) ==> Distinct(l[1..]) && l[0] !in l[1..]
  {
    assert forall i :: 0 <= i < |l| - 1 ==> l[1..][i] == l[i + 1];
  }

  /** If as many items are free as there are, all are. */
  lemma AllNumbers(l: seq<nat>, n: nat)
    requires FreeList(l, n) && |l| == n
    ensures forall k :: 0 <= k < n ==> k in l
  {
    var a, b := Members(l), Below(n);
    assert a <= b;
    assert b == a + (b - a);
    assert |b| == |a| + |b - a|;
    forall k | 0 <= k < n ensures k in l { assert k in b && k !in b - a; }
  }

  // ------------------------------------------------------------------ list of slabs

  ghost predicate NoRepeats(list: seq<Page>) {
    forall i, j :: 0 <= i < j < |list| ==> list[i] != list[j]
  }

  /** Full slabs up to the cursor `c`, then slabs that are not full, and at the very end
      perhaps one more full slab. */
  ghost predicate Shaped(list: seq<Page>, c: nat, full: set<Page>) {
    && NoRepeats(list) && (list == [] || c < |list|)
    && (forall i :: 0 <= i < |list| && i < c ==> list[i] in full)
    && (forall i :: c < i < |list| - 1 ==> list[i] !in full)
    && (list != [] && list[c] in full ==> c == |list| - 1)
  }

  /** A slab is out of items only if all are, when the cursor's slab is. */
  lemma CursorFull(list: seq<Page>, c: nat, full: set<Page>)
    requires Shaped(list, c, full)
    ensures (list == [] || list[c] in full) <==> forall p :: p in list ==> p in full
  {
    if list != [] {
      assert list[c] in list;
      if list[c] in full {
        forall p | p in list ensures p in full {
          var i :| 0 <= i < |list| && list[i] == p;
        }
      }
    }
  }

  function Without(list: seq<Page>, i: nat): seq<Page>
    requires i < |list|
  {
    list[..i] + list[i + 1..]
  }

  function InsertAt(list: seq<Page>, i: nat, p: Page): seq<Page>
    requires i <= |list|
  {
    list[..i] + [p] + list[i..]
  }

  lemma WithoutMembers(list: seq<Page>, i: nat)
    requires NoRepeats(list) && i < |list|
    ensures |Without(list, i)| == |list| - 1 && NoRepeats(Without(list, i))
    ensures forall k :: 0 <= k < |list| - 1 ==> Without(list, i)[k] == list[if k < i then k else k + 1]
    ensures forall p :: p in Without(list, i) <==> p in list && p != list[i]
  {
    var w := Without(list, i);
    assert forall k :: 0 <= k < |w| ==> w[k] == list[if k < i then k else k + 1];
    forall p | p in list && p != list[i] ensures p in w {
      var k :| 0 <= k < |list| && list[k] == p;
      assert w[if k < i then k else k - 1] == p;
    }
  }

  lemma InsertMembers(list: seq<Page>, i: nat, p: Page)
    requires NoRepeats(list) && i <= |list| && p !in list
    ensures |InsertAt(list, i, p)| == |list| + 1 && NoRepeats(InsertAt(list, i, p))
    ensures forall k :: 0 <= k <= |list| ==>
      InsertAt(list, i, p)[k] == if k < i then list[k] else if k == i then p else list[k - 1]
    ensures forall x :: x in InsertAt(list, i, p) <==> x in list || x == p
  {
    var l := InsertAt(list, i, p);
    assert forall k :: 0 <= k <= |list| ==> l[k] == if k < i then list[k] else if k == i then p else list[k - 1];
    forall x | x in list ensures x in l {
      var k :| 0 <= k < |list| && list[k] == x;
      assert l[if k < i then k else k + 1] == x;
    }
  }

  /** A new slab goes after the cursor, which is at the end. */
  lemma ShapedNew(list: seq<Page>, c: nat, full: set<Page>, p: Page)
    requires Shaped(list, c, full) && (list == [] || list[c] in full) && p !in list && p !in full
    ensures Shaped(list + [p], |list|, full)
    ensures list != [] ==> InsertAt(list, c + 1, p) == list + [p]
  {
    if list != [] { assert c == |list| - 1; }
  }

  /** The cursor's slab has become full and the cursor moves on, if it can. */
  lemma ShapedFill(list: seq<Page>, c: nat, full: set<Page>)
    requires Shaped(list, c, full) && list != [] && list[c] !in full
    ensures Shaped(list, if c + 1 < |list| then c + 1 else c, full + {list[c]})
  {
  }

  /** Where the cursor is once the slab at `i`, not its own, is taken out. */
  function Cursor(c: nat, i: nat): nat {
    if i < c then c - 1 else c
  }

  /** An item of a full slab other than the cursor's is freed: the slab goes just before
      the cursor and becomes the cursor's. */
  lemma ShapedReopen(list: seq<Page>, c: nat, full: set<Page>, i: nat)
    requires Shaped(list, c, full) && i < |list| && i != c && list[i] in full && list != []
    ensures Cursor(c, i) <= |Without(list, i)|
    ensures Shaped(InsertAt(Without(list, i), Cursor(c, i), list[i]), Cursor(c, i), full - {list[i]})
    ensures forall p :: p in InsertAt(Without(list, i), Cursor(c, i), list[i]) <==> p in list
  {
    var c' := Cursor(c, i);
    var w := Without(list, i);
    WithoutMembers(list, i);
    assert list[i] in list;
    InsertMembers(w, c', list[i]);
    ReopenShape(list, c, full, i, w, InsertAt(w, c', list[i]));
  }

  lemma ReopenShape(list: seq<Page>, c: nat, full: set<Page>, i: nat, w: seq<Page>, l: seq<Page>)
    requires Shaped(list, c, full) && i < |list| && i != c && list[i] in full
    requires NoRepeats(l) && |w| == |list| - 1 && |l| == |list|
    requires forall k :: 0 <= k < |w| ==> w[k] == list[if k < i then k else k + 1]
    requires forall k {:trigger l[k]} :: 0 <= k < |l| ==>
      l[k] == if k < Cursor(c, i) then w[k] else if k == Cursor(c, i) then list[i] else w[k - 1]
    ensures Shaped(l, Cursor(c, i), full - {list[i]})
  {
    var c' := Cursor(c, i);
    if i < c {
      assert forall k ::
        0 <= k < i ==> l[k] == list[k] by { forall k | 0 <= k < i ensures l[k] == list[k] { assert w[k] == list[k]; } }
      forall k | i <= k < c' ensures l[k] == list[k + 1] { assert w[k] == list[k + 1]; }
      forall k | c' < k < |l| ensures l[k] == list[k] { assert w[k - 1] == list[k]; }
    } else {
      assert i == |list| - 1;
      forall k | 0 <= k < c ensures l[k] == list[k] { assert w[k] == list[k]; }
      forall k | c < k < |l| ensures l[k] == list[k - 1] { assert w[k - 1] == list[k - 1]; }
    }
  }

  /** An empty slab is taken off the list. */
  lemma ShapedDrop(list: seq<Page>, c: nat, full: set<Page>, i: nat)
    requires Shaped(list, c, full) && i < |list| && list[i] !in full
    ensures Shaped(Without(list, i), if i == c && c == |list| - 1 && c > 0 then c - 1 else c, full)
    ensures forall p :: p in Without(list, i) <==> p in list && p != list[i]
  {
    WithoutMembers(list, i);
  }

  /** The cursor's slab, full until now, gets an item back. */
  lemma ShapedSame(list: seq<Page>, c: nat, full: set<Page>)
    requires Shaped(list, c, full) && list != []
    ensures Shaped(list, c, full - {list[c]})
  {
  }

  // --------------------------------------------------------------------- the slab set

  type Slabs = map<Page, Slab>

  /** The pages whose items are all in use. */
  ghost function Full(slabs: Slabs, n: nat): set<Page> {
    set p | p in slabs && slabs[p].used == n
  }

  ghost predicate SlabsOk(mem: Memory, size: nat, n: nat, slabs: Slabs, free: map<Page, seq<nat>>) {
    free.Keys == slabs.Keys && forall p :: p in slabs ==> SlabOk(mem, size, n, p, slabs[p], free[p])
  }

  /** An item of the set is live exactly if it is not on the free list of its page. */
  ghost predicate LiveOk(n: nat, slabs: Slabs, free: map<Page, seq<nat>>, live: set<(Page, nat)>)
    requires free.Keys == slabs.Keys
  {
    forall p, k :: (p, k) in live <==> p in slabs && 0 <= k < n && k !in free[p]
  }

  ghost predicate ListOk(n: nat, slabs: Slabs, list: seq<Page>, c: nat) {
    (forall p :: p in list <==> p in slabs) && Shaped(list, c, Full(slabs, n))
  }

  lemma CursorIn(n: nat, slabs: Slabs, list: seq<Page>, c: nat)
    requires ListOk(n, slabs, list, c) && list != []
    ensures c < |list| && list[c] in slabs
  {
    assert list[c] in list;
  }

  /** The slab of the cursor is one item nearer to full; the cursor moves on when it is. */
  lemma FillList(n: nat, slabs: Slabs, list: seq<Page>, c: nat, slab: Slab)
    requires ListOk(n, slabs, list, c) && list != [] && c < |list| && list[c] in slabs
    requires slabs[list[c]].used < n && slab.used == slabs[list[c]].used + 1
    ensures ListOk(n, slabs[list[c] := slab], list, if slab.used == n && c + 1 < |list| then c + 1 else c)
  {
    var b := slabs[list[c] := slab];
    if slab.used == n {
      ShapedFill(list, c, Full(slabs, n));
      assert Full(b, n) == Full(slabs, n) + {list[c]};
    } else {
      assert Full(b, n) == Full(slabs, n);
    }
    assert b.Keys == slabs.Keys;
  }

  /** Writes to an item that is not on a page's free list. */
  lemma WriteOk(mem: Memory, mem': Memory, size: nat, n: nat, p: Page, slab: Slab, l: seq<nat>, q: Page, j: nat)
    requires SlabOk(mem, size, n, p, slab, l) && size > 0 && n <= ItemsPerSlab(size) && j < n && (p != q || j !in l)
    requires SameOutside(mem, mem', Item(q, size, j), size)
    ensures SlabOk(mem', size, n, p, slab, l)
  {
    ChainFrame(mem, mem', size, n, p, slab.free, l, q, j);
  }

  /** Taking the first item off a free list. */
  lemma TakeOk(mem: Memory, size: nat, n: nat, p: Page, slab: Slab, l: seq<nat>)
    requires SlabOk(mem, size, n, p, slab, l) && size > 0 && n <= ItemsPerSlab(size)
    ensures (slab.free == 0 <==> l == []) && FreeList(l, n)
    ensures l != [] ==>
      slab.free == Item(p, size, l[0]) && l[0] < n && slab.free in mem && slab.used < n && l[0] !in l[1..]
    ensures l != [] ==>
      SlabOk(Cleared(mem, slab.free, size), size, n, p, Slab(mem[slab.free], slab.used + 1), l[1..])
  {
    if l != [] {
      TakenFirst(l, n);
      ChainFrame(mem, Cleared(mem, slab.free, size), size, n, p, mem[slab.free], l[1..], p, l[0]);
    }
  }

  /** Putting an item on the front of a free list. */
  lemma PutOk(mem: Memory, size: nat, n: nat, p: Page, slab: Slab, l: seq<nat>, j: nat)
    requires SlabOk(mem, size, n, p, slab, l) && size > 0 && n <= ItemsPerSlab(size) && j < n && j !in l
    requires slab.used > 0
    ensures SlabOk(mem[Item(p, size, j) := slab.free], size, n, p, Slab(Item(p, size, j), slab.used - 1), [j] + l)
  {
    PutFirst(l, n, j);
    ChainFrame(mem, mem[Item(p, size, j) := slab.free], size, n, p, slab.free, l, p, j);
    assert ([j] + l)[1..] == l;
  }

  /** Whatever the owner of a live item writes into it, the free lists stay right. */
  lemma LiveWrite(mem: Memory, size: nat, n: nat, slabs: Slabs, free: map<Page, seq<nat>>, live: set<(Page, nat)>,
                  p: Page, k: nat, a: Addr, v: Addr)
    requires SlabsOk(mem, size, n, slabs, free) && LiveOk(n, slabs, free, live) && size > 0 && n <= ItemsPerSlab(size)
    requires (p, k) in live && Item(p, size, k) <= a < Item(p, size, k) + size
    ensures SlabsOk(mem[a := v], size, n, slabs, free)
  {
    hide Chain, Item, ItemsPerSlab, Distinct;
    forall q | q in slabs ensures SlabOk(mem[a := v], size, n, q, slabs[q], free[q]) {
      assert SlabOk(mem, size, n, q, slabs[q], free[q]);
      ChainFrame(mem, mem[a := v], size, n, q, slabs[q].free, free[q], p, k);
    }
  }

  /** `used` is the number of live items of the slab, and no other item of it is live. */
  lemma UsedCountsLive(mem: Memory, size: nat, n: nat, slabs: Slabs, free: map<Page, seq<nat>>,
                       live: set<(Page, nat)>, p: Page)
    requires SlabsOk(mem, size, n, slabs, free) && LiveOk(n, slabs, free, live) && p in slabs
    ensures |set k | k in Below(n) && (p, k) in live| == slabs[p].used
    ensures forall k :: (p, k) in live ==> k < n
  {
    hide Chain;
    assert SlabOk(mem, size, n, p, slabs[p], free[p]);
    var l := Members(free[p]);
    assert l <= Below(n);
    assert (set k | k in Below(n) && (p, k) in live) == Below(n) - l;
  }

  /** The place of a slab in the list. */
  function IndexOf(list: seq<Page>, p: Page): (i: nat)
    requires p in list
    ensures i < |list| && list[i] == p
  {
    if list[0] == p then 0 else IndexOf(list[1..], p) + 1
  }

  /** Where a slab with `used` live items goes when one of them is freed: before the child
      if it was full and not the child, and becomes the child; away if it was the only one,
      the child then being the next slab, or else the one before; and nowhere otherwise. */
  ghost predicate Relinked(list: seq<Page>, c: nat, list': seq<Page>, c': nat, p: Page, used: nat, n: nat)
    requires p in list
  {
    var i := IndexOf(list, p);
    if used == n && c != i then
      Cursor(c, i) < |list| && list' == InsertAt(Without(list, i), Cursor(c, i), p) && c' == Cursor(c, i)
    else if used == 1 then
      list' == Without(list, i) && c' == if i == c && c == |list| - 1 && c > 0 then c - 1 else c
    else list' == list && c' == c
  }

  /** Clearing an item of a new page stays in the page. */
  lemma WithinPage(mem: Memory, mem': Memory, mem'': Memory, page: Page, size: nat, k: nat)
    requires size > 0 && k < ItemsPerSlab(size) && SameOutside(mem, mem', page * PAGE_SIZE, PAGE_SIZE)
    requires SameOutside(mem', mem'', Item(page, size, k), size)
    ensures SameOutside(mem, mem'', page * PAGE_SIZE, PAGE_SIZE)
  {
    ItemInPage(page, size, k);
  }

  class SlabSet {
    const size: nat
    const itemsPerSlab: nat
    var nslabs: nat
    var nallocs: nat
    var slabs: Slabs
    var list: seq<Page>      // the slabs in the order of their `next` pointers
    var c: nat               // the position of `child` in it
    var mem: Memory

    ghost var free: map<Page, seq<nat>>
    ghost var live: set<(Page, nat)>

    ghost predicate Sized() {
      size > 0 && 2 <= itemsPerSlab == ItemsPerSlab(size)
    }

    ghost predicate Valid()
      reads this
    {
      InStep() && forall p :: p in slabs ==> slabs[p].used > 0
    }

    /** Everything but that no slab is empty. */
    ghost predicate InStep()
      reads this
    {
      && Sized() && SlabsOk(mem, size, itemsPerSlab, slabs, free) && LiveOk(itemsPerSlab, slabs, free, live)
      && ListOk(itemsPerSlab, slabs, list, c) && nslabs == |list| && nallocs == |live|
    }

    /** `slabset_create`, the first time a size is asked for. */
    constructor (bytes: nat)
      requires bytes <= SMALL_CUTOFF - GRAIN
      ensures Valid() && size == RoundedSize(bytes) && live == {} && list == []
    {
      size := RoundedSize(bytes);
      itemsPerSlab := ItemsPerSlab(RoundedSize(bytes));
      nslabs, nallocs := 0, 0;
      slabs, list, c, mem := map[], [], 0, map[];
      free, live := map[], {};
      new;
      AtLeast(size, 2);
    }

    /** Takes the first item of the child's free list. */
    method TakeItem() returns (item: Addr, ghost p: Page, ghost k: nat)
      requires InStep() && list != [] && c < |list| && list[c] in slabs && slabs[list[c]].free != 0
      requires forall q :: q in slabs && q != list[c] ==> slabs[q].used > 0
      modifies `nallocs, `slabs, `c, `mem, `free, `live
      ensures Valid() && slabs.Keys == old(slabs).Keys && p == list[old(c)]
      ensures (p, k) !in old(live) && live == old(live) + {(p, k)}
      ensures k < itemsPerSlab && item == Item(p, size, k) && mem == Cleared(old(mem), item, size)
      ensures list == old(list)
    {
      hide SlabsOk, SlabOk, LiveOk, ListOk, Cleared, Item, ItemsPerSlab;
      var slab := list[c];
      p := slab;
      Taken(mem, size, itemsPerSlab, slabs, free, live, p);
      FillList(itemsPerSlab, slabs, list, c, Slab(mem[slabs[p].free], slabs[p].used + 1));
      k := free[p][0];
      item := slabs[slab].free;
      slabs := slabs[slab := Slab(mem[item], slabs[slab].used + 1)];
      if slabs[slab].used == itemsPerSlab && c + 1 < |list| { c := c + 1; }
      nallocs := nallocs + 1;
      mem := Cleared(mem, item, size);
      free := free[p := free[p][1..]];
      live := live + {(p, k)};
    }

    /** Is there no item left in any slab? */
    lemma AllFull()
      requires Valid()
      ensures list != [] ==> c < |list| && list[c] in slabs
      ensures (list == [] || (c < |list| && list[c] in slabs && slabs[list[c]].free == 0))
         <==> forall p :: p in slabs ==> slabs[p].used == itemsPerSlab
    {
      hide Chain, FreeList;
      if list != [] { CursorIn(itemsPerSlab, slabs, list, c); }
      CursorFull(list, c, Full(slabs, itemsPerSlab));
      forall p | p in slabs ensures slabs[p].free == 0 <==> slabs[p].used == itemsPerSlab {
        TakeOk(mem, size, itemsPerSlab, p, slabs[p], free[p]);
      }
    }

    /** Links a new slab after the child and makes it the child. */
    method NewSlab(page: Page)
      requires Valid() && page > 0 && page !in slabs
      requires forall p :: p in slabs ==> slabs[p].used == itemsPerSlab
      modifies `nslabs, `slabs, `list, `c, `mem, `free
      ensures InStep() && list != [] && c < |list| && list[c] == page && slabs == old(slabs)[page := slabs[page]]
      ensures page in slabs && slabs[page].free != 0 && slabs[page].used == 0
      ensures list == old(list) + [page] && SameOutside(old(mem), mem, page * PAGE_SIZE, PAGE_SIZE)
    {
      hide SlabsOk, SlabOk, LiveOk, ListOk, Strung, ItemsPerSlab, Numbers, Item;
      ghost var was := mem;
      NewList(itemsPerSlab, slabs, list, c, page, Slab(page * PAGE_SIZE, 0));
      mem := Populate(mem, size, itemsPerSlab, page, slabs, free);
      FreshSlab(was, mem, size, itemsPerSlab, slabs, free, live, page);
      slabs := slabs[page := Slab(page * PAGE_SIZE, 0)];
      free := free[page := Numbers(0, itemsPerSlab)];
      if list == [] {
        list, c := [page], 0;
      } else {
        list, c := InsertAt(list, c + 1, page), c + 1;
      }
      nslabs := nslabs + 1;
    }

    /** `slab_alloc`; `page` is what the page source gives if a page is needed. */
    method Alloc(page: Page) returns (item: Addr, ghost p: Page, ghost k: nat)
      requires Valid() && page > 0 && page !in slabs
      modifies this
      ensures Valid() && (p, k) !in old(live) && live == old(live) + {(p, k)}
      ensures k < itemsPerSlab && item == Item(p, size, k)
      ensures forall a :: Within(a, item, size) ==> a in mem && mem[a] == 0
      ensures if list == old(list) then mem == Cleared(old(mem), item, size)
        else SameOutside(old(mem), mem, page * PAGE_SIZE, PAGE_SIZE)
      ensures list != old(list) <==> forall q :: q in old(slabs) ==> old(slabs)[q].used == itemsPerSlab
      ensures if list != old(list) then list == old(list) + [page] && p == page else p in old(slabs)
    {
      hide SlabsOk, SlabOk, LiveOk, ListOk;
      AllFull();
      if list == [] || slabs[list[c]].free == 0 {
        NewSlab(page);
      }
      label Linked:
      item, p, k := TakeItem();
      if list != old(list) { WithinPage(old(mem), old@Linked(mem), mem, page, size, k); }
    }

    /** The second half of `slab_unalloc`: the slab, until now with `used` live items and
        one less now, goes before the child if it was full, and away if it is empty. */
    method Relink(slab: Page, used: nat, ghost was: Slabs)
      requires Sized() && SlabsOk(mem, size, itemsPerSlab, slabs, free) && LiveOk(itemsPerSlab, slabs, free, live)
      requires ListOk(itemsPerSlab, was, list, c) && nslabs == |list| && nallocs == |live|
      requires slab in was && was[slab].used == used <= itemsPerSlab && forall q :: q in was ==> was[q].used > 0
      requires slab in slabs && slabs == was[slab := slabs[slab]] && slabs[slab].used == used - 1
      modifies `nslabs, `slabs, `list, `c, `free
      ensures Valid()
      ensures slabs.Keys == if used == 1 then was.Keys - {slab} else was.Keys
      ensures slab in old(list) && Relinked(old(list), old(c), list, c, slab, used, itemsPerSlab)
    {
      hide SlabsOk, SlabOk, LiveOk, ListOk, IndexOf, ItemsPerSlab, InsertAt;
      CursorIn'(itemsPerSlab, was, list, c, slab);
      if used == itemsPerSlab && list[c] != slab {
        Reopen(itemsPerSlab, was, list, c, slab, slabs[slab]);
        var i := IndexOf(list, slab);
        c := Cursor(c, i);
        list := InsertAt(Without(list, i), c, slab);
      } else if used == 1 {
        var i := IndexOf(list, slab);
        DropList(itemsPerSlab, was, list, c, slab);
        Dropped(mem, size, itemsPerSlab, slabs, free, live, slab);
        if i == c && c == |list| - 1 && c > 0 { c := c - 1; }
        list := Without(list, i);
        nslabs := nslabs - 1;
        slabs := slabs - {slab};
        free := free - {slab};
        assert slabs == was - {slab};
      } else {
        LoosenList(itemsPerSlab, was, list, c, slab, slabs[slab]);
      }
    }

    /** `slab_unalloc`: the slab is found by the place of the item in its page. */
    method Unalloc(ptr: Addr, ghost p: Page, ghost k: nat)
      requires Valid() && (p, k) in live && ptr == Item(p, size, k)
      modifies this
      ensures Valid() && live == old(live) - {(p, k)} && nallocs == old(nallocs) - 1
      ensures p in old(slabs)
      ensures slabs.Keys == (if old(slabs)[p].used == 1 then old(slabs).Keys - {p} else old(slabs).Keys)
      ensures p in old(list) && Relinked(old(list), old(c), list, c, p, old(slabs)[p].used, itemsPerSlab)
      ensures mem == old(mem)[ptr := old(slabs)[p].free]
    {
      hide SlabsOk, SlabOk, LiveOk, ListOk, Item, ItemsPerSlab, PageEnd;
      PutBack(mem, size, itemsPerSlab, slabs, free, live, p, k);
      TrailerFound(p, size, k);
      var slab := PageEnd(ptr) / PAGE_SIZE - 1;
      var used := slabs[slab].used;
      ghost var was := slabs;
      mem := mem[ptr := slabs[slab].free];
      slabs := slabs[slab := Slab(ptr, used - 1)];
      free := free[p := [k] + free[p]];
      live := live - {(p, k)};
      nallocs := nallocs - 1;
      Relink(slab, used, was);
    }
  }

  lemma CursorIn'(n: nat, slabs: Slabs, list: seq<Page>, c: nat, p: Page)
    requires ListOk(n, slabs, list, c) && p in slabs
    ensures list != [] && c < |list| && list[c] in slabs && p in list && (list[c] == p <==> c == IndexOf(list, p))
  {
    assert p in list;
    assert list[c] in list;
  }

  lemma PutBack(mem: Memory, size: nat, n: nat, slabs: Slabs, free: map<Page, seq<nat>>, live: set<(Page, nat)>,
                p: Page, k: nat)
    requires SlabsOk(mem, size, n, slabs, free) && LiveOk(n, slabs, free, live) && size > 0 && n <= ItemsPerSlab(size)
    requires (p, k) in live && forall q :: q in slabs ==> slabs[q].used > 0
    ensures p in slabs && p in free && k < n && 0 < slabs[p].used <= n
    ensures var ptr, slab := Item(p, size, k), Slab(Item(p, size, k), slabs[p].used - 1);
      && SlabsOk(mem[ptr := slabs[p].free], size, n, slabs[p := slab], free[p := [k] + free[p]])
      && LiveOk(n, slabs[p := slab], free[p := [k] + free[p]], live - {(p, k)})
  {
    hide Chain, FreeList;
    assert p in slabs && k !in free[p] && SlabOk(mem, size, n, p, slabs[p], free[p]);
    PutOk(mem, size, n, p, slabs[p], free[p], k);
    forall q | q in slabs && q != p
      ensures SlabOk(mem[Item(p, size, k) := slabs[p].free], size, n, q, slabs[q], free[q])
    {
      WriteOk(mem, mem[Item(p, size, k) := slabs[p].free], size, n, q, slabs[q], free[q], p, k);
    }
  }

  lemma Dropped(mem: Memory, size: nat, n: nat, slabs: Slabs, free: map<Page, seq<nat>>, live: set<(Page, nat)>,
                p: Page)
    requires SlabsOk(mem, size, n, slabs, free) && LiveOk(n, slabs, free, live) && p in slabs && slabs[p].used == 0
    ensures SlabsOk(mem, size, n, slabs - {p}, free - {p}) && LiveOk(n, slabs - {p}, free - {p}, live)
  {
    hide Chain;
    assert SlabOk(mem, size, n, p, slabs[p], free[p]);
    AllNumbers(free[p], n);
  }

  lemma Reopen(n: nat, slabs: Slabs, list: seq<Page>, c: nat, p: Page, slab: Slab)
    requires ListOk(n, slabs, list, c) && p in slabs && c < |list| && list[c] != p && slabs[p].used == n
    requires slab.used < n
    ensures p in list
    ensures var i := IndexOf(list, p);
      Cursor(c, i) <= |Without(list, i)|
      && ListOk(n, slabs[p := slab], InsertAt(Without(list, i), Cursor(c, i), p), Cursor(c, i))
    ensures |InsertAt(Without(list, IndexOf(list, p)), Cursor(c, IndexOf(list, p)), p)| == |list|
  {
    ShapedReopen(list, c, Full(slabs, n), IndexOf(list, p));
    assert Full(slabs[p := slab], n) == Full(slabs, n) - {p};
  }

  lemma DropList(n: nat, slabs: Slabs, list: seq<Page>, c: nat, p: Page)
    requires ListOk(n, slabs, list, c) && p in slabs && slabs[p].used < n && p in list
    ensures var i := IndexOf(list, p);
      ListOk(n, slabs - {p}, Without(list, i), if i == c && c == |list| - 1 && c > 0 then c - 1 else c)
    ensures |Without(list, IndexOf(list, p))| == |list| - 1
  {
    ShapedDrop(list, c, Full(slabs, n), IndexOf(list, p));
    assert Full(slabs - {p}, n) == Full(slabs, n);
  }

  /** A slab that was not full, or the child, has one live item less. */
  lemma LoosenList(n: nat, slabs: Slabs, list: seq<Page>, c: nat, p: Page, slab: Slab)
    requires ListOk(n, slabs, list, c) && p in slabs && slab.used < slabs[p].used <= n && c < |list|
    requires slabs[p].used == n ==> list[c] == p
    ensures ListOk(n, slabs[p := slab], list, c)
  {
    if slabs[p].used == n {
      ShapedSame(list, c, Full(slabs, n));
      assert Full(slabs[p := slab], n) == Full(slabs, n) - {p};
    } else {
      assert Full(slabs[p := slab], n) == Full(slabs, n);
    }
  }

  lemma NewList(n: nat, slabs: Slabs, list: seq<Page>, c: nat, page: Page, slab: Slab)
    requires ListOk(n, slabs, list, c) && page !in slabs && slab.used == 0 && n > 0
    requires forall p :: p in slabs ==> slabs[p].used == n
    ensures ListOk(n, slabs[page := slab], list + [page], |list|)
    ensures list != [] ==> c + 1 == |list| && InsertAt(list, c + 1, page) == list + [page]
    ensures list == [] ==> [page] == list + [page]
  {
    if list != [] { CursorIn(n, slabs, list, c); }
    ShapedNew(list, c, Full(slabs, n), page);
    assert Full(slabs[page := slab], n) == Full(slabs, n);
  }

  // ---------------------------------------------------------------- a new slab

  function Numbers(from: nat, n: nat): (l: seq<nat>)
    requires from <= n
    ensures |l| == n - from && forall i :: 0 <= i < |l| ==> l[i] == from + i
  {
    seq(n - from, i requires 0 <= i < n - from => from + i)
  }

  lemma NumbersFree(n: nat)
    ensures FreeList(Numbers(0, n), n) && forall k :: 0 <= k < n ==> k in Numbers(0, n)
  {
    forall k | 0 <= k < n ensures k in Numbers(0, n) { assert Numbers(0, n)[k] == k; }
  }

  /** From item `from` on, each item leads to the next. */
  ghost predicate Strung(mem: Memory, size: nat, p: Page, from: nat, n: nat) {
    forall k :: from <= k < n ==>
      Item(p, size, k) in mem && mem[Item(p, size, k)] == if k == n - 1 then 0 else Item(p, size, k + 1)
  }

  lemma {:induction false} StrungChain(mem: Memory, size: nat, p: Page, from: nat, n: nat)
    requires from <= n && Strung(mem, size, p, from, n)
    ensures Chain(mem, size, p, if from == n then 0 else Item(p, size, from), Numbers(from, n))
    decreases n - from
  {
    hide Item;
    if from < n {
      StrungChain(mem, size, p, from + 1, n);
      assert mem[Item(p, size, from)] == if from + 1 == n then 0 else Item(p, size, from + 1);
      assert Numbers(from, n)[1..] == Numbers(from + 1, n);
    }
  }

  lemma FreshSlab(mem: Memory, mem': Memory, size: nat, n: nat, slabs: Slabs, free: map<Page, seq<nat>>,
                  live: set<(Page, nat)>, page: Page)
    requires SlabsOk(mem, size, n, slabs, free) && LiveOk(n, slabs, free, live) && page !in slabs && page > 0 && 0 < n
    requires Strung(mem', size, page, 0, n) && forall q :: q in slabs ==> SlabOk(mem', size, n, q, slabs[q], free[q])
    ensures Item(page, size, 0) == page * PAGE_SIZE > 0
    ensures SlabsOk(mem', size, n, slabs[page := Slab(Item(page, size, 0), 0)], free[page := Numbers(0, n)])
    ensures LiveOk(n, slabs[page := Slab(Item(page, size, 0), 0)], free[page := Numbers(0, n)], live)
  {
    hide Chain, FreeList;
    StrungChain(mem', size, page, 0, n);
    NumbersFree(n);
  }

  /** The free list of a new slab: `for (ii = 1, ...; item = (*item = item + step))`. */
  method Populate(mem: Memory, size: nat, n: nat, page: Page, ghost slabs: Slabs,
                  ghost free: map<Page, seq<nat>>) returns (mem': Memory)
    requires size > 0 && 0 < n <= ItemsPerSlab(size) && SlabsOk(mem, size, n, slabs, free) && page !in slabs
    ensures Strung(mem', size, page, 0, n) && forall q :: q in slabs ==> SlabOk(mem', size, n, q, slabs[q], free[q])
    ensures SameOutside(mem, mem', page * PAGE_SIZE, PAGE_SIZE)
  {
    hide SlabOk, ItemsPerSlab;
    var ii: nat := 1;
    var item := page * PAGE_SIZE;
    mem' := mem;
    assert item == Item(page, size, 0);
    while ii < n
      invariant 1 <= ii <= n && item == Item(page, size, ii - 1)
      invariant forall k ::
        0 <= k < ii - 1 ==> Item(page, size, k) in mem' && mem'[Item(page, size, k)] == Item(page, size, k + 1)
      invariant forall q :: q in slabs ==> SlabOk(mem', size, n, q, slabs[q], free[q])
      invariant SameOutside(mem, mem', page * PAGE_SIZE, PAGE_SIZE)
    {
      ItemInPage(page, size, ii - 1);
      Distribute(ii - 1, 1, size);
      ghost var was := mem';
      mem' := mem'[item := item + size];
      StillOk(was, size, n, slabs, free, page, ii - 1, item + size);
      OtherItems(page, size, n, ii - 1);
      item := item + size;
      ii := ii + 1;
    }
    ItemInPage(page, size, n - 1);
    StillOk(mem', size, n, slabs, free, page, n - 1, 0);
    OtherItems(page, size, n, n - 1);
    mem' := mem'[item := 0];
  }

  lemma StillOk(mem: Memory, size: nat, n: nat, slabs: Slabs, free: map<Page, seq<nat>>, page: Page, j: nat, v: Addr)
    requires free.Keys == slabs.Keys && page !in slabs && size > 0 && n <= ItemsPerSlab(size) && j < n
    requires forall q :: q in slabs ==> SlabOk(mem, size, n, q, slabs[q], free[q])
    ensures forall q :: q in slabs ==> SlabOk(mem[Item(page, size, j) := v], size, n, q, slabs[q], free[q])
  {
    forall q | q in slabs ensures SlabOk(mem[Item(page, size, j) := v], size, n, q, slabs[q], free[q]) {
      WriteOk(mem, mem[Item(page, size, j) := v], size, n, q, slabs[q], free[q], page, j);
    }
  }

  lemma OtherItems(page: Page, size: nat, n: nat, j: nat)
    requires size > 0 && n <= ItemsPerSlab(size) && j < n
    ensures forall k :: 0 <= k < n && k != j ==> Item(page, size, k) != Item(page, size, j)
  {
    forall k | 0 <= k < n && k != j ensures Item(page, size, k) != Item(page, size, j) {
      ItemsApart(page, k, page, j, size);
    }
  }

  lemma Taken(mem: Memory, size: nat, n: nat, slabs: Slabs, free: map<Page, seq<nat>>, live: set<(Page, nat)>, p: Page)
    requires SlabsOk(mem, size, n, slabs, free) && LiveOk(n, slabs, free, live) && size > 0 && n <= ItemsPerSlab(size)
    requires p in slabs && slabs[p].free != 0
    ensures p in free && free[p] != [] && (p, free[p][0]) !in live && slabs[p].free == Item(p, size, free[p][0])
    ensures free[p][0] < n
    ensures slabs[p].free in mem && slabs[p].used < n
    ensures var slab := Slab(mem[slabs[p].free], slabs[p].used + 1);
      && SlabsOk(Cleared(mem, slabs[p].free, size), size, n, slabs[p := slab], free[p := free[p][1..]])
      && LiveOk(n, slabs[p := slab], free[p := free[p][1..]], live + {(p, free[p][0])})
  {
    hide Chain, FreeList;
    assert SlabOk(mem, size, n, p, slabs[p], free[p]);
    TakeOk(mem, size, n, p, slabs[p], free[p]);
    var mem' := Cleared(mem, slabs[p].free, size);
    forall q | q in slabs && q != p ensures SlabOk(mem', size, n, q, slabs[q], free[q]) {
      WriteOk(mem, mem', size, n, q, slabs[q], free[q], p, free[p][0]);
    }
    TakenFirst(free[p], n);
  }
}
