/** Character sets as arrays of 32-bit words, and what the word loops compute.  The
    character c is bit c % 32 of word c / 32. */
module RxBitset {

  type Word = bv32

  type BitNo = k: bv32 | k < 32

  predicate Bit(w: Word, k: BitNo) {
    (w >> k) & 1 == 1
  }

  function And(a: Word, b: Word): Word { a & b }

  function AndNot(a: Word, b: Word): Word { And(a, Not(b)) }

  function Or(a: Word, b: Word): Word { a | b }

  function Not(a: Word): Word { !a }

  /** `RX_bitset_member`. */
  predicate Member(b: seq<Word>, x: nat, k: BitNo)
    requires x < |b|
  {
    Bit(b[x], k)
  }

  // -------------------------------------------------------------- word arithmetic

  lemma AndBit(a: Word, b: Word, k: BitNo)
    ensures Bit(And(a, b), k) <==> Bit(a, k) && Bit(b, k)
  {
    assert (a & b) >> k == (a >> k) & (b >> k);
  }

  lemma NotBit(a: Word, k: BitNo)
    ensures Bit(Not(a), k) <==> !Bit(a, k)
  {
    assert (!a >> k) & 1 == !(a >> k) & 1;
  }

  lemma OrIsNotAnd(a: Word, b: Word)
    ensures Or(a, b) == Not(And(Not(a), Not(b)))
  {
  }

  lemma OrBit(a: Word, b: Word, k: BitNo)
    ensures Bit(Or(a, b), k) <==> Bit(a, k) || Bit(b, k)
  {
    hide Bit, And, Or, Not;
    OrIsNotAnd(a, b);
    NotBit(And(Not(a), Not(b)), k);
    AndBit(Not(a), Not(b), k);
    NotBit(a, k);
    NotBit(b, k);
  }

  lemma WordOps(a: Word, b: Word, k: BitNo)
    ensures Bit(And(a, b), k) <==> Bit(a, k) && Bit(b, k)
    ensures Bit(AndNot(a, b), k) <==> Bit(a, k) && !Bit(b, k)
    ensures Bit(Or(a, b), k) <==> Bit(a, k) || Bit(b, k)
    ensures Bit(Not(a), k) <==> !Bit(a, k)
  {
    hide Bit, And, Or, Not;
    AndBit(a, b, k);
    OrBit(a, b, k);
    NotBit(a, k);
    NotBit(b, k);
    AndBit(a, Not(b), k);
  }

  /** A non-zero word has a bit, found by halving. */
  lemma SomeBit(w: Word) returns (k: BitNo)
    requires w != 0
    ensures Bit(w, k)
  {
    var k4: Word := if w & 0xFFFF == 0 then 16 else 0;
    assert (w >> k4) & 0xFFFF != 0;
    var k3: Word := if (w >> k4) & 0xFF == 0 then k4 + 8 else k4;
    assert (w >> k3) & 0xFF != 0;
    var k2: Word := if (w >> k3) & 0xF == 0 then k3 + 4 else k3;
    assert (w >> k2) & 0xF != 0;
    var k1: Word := if (w >> k2) & 0x3 == 0 then k2 + 2 else k2;
    assert (w >> k1) & 0x3 != 0;
    k := if (w >> k1) & 0x1 == 0 then k1 + 1 else k1;
  }

  lemma NoExcess(a: Word, b: Word)
    requires AndNot(a, b) == 0
    ensures And(a, b) == a
  {
    assert a == (a & b) | (a & !b);
  }

  /** The test `(a & b) == a` is inclusion of bits. */
  lemma WordSubset(a: Word, b: Word)
    ensures And(a, b) == a <==> forall k: BitNo :: Bit(a, k) ==> Bit(b, k)
  {
    hide Bit, And, AndNot;
    forall k: BitNo ensures Bit(AndNot(a, b), k) <==> Bit(a, k) && !Bit(b, k) { WordOps(a, b, k); }
    forall k: BitNo ensures Bit(And(a, b), k) <==> Bit(a, k) && Bit(b, k) { WordOps(a, b, k); }
    if AndNot(a, b) != 0 {
      var k := SomeBit(AndNot(a, b));
      assert Bit(a, k) && !Bit(b, k) && !Bit(And(a, b), k);
    } else {
      NoExcess(a, b);
    }
  }

  lemma NoBit(k: BitNo)
    ensures !Bit(0, k)
  {
  }

  // ------------------------------------------------------------------- word loops

  /** `rx_bitset_is_equal`: plants a word in `b` that is certain to differ, so that the
      loop needs no bound, and takes it out again. */
  method IsEqual(a: array<Word>, b: array<Word>) returns (equal: bool)
    requires a.Length == b.Length && a != b
    modifies b
    ensures b[..] == old(b[..])
    ensures equal <==> a[..] == b[..]
  {
    if a.Length == 0 { return true; }
    ghost var was := b[..];
    var s := b[0];
    b[0] := !a[0];
    Differs(a[0]);
    var x := a.Length - 1;
    while a[x] == b[x]
      invariant 0 <= x < a.Length && b[..] == was[0 := !a[0]]
      invariant forall k :: x < k < a.Length ==> a[k] == was[k]
      decreases x
    {
      x := x - 1;
    }
    b[0] := s;
    assert b[..] == was;
    equal := x == 0 && s == a[0];
    if x != 0 { assert a[..][x] != b[..][x]; }
    if s != a[0] { assert a[..][0] != b[..][0]; }
  }

  lemma Differs(w: Word)
    ensures w != !w
  {
  }

  /** Inclusion of all words but the last, which is all that the next loop looks at. */
  ghost predicate SubsetButLast(a: seq<Word>, b: seq<Word>)
    requires |a| == |b|
  {
    forall x, k: BitNo :: 0 <= x < |a| - 1 && Member(a, x, k) ==> Member(b, x, k)
  }

  ghost predicate Subset(a: seq<Word>, b: seq<Word>)
    requires |a| == |b|
  {
    forall x, k: BitNo :: 0 <= x < |a| && Member(a, x, k) ==> Member(b, x, k)
  }

  /** `rx_bitset_is_subset`. */
  method IsSubset(a: array<Word>, b: array<Word>) returns (r: bool)
    requires a.Length == b.Length && a.Length > 0
    ensures r <==> SubsetButLast(a[..], b[..])
  {
    hide Bit, And, AndNot, Or, Not;
    var x := a.Length - 1;
    while true
      invariant 0 <= x < a.Length
      invariant forall y, k: BitNo :: x <= y < a.Length - 1 && Member(a[..], y, k) ==> Member(b[..], y, k)
      decreases x
    {
      if x == 0 { return true; }
      x := x - 1;
      WordSubset(a[x], b[x]);
      if And(a[x], b[x]) != a[x] {
        var k: BitNo :| Bit(a[x], k) && !Bit(b[x], k);
        assert Member(a[..], x, k) && !Member(b[..], x, k);
        return false;
      }
    }
  }

  /** The answer is the right one exactly when the last word does not matter. */
  lemma IsSubsetRight(a: seq<Word>, b: seq<Word>)
    requires |a| == |b| > 0
    ensures (SubsetButLast(a, b) <==> Subset(a, b)) <==>
      (SubsetButLast(a, b) ==> And(a[|a| - 1], b[|a| - 1]) == a[|a| - 1])
  {
    hide Bit, And, AndNot, Or, Not;
    WordSubset(a[|a| - 1], b[|a| - 1]);
    if SubsetButLast(a, b) {
      if And(a[|a| - 1], b[|a| - 1]) == a[|a| - 1] {
        forall x, k: BitNo | 0 <= x < |a| && Member(a, x, k) ensures Member(b, x, k) {
          if x == |a| - 1 { assert Bit(a[x], k); }
        }
      } else {
        var k: BitNo :| Bit(a[|a| - 1], k) && !Bit(b[|a| - 1], k);
        assert Member(a, |a| - 1, k) && !Member(b, |a| - 1, k);
      }
    }
  }

  /** `rx_bitset_empty` plants its sentinel in the first word and then answers for
      that word alone. */
  method IsEmpty(b: array<Word>) returns (empty: bool)
    requires b.Length > 0
    modifies b
    ensures b[..] == old(b[..])
    ensures empty <==> b[0] == 0
  {
    ghost var was := b[..];
    var s := b[0];
    b[0] := 1;
    var x := b.Length - 1;
    while b[x] == 0
      invariant 0 <= x < b.Length && b[..] == was[0 := 1]
      decreases x
    {
      x := x - 1;
    }
    b[0] := s;
    assert b[..] == was;
    empty := s == 0;
  }

  ghost predicate NoMember(b: seq<Word>) {
    forall x, k: BitNo :: 0 <= x < |b| ==> !Member(b, x, k)
  }

  /** So it is wrong exactly for sets whose members are all beyond word 0. */
  lemma IsEmptyRight(b: seq<Word>)
    requires |b| > 0
    ensures (b[0] == 0 <==> NoMember(b)) <==> !(b[0] == 0 && exists x, k: BitNo :: 0 < x < |b| && Member(b, x, k))
  {
    if b[0] != 0 {
      var k := SomeBit(b[0]);
      assert Member(b, 0, k);
    } else {
      forall k: BitNo ensures !Member(b, 0, k) { NoBit(k); }
    }
  }

  /** The set of the one character 32 is called empty. */
  lemma CalledEmpty()
    ensures var b: seq<Word> := [0, 1]; b[0] == 0 && Member(b, 1, 0)
  {
  }

  /** `rx_bitset_universe`. */
  method Universe(b: array<Word>)
    modifies b
    ensures forall x, k: BitNo :: 0 <= x < b.Length ==> Member(b[..], x, k)
  {
    var x := 0;
    while x < b.Length
      invariant 0 <= x <= b.Length
      invariant forall y :: 0 <= y < x ==> b[y] == 0xFFFF_FFFF
    {
      b[x] := 0xFFFF_FFFF;
      x := x + 1;
    }
    forall y, k: BitNo | 0 <= y < b.Length ensures Member(b[..], y, k) { AllBits(k); }
  }

  lemma AllBits(k: BitNo)
    ensures Bit(0xFFFF_FFFF, k)
  {
  }

  /** `rx_bitset_intersection`. */
  method Intersection(a: array<Word>, b: array<Word>)
    requires a.Length == b.Length
    modifies a
    ensures forall x, k: BitNo :: 0 <= x < a.Length ==>
      (Member(a[..], x, k) <==> Member(old(a[..]), x, k) && Member(old(b[..]), x, k))
  {
    hide Bit, And, AndNot, Or, Not;
    ghost var was, other := a[..], b[..];
    var x := a.Length - 1;
    while x >= 0
      invariant -1 <= x < a.Length
      invariant forall y :: 0 <= y <= x ==> a[y] == was[y] && b[y] == other[y]
      invariant forall y :: x < y < a.Length ==> a[y] == And(was[y], other[y])
    {
      a[x] := And(a[x], b[x]);
      x := x - 1;
    }
    forall y, k: BitNo | 0 <= y < a.Length
      ensures Member(a[..], y, k) <==> Member(was, y, k) && Member(other, y, k)
    {
      WordOps(was[y], other[y], k);
    }
  }

  /** `rx_bitset_difference`. */
  method Difference(a: array<Word>, b: array<Word>)
    requires a.Length == b.Length
    modifies a
    ensures forall x, k: BitNo :: 0 <= x < a.Length ==>
      (Member(a[..], x, k) <==> Member(old(a[..]), x, k) && !Member(old(b[..]), x, k))
  {
    hide Bit, And, AndNot, Or, Not;
    ghost var was, other := a[..], b[..];
    var x := a.Length - 1;
    while x >= 0
      invariant -1 <= x < a.Length
      invariant forall y :: 0 <= y <= x ==> a[y] == was[y] && b[y] == other[y]
      invariant forall y :: x < y < a.Length ==> a[y] == AndNot(was[y], other[y])
    {
      a[x] := AndNot(a[x], b[x]);
      x := x - 1;
    }
    forall y, k: BitNo | 0 <= y < a.Length
      ensures Member(a[..], y, k) <==> Member(was, y, k) && !Member(other, y, k)
    {
      WordOps(was[y], other[y], k);
    }
  }

  /** `rx_bitset_union`. */
  method Union(a: array<Word>, b: array<Word>)
    requires a.Length == b.Length
    modifies a
    ensures forall x, k: BitNo :: 0 <= x < a.Length ==>
      (Member(a[..], x, k) <==> Member(old(a[..]), x, k) || Member(old(b[..]), x, k))
  {
    hide Bit, And, AndNot, Or, Not;
    ghost var was, other := a[..], b[..];
    var x := a.Length - 1;
    while x >= 0
      invariant -1 <= x < a.Length
      invariant forall y :: 0 <= y <= x ==> a[y] == was[y] && b[y] == other[y]
      invariant forall y :: x < y < a.Length ==> a[y] == Or(was[y], other[y])
    {
      a[x] := Or(a[x], b[x]);
      x := x - 1;
    }
    forall y, k: BitNo | 0 <= y < a.Length
      ensures Member(a[..], y, k) <==> Member(was, y, k) || Member(other, y, k)
    {
      WordOps(was[y], other[y], k);
    }
  }

  /** `rx_bitset_complement`. */
  method Complement(b: array<Word>)
    modifies b
    ensures forall x, k: BitNo :: 0 <= x < b.Length ==> (Member(b[..], x, k) <==> !Member(old(b[..]), x, k))
  {
    hide Bit, And, AndNot, Or, Not;
    ghost var was := b[..];
    var x := 0;
    while x < b.Length
      invariant 0 <= x <= b.Length
      invariant forall y :: 0 <= y < x ==> b[y] == Not(was[y])
      invariant forall y :: x <= y < b.Length ==> b[y] == was[y]
    {
      b[x] := Not(b[x]);
      x := x + 1;
    }
    forall y, k: BitNo | 0 <= y < b.Length ensures Member(b[..], y, k) <==> !Member(was, y, k) {
      WordOps(was[y], was[y], k);
    }
  }
}
