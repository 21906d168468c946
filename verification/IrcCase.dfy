/** `irccasecmp`, the case-insensitive comparison that orders dictionary keys, and why it
    is a total preorder whose equivalence is equality up to case. */
module IrcCase {

  /** A character of a C string: any byte but the NUL that ends it. */
  type Char = c: int | 1 <= c < 256 witness 1

  type Key = seq<Char>

  /** WITH_PROTOCOL_P10, set or not when the program is built. */
  const P10: bool

  /** The entry of the `irc_tolower` table, a signed char. */
  function Lower(c: Char): (v: int)
    ensures v != 0
  {
    var lower :=
      if 0x41 <= c <= 0x5A then c + 0x20          // A to Z
      else if P10 && 0x5B <= c <= 0x5E then c + 0x20     // [ \ ] ^ and { | } ~
      else if P10 && (0xC0 <= c <= 0xD6 || 0xD8 <= c <= 0xDE) then c + 0x20
      else c;
    if lower < 128 then lower else lower - 256
  }

  function LowerAt(s: Key, i: nat): int {
    if i < |s| then Lower(s[i]) else 0
  }

  /** The key with its case folded away. */
  function Folded(s: Key): (f: seq<int>)
    ensures |f| == |s| && forall i :: 0 <= i < |s| ==> f[i] == Lower(s[i])
  {
    seq(|s|, i requires 0 <= i < |s| => Lower(s[i]))
  }

  /** The difference at the first place where the keys, with their NULs, differ. */
  function Compare(a: Key, b: Key): (r: int)
    decreases |a|
  {
    if a != [] && LowerAt(a, 0) == LowerAt(b, 0) then Compare(a[1..], b[1..])
    else LowerAt(a, 0) - LowerAt(b, 0)
  }

  method IrcCaseCmp(stra: Key, strb: Key) returns (r: int)
    ensures r == Compare(stra, strb)
  {
    var k := 0;
    while k < |stra| && LowerAt(stra, k) == LowerAt(strb, k)
      invariant 0 <= k <= |stra| && k <= |strb|
      invariant Compare(stra, strb) == Compare(stra[k..], strb[k..])
    {
      assert stra[k..][1..] == stra[k + 1..] && strb[k..][1..] == strb[k + 1..];
      k := k + 1;
    }
    r := LowerAt(stra, k) - LowerAt(strb, k);
  }

  lemma {:induction false} CompareEqual(a: Key, b: Key)
    ensures Compare(a, b) == 0 <==> Folded(a) == Folded(b)
    decreases |a|
  {
    if a != [] && LowerAt(a, 0) == LowerAt(b, 0) {
      CompareEqual(a[1..], b[1..]);
      assert Folded(a) == [Lower(a[0])] + Folded(a[1..]);
      assert Folded(b) == [Lower(b[0])] + Folded(b[1..]);
      assert Folded(a)[1..] == Folded(a[1..]) && Folded(b)[1..] == Folded(b[1..]);
    } else if a != [] && b != [] {
      assert Folded(a)[0] != Folded(b)[0];
    }
  }

  lemma {:induction false} CompareFlips(a: Key, b: Key)
    ensures Compare(b, a) == -Compare(a, b)
    decreases |a|
  {
    if a != [] && LowerAt(a, 0) == LowerAt(b, 0) {
      CompareFlips(a[1..], b[1..]);
    }
  }

  lemma {:induction false} CompareTransitive(a: Key, b: Key, c: Key)
    requires Compare(a, b) <= 0 && Compare(b, c) <= 0
    ensures Compare(a, c) <= 0
    ensures Compare(a, b) < 0 || Compare(b, c) < 0 ==> Compare(a, c) < 0
    decreases |a|
  {
    if a != [] && b != [] && c != [] && LowerAt(a, 0) == LowerAt(b, 0) == LowerAt(c, 0) {
      CompareTransitive(a[1..], b[1..], c[1..]);
    }
  }

  // ------------------------------------------------------------- equality up to case

  /** `b` is the small letter of the capital `a`. */
  predicate SmallOf(a: Char, b: Char) {
    && b == a + 0x20
    && (0x41 <= a <= 0x5A || (P10 && (0x5B <= a <= 0x5E || 0xC0 <= a <= 0xD6 || 0xD8 <= a <= 0xDE)))
  }

  predicate SameLetter(a: Char, b: Char) {
    a == b || SmallOf(a, b) || SmallOf(b, a)
  }

  predicate SameKey(a: Key, b: Key) {
    |a| == |b| && forall k :: 0 <= k < |a| ==> SameLetter(a[k], b[k])
  }

  /** Keys compare equal exactly if they differ in the case of letters only. */
  lemma SameKeyExact(a: Key, b: Key)
    ensures Compare(a, b) == 0 <==> SameKey(a, b)
    ensures Folded(a) == Folded(b) <==> SameKey(a, b)
  {
    CompareEqual(a, b);
    forall k | 0 <= k < |a| && k < |b| ensures Folded(a)[k] == Folded(b)[k] <==> SameLetter(a[k], b[k]) {
      SameLetterExact(a[k], b[k]);
    }
  }

  lemma SameLetterExact(a: Char, b: Char)
    ensures Lower(a) == Lower(b) <==> SameLetter(a, b)
  {
  }

  // ------------------------------------------------------------------------ the order

  /** A character as it counts in the order: the small letter, as a signed byte. */
  predicate Weighs(c: Char, v: int) {
    var small := if SmallOf(c, if c < 0xE0 then c + 0x20 else c) then c + 0x20 else c;
    v == if small < 0x80 then small else small - 0x100
  }

  /** The first place where the keys differ, not only in case, decides; the end of a key
      weighs 0. */
  lemma {:induction false} FirstDifference(a: Key, b: Key, k: nat, v: int, w: int)
    requires k <= |a| && k <= |b| && SameKey(a[..k], b[..k])
    requires if k < |a| then Weighs(a[k], v) else v == 0
    requires if k < |b| then Weighs(b[k], w) else w == 0
    requires v != w
    ensures Compare(a, b) == v - w
  {
    if k > 0 {
      assert SameLetter(a[..k][0], b[..k][0]);
      SameLetterExact(a[0], b[0]);
      assert a[..k][1..] == a[1..][..k - 1] && b[..k][1..] == b[1..][..k - 1];
      FirstDifference(a[1..], b[1..], k - 1, v, w);
    }
  }
}
