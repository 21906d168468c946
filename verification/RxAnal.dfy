/** The static analyses made once per compiled pattern: fixed length, observability,
    first-character map and anchoring, each proved sound for `Match`. */
module RxAnal {
  import opened RxNode

  // --------------------------------------------------------- length, observed

  /** The `len` field: the length of every match, or -1 when it is not fixed. */
  function FixedLen(e: Rexp): (n: int)
    ensures n >= -1
  {
    match e
    case Null => 0
    case Cset(_) => 1
    case Str(t) => |t|
    case Concat(a, b) =>
      if FixedLen(a) >= 0 && FixedLen(b) >= 0 then FixedLen(a) + FixedLen(b) else -1
    case Alt(a, b) =>
      if FixedLen(a) >= 0 && FixedLen(b) >= 0 && FixedLen(a) == FixedLen(b) then FixedLen(a) else -1
    case Opt(_) => -1
    case Star(_) => -1
    case Plus(_) => -1
    case Interval(_, _, _) => -1
    case Parens(_, a) => FixedLen(a)
    case Context(Backref(_)) => -1
    case Context(_) => 0
  }

  /** The `observed` field: the tree needs the backtracking matcher. */
  predicate Observed(e: Rexp) {
    match e
    case Null => false
    case Cset(_) => false
    case Str(_) => false
    case Concat(a, b) => Observed(a) || Observed(b)
    case Alt(a, b) => Observed(a) || Observed(b)
    case Opt(a) => Observed(a)
    case Star(a) => Observed(a)
    case Plus(a) => Observed(a)
    case Interval(_, _, _) => true
    case Parens(_, _) => true
    case Context(_) => true
  }

  lemma {:induction false} FixedLenSound(s: Subject, e: Rexp, i: nat, j: nat, r: Regs, r': Regs)
    requires ValidSubject(s) && i <= j <= s.len
    requires Match(s, e, i, j, r, r')
    ensures FixedLen(e) >= 0 ==> j - i == FixedLen(e)
  {
    match e
    case Concat(a, b) =>
      var m: nat, r1: Regs :| i <= m <= j && Match(s, a, i, m, r, r1) && Match(s, b, m, j, r1, r');
      FixedLenSound(s, a, i, m, r, r1);
      FixedLenSound(s, b, m, j, r1, r');
    case Alt(a, b) =>
      if Match(s, a, i, j, r, r') { FixedLenSound(s, a, i, j, r, r'); }
      else { FixedLenSound(s, b, i, j, r, r'); }
    case Parens(n, a) =>
      var r1: Regs :| Match(s, a, i, j, r, r1) && r' == Record(r1, n, i, j);
      FixedLenSound(s, a, i, j, r, r1);
    case _ =>
  }

  /** An unobserved tree means exactly its regular language and leaves the registers
      alone, so a DFA can stand in for the backtracking matcher. */
  lemma {:induction false} UnobservedIsRegular(s: Subject, e: Rexp, i: nat, j: nat, r: Regs, r': Regs)
    requires ValidSubject(s) && i <= j <= s.len
    requires !Observed(e)
    ensures Match(s, e, i, j, r, r') <==> r' == r && InLang(e, s.text[i..j])
    decreases e, 0
  {
    var w := s.text[i..j];
    match e
    case Null =>
    case Cset(_) =>
    case Str(_) =>
    case Concat(a, b) =>
      forall m: nat, r1: Regs | i <= m <= j
        ensures Match(s, a, i, m, r, r1) && Match(s, b, m, j, r1, r')
           <==> r1 == r && r' == r && InLang(a, w[..m - i]) && InLang(b, w[m - i..])
      {
        UnobservedIsRegular(s, a, i, m, r, r1);
        UnobservedIsRegular(s, b, m, j, r1, r');
        CutText(s.text, i, m, j);
      }
      if r' == r && InLang(e, w) {
        var k: nat :| k <= |w| && InLang(a, w[..k]) && InLang(b, w[k..]);
        assert Match(s, a, i, i + k, r, r) && Match(s, b, i + k, j, r, r');
      }
    case Alt(a, b) =>
      UnobservedIsRegular(s, a, i, j, r, r');
      UnobservedIsRegular(s, b, i, j, r, r');
    case Opt(a) =>
      UnobservedIsRegular(s, a, i, j, r, r');
    case Star(a) =>
      forall k: nat | Repeat(s, a, k, i, j, r, r') ensures r' == r && InStar(a, w) {
        RepeatIsStar(s, a, k, i, j, r, r');
      }
      if r' == r && InStar(a, w) { var k := StarIsRepeat(s, a, i, j, r); }
    case Plus(a) =>
      forall k: nat | k >= 1 && Repeat(s, a, k, i, j, r, r') ensures r' == r && InLang(e, w) {
        var m, r1 := FirstRepeat(s, a, k, i, j, r, r');
        UnobservedIsRegular(s, a, i, m, r, r1);
        RepeatIsStar(s, a, k - 1, m, j, r1, r');
        CutText(s.text, i, m, j);
      }
      if r' == r && InLang(e, w) {
        var k: nat :| k <= |w| && InLang(a, w[..k]) && InStar(a, w[k..]);
        CutText(s.text, i, i + k, j);
        UnobservedIsRegular(s, a, i, i + k, r, r);
        var n := StarIsRepeat(s, a, i + k, j, r);
        ConsRepeat(s, a, n, i, i + k, j, r, r, r');
      }
  }

  lemma {:induction false} RepeatIsStar(s: Subject, a: Rexp, k: nat, i: nat, j: nat, r: Regs, r': Regs)
    requires ValidSubject(s) && i <= j <= s.len
    requires !Observed(a)
    requires Repeat(s, a, k, i, j, r, r')
    ensures r' == r && InStar(a, s.text[i..j])
    decreases a, k + 1
  {
    if k > 0 {
      var w := s.text[i..j];
      var m, r1 := FirstRepeat(s, a, k, i, j, r, r');
      UnobservedIsRegular(s, a, i, m, r, r1);
      RepeatIsStar(s, a, k - 1, m, j, r1, r');
      if m > i {
        CutText(s.text, i, m, j);
      }
    }
  }

  lemma {:induction false} StarIsRepeat(s: Subject, a: Rexp, i: nat, j: nat, r: Regs) returns (k: nat)
    requires ValidSubject(s) && i <= j <= s.len
    requires !Observed(a)
    requires InStar(a, s.text[i..j])
    ensures Repeat(s, a, k, i, j, r, r)
    decreases a, j - i + 1
  {
    var w := s.text[i..j];
    if i == j {
      k := 0;
    } else {
      var n: nat :| 1 <= n <= |w| && InLang(a, w[..n]) && InStar(a, w[n..]);
      CutText(s.text, i, i + n, j);
      UnobservedIsRegular(s, a, i, i + n, r, r);
      k := StarIsRepeat(s, a, i + n, j, r);
      ConsRepeat(s, a, k, i, i + n, j, r, r, r);
      k := k + 1;
    }
  }

  // ------------------------------------------------------------------ fastmap

  /** The answer of `rx_fill_in_fastmap`: false only if no match is empty. */
  predicate Nullable(e: Rexp) {
    match e
    case Null => true
    case Cset(_) => false
    case Str(t) => t == []
    case Concat(a, _) => Nullable(a)
    case Alt(a, b) => Nullable(a) || Nullable(b)
    case Opt(_) => true
    case Star(_) => true
    case Plus(a) => Nullable(a)
    case Interval(a, min, _) => min == 0 || Nullable(a)
    case Parens(_, a) => Nullable(a)
    case Context(_) => true
  }

  /** Whether the analysis marks character `c`. */
  predicate Marks(e: Rexp, c: Byte) {
    match e
    case Null => true
    case Cset(cs) => c in cs
    case Str(t) => t != [] && t[0] == c
    case Concat(a, _) => Marks(a, c)
    case Alt(a, b) => Marks(a, c) || Marks(b, c)
    case Opt(_) => true
    case Star(_) => true
    case Plus(a) => Marks(a, c)
    case Interval(a, min, _) => min == 0 || Marks(a, c)
    case Parens(_, a) => Marks(a, c)
    case Context(_) => true
  }

  /** Adds the possible first characters of `e` to the map. */
  method FillInFastmap(map256: array<bool>, e: Rexp) returns (nullable: bool)
    requires map256.Length == 256
    modifies map256
    ensures nullable == Nullable(e)
    ensures forall c: Byte :: map256[c] == (old(map256[c]) || Marks(e, c))
    decreases e
  {
    match e
    case Null => nullable := Saturate(map256);
    case Cset(cs) =>
      var x := 0;
      while x < 256
        invariant 0 <= x <= 256
        invariant forall c: Byte :: map256[c] == (old(map256[c]) || (c < x && c in cs))
      {
        if x in cs { map256[x] := true; }
        x := x + 1;
      }
      nullable := false;
    case Str(t) =>
      if t != [] {
        map256[t[0]] := true;
        nullable := false;
      } else {
        nullable := true;
      }
    case Concat(a, _) => nullable := FillInFastmap(map256, a);
    case Alt(a, b) =>
      var inLeft := FillInFastmap(map256, a);
      var inRight := FillInFastmap(map256, b);
      nullable := inLeft || inRight;
    case Opt(_) => nullable := Saturate(map256);
    case Star(_) => nullable := Saturate(map256);
    case Plus(a) => nullable := FillInFastmap(map256, a);
    case Interval(a, min, _) =>
      if min == 0 { nullable := Saturate(map256); } else { nullable := FillInFastmap(map256, a); }
    case Parens(_, a) => nullable := FillInFastmap(map256, a);
    case Context(_) => nullable := Saturate(map256);
  }

  /** The `can_match_empty` label: every character may come next. */
  method Saturate(map256: array<bool>) returns (nullable: bool)
    requires map256.Length == 256
    modifies map256
    ensures nullable
    ensures forall c: Byte :: map256[c]
  {
    var x := 0;
    while x < 256
      invariant 0 <= x <= 256
      invariant forall c: Byte :: c < x ==> map256[c]
    {
      map256[x] := true;
      x := x + 1;
    }
    nullable := true;
  }

  /** If the analysis denies the empty match then every match consumes a character and
      starts with a marked one. */
  lemma {:induction false} FastmapSound(s: Subject, e: Rexp, i: nat, j: nat, r: Regs, r': Regs)
    requires ValidSubject(s) && i <= j <= s.len && NonEmptyStrings(e)
    requires Match(s, e, i, j, r, r')
    ensures !Nullable(e) ==> i < j && Marks(e, s.text[i])
  {
    match e
    case Null =>
    case Cset(_) =>
    case Str(t) => assert s.text[i..j][0] == s.text[i];
    case Concat(a, b) =>
      var m: nat, r1: Regs :| i <= m <= j && Match(s, a, i, m, r, r1) && Match(s, b, m, j, r1, r');
      FastmapSound(s, a, i, m, r, r1);
    case Alt(a, b) =>
      if Match(s, a, i, j, r, r') { FastmapSound(s, a, i, j, r, r'); }
      else { FastmapSound(s, b, i, j, r, r'); }
    case Opt(_) =>
    case Star(_) =>
    case Plus(a) =>
      var k: nat :| k >= 1 && Repeat(s, a, k, i, j, r, r');
      var m, r1 := FirstRepeat(s, a, k, i, j, r, r');
      FastmapSound(s, a, i, m, r, r1);
    case Interval(a, min, max) =>
      if min > 0 {
        var k: nat :| min <= k <= max && Repeat(s, a, k, i, j, r, r');
        var m, r1 := FirstRepeat(s, a, k, i, j, r, r');
        FastmapSound(s, a, i, m, r, r1);
      }
    case Parens(n, a) =>
      var r1: Regs :| Match(s, a, i, j, r, r1) && r' == Record(r1, n, i, j);
      FastmapSound(s, a, i, j, r, r1);
    case Context(_) =>
  }

  // ----------------------------------------------------------------- anchoring

  /** `rx_is_anchored_p`. */
  predicate Anchored(e: Rexp) {
    match e
    case Null => false
    case Cset(_) => false
    case Str(_) => false
    case Concat(a, _) => Anchored(a)
    case Alt(a, b) => Anchored(a) && Anchored(b)
    case Opt(_) => false
    case Star(_) => false
    case Plus(a) => Anchored(a)
    case Interval(a, min, _) => min != 0 && Anchored(a)
    case Parens(_, a) => Anchored(a)
    case Context(op) => op == Bol
  }

  /** An anchored tree matches only where `^` holds. */
  lemma {:induction false} AnchoredSound(s: Subject, e: Rexp, i: nat, j: nat, r: Regs, r': Regs)
    requires ValidSubject(s) && i <= j <= s.len
    requires Match(s, e, i, j, r, r') && Anchored(e)
    ensures BolAt(s, i)
  {
    match e
    case Concat(a, b) =>
      var m: nat, r1: Regs :| i <= m <= j && Match(s, a, i, m, r, r1) && Match(s, b, m, j, r1, r');
      AnchoredSound(s, a, i, m, r, r1);
    case Alt(a, b) =>
      if Match(s, a, i, j, r, r') { AnchoredSound(s, a, i, j, r, r'); }
      else { AnchoredSound(s, b, i, j, r, r'); }
    case Plus(a) =>
      var k: nat :| k >= 1 && Repeat(s, a, k, i, j, r, r');
      var m, r1 := FirstRepeat(s, a, k, i, j, r, r');
      AnchoredSound(s, a, i, m, r, r1);
    case Interval(a, min, max) =>
      var k: nat :| min <= k <= max && Repeat(s, a, k, i, j, r, r');
      var m, r1 := FirstRepeat(s, a, k, i, j, r, r');
      AnchoredSound(s, a, i, m, r, r1);
    case Parens(n, a) =>
      var r1: Regs :| Match(s, a, i, j, r, r1) && r' == Record(r1, n, i, j);
      AnchoredSound(s, a, i, j, r, r1);
    case Context(_) =>
  }
}
