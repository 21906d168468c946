/** The context operators on a string subject. */
module RxStr {
  import opened RxNode

  /** `strncmp (a, b, n) == 0` for two stretches of the same length n. */
  predicate StrncmpEqual(a: Text, b: Text)
    requires |a| == |b|
  {
    a == [] || (a[0] == b[0] && (a[0] == 0 || StrncmpEqual(a[1..], b[1..])))
  }

  /** `strncmp` stops at a NUL, so it reports equality exactly for stretches that are
      equal, or equal up to and including a NUL. */
  lemma {:induction false} StrncmpMeaning(a: Text, b: Text)
    requires |a| == |b|
    ensures StrncmpEqual(a, b) <==> a == b || SameToNul(a, b)
  {
    if a != [] && a[0] == b[0] && a[0] != 0 {
      StrncmpMeaning(a[1..], b[1..]);
      hide StrncmpEqual;
      if a[1..] == b[1..] { assert a == [a[0]] + a[1..] && b == [b[0]] + b[1..]; }
      SameToNulRest(a, b);
    } else if a != [] && a[0] == b[0] {
      assert a[..0 + 1] == b[..0 + 1];
    } else if a != [] {
      forall k | 0 <= k < |a| && a[k] == 0 ensures a[..k + 1] != b[..k + 1] {
        assert a[..k + 1][0] != b[..k + 1][0];
      }
    }
  }

  /** The texts are the same up to a NUL that both have. */
  ghost predicate SameToNul(a: Text, b: Text) {
    |a| == |b| && exists k :: 0 <= k < |a| && a[k] == 0 && a[..k + 1] == b[..k + 1]
  }

  lemma SameToNulRest(a: Text, b: Text)
    requires |a| == |b| > 0 && a[0] == b[0] != 0
    ensures SameToNul(a, b) <==> SameToNul(a[1..], b[1..])
  {
    forall k | 0 <= k < |a[1..]| && a[1..][k] == 0 && a[1..][..k + 1] == b[1..][..k + 1]
      ensures a[k + 1] == 0 && a[..k + 2] == b[..k + 2]
    {
      assert a[..k + 2] == [a[0]] + a[1..][..k + 1] && b[..k + 2] == [b[0]] + b[1..][..k + 1];
    }
    forall k | 0 <= k < |a| && a[k] == 0 && a[..k + 1] == b[..k + 1]
      ensures k > 0 && a[1..][k - 1] == 0 && a[1..][..k] == b[1..][..k]
    {
      assert a[1..][..k] == a[..k + 1][1..] && b[1..][..k] == b[..k + 1][1..];
    }
  }

  /** Every set register spans a part of the subject. */
  ghost predicate InRange(s: Subject, r: Regs) {
    forall n :: 0 <= n < |r| ==> RegInRange(s, r[n])
  }

  predicate RegInRange(s: Subject, g: Reg) {
    g.so != -1 ==> 0 <= g.so <= g.eo <= s.len
  }

  /** `rx_str_contextfn` for anchors and back-references. */
  predicate ContextFn(s: Subject, op: ContextOp, i: nat, j: nat, regs: Regs)
    requires ValidSubject(s) && i <= j <= s.len
  {
    match op
    case Backref(n) => n < |regs| && RefersTo(s, regs[n], i, j)
    case Bol => i == j && BolAt(s, i)
    case Eol => i == j && EolAt(s, i)
  }

  predicate RefersTo(s: Subject, g: Reg, i: nat, j: nat)
    requires ValidSubject(s) && i <= j <= s.len
  {
    g.so != -1 && RegInRange(s, g) && j - i == g.eo - g.so && StrncmpEqual(s.text[i..j], s.text[g.so..g.eo])
  }

  /** The texts compared differ, but only after a NUL that both have. */
  ghost predicate HiddenByNul(s: Subject, g: Reg, i: nat, j: nat)
    requires ValidSubject(s) && i <= j <= s.len
  {
    && g.so != -1 && RegInRange(s, g) && j - i == g.eo - g.so && s.text[i..j] != s.text[g.so..g.eo]
    && SameToNul(s.text[i..j], s.text[g.so..g.eo])
  }

  /** On a register in range the function says what `Match` says, or it is misled by a
      NUL into saying yes; it is never misled into saying no. */
  lemma ContextFnExact(s: Subject, op: ContextOp, i: nat, j: nat, r: Regs)
    requires ValidSubject(s) && i <= j <= s.len && InRange(s, r)
    ensures ContextFn(s, op, i, j, r) <==>
      (Match(s, Context(op), i, j, r, r) || (op.Backref? && op.n < |r| && HiddenByNul(s, r[op.n], i, j)))
    ensures Match(s, Context(op), i, j, r, r) ==> !(op.Backref? && op.n < |r| && HiddenByNul(s, r[op.n], i, j))
  {
    if op.Backref? && op.n < |r| {
      var g := r[op.n];
      assert RegInRange(s, g);
      if g.so != -1 && j - i == g.eo - g.so { StrncmpMeaning(s.text[i..j], s.text[g.so..g.eo]); }
      if SameText(s, g, i, j) { assert |s.text[g.so..g.eo]| == |s.text[i..j]|; }
    }
  }

  /** A subject on which a back-reference misjudges. */
  lemma NulHidesDifference()
    ensures var s, r := Subject([0, 1, 0, 2], 4, false, false, false), [Reg(-1, -1), Reg(0, 2)];
      ContextFn(s, Backref(1), 2, 4, r) && !Match(s, Context(Backref(1)), 2, 4, r, r)
  {
    var t: Text := [0, 1, 0, 2];
    assert t[2..4] == [0, 2] && t[0..2] == [0, 1];
    assert t[2..4][1] != t[0..2][1];
  }

  // ------------------------------------------------------------------------ lines

  /** The lines of a text, between the bytes 10. */
  function Lines(t: Text): (ls: seq<Text>)
    ensures ls != []
  {
    if t == [] then [[]]
    else
      var ls := Lines(t[1..]);
      if t[0] == 10 then [[]] + ls else [[t[0]] + ls[0]] + ls[1..]
  }

  function Unlines(ls: seq<Text>): Text
    requires ls != []
  {
    if |ls| == 1 then ls[0] else ls[0] + [10] + Unlines(ls[1..])
  }

  /** They make up the text, and no line holds a byte 10. */
  lemma {:induction false} LinesCut(t: Text)
    ensures Unlines(Lines(t)) == t && forall l :: l in Lines(t) ==> 10 !in l
  {
    if t != [] {
      LinesCut(t[1..]);
      var ls := Lines(t[1..]);
      if t[0] == 10 {
        assert ([[]] + ls)[1..] == ls;
      } else {
        assert ([[t[0]] + ls[0]] + ls[1..])[1..] == ls[1..];
        assert ls == [ls[0]] + ls[1..];
      }
      assert t == [t[0]] + t[1..];
    }
  }

  /** Where a line begins in the text. */
  function LineStart(ls: seq<Text>, k: nat): nat
    requires k <= |ls|
  {
    if k == 0 then 0 else |ls[0]| + 1 + LineStart(ls[1..], k - 1)
  }

  /** Line `k` begins at `i`; line `k` ends at `i`. */
  predicate StartsAt(ls: seq<Text>, k: int, i: nat) {
    0 <= k < |ls| && i == LineStart(ls, k)
  }

  predicate EndsAt(ls: seq<Text>, k: int, i: nat) {
    0 <= k < |ls| && i == LineStart(ls, k) + |ls[k]|
  }

  /** The first line begins only if the subject may begin a line, and other lines count
      only with `newline`. */
  ghost predicate BeginsLine(s: Subject, i: nat)
    requires ValidSubject(s)
  {
    var ls := Lines(s.text[..s.len]);
    exists k :: StartsAt(ls, k, i) && if k == 0 then !s.notBol else s.newline
  }

  ghost predicate EndsLine(s: Subject, i: nat)
    requires ValidSubject(s)
  {
    var ls := Lines(s.text[..s.len]);
    exists k :: EndsAt(ls, k, i) && if k == |ls| - 1 then !s.notEol else s.newline
  }

  lemma StartsNext(t: Text, k: int, i: nat)
    requires t != []
    ensures StartsAt(Lines(t), k, i) <==>
      (k == 0 && i == 0) || (k > 0 && i > 0 && StartsAt(Lines(t[1..]), if t[0] == 10 then k - 1 else k, i - 1))
    ensures EndsAt(Lines(t), k, i) <==>
      if t[0] == 10 then (k == 0 && i == 0) || (k > 0 && i > 0 && EndsAt(Lines(t[1..]), k - 1, i - 1))
      else i > 0 && EndsAt(Lines(t[1..]), k, i - 1)
    ensures |Lines(t)| == |Lines(t[1..])| + if t[0] == 10 then 1 else 0
  {
    var ls, ms := Lines(t), Lines(t[1..]);
    if t[0] == 10 { assert ls[1..] == ms; } else { assert ls[1..] == ms[1..]; }
  }

  /** A line but the first begins at `i`; a line but the last ends there. */
  ghost predicate LateStart(t: Text, i: nat) {
    exists k :: k > 0 && StartsAt(Lines(t), k, i)
  }

  ghost predicate EarlyEnd(t: Text, i: nat) {
    exists k :: k < |Lines(t)| - 1 && EndsAt(Lines(t), k, i)
  }

  lemma LateStartNext(t: Text, i: nat)
    requires t != []
    ensures LateStart(t, i) <==> i > 0 && ((t[0] == 10 && i == 1) || LateStart(t[1..], i - 1))
  {
    hide Lines, StartsAt, EndsAt;
    var d := if t[0] == 10 then 1 else 0;
    if k :| k > 0 && StartsAt(Lines(t), k, i) {
      StartsNext(t, k, i);
      FirstStart(t[1..], k - d, i - 1);
    }
    if i > 0 && t[0] == 10 && i == 1 {
      FirstStart(t[1..], 0, 0);
      StartsNext(t, 1, 1);
    }
    if i > 0 && LateStart(t[1..], i - 1) {
      var k :| k > 0 && StartsAt(Lines(t[1..]), k, i - 1);
      StartsNext(t, k + d, i);
    }
  }

  lemma FirstStart(t: Text, k: int, i: nat)
    ensures k == 0 ==> (StartsAt(Lines(t), k, i) <==> i == 0)
  {
  }

  lemma EarlyEndNext(t: Text, i: nat)
    requires t != []
    ensures EarlyEnd(t, i) <==> if i == 0 then t[0] == 10 else EarlyEnd(t[1..], i - 1)
  {
    hide Lines, StartsAt, EndsAt;
    var d := if t[0] == 10 then 1 else 0;
    if k :| k < |Lines(t)| - 1 && EndsAt(Lines(t), k, i) {
      StartsNext(t, k, i);
    }
    if i == 0 && t[0] == 10 {
      StartsNext(t, 0, 0);
    }
    if i > 0 && EarlyEnd(t[1..], i - 1) {
      var k :| k < |Lines(t[1..])| - 1 && EndsAt(Lines(t[1..]), k, i - 1);
      EndsAtLine(t[1..], k, i - 1);
      StartsNext(t, k + d, i);
    }
  }

  lemma EndsAtLine(t: Text, k: int, i: nat)
    requires EndsAt(Lines(t), k, i)
    ensures k >= 0
  {
  }

  /** Every line but the first begins behind a byte 10. */
  lemma {:induction false} StartsExact(t: Text, i: nat)
    ensures LateStart(t, i) <==> 0 < i <= |t| && t[i - 1] == 10
  {
    if t != [] {
      LateStartNext(t, i);
      hide LateStart;
      if i > 0 { StartsExact(t[1..], i - 1); }
    }
  }

  /** Every line but the last ends in front of one, and the last with the text. */
  lemma {:induction false} EndsExact(t: Text, i: nat)
    ensures EarlyEnd(t, i) <==> i < |t| && t[i] == 10
    ensures EndsAt(Lines(t), |Lines(t)| - 1, i) <==> i == |t|
  {
    if t != [] {
      EarlyEndNext(t, i);
      StartsNext(t, |Lines(t)| - 1, i);
      hide EarlyEnd, Lines, EndsAt;
      if i > 0 { EndsExact(t[1..], i - 1); }
    }
  }

  /** `^` and `$` hold, of empty spans, where lines begin and end. */
  lemma AnchorsAtLines(s: Subject, i: nat, j: nat, r: Regs)
    requires ValidSubject(s) && i <= j <= s.len
    ensures ContextFn(s, Bol, i, j, r) <==> i == j && BeginsLine(s, i)
    ensures ContextFn(s, Eol, i, j, r) <==> i == j && EndsLine(s, i)
  {
    var t := s.text[..s.len];
    StartsExact(t, i);
    EndsExact(t, i);
    FirstStart(t, 0, i);
    hide Lines, StartsAt, EndsAt;
  }
}
