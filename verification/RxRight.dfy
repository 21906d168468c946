/** Subjects on which no test of the matcher that decides is misled. */
module RxRight {
  import opened RxNode
  import opened RxAnal
  import opened RxTame
  import opened RxSimp
  import opened RxStr
  import opened RxUnfa
  import opened RxOutcomes

  /** The engine makes no wrong step on any part of [i, j), for any tree that it decides
      alone, and no NUL gets in the way of a back-reference. */
  ghost predicate FollowedOn(s: Subject, e: Rexp, i: nat, j: nat)
    requires ValidSubject(s) && i <= j <= s.len && NonEmptyStrings(e)
  {
    if !Observed(e) then e.Str? || AllFollowed(s, e, i, j) else
    match e
    case Concat(a, b) => FollowedOn(s, a, i, j) && FollowedOn(s, b, i, j)
    case Alt(a, b) => FollowedOn(s, a, i, j) && FollowedOn(s, b, i, j)
    case Opt(a) => FollowedOn(s, a, i, j)
    case Star(a) => FollowedOn(s, a, i, j)
    case Plus(a) => FollowedOn(s, a, i, j)
    case Interval(a, _, _) => FollowedOn(s, a, i, j)
    case Parens(_, a) => if Observed(a) then FollowedOn(s, a, i, j) else AllFollowed(s, a, i, j)
    case Context(Backref(_)) => forall k :: i <= k < j ==> s.text[k] != 0
    case Context(_) => true
  }

  ghost predicate AllFollowed(s: Subject, e: Rexp, i: nat, j: nat)
    requires ValidSubject(s) && i <= j <= s.len && NonEmptyStrings(e)
  {
    ContextFree(e) && forall a, b :: i <= a <= b <= j ==> Followed(e, s.text[a..b])
  }

  lemma {:induction false} FollowedIsRight(s: Subject, e: Rexp, i: nat, j: nat)
    requires ValidSubject(s) && i <= j <= s.len && NonEmptyStrings(e) && FollowedOn(s, e, i, j)
    ensures RightOn(s, e, i, j)
  {
    hide Followed, InLang, Accepts, HiddenByNul;
    if !Observed(e) {
      if e.Str? { StrRight(s, e, i, j); } else { LeavesRight(s, e, i, j); }
    } else {
      match e
      case Concat(a, b) => FollowedIsRight(s, a, i, j); FollowedIsRight(s, b, i, j);
      case Alt(a, b) => FollowedIsRight(s, a, i, j); FollowedIsRight(s, b, i, j);
      case Opt(a) => FollowedIsRight(s, a, i, j);
      case Star(a) => FollowedIsRight(s, a, i, j);
      case Plus(a) => FollowedIsRight(s, a, i, j);
      case Interval(a, _, _) => FollowedIsRight(s, a, i, j);
      case Parens(_, a) => if Observed(a) { FollowedIsRight(s, a, i, j); } else { LeavesRight(s, a, i, j); }
      case Context(Backref(_)) => NothingHidden(s, i, j);
      case Context(_) =>
    }
  }

  lemma StrRight(s: Subject, e: Rexp, i: nat, j: nat)
    requires ValidSubject(s) && i <= j <= s.len && e.Str?
    ensures LeafRight(s, e, i, j)
  {
  }

  lemma LeavesRight(s: Subject, e: Rexp, i: nat, j: nat)
    requires ValidSubject(s) && i <= j <= s.len && NonEmptyStrings(e) && AllFollowed(s, e, i, j)
    ensures LeafRight(s, e, i, j) && EngineRight(s, e, i, j)
  {
    hide Followed, Accepts;
    forall a, b | i <= a <= b <= j ensures EngineFits(e, s.text[a..b]) ==> InLang(e, s.text[a..b]) {
      AcceptsFollowed(e, s.text[a..b]);
    }
  }

  lemma NothingHidden(s: Subject, i: nat, j: nat)
    requires ValidSubject(s) && i <= j <= s.len && forall k :: i <= k < j ==> s.text[k] != 0
    ensures NulsHideNothing(s, i, j)
  {
    forall g, a, b | i <= a <= b <= j ensures !HiddenByNul(s, g, a, b) {
      assert forall k :: 0 <= k < b - a ==> s.text[a..b][k] == s.text[a + k];
    }
  }

  /** A character that has a twin outside the last word for the sets of the tree, and is
      no NUL if the tree has a back-reference. */
  ghost predicate CleanByte(e: Rexp, c: Byte) {
    TameFor(e, c) && (Refers(e) ==> c > 0)
  }

  ghost predicate CleanOn(s: Subject, e: Rexp, i: nat, j: nat)
    requires ValidSubject(s) && i <= j <= s.len
  {
    forall k :: i <= k < j ==> CleanByte(e, s.text[k])
  }

  lemma CleanPart(s: Subject, e: Rexp, i: nat, j: nat)
    requires ValidSubject(s) && i <= j <= s.len && CleanOn(s, e, i, j) && Observed(e) && !e.Context?
    ensures CleanOn(s, e.left, i, j)
    ensures e.Alt? || e.Concat? ==> CleanOn(s, e.right, i, j)
  {
    forall k | i <= k < j
      ensures CleanByte(e.left, s.text[k]) && (e.Alt? || e.Concat? ==> CleanByte(e.right, s.text[k]))
    {
      var l :| Low(l) && Blind(e, s.text[k], l);
      assert Blind(e.left, s.text[k], l);
    }
  }

  /** Clean characters are always followed: in particular all below 224. */
  lemma {:induction false} CleanIsFollowed(s: Subject, e: Rexp, i: nat, j: nat)
    requires ValidSubject(s) && i <= j <= s.len && NonEmptyStrings(e) && CleanOn(s, e, i, j)
    ensures FollowedOn(s, e, i, j)
  {
    hide Followed, CleanOn;
    if !Observed(e) {
      CleanLeaf(s, e, i, j);
    } else {
      if !e.Context? { CleanPart(s, e, i, j); }
      match e
      case Concat(a, b) => CleanIsFollowed(s, a, i, j); CleanIsFollowed(s, b, i, j);
      case Alt(a, b) => CleanIsFollowed(s, a, i, j); CleanIsFollowed(s, b, i, j);
      case Opt(a) => CleanIsFollowed(s, a, i, j);
      case Star(a) => CleanIsFollowed(s, a, i, j);
      case Plus(a) => CleanIsFollowed(s, a, i, j);
      case Interval(a, _, _) => CleanIsFollowed(s, a, i, j);
      case Parens(_, a) => if Observed(a) { CleanIsFollowed(s, a, i, j); } else { CleanLeaf(s, a, i, j); }
      case Context(Backref(_)) => CleanNul(s, e, i, j);
      case Context(_) =>
    }
  }

  lemma CleanNul(s: Subject, e: Rexp, i: nat, j: nat)
    requires ValidSubject(s) && i <= j <= s.len && CleanOn(s, e, i, j) && Refers(e)
    ensures forall k :: i <= k < j ==> s.text[k] != 0
  {
    forall k | i <= k < j ensures s.text[k] != 0 { assert CleanByte(e, s.text[k]); }
  }

  lemma CleanLeaf(s: Subject, e: Rexp, i: nat, j: nat)
    requires ValidSubject(s) && i <= j <= s.len && NonEmptyStrings(e) && CleanOn(s, e, i, j) && !Observed(e)
    ensures AllFollowed(s, e, i, j)
  {
    hide Followed, TameFor;
    UnobservedContextFree(e);
    forall a, b | i <= a <= b <= j ensures Followed(e, s.text[a..b]) {
      forall k | 0 <= k < b - a ensures TameFor(e, s.text[a..b][k]) {
        assert CleanByte(e, s.text[a + k]) && s.text[a..b][k] == s.text[a + k];
      }
      AcceptsTame(e, s.text[a..b]);
    }
  }

  lemma LowIsClean(e: Rexp, c: Byte)
    requires Low(c) && (Refers(e) ==> c > 0)
    ensures CleanByte(e, c)
  {
    LowIsTame(e, c);
  }

  /** The tests look at the text only. */
  lemma {:induction false} RightElsewhere(s: Subject, t: Subject, e: Rexp, i: nat, j: nat)
    requires ValidSubject(s) && ValidSubject(t) && i <= j <= s.len <= t.len && s.text == t.text && RightOn(t, e, i, j)
    ensures RightOn(s, e, i, j)
  {
    hide Leaf, EngineFits, InLang;
    if Observed(e) {
      match e
      case Concat(a, b) => RightElsewhere(s, t, a, i, j); RightElsewhere(s, t, b, i, j);
      case Alt(a, b) => RightElsewhere(s, t, a, i, j); RightElsewhere(s, t, b, i, j);
      case Opt(a) => RightElsewhere(s, t, a, i, j);
      case Star(a) => RightElsewhere(s, t, a, i, j);
      case Plus(a) => RightElsewhere(s, t, a, i, j);
      case Interval(a, _, _) => RightElsewhere(s, t, a, i, j);
      case Parens(_, a) => if Observed(a) { RightElsewhere(s, t, a, i, j); }
      case Context(Backref(_)) =>
        forall g, a, b | i <= a <= b <= j ensures !HiddenByNul(s, g, a, b) { assert !HiddenByNul(t, g, a, b); }
      case Context(_) =>
    }
  }
}
