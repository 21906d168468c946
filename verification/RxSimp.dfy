/** The regular over-approximation of a tree: groups become transparent, a
    back-reference becomes a copy of its group, an anchor becomes empty. */
module RxSimp {
  import opened RxNode
  import opened RxAnal

  /** The tables of a compiled pattern: `subs[n]` is the node of group n and
      `closing[n]` its position in the order in which the groups close. */
  datatype Pattern = Pattern(subs: seq<Rexp>, closing: seq<nat>)

  /** Every numbered group of the tree is the one in the table, and every
      back-reference names a table entry. */
  predicate WellScoped(p: Pattern, e: Rexp) {
    match e
    case Null => true
    case Cset(_) => true
    case Str(_) => true
    case Concat(a, b) => WellScoped(p, a) && WellScoped(p, b)
    case Alt(a, b) => WellScoped(p, a) && WellScoped(p, b)
    case Opt(a) => WellScoped(p, a)
    case Star(a) => WellScoped(p, a)
    case Plus(a) => WellScoped(p, a)
    case Interval(a, _, _) => WellScoped(p, a)
    case Parens(n, a) => (n > 0 ==> n < |p.subs| && p.subs[n] == e) && WellScoped(p, a)
    case Context(Backref(n)) => 0 < n < |p.subs| && n < |p.closing|
    case Context(_) => true
  }

  function Max(a: nat, b: nat): nat { if a > b then a else b }

  /** One more than the latest closing position among the groups referred to. */
  function Rank(p: Pattern, e: Rexp): nat {
    match e
    case Null => 0
    case Cset(_) => 0
    case Str(_) => 0
    case Concat(a, b) => Max(Rank(p, a), Rank(p, b))
    case Alt(a, b) => Max(Rank(p, a), Rank(p, b))
    case Opt(a) => Rank(p, a)
    case Star(a) => Rank(p, a)
    case Plus(a) => Rank(p, a)
    case Interval(a, _, _) => Rank(p, a)
    case Parens(_, a) => Rank(p, a)
    case Context(Backref(n)) => if n < |p.closing| then p.closing[n] + 1 else 0
    case Context(_) => 0
  }

  /** The text of a group refers only to groups that close before it does. */
  ghost predicate ValidPattern(p: Pattern) {
    && |p.closing| == |p.subs|
    && forall n :: 0 <= n < |p.subs| ==>
         WellScoped(p, p.subs[n]) && Rank(p, p.subs[n]) <= p.closing[n] && NonEmptyStrings(p.subs[n])
  }

  function Simplify(p: Pattern, e: Rexp): Rexp
    requires ValidPattern(p) && WellScoped(p, e)
    decreases Rank(p, e), e
  {
    if !Observed(e) then e else
    match e
    case Concat(a, b) => Concat(Simplify(p, a), Simplify(p, b))
    case Alt(a, b) => Alt(Simplify(p, a), Simplify(p, b))
    case Opt(a) => Opt(Simplify(p, a))
    case Star(a) => Star(Simplify(p, a))
    case Plus(a) => Plus(Simplify(p, a))
    case Interval(a, min, max) => Interval(Simplify(p, a), min, max)
    case Parens(_, a) => Simplify(p, a)
    case Context(Backref(n)) => Simplify(p, p.subs[n])
    case _ => Null
  }

  /** `rx_simple_rexp` with the answer remembered for each node. */
  class Simplifier {
    const p: Pattern
    var memo: map<Rexp, Rexp>

    ghost predicate Valid()
      reads this
    {
      ValidPattern(p) && forall e :: e in memo ==> WellScoped(p, e) && memo[e] == Simplify(p, e)
    }

    constructor (p: Pattern)
      requires ValidPattern(p)
      ensures Valid() && this.p == p
    {
      this.p := p;
      memo := map[];
    }

    method SimpleRexp(e: Rexp) returns (answer: Rexp)
      requires Valid() && WellScoped(p, e)
      modifies this
      ensures Valid() && answer == Simplify(p, e)
      decreases Rank(p, e), e
    {
      if !Observed(e) { return e; }
      if e in memo { return memo[e]; }
      match e {
        case Parens(_, a) => answer := SimpleRexp(a);
        case Context(Backref(n)) => answer := SimpleRexp(p.subs[n]);
        case Concat(a, b) =>
          var l := SimpleRexp(a);
          var r := SimpleRexp(b);
          answer := Concat(l, r);
        case Alt(a, b) =>
          var l := SimpleRexp(a);
          var r := SimpleRexp(b);
          answer := Alt(l, r);
        case Opt(a) => var l := SimpleRexp(a); answer := Opt(l);
        case Star(a) => var l := SimpleRexp(a); answer := Star(l);
        case Plus(a) => var l := SimpleRexp(a); answer := Plus(l);
        case Interval(a, min, max) => var l := SimpleRexp(a); answer := Interval(l, min, max);
        case _ => answer := Null;
      }
      memo := memo[e := answer];
    }
  }

  /** The result can be compiled to an NFA without side effects. */
  lemma {:induction false} SimplifyCompiles(p: Pattern, e: Rexp)
    requires ValidPattern(p) && WellScoped(p, e) && NonEmptyStrings(e)
    ensures ContextFree(Simplify(p, e)) && NonEmptyStrings(Simplify(p, e))
    decreases Rank(p, e), e
  {
    if !Observed(e) {
      UnobservedContextFree(e);
    } else {
      match e
      case Concat(a, b) => SimplifyCompiles(p, a); SimplifyCompiles(p, b);
      case Alt(a, b) => SimplifyCompiles(p, a); SimplifyCompiles(p, b);
      case Opt(a) => SimplifyCompiles(p, a);
      case Star(a) => SimplifyCompiles(p, a);
      case Plus(a) => SimplifyCompiles(p, a);
      case Interval(a, _, _) => SimplifyCompiles(p, a);
      case Parens(_, a) => SimplifyCompiles(p, a);
      case Context(Backref(n)) => SimplifyCompiles(p, p.subs[n]);
      case _ =>
    }
  }

  lemma UnobservedContextFree(e: Rexp)
    requires !Observed(e)
    ensures ContextFree(e)
  {
  }

  /** Every set register spans text of its own group. */
  ghost predicate Consistent(s: Subject, p: Pattern, r: Regs)
    requires ValidSubject(s) && ValidPattern(p)
  {
    forall n :: 0 <= n < |r| && r[n].so != -1 ==>
      && 0 < n < |p.subs|
      && 0 <= r[n].so <= r[n].eo <= s.len
      && InLang(Simplify(p, p.subs[n]), s.text[r[n].so..r[n].eo])
  }

  /** Whatever a tree matches, the simplified tree accepts; and matching keeps the
      registers consistent. */
  lemma {:induction false} SimplifyCovers(s: Subject, p: Pattern, e: Rexp, i: nat, j: nat, r: Regs, r': Regs)
    requires ValidSubject(s) && i <= j <= s.len
    requires ValidPattern(p) && WellScoped(p, e) && Consistent(s, p, r)
    requires Match(s, e, i, j, r, r')
    ensures InLang(Simplify(p, e), s.text[i..j]) && Consistent(s, p, r')
    decreases e, 1
  {
    hide Consistent, ValidPattern, Repeat;
    if !Observed(e) {
      UnobservedIsRegular(s, e, i, j, r, r');
    } else {
      match e
      case Concat(a, b) =>
        var m: nat, r1: Regs :| i <= m <= j && Match(s, a, i, m, r, r1) && Match(s, b, m, j, r1, r');
        SimplifyCovers(s, p, a, i, m, r, r1);
        SimplifyCovers(s, p, b, m, j, r1, r');
        CutText(s.text, i, m, j);
      case Alt(a, b) =>
        if Match(s, a, i, j, r, r') { SimplifyCovers(s, p, a, i, j, r, r'); }
        else { SimplifyCovers(s, p, b, i, j, r, r'); }
      case Opt(a) =>
        if Match(s, a, i, j, r, r') { SimplifyCovers(s, p, a, i, j, r, r'); }
      case Star(a) =>
        var k: nat :| Repeat(s, a, k, i, j, r, r');
        RepeatCovers(s, p, a, k, i, j, r, r');
      case Plus(a) => PlusCovers(s, p, a, i, j, r, r');
      case Interval(a, min, max) =>
        var k: nat :| min <= k <= max && Repeat(s, a, k, i, j, r, r');
        RepeatCovers(s, p, a, k, i, j, r, r');
      case Parens(n, a) =>
        var r1: Regs :| Match(s, a, i, j, r, r1) && r' == Record(r1, n, i, j);
        SimplifyCovers(s, p, a, i, j, r, r1);
        RecordConsistent(s, p, n, a, i, j, r1);
      case Context(Backref(n)) =>
        BackrefCovers(s, p, n, i, j, r);
      case Context(_) =>
    }
  }

  lemma {:induction false} PlusCovers(s: Subject, p: Pattern, a: Rexp, i: nat, j: nat, r: Regs, r': Regs)
    requires ValidSubject(s) && i <= j <= s.len
    requires ValidPattern(p) && WellScoped(p, Plus(a)) && Consistent(s, p, r) && Observed(a)
    requires Match(s, Plus(a), i, j, r, r')
    ensures InLang(Simplify(p, Plus(a)), s.text[i..j]) && Consistent(s, p, r')
    decreases Plus(a), 0
  {
    hide Consistent, ValidPattern, Repeat, InLang, InStar;
    assert Simplify(p, Plus(a)) == Plus(Simplify(p, a));
    hide Simplify;
    var k: nat :| k >= 1 && Repeat(s, a, k, i, j, r, r');
    var m, r1 := FirstRepeat(s, a, k, i, j, r, r');
    SimplifyCovers(s, p, a, i, m, r, r1);
    RepeatCovers(s, p, a, k - 1, m, j, r1, r');
    CutText(s.text, i, m, j);
    PlusWord(Simplify(p, a), s.text[i..j], m - i);
  }

  lemma PlusWord(a: Rexp, w: Text, k: nat)
    requires k <= |w| && InLang(a, w[..k]) && InStar(a, w[k..])
    ensures InLang(Plus(a), w)
  {
  }

  lemma RecordConsistent(s: Subject, p: Pattern, n: nat, a: Rexp, i: nat, j: nat, r: Regs)
    requires ValidSubject(s) && i <= j <= s.len
    requires ValidPattern(p) && WellScoped(p, Parens(n, a)) && Consistent(s, p, r)
    requires InLang(Simplify(p, Parens(n, a)), s.text[i..j])
    ensures Consistent(s, p, Record(r, n, i, j))
  {
  }

  lemma BackrefCovers(s: Subject, p: Pattern, n: nat, i: nat, j: nat, r: Regs)
    requires ValidSubject(s) && i <= j <= s.len && ValidPattern(p) && WellScoped(p, Context(Backref(n)))
    requires Consistent(s, p, r) && n < |r| && SameText(s, r[n], i, j)
    ensures InLang(Simplify(p, Context(Backref(n))), s.text[i..j])
  {
    assert r[n].so != -1;
  }

  lemma {:induction false} RepeatCovers(s: Subject, p: Pattern, a: Rexp, k: nat, i: nat, j: nat, r: Regs, r': Regs)
    requires ValidSubject(s) && i <= j <= s.len
    requires ValidPattern(p) && WellScoped(p, a) && Consistent(s, p, r)
    requires Repeat(s, a, k, i, j, r, r')
    ensures InStar(Simplify(p, a), s.text[i..j]) && Consistent(s, p, r')
    decreases a, k + 1
  {
    if k > 0 {
      var m, r1 := FirstRepeat(s, a, k, i, j, r, r');
      SimplifyCovers(s, p, a, i, m, r, r1);
      RepeatCovers(s, p, a, k - 1, m, j, r1, r');
      CutText(s.text, i, m, j);
    }
  }
}
