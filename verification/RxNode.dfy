/** Syntax trees of the rx engine, the subject string, and what a tree means.

    `Match` is the reference meaning: a relation between a tree, a span of the
    subject, the registers before and the registers after.  `InLang` is the regular
    language that the NFA compiler gives to a tree without context operators.
  */
module RxNode {

  type Byte = b: int | 0 <= b < 256

  type Text = seq<Byte>

  /** A `rexp_node`.  `Null` stands for the null pointer, which the engine reads as
      the empty expression.  A `Parens` with number 0 records no register. */
  datatype Rexp =
    | Null
    | Cset(cs: set<Byte>)
    | Str(text: Text)
    | Concat(left: Rexp, right: Rexp)
    | Alt(left: Rexp, right: Rexp)
    | Opt(left: Rexp)
    | Star(left: Rexp)
    | Plus(left: Rexp)
    | Interval(left: Rexp, min: nat, max: nat)
    | Parens(num: nat, left: Rexp)
    | Context(op: ContextOp)

  datatype ContextOp = Bol | Eol | Backref(n: nat)

  /** One register (`rm_so`, `rm_eo`); an unset register has `so == -1`. */
  datatype Reg = Reg(so: int, eo: int)

  type Regs = seq<Reg>

  /** The string closure of a matching attempt: `text` is the memory the subject lies
      in, `len` the end of the attempt, and the rest are the context rules. */
  datatype Subject = Subject(text: Text, len: nat, notBol: bool, notEol: bool, newline: bool)

  const NEWLINE: Byte := 10

  ghost predicate ValidSubject(s: Subject) {
    s.len <= |s.text|
  }

  predicate BolAt(s: Subject, i: nat)
    requires i <= |s.text|
  {
    (i == 0 && !s.notBol) || (i > 0 && s.newline && s.text[i - 1] == NEWLINE)
  }

  predicate EolAt(s: Subject, i: nat)
    requires s.len <= |s.text|
  {
    (i == s.len && !s.notEol) || (i < s.len && s.newline && s.text[i] == NEWLINE)
  }

  /** A set register that spans exactly the text at [i, j). */
  predicate SameText(s: Subject, g: Reg, i: nat, j: nat)
    requires i <= j <= |s.text|
  {
    g.so != -1 && 0 <= g.so <= g.eo <= |s.text| && s.text[g.so..g.eo] == s.text[i..j]
  }

  // ------------------------------------------------------------------ meaning

  /** `e` matches [i, j) of the subject, turning the registers `r` into `r'`. */
  ghost predicate Match(s: Subject, e: Rexp, i: nat, j: nat, r: Regs, r': Regs)
    requires ValidSubject(s) && i <= j <= s.len
    decreases e, 0
  {
    match e
    case Null => i == j && r' == r
    case Cset(cs) => j == i + 1 && s.text[i] in cs && r' == r
    case Str(t) => s.text[i..j] == t && r' == r
    case Concat(a, b) =>
      exists m: nat, r1: Regs :: i <= m <= j && Match(s, a, i, m, r, r1) && Match(s, b, m, j, r1, r')
    case Alt(a, b) => Match(s, a, i, j, r, r') || Match(s, b, i, j, r, r')
    case Opt(a) => Match(s, a, i, j, r, r') || (i == j && r' == r)
    case Star(a) => exists k: nat :: Repeat(s, a, k, i, j, r, r')
    case Plus(a) => exists k: nat :: k >= 1 && Repeat(s, a, k, i, j, r, r')
    case Interval(a, min, max) => exists k: nat :: min <= k <= max && Repeat(s, a, k, i, j, r, r')
    case Parens(n, a) =>
      exists r1: Regs :: Match(s, a, i, j, r, r1) && r' == Record(r1, n, i, j)
    case Context(Bol) => i == j && BolAt(s, i) && r' == r
    case Context(Eol) => i == j && EolAt(s, i) && r' == r
    case Context(Backref(n)) => n < |r| && SameText(s, r[n], i, j) && r' == r
  }

  /** Exactly `k` adjacent matches of `a` that together span [i, j). */
  ghost predicate Repeat(s: Subject, a: Rexp, k: nat, i: nat, j: nat, r: Regs, r': Regs)
    requires ValidSubject(s) && i <= j <= s.len
    decreases a, k + 1
  {
    if k == 0 then i == j && r' == r
    else exists m: nat, r1: Regs ::
        i <= m <= j && Match(s, a, i, m, r, r1) && Repeat(s, a, k - 1, m, j, r1, r')
  }

  lemma FirstRepeat(s: Subject, a: Rexp, k: nat, i: nat, j: nat, r: Regs, r': Regs) returns (m: nat, r1: Regs)
    requires ValidSubject(s) && i <= j <= s.len
    requires k > 0 && Repeat(s, a, k, i, j, r, r')
    ensures i <= m <= j && Match(s, a, i, m, r, r1) && Repeat(s, a, k - 1, m, j, r1, r')
  {
    m, r1 :| i <= m <= j && Match(s, a, i, m, r, r1) && Repeat(s, a, k - 1, m, j, r1, r');
  }

  lemma ConsRepeat(s: Subject, a: Rexp, k: nat, i: nat, m: nat, j: nat, r: Regs, r1: Regs, r': Regs)
    requires ValidSubject(s) && i <= m <= j <= s.len
    requires Match(s, a, i, m, r, r1) && Repeat(s, a, k, m, j, r1, r')
    ensures Repeat(s, a, k + 1, i, j, r, r')
  {
  }

  lemma RepeatOf(s: Subject, e: Rexp, i: nat, j: nat, r: Regs, r': Regs) returns (k: nat)
    requires ValidSubject(s) && i <= j <= s.len && (e.Star? || e.Plus? || e.Interval?)
    requires Match(s, e, i, j, r, r')
    ensures Repeat(s, e.left, k, i, j, r, r')
    ensures (e.Plus? ==> k >= 1) && (e.Interval? ==> e.min <= k <= e.max)
  {
    match e
    case Star(a) => k :| Repeat(s, a, k, i, j, r, r');
    case Plus(a) => k :| k >= 1 && Repeat(s, a, k, i, j, r, r');
    case Interval(a, min, max) => k :| min <= k <= max && Repeat(s, a, k, i, j, r, r');
  }

  lemma SplitOf(s: Subject, e: Rexp, i: nat, j: nat, r: Regs, r': Regs) returns (m: nat, r1: Regs)
    requires ValidSubject(s) && i <= j <= s.len && e.Concat?
    requires Match(s, e, i, j, r, r')
    ensures i <= m <= j && Match(s, e.left, i, m, r, r1) && Match(s, e.right, m, j, r1, r')
  {
    match e
    case Concat(a, b) => m, r1 :| i <= m <= j && Match(s, a, i, m, r, r1) && Match(s, b, m, j, r1, r');
  }

  lemma CutText(t: Text, i: nat, m: nat, j: nat)
    requires i <= m <= j <= |t|
    ensures t[i..j][..m - i] == t[i..m] && t[i..j][m - i..] == t[m..j]
  {
  }

  /** The registers after group `n` closes on [i, j). */
  function Record(r: Regs, n: nat, i: int, j: int): Regs {
    if 0 < n < |r| then r[n := Reg(i, j)] else r
  }

  // ----------------------------------------------------------- regular meaning

  /** The regular language of a tree: intervals count as stars, groups are
      transparent, and context operators have no regular meaning. */
  ghost predicate InLang(e: Rexp, w: Text)
    decreases e, |w|, 0
  {
    match e
    case Null => w == []
    case Cset(cs) => |w| == 1 && w[0] in cs
    case Str(t) => w == t
    case Concat(a, b) => exists k: nat :: k <= |w| && InLang(a, w[..k]) && InLang(b, w[k..])
    case Alt(a, b) => InLang(a, w) || InLang(b, w)
    case Opt(a) => w == [] || InLang(a, w)
    case Star(a) => InStar(a, w)
    case Plus(a) => exists k: nat :: k <= |w| && InLang(a, w[..k]) && InStar(a, w[k..])
    case Interval(a, _, _) => InStar(a, w)
    case Parens(_, a) => InLang(a, w)
    case Context(_) => false
  }

  ghost predicate InStar(a: Rexp, w: Text)
    decreases a, |w|, 1
  {
    w == [] || exists k: nat :: 1 <= k <= |w| && InLang(a, w[..k]) && InStar(a, w[k..])
  }

  /** A tree the NFA compiler handles without side-effect edges. */
  predicate ContextFree(e: Rexp) {
    match e
    case Null => true
    case Cset(_) => true
    case Str(_) => true
    case Concat(a, b) => ContextFree(a) && ContextFree(b)
    case Alt(a, b) => ContextFree(a) && ContextFree(b)
    case Opt(a) => ContextFree(a)
    case Star(a) => ContextFree(a)
    case Plus(a) => ContextFree(a)
    case Interval(a, _, _) => ContextFree(a)
    case Parens(_, a) => ContextFree(a)
    case Context(_) => false
  }

  /** The parser never makes an empty string node. */
  predicate NonEmptyStrings(e: Rexp) {
    match e
    case Null => true
    case Cset(_) => true
    case Str(t) => t != []
    case Concat(a, b) => NonEmptyStrings(a) && NonEmptyStrings(b)
    case Alt(a, b) => NonEmptyStrings(a) && NonEmptyStrings(b)
    case Opt(a) => NonEmptyStrings(a)
    case Star(a) => NonEmptyStrings(a)
    case Plus(a) => NonEmptyStrings(a)
    case Interval(a, _, _) => NonEmptyStrings(a)
    case Parens(_, a) => NonEmptyStrings(a)
    case Context(_) => true
  }

  /** The numbered groups of a tree. */
  function Groups(e: Rexp): set<nat> {
    match e
    case Null => {}
    case Cset(_) => {}
    case Str(_) => {}
    case Concat(a, b) => Groups(a) + Groups(b)
    case Alt(a, b) => Groups(a) + Groups(b)
    case Opt(a) => Groups(a)
    case Star(a) => Groups(a)
    case Plus(a) => Groups(a)
    case Interval(a, _, _) => Groups(a)
    case Parens(n, a) => Groups(a) + {n}
    case Context(_) => {}
  }

  /** A match changes only the registers of the tree's own groups. */
  lemma {:induction false} MatchFrame(s: Subject, e: Rexp, i: nat, j: nat, r: Regs, r': Regs)
    requires ValidSubject(s) && i <= j <= s.len
    requires Match(s, e, i, j, r, r')
    ensures |r'| == |r|
    ensures forall n :: 0 <= n < |r| && n !in Groups(e) ==> r'[n] == r[n]
    decreases e, 0
  {
    match e
    case Null =>
    case Cset(_) =>
    case Str(_) =>
    case Concat(a, b) =>
      var m: nat, r1: Regs :| i <= m <= j && Match(s, a, i, m, r, r1) && Match(s, b, m, j, r1, r');
      MatchFrame(s, a, i, m, r, r1);
      MatchFrame(s, b, m, j, r1, r');
    case Alt(a, b) =>
      if Match(s, a, i, j, r, r') { MatchFrame(s, a, i, j, r, r'); }
      else { MatchFrame(s, b, i, j, r, r'); }
    case Opt(a) =>
      if Match(s, a, i, j, r, r') { MatchFrame(s, a, i, j, r, r'); }
    case Star(a) =>
      var k: nat :| Repeat(s, a, k, i, j, r, r');
      RepeatFrame(s, a, k, i, j, r, r');
    case Plus(a) =>
      var k: nat :| k >= 1 && Repeat(s, a, k, i, j, r, r');
      RepeatFrame(s, a, k, i, j, r, r');
    case Interval(a, min, max) =>
      var k: nat :| min <= k <= max && Repeat(s, a, k, i, j, r, r');
      RepeatFrame(s, a, k, i, j, r, r');
    case Parens(n, a) =>
      var r1: Regs :| Match(s, a, i, j, r, r1) && r' == Record(r1, n, i, j);
      MatchFrame(s, a, i, j, r, r1);
    case Context(_) =>
  }

  lemma {:induction false} RepeatFrame(s: Subject, a: Rexp, k: nat, i: nat, j: nat, r: Regs, r': Regs)
    requires ValidSubject(s) && i <= j <= s.len
    requires Repeat(s, a, k, i, j, r, r')
    ensures |r'| == |r|
    ensures forall n :: 0 <= n < |r| && n !in Groups(a) ==> r'[n] == r[n]
    decreases a, k + 1
  {
    if k > 0 {
      var m, r1 := FirstRepeat(s, a, k, i, j, r, r');
      MatchFrame(s, a, i, m, r, r1);
      RepeatFrame(s, a, k - 1, m, j, r1, r');
    }
  }
}
