/** The resumable backtracking matcher.  A `Solutions` object is a coroutine: each call
    of `NextSolution` puts the next outcome in the shared registers, and the call that
    finds no more puts back the registers the object was created with. */
module RxSpencer {
  import opened RxNode
  import opened RxAnal
  import opened RxSimp
  import opened RxOutcomes
  import opened RxStr
  import opened RxUnfa

  datatype Answer = Yes | No

  datatype Turn = Silent | Answered(ans: Answer)

  /** One of the outcomes of a node. */
  ghost predicate Yields(s: Subject, p: Pattern, e: Rexp, i: nat, j: nat, x: nat, r: Regs, r': Regs) {
    Usable(s, p, e) && i <= j <= s.len && r' in Outcomes(s, p, e, i, j, x, r)
  }

  /** What is inside a group; one without observed parts has one outcome. */
  lemma RegularGroup(s: Subject, p: Pattern, n: nat, a: Rexp, i: nat, j: nat, r: Regs)
    requires Usable(s, p, Parens(n, a)) && i <= j <= s.len
    ensures Observed(a) ==> Inside(s, p, Parens(n, a), i, j, 0, r) == RecordAll(Outcomes(s, p, a, i, j, 0, r), n, i, j)
    ensures !Observed(a) ==> Inside(s, p, Parens(n, a), i, j, 0, r) == [Record(r, n, i, j)]
  {
  }

  lemma RecordFirst(rs: seq<Regs>, n: nat, i: int, j: int)
    ensures rs == [] <==> RecordAll(rs, n, i, j) == []
    ensures rs != [] ==>
      RecordAll(rs, n, i, j)[0] == Record(rs[0], n, i, j) && RecordAll(rs, n, i, j)[1..] == RecordAll(rs[1..], n, i, j)
  {
  }

  lemma Regroup(y: seq<Regs>, o: seq<Regs>, t: seq<Regs>, z: seq<Regs>)
    ensures ((y + o) + t) + z == y + (o + (t + z))
  {
  }

  lemma HeadAndTail(a: seq<Regs>, b: seq<Regs>)
    ensures a == [] ==> a + b == b
    ensures a != [] ==> (a + b)[0] == a[0] && (a + b)[1..] == a[1..] + b
  {
  }

  // ------------------------------------------------------------------- the object

  class Solutions {
    const s: Subject
    const p: Pattern
    const regs: array<Reg>
    const exp: Rexp
    const start: nat
    const end: nat
    const none: bool      // the shared object that never has a solution

    var step: int
    var split: int
    var left: Solutions?
    var right: Solutions?
    var intervalX: nat
    var saved: Reg

    ghost var base: Regs        // the registers at creation
    ghost var cur: Regs         // the registers at the last answer
    ghost var todo: seq<Regs>   // the outcomes still to come
    ghost var Repr: set<object>

    /** What does not change: the span, the pattern and the demands on the tree. */
    ghost predicate Env() {
      && Usable(s, p, exp) && start <= end <= s.len && Matchable(s, regs.Length, exp)
      && (none <==> !LengthFits(exp, end - start))
    }

    ghost predicate Sound()
      reads this, Repr
      decreases Repr, 0
    {
      && this in Repr && regs !in Repr && Env()
      && |base| == regs.Length && |cur| == regs.Length
      && InRange(s, base)
      && (forall r' :: r' in todo ==> Yields(s, p, exp, start, end, intervalX, base, r'))
      && (if exp.Interval? then intervalX <= exp.max else intervalX == 0)
      && (left != null ==>
            && left in Repr && left.Repr <= Repr && this !in left.Repr
            && left.s == s && left.p == p && left.regs == regs && left.Valid())
      && (right != null ==>
            && right in Repr && right.Repr <= Repr && this !in right.Repr
            && right.s == s && right.p == p && right.regs == regs && right.Valid())
      && (left != null && right != null ==> left.Repr !! right.Repr)
    }

    ghost predicate Valid()
      reads this, Repr
      decreases Repr, 1
    {
      Sound() && Coherent()
    }

    /** What the object stands for at each step. */
    ghost predicate Coherent()
      requires Env() && |base| == regs.Length && |cur| == regs.Length
      reads this, left, right
    {
      if none then Fresh() && todo == []
      else if step == 0 then Fresh() && todo == Outcomes(s, p, exp, start, end, intervalX, base)
      else if step == -1 then left == null && right == null && todo == [] && cur == base
      else if exp.Null? then step == 1 && left == null && right == null && todo == [] && cur == base
      else Observed(exp) && Phase()
    }

    ghost predicate Fresh()
      reads this
    {
      left == null && right == null && cur == base
    }

    /** ... of an observed node. */
    ghost predicate Phase()
      requires Env() && Observed(exp) && |base| == regs.Length && |cur| == regs.Length
      reads this, left, right
    {
      if step == 1 then
        Fresh() && todo == Inside(s, p, exp, start, end, intervalX, base)
      else
      match exp
      case Parens(n, a) =>
        && right == null && (n > 0 ==> saved == base[n])
        && (if step == -2 then
              left == null && todo == [] && (cur == base || cur == Record(base, n, start, end))
            else
              && step == 2 && LeftFor(a, end)
              && todo == RecordAll(left.todo, n, start, end)
              && left.cur == (if n > 0 then cur[n := saved] else cur))
      case Opt(a) =>
        && step == 2 && right == null && LeftFor(a, end) && cur == left.cur
        && todo == left.todo + (if start == end then [base] else [])
      case Alt(a, b) =>
        if step == 2 then
          && right == null && LeftFor(a, end) && cur == left.cur
          && todo == left.todo + Outcomes(s, p, b, start, end, 0, base)
        else
          && step == 4 && left == null && RightFor(b, start, 0, base) && cur == right.cur
          && todo == right.todo
      case Concat(a, b) => step in {2, 3, 4} && SplitPhase(step)
      case Star(a) => step in {2, 3, 4} && SplitPhase(step)
      case Plus(a) => step in {2, 3, 4} && SplitPhase(step)
      case Interval(a, min, max) =>
        && intervalX < max
        && if step == 5 then Fresh() && todo == Splits(s, p, exp, start, end, end, intervalX, base)
           else step in {2, 3, 4} && SplitPhase(step)
      case _ => false
    }

    ghost predicate LeftFor(a: Rexp, e: int)
      reads this, left
    {
      && left != null && left.exp == a && left.start == start && left.end == e
      && left.intervalX == 0 && left.base == base
    }

    ghost predicate RightFor(b: Rexp, m: int, x: nat, r: Regs)
      reads this, right
    {
      && right != null && right.exp == b && right.start == m && right.end == end
      && right.intervalX == x && right.base == r
    }

    /** A node that matches a first part up to `split` and then the rest:
        2 - the first part is being enumerated; 3 - it has just matched;
        4 - the rest is being enumerated. */
    ghost predicate SplitPhase(phase: int)
      requires Env() && IsSplitter(exp) && (exp.Interval? ==> intervalX < exp.max) && |base| == regs.Length
      reads this, left, right
    {
      && start <= split <= end && LeftFor(exp.left, split)
      && (phase == 2 ==> right == null && cur == left.cur && todo == AfterLeft())
      && (phase == 3 ==>
            && right == null && cur == left.cur && InRange(s, cur) && Loops()
            && todo == Outcomes(s, p, RestNode(), split, end, RestX(), left.cur) + AfterLeft())
      && (phase == 4 ==>
            && RightFor(RestNode(), split, RestX(), left.cur) && Loops() && cur == right.cur
            && todo == right.todo + AfterLeft())
    }

    /** A star or plus goes on only after a non-empty iteration. */
    ghost predicate Loops()
      reads this
    {
      exp.Star? || exp.Plus? ==> split > start
    }

    function RestNode(): Rexp {
      if exp.Concat? then exp.right else exp
    }

    function RestX(): nat
      reads this
    {
      if exp.Interval? then intervalX + 1 else 0
    }

    /** The outcomes left once the current first part is done with. */
    ghost function AfterLeft(): seq<Regs>
      requires Env() && IsSplitter(exp) && (exp.Interval? ==> intervalX < exp.max)
      requires start <= split <= end && left != null
      reads this, left
    {
      Tails(s, p, exp, start, split, end, intervalX, left.todo)
        + Splits(s, p, exp, start, end, split - 1, intervalX, base)
    }

    // ------------------------------------------------------------- construction

    constructor (regs: array<Reg>, s: Subject, p: Pattern, exp: Rexp, start: nat, end: nat)
      requires Usable(s, p, exp) && start <= end <= s.len && Matchable(s, regs.Length, exp) && InRange(s, regs[..])
      ensures Valid() && fresh(Repr)
      ensures this.s == s && this.p == p && this.regs == regs
      ensures this.exp == exp && this.start == start && this.end == end
      ensures base == regs[..] && cur == base && intervalX == 0
      ensures step == 0 && left == null && right == null
      ensures none <==> !LengthFits(exp, end - start)
      ensures todo == Outcomes(s, p, exp, start, end, 0, base)
    {
      this.s := s;
      this.p := p;
      this.regs := regs;
      this.exp := exp;
      this.start := start;
      this.end := end;
      none := FixedLen(exp) >= 0 && FixedLen(exp) != end - start;
      step := 0;
      split := 0;
      left := null;
      right := null;
      intervalX := 0;
      saved := Reg(0, 0);
      base := regs[..];
      cur := regs[..];
      todo := Outcomes(s, p, exp, start, end, 0, regs[..]);
      Repr := {this};
      new;
    }

    /** Sets `interval_x` on a solution object just made. */
    method CountIterations(x: nat)
      requires Valid() && step == 0 && !none && exp.Interval? && x <= exp.max
      modifies this
      ensures Valid() && Env() && step == 0 && intervalX == x && base == old(base) && cur == old(cur)
      ensures Repr == old(Repr)
      ensures todo == Outcomes(s, p, exp, start, end, x, base)
    {
      intervalX := x;
      todo := Outcomes(s, p, exp, start, end, x, base);
    }

    /** The next outcome writes only the node's groups and is in range. */
    lemma NextIsFramed()
      requires Valid()
      ensures Env() && |base| == regs.Length && this in Repr
      ensures todo != [] ==> Yields(s, p, exp, start, end, intervalX, base, todo[0]) && Touches(s, exp, base, todo[0])
    {
      if todo != [] {
        assert todo[0] in todo;
        OutcomesFramed(s, p, exp, start, end, intervalX, base, todo[0]);
      }
    }

    // ------------------------------------------------------------- the filters

    /** `rx_solution_fit_p`: the DFA of the node, or of its simplified form. */
    method FitP() returns (b: bool)
      requires Sound()
      ensures b <==> EngineFits(if Observed(exp) then Simplify(p, exp) else exp, s.text[start..end])
    {
      if Observed(exp) { SimplifyCompiles(p, exp); } else { UnobservedContextFree(exp); }
      b := Fit(if Observed(exp) then Simplify(p, exp) else exp, s.text[start..end]);
    }

    /** `rx_solution_fit_str_p`: compares a string node with the subject. */
    method FitStrP() returns (b: bool)
      requires Sound() && exp.Str? && |exp.text| == end - start
      ensures b <==> s.text[start..end] == exp.text
    {
      var pos := start;
      var count := |exp.text|;
      while count > 0
        invariant count == end - pos && start <= pos <= end
        invariant s.text[start..pos] == exp.text[..pos - start]
      {
        if s.text[pos] != exp.text[pos - start] {
          assert s.text[start..end][pos - start] != exp.text[pos - start];
          return false;
        }
        pos := pos + 1;
        count := count - 1;
      }
      assert exp.text[..end - start] == exp.text;
      return true;
    }

    // --------------------------------------------------------- the next solution

    /** The promise of one call: `Yes` takes the next outcome, which is then in the
        registers; `No` means there is none left and the registers are as at creation. */
    twostate predicate Answers(ans: Answer)
      reads this
    {
      && base == old(base) && intervalX == old(intervalX)
      && (ans == Yes ==> old(todo) != [] && cur == old(todo)[0] && todo == old(todo)[1..])
      && (ans == No ==> old(todo) == [] && todo == [] && cur == base)
    }

    /** `rx_next_solution`. */
    method NextSolution() returns (ans: Answer)
      requires Valid() && regs[..] == cur
      modifies Repr, regs
      ensures Valid() && fresh(Repr - old(Repr)) && regs[..] == cur && Answers(ans)
      decreases end - start, exp, IntervalRest(exp, intervalX), 6
    {
      if none { return No; }
      if exp.Null? {
        if step != 0 { return No; }
        step := 1;
        if start != end { return No; }
        todo := [];
        return Yes;
      } else if FixedLen(exp) >= 0 && FixedLen(exp) != end - start {
        return No;
      } else if !Observed(exp) {
        if step != 0 { return No; }
        var fit;
        if exp.Str? { fit := FitStrP(); } else { fit := FitP(); }
        step := -1;
        if !fit { return No; }
        todo := [];
        return Yes;
      } else {
        ans := NextObserved();
      }
    }

    method NextObserved() returns (ans: Answer)
      requires Sound() && Coherent() && regs[..] == cur && !none && Observed(exp)
      modifies Repr, regs
      ensures Sound() && Coherent() && fresh(Repr - old(Repr)) && regs[..] == cur && Answers(ans)
      decreases end - start, exp, IntervalRest(exp, intervalX), 5
    {
      if step == -2 {
        RestoreGroup();
        return No;
      }
      if step == -1 { return No; }
      if step == 0 {
        var fit := Screen();
        if !fit { return No; }
      }
      ans := Resume();
    }

    /** The switch on the node type, for a node whose DFA has accepted the span. */
    method Resume() returns (ans: Answer)
      requires Sound() && Coherent() && regs[..] == cur && !none && Observed(exp) && step > 0
      modifies Repr, regs
      ensures Sound() && Coherent() && fresh(Repr - old(Repr)) && regs[..] == cur && Answers(ans)
      decreases end - start, exp, IntervalRest(exp, intervalX), 4
    {
      match exp {
        case Parens(_, _) => ans := NextParens();
        case Opt(_) => ans := NextOpt();
        case Alt(_, _) => ans := NextAlternate();
        case Concat(_, _) => ans := NextSplit();
        case Star(_) => ans := NextSplit();
        case Plus(_) => ans := NextSplit();
        case Interval(_, _, _) => ans := NextInterval();
        case Context(_) => ans := NextContext();
      }
    }

    /** Step -2 of a group around a regular tree. */
    method RestoreGroup()
      requires Sound() && Coherent() && regs[..] == cur && !none && Observed(exp) && step == -2
      modifies Repr, regs
      ensures Sound() && Coherent() && fresh(Repr - old(Repr)) && regs[..] == cur && Answers(No)
    {
      if exp.num > 0 { regs[exp.num] := saved; }
      cur := base;
    }

    /** Step 0: the DFA of the simplified tree must accept the span. */
    method Screen() returns (fit: bool)
      requires Sound() && Coherent() && regs[..] == cur && !none && Observed(exp) && step == 0
      modifies this
      ensures Sound() && Coherent() && Repr == old(Repr) && base == old(base) && intervalX == old(intervalX)
      ensures cur == old(cur)
      ensures fit ==> step == 1 && todo == old(todo)
      ensures !fit ==> Answers(No)
    {
      fit := FitP();
      if fit {
        step := 1;
      } else {
        step := -1;
      }
    }

    method NextContext() returns (ans: Answer)
      requires Sound() && Coherent() && regs[..] == cur && !none && step == 1 && exp.Context?
      modifies Repr, regs
      ensures Sound() && Coherent() && fresh(Repr - old(Repr)) && regs[..] == cur && Answers(ans)
      decreases end - start, exp, IntervalRest(exp, intervalX), 1
    {
      step := -1;
      if !ContextFn(s, exp.op, start, end, regs[..]) { return No; }
      todo := [];
      return Yes;
    }

    /** Makes the solutions of the first operand on [start, e). */
    method MakeLeft(e: nat)
      requires Sound() && !none && Observed(exp) && !exp.Context?
      requires left == null && right == null && cur == base && regs[..] == cur && start <= e <= end
      modifies this
      ensures Sound() && fresh(Repr - old(Repr)) && right == null
      ensures LeftFor(exp.left, e) && left.cur == base
      ensures left.todo == Outcomes(s, p, exp.left, start, e, 0, base)
      ensures step == old(step) && split == old(split) && intervalX == old(intervalX) && saved == old(saved)
      ensures base == old(base) && cur == old(cur) && todo == old(todo)
    {
      left := new Solutions(regs, s, p, exp.left, start, e);
      Repr := Repr + left.Repr;
    }

    method NextParens() returns (ans: Answer)
      requires Sound() && Coherent() && regs[..] == cur && !none && exp.Parens? && step > 0
      modifies Repr, regs
      ensures Sound() && Coherent() && fresh(Repr - old(Repr)) && regs[..] == cur && Answers(ans)
      decreases end - start, exp, IntervalRest(exp, intervalX), 1
    {
      hide Valid, Outcomes, Inside, Yields, RecordAll, Touches;
      if step == 1 {
        RegularGroup(s, p, exp.num, exp.left, start, end, base);
        if exp.num > 0 { saved := regs[exp.num]; }
        if !Observed(exp.left) {
          RecordWhole();
          return Yes;
        }
        MakeLeft(end);
        step := 2;
      }
      ans := NextInParens();
    }

    method RecordWhole()
      requires Sound() && Coherent() && regs[..] == cur && !none && exp.Parens? && step == 1 && !Observed(exp.left)
      requires Matchable(s, regs.Length, exp) && (exp.num > 0 ==> saved == base[exp.num])
      modifies this, regs
      ensures Sound() && Coherent() && Repr == old(Repr) && regs[..] == cur && Answers(Yes)
    {
      RegularGroup(s, p, exp.num, exp.left, start, end, base);
      hide Valid, Outcomes, Inside, Yields, RecordAll;
      if exp.num > 0 { regs[exp.num] := Reg(start, end); }
      step := -2;
      cur := Record(base, exp.num, start, end);
      todo := [];
    }

    method NextInParens() returns (ans: Answer)
      requires Sound() && Coherent() && regs[..] == cur && !none && exp.Parens? && step == 2
      modifies Repr, regs
      ensures Sound() && Coherent() && fresh(Repr - old(Repr)) && regs[..] == cur && Answers(ans)
      decreases end - start, exp, IntervalRest(exp, intervalX), 0
    {
      hide Valid, Outcomes, Inside, Yields, InRange, Usable, RecordAll, Splits, Tails, Tail;
      RecordFirst(left.todo, exp.num, start, end);
      var n := exp.num;
      if n > 0 { regs[n] := saved; }
      assert regs[..] == left.cur;
      ans := StepLeft();
      if ans == Yes {
        if n > 0 { regs[n] := Reg(start, end); }
        cur := Record(left.cur, n, start, end);
        todo := todo[1..];
      } else {
        step := -1;
        left := null;
        if n > 0 { regs[n] := saved; }
        cur := base;
      }
    }

    /** Asks the first operand for its next solution. */
    method StepLeft() returns (ans: Answer)
      requires Sound() && left != null && right == null && regs[..] == left.cur
      requires left.end - left.start < end - start || (left.end - left.start == end - start && left.exp < exp)
      modifies left.Repr, this`Repr, regs
      ensures Sound() && fresh(Repr - old(Repr)) && left == old(left) && regs[..] == left.cur
      ensures left.Env() && left.base == old(left.base) && left.intervalX == old(left.intervalX)
      ensures |left.base| == regs.Length
      ensures ans == Yes ==> old(left.todo) != [] && left.cur == old(left.todo)[0] && left.todo == old(left.todo)[1..]
      ensures ans == Yes ==> Yields(s, p, left.exp, left.start, left.end, left.intervalX, left.base, left.cur)
      ensures ans == Yes ==> Touches(s, left.exp, left.base, left.cur)
      ensures ans == No ==> old(left.todo) == [] && left.todo == [] && left.cur == left.base
      decreases left.end - left.start, left.exp, IntervalRest(left.exp, left.intervalX), 7
    {
      left.NextIsFramed();
      ans := left.NextSolution();
      Repr := Repr + left.Repr;
    }

    /** Makes the solutions of the second operand, or of the rest of a repetition. */
    method MakeRight(b: Rexp, m: nat, ghost r: Regs)
      requires Sound() && !none && Observed(exp) && right == null && start <= m <= end
      requires ((exp.Alt? || exp.Concat?) && b == exp.right) || b == exp
      requires |r| == regs.Length && regs[..] == r && InRange(s, r)
      modifies this
      ensures Sound() && fresh(Repr - old(Repr)) && left == old(left)
      ensures RightFor(b, m, 0, r) && right.cur == r && right.Env() && right.step == 0 && right.Valid()
      ensures right.none <==> !LengthFits(b, end - m)
      ensures right.todo == Outcomes(s, p, b, m, end, 0, r) && fresh(right.Repr)
      ensures step == old(step) && split == old(split) && intervalX == old(intervalX) && saved == old(saved)
      ensures base == old(base) && cur == old(cur) && todo == old(todo)
    {
      right := new Solutions(regs, s, p, b, m, end);
      Repr := Repr + right.Repr;
    }

    /** Asks the second part for its next solution. */
    method StepRight() returns (ans: Answer)
      requires Sound() && right != null && regs[..] == right.cur
      requires
        || right.end - right.start < end - start
        || (right.end - right.start == end - start && right.exp < exp)
        || (right.end - right.start == end - start && right.exp == exp
            && IntervalRest(exp, right.intervalX) < IntervalRest(exp, intervalX))
      modifies right.Repr, this`Repr, regs
      ensures Sound() && fresh(Repr - old(Repr)) && right == old(right) && regs[..] == right.cur
      ensures right.Env() && right.base == old(right.base) && right.intervalX == old(right.intervalX)
      ensures left != null ==>
        && left.todo == old(left.todo) && left.cur == old(left.cur)
        && left.base == old(left.base) && left.intervalX == old(left.intervalX)
      ensures ans == Yes ==>
        old(right.todo) != [] && right.cur == old(right.todo)[0] && right.todo == old(right.todo)[1..]
      ensures ans == Yes ==> |right.cur| == regs.Length
      ensures ans == No ==> old(right.todo) == [] && right.todo == [] && right.cur == right.base
      decreases right.end - right.start, right.exp, IntervalRest(right.exp, right.intervalX), 7
    {
      right.NextIsFramed();
      if left != null { left.NextIsFramed(); }
      ans := right.NextSolution();
      Repr := Repr + right.Repr;
    }

    method NextOpt() returns (ans: Answer)
      requires Sound() && Coherent() && regs[..] == cur && !none && exp.Opt? && step > 0
      modifies Repr, regs
      ensures Sound() && Coherent() && fresh(Repr - old(Repr)) && regs[..] == cur && Answers(ans)
      decreases end - start, exp, IntervalRest(exp, intervalX), 1
    {
      if step == 1 {
        MakeLeft(end);
        step := 2;
      }
      ans := NextInOpt();
    }

    method NextInOpt() returns (ans: Answer)
      requires Sound() && Coherent() && regs[..] == cur && !none && exp.Opt? && step == 2
      modifies Repr, regs
      ensures Sound() && Coherent() && fresh(Repr - old(Repr)) && regs[..] == cur && Answers(ans)
      decreases end - start, exp, IntervalRest(exp, intervalX), 0
    {
      hide Valid, Outcomes, Inside, Splits, Tails, Tail;
      hide Usable, Matchable, InRange, Touches, Yields;
      var stat := StepLeft();
      if stat == Yes {
        cur := left.cur;
        todo := todo[1..];
        return Yes;
      }
      step := -1;
      left := null;
      cur := base;
      if start == end {
        todo := [];
        return Yes;
      }
      return No;
    }

    method NextAlternate() returns (ans: Answer)
      requires Sound() && Coherent() && regs[..] == cur && !none && exp.Alt? && step > 0
      modifies Repr, regs
      ensures Sound() && Coherent() && fresh(Repr - old(Repr)) && regs[..] == cur && Answers(ans)
      decreases end - start, exp, IntervalRest(exp, intervalX), 1
    {
      if step == 1 {
        MakeLeft(end);
        step := 2;
      }
      if step == 2 {
        ans := NextFirst();
        if ans == Yes { return Yes; }
      }
      ans := NextSecond();
    }

    /** The left branch of an alternation; when it is exhausted the right one is set up. */
    method NextFirst() returns (ans: Answer)
      requires Sound() && Coherent() && regs[..] == cur && !none && exp.Alt? && step == 2
      modifies Repr, regs
      ensures Sound() && Coherent() && fresh(Repr - old(Repr)) && regs[..] == cur
      ensures ans == Yes ==> Answers(Yes)
      ensures ans == No ==> step == 4 && todo == old(todo) && base == old(base) && intervalX == old(intervalX)
      decreases end - start, exp, IntervalRest(exp, intervalX), 0
    {
      ghost var rest := Outcomes(s, p, exp.right, start, end, 0, base);
      HeadAndTail(left.todo, rest);
      ans := StepLeft();
      if ans == Yes {
        cur := left.cur;
        todo := todo[1..];
        assert todo == left.todo + rest;
      } else {
        assert todo == rest;
        TurnRight();
      }
    }

    method TurnRight()
      requires Sound() && !none && Observed(exp) && exp.Alt? && right == null && regs[..] == base
      requires todo == Outcomes(s, p, exp.right, start, end, 0, base)
      modifies this
      ensures Sound() && Coherent() && fresh(Repr - old(Repr)) && regs[..] == cur && step == 4
      ensures todo == old(todo) && base == old(base) && intervalX == old(intervalX)
    {
      left := null;
      cur := base;
      MakeRight(exp.right, start, base);
      step := 4;
    }

    method NextSecond() returns (ans: Answer)
      requires Sound() && Coherent() && regs[..] == cur && !none && exp.Alt? && step == 4
      modifies Repr, regs
      ensures Sound() && Coherent() && fresh(Repr - old(Repr)) && regs[..] == cur && Answers(ans)
      decreases end - start, exp, IntervalRest(exp, intervalX), 0
    {
      hide Valid, Outcomes, Inside, Splits, Tails, Tail;
      hide Usable, Matchable, InRange, Touches, Yields;
      ans := StepRight();
      if ans == Yes {
        cur := right.cur;
        todo := todo[1..];
      } else {
        step := -1;
        right := null;
        cur := base;
      }
    }

    // --------------------------------------- concatenation and repetition, by splits

    lemma SplitsAreOutcomes()
      requires Env() && Observed(exp) && (exp.Interval? || intervalX == 0)
      ensures exp.Concat? || exp.Star? || exp.Plus? ==>
        Inside(s, p, exp, start, end, intervalX, base) == Splits(s, p, exp, start, end, end, intervalX, base)
    {
    }

    /** Starts on the splits that end the first part at `m` or before. */
    method BeginSplit(m: nat)
      requires Sound() && !none && Observed(exp) && IsSplitter(exp) && (exp.Interval? ==> intervalX < exp.max)
      requires left == null && right == null && cur == base && regs[..] == cur && start <= m <= end
      requires todo == Splits(s, p, exp, start, end, m, intervalX, base)
      modifies this
      ensures step == old(step) && base == old(base) && cur == old(cur) && todo == old(todo)
      ensures intervalX == old(intervalX)
      ensures Sound() && fresh(Repr - old(Repr)) && split == m && SplitPhase(2)
    {
      split := m;
      MakeLeft(m);
    }

    /** The next first part for the current split. */
    method StepFirst() returns (ans: Answer)
      requires Sound() && !none && Observed(exp) && IsSplitter(exp) && (exp.Interval? ==> intervalX < exp.max)
      requires SplitPhase(2) && regs[..] == cur
      modifies left.Repr, this`Repr, this`cur, regs
      ensures Sound() && fresh(Repr - old(Repr)) && regs[..] == cur && left == old(left) && left.base == base
      ensures ans == Yes ==> cur == left.cur && LeftFor(exp.left, split) && Loops() && InRange(s, cur)
      ensures ans == Yes ==> |left.todo| < |old(left.todo)|
      ensures ans == Yes ==>
        todo == (if (exp.Star? || exp.Plus?) && split == end then [cur] else [])
                + (Outcomes(s, p, RestNode(), split, end, RestX(), cur) + AfterLeft())
      ensures ans == No ==> cur == base && todo == Splits(s, p, exp, start, end, split - 1, intervalX, base)
      ensures ans == No && split == start ==> todo == if exp.Star? && start == end then [base] else []
      decreases end - start, exp, IntervalRest(exp, intervalX), 0
    {
      hide Valid, Outcomes, Inside, Splits, Tails, Tail;
      hide Usable, Matchable, InRange, Touches, Yields;
      ghost var firsts := left.todo;
      ans := StepLeft();
      cur := left.cur;
      if ans == Yes {
        FirstMatched(firsts);
      } else {
        NoFirst();
      }
    }

    /** Taking a first part off the list puts the outcomes after it in front. */
    lemma FirstMatched(firsts: seq<Regs>)
      requires Env() && IsSplitter(exp) && Observed(exp) && (exp.Interval? ==> intervalX < exp.max)
      requires start <= split <= end && left != null && |base| == regs.Length
      requires firsts != [] && left.cur == firsts[0] && left.todo == firsts[1..]
      requires Yields(s, p, exp.left, start, split, 0, base, left.cur) && InRange(s, base)
      ensures Loops()
      ensures Tails(s, p, exp, start, split, end, intervalX, firsts)
        + Splits(s, p, exp, start, end, split - 1, intervalX, base)
           == (if (exp.Star? || exp.Plus?) && split == end then [left.cur] else [])
              + (Outcomes(s, p, RestNode(), split, end, RestX(), left.cur) + AfterLeft())
    {
      hide Splits, Outcomes, FixedLen;
      if (exp.Star? || exp.Plus?) && split == start {
        FirstExact(s, p, regs.Length, exp, start, split, base, left.cur);
        assert false;
      }
      var t := Tails(s, p, exp, start, split, end, intervalX, left.todo);
      var z := Splits(s, p, exp, start, end, split - 1, intervalX, base);
      assert Tails(s, p, exp, start, split, end, intervalX, firsts) ==
        Tail(s, p, exp, start, split, end, intervalX, left.cur) + t;
      var o := Outcomes(s, p, RestNode(), split, end, RestX(), left.cur);
      var y: seq<Regs> := if (exp.Star? || exp.Plus?) && split == end then [left.cur] else [];
      assert Tail(s, p, exp, start, split, end, intervalX, left.cur) == y + o;
      Regroup(y, o, t, z);
    }

    lemma NoFirst()
      requires Env() && IsSplitter(exp) && (exp.Interval? ==> intervalX < exp.max)
      requires start <= split <= end && left != null && left.todo == []
      ensures AfterLeft() == Splits(s, p, exp, start, end, split - 1, intervalX, base)
      ensures split == start ==> AfterLeft() == if exp.Star? && start == end then [base] else []
    {
    }

    /** Step 3 to step 4: start on the rest. */
    method BeginRest()
      requires Sound() && !none && Observed(exp) && IsSplitter(exp) && (exp.Interval? ==> intervalX < exp.max)
      requires SplitPhase(3) && regs[..] == cur
      modifies this
      ensures step == old(step) && base == old(base) && cur == old(cur) && todo == old(todo)
      ensures intervalX == old(intervalX)
      ensures Sound() && fresh(Repr - old(Repr)) && left == old(left) && split == old(split) && SplitPhase(4)
    {
      MakeRight(RestNode(), split, cur);
      if exp.Interval? {
        right.CountIterations(intervalX + 1);
      }
    }

    /** The next solution of the rest; when there is none, back to the first part. */
    method StepRest() returns (ans: Answer)
      requires Sound() && !none && Observed(exp) && IsSplitter(exp) && (exp.Interval? ==> intervalX < exp.max)
      requires SplitPhase(4) && regs[..] == cur
      modifies right.Repr, this`Repr, this`cur, this`todo, this`right, regs
      ensures Sound() && fresh(Repr - old(Repr)) && regs[..] == cur && left == old(left)
      ensures left.todo == old(left.todo)
      ensures ans == Yes ==> Answers(Yes) && SplitPhase(4)
      ensures ans == No ==> todo == old(todo) && SplitPhase(2)
      decreases end - start, exp, IntervalRest(exp, intervalX), 0
    {
      hide Valid, Outcomes, Inside, Splits, Tails, Tail;
      hide Usable, Matchable, InRange, Touches, Yields;
      ghost var rest := AfterLeft();
      HeadAndTail(right.todo, rest);
      ans := StepRight();
      assert AfterLeft() == rest;
      if ans == Yes {
        cur := right.cur;
        todo := todo[1..];
      } else {
        right := null;
        cur := left.cur;
        assert todo == rest;
      }
    }

    /** Step 2: one try at the first part.  `Silent` when the search goes on. */
    method TryFirst() returns (turn: Turn)
      requires Sound() && step == 2 && Splitting() && regs[..] == cur
      modifies Repr, regs
      ensures Sound() && fresh(Repr - old(Repr)) && regs[..] == cur
      ensures turn == Silent ==> step in {2, 3} && Splitting() && Unmoved()
      ensures turn == Silent ==> split < old(split) || (split == old(split) && |left.todo| < |old(left.todo)|)
      ensures turn != Silent ==> Coherent() && Answers(turn.ans)
      decreases end - start, exp, IntervalRest(exp, intervalX), 1
    {
      hide Valid, Outcomes, Inside, Splits, Tails, Tail;
      hide Usable, Matchable, InRange, Touches, Yields, FixedLen, Simplify, Groups, RecordAll, SameText;
      var stat := StepFirst();
      if stat == Yes {
        step := 3;
        if (exp.Star? || exp.Plus?) && split == end {
          todo := todo[1..];
          return Answered(Yes);
        }
        return Silent;
      }
      turn := Shorten();
    }

    /** No first part is left for this split: on to the one before it, if there is one. */
    method Shorten() returns (turn: Turn)
      requires Sound() && !none && Observed(exp) && IsSplitter(exp) && (exp.Interval? ==> intervalX < exp.max)
      requires step == 2 && start <= split <= end && right == null && cur == base && regs[..] == cur
      requires todo == Splits(s, p, exp, start, end, split - 1, intervalX, base)
      requires split == start ==> todo == if exp.Star? && start == end then [base] else []
      modifies this
      ensures Sound() && fresh(Repr - old(Repr)) && regs[..] == cur
      ensures turn == Silent ==> step == 2 && Splitting() && Unmoved() && split < old(split)
      ensures turn != Silent ==> Coherent() && Answers(turn.ans)
    {
      hide Valid, Outcomes, Inside, Splits, Tails, Tail, RecordAll, FixedLen;
      hide Usable, Matchable, InRange, Touches, Yields;
      left := null;
      if split - 1 >= start {
        BeginSplit(split - 1);
        return Silent;
      }
      step := -1;
      if exp.Star? && start == end {
        todo := [];
        return Answered(Yes);
      }
      return Answered(No);
    }

    /** Steps 3 and 4: start on the rest, or ask for its next solution. */
    method TryRest() returns (turn: Turn)
      requires Sound() && step in {3, 4} && Splitting() && regs[..] == cur
      modifies Repr, regs
      ensures Sound() && fresh(Repr - old(Repr)) && regs[..] == cur
      ensures turn == Silent ==> Splitting() && Unmoved() && step == (if old(step) == 3 then 4 else 2)
      ensures turn == Silent ==> split == old(split) && left.todo == old(left.todo)
      ensures turn != Silent ==> Coherent() && Answers(turn.ans)
      decreases end - start, exp, IntervalRest(exp, intervalX), 1
    {
      hide Valid, Outcomes, Inside, Splits, Tails, Tail;
      hide Usable, Matchable, InRange, Touches, Yields;
      if step == 3 {
        BeginRest();
        step := 4;
        return Silent;
      }
      var stat := StepRest();
      if stat == Yes { return Answered(Yes); }
      step := 2;
      return Silent;
    }

    /** A step that gives no answer leaves what is still to come as it was. */
    twostate predicate Unmoved()
      reads this
    {
      base == old(base) && todo == old(todo) && intervalX == old(intervalX)
    }

    /** The node is in the middle of its splits. */
    ghost predicate Splitting()
      requires Env() && |base| == regs.Length
      reads this, left, right
    {
      && !none && Observed(exp) && IsSplitter(exp) && (exp.Interval? ==> intervalX < exp.max)
      && step in {2, 3, 4} && start <= split && left != null && SplitPhase(step)
    }

    /** The loop shared by concatenation, star, plus and interval. */
    method RunSplits() returns (ans: Answer)
      requires Sound() && Splitting() && regs[..] == cur
      modifies Repr, regs
      ensures Sound() && Coherent() && fresh(Repr - old(Repr)) && regs[..] == cur && Answers(ans)
      decreases end - start, exp, IntervalRest(exp, intervalX), 2
    {
      hide Valid, SplitPhase, Outcomes, Inside, Splits, Tails, Tail;
      hide Usable, Matchable, InRange, Touches, Yields;
      while true
        invariant Sound() && Splitting() && Unmoved() && regs[..] == cur && fresh(Repr - old(Repr))
        decreases split - start, |left.todo|, if step == 2 then 0 else if step == 4 then 1 else 2
      {
        var turn;
        if step == 2 { turn := TryFirst(); } else { turn := TryRest(); }
        if turn != Silent { return turn.ans; }
      }
    }

    method NextSplit() returns (ans: Answer)
      requires Sound() && Coherent() && regs[..] == cur && !none && step > 0
      requires exp.Concat? || exp.Star? || exp.Plus?
      modifies Repr, regs
      ensures Sound() && Coherent() && fresh(Repr - old(Repr)) && regs[..] == cur && Answers(ans)
      decreases end - start, exp, IntervalRest(exp, intervalX), 3
    {
      hide Valid, Outcomes, Inside, Splits, Tails, Tail;
      hide Usable, Matchable, InRange, Touches, Yields;
      if step == 1 {
        SplitsAreOutcomes();
        BeginSplit(end);
        step := 2;
      }
      ans := RunSplits();
    }

    method NextInterval() returns (ans: Answer)
      requires Sound() && Coherent() && regs[..] == cur && !none && exp.Interval? && step > 0
      modifies Repr, regs
      ensures Sound() && Coherent() && fresh(Repr - old(Repr)) && regs[..] == cur && Answers(ans)
      decreases end - start, exp, IntervalRest(exp, intervalX), 3
    {
      hide Valid, Outcomes, Inside, Splits, Tails, Tail;
      hide Usable, InRange, Touches, Yields;
      if step == 1 {
        var turn := EnterInterval();
        if turn != Silent { return turn.ans; }
      }
      if step == 5 {
        StartIterations();
      }
      ans := RunSplits();
    }

    /** Step 1 of an interval: no more iterations, or the one outcome without any. */
    method EnterInterval() returns (turn: Turn)
      requires Sound() && Coherent() && regs[..] == cur && !none && exp.Interval? && step == 1
      modifies `step, `todo
      ensures Sound() && Coherent() && Repr == old(Repr) && regs[..] == cur
      ensures turn == Silent ==> Unmoved() && step == 5
      ensures turn != Silent ==> Answers(turn.ans)
    {
      hide Valid, Outcomes, Inside, Splits, Tails, Tail;
      hide Usable, InRange, Touches, Yields;
      IntervalOutcomes();
      if exp.max == intervalX {
        step := -1;
        if start != end { return Answered(No); }
        todo := [];
        return Answered(Yes);
      }
      step := 5;
      if exp.min <= intervalX && start == end {
        todo := todo[1..];
        return Answered(Yes);
      }
      turn := Silent;
    }

    method StartIterations()
      requires Sound() && Coherent() && regs[..] == cur && !none && exp.Interval? && step == 5
      modifies this
      ensures Sound() && Splitting() && Unmoved() && fresh(Repr - old(Repr)) && regs[..] == cur
    {
      hide Valid, Outcomes, Inside, Splits, Tails, Tail;
      hide Usable, InRange, Touches, Yields;
      BeginSplit(end);
      step := 2;
    }

    lemma IntervalOutcomes()
      requires Env() && Observed(exp) && exp.Interval? && intervalX <= exp.max
      ensures exp.min <= exp.max
      ensures Inside(s, p, exp, start, end, intervalX, base)
        == (if exp.min <= intervalX && start == end then [base] else [])
           + (if intervalX < exp.max then Splits(s, p, exp, start, end, end, intervalX, base) else [])
    {
    }
  }
}
