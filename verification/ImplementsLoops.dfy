/** How the code of `if` and of loops carries them out, given that the code of their parts does. */
module ImplementsLoops {
  import opened IdomTree
  import opened Vregs
  import opened Structured
  import opened LoweredCode
  import opened Implements

  function UnlessGo(cond: Operand, block: nat): Instr {
    Instr(BranchIfNot, None, Some(cond), Some(Label(block)))
  }

  /** A test: to one block when it fails, to the other otherwise. */
  ghost predicate TestsAt(code: Code, mid: Pos, cond: Operand, pass: nat, fail: nat) {
    InstrAt(code, mid, UnlessGo(cond, fail)) && InstrAt(code, Next(mid), JumpTo(pass))
  }

  lemma TestsLater(code: Code, code': Code, mid: Pos, cond: Operand, pass: nat, fail: nat)
    requires TestsAt(code, mid, cond, pass, fail) && Extends(code, code')
    ensures TestsAt(code', mid, cond, pass, fail)
  {
    InstrStays(code, code', mid, UnlessGo(cond, fail));
    InstrStays(code, code', Next(mid), JumpTo(pass));
    hide Extends, InstrAt;
  }

  lemma TestGoes(m: Meaning, code: Code, mid: Pos, cond: Operand, pass: nat, fail: nat, mem: Memory)
    requires TestsAt(code, mid, cond, pass, fail)
    ensures Gets(m, code, At(mid, mem), At(Pos(if mem.Value(cond) == 0 then fail else pass, 0), mem), 1)
  {
    hide Gets, InstrAt;
    Runs(m, code, At(mid, mem), UnlessGo(cond, fail));
    if mem.Value(cond) != 0 {
      Runs(m, code, At(Next(mid), mem), JumpTo(pass));
      GetsOn(m, code, At(mid, mem), At(Next(mid), mem), At(Pos(pass, 0), mem), 1, 1);
      GetsLess(m, code, At(mid, mem), At(Pos(pass, 0), mem), 2, 1);
    }
  }

  lemma GetsLess(m: Meaning, code: Code, a: State, b: State, k: nat, less: nat)
    requires Gets(m, code, a, b, k) && less <= k
    ensures Gets(m, code, a, b, less)
  {
  }

  /** Evaluating a condition and testing it. */
  lemma ConditionGoes(m: Meaning, code: Code, from: Pos, mid: Pos, cond: Operand, e: Expr, low: nat, pass: nat,
                      fail: nat, mem: Memory)
    returns (mem': Memory)
    requires ExprAt(m, code, from, mid, cond, e, low, mem) && mem.params == [] && TestsAt(code, mid, cond, pass, fail)
    ensures var (a, t) := Eval(m, e, mem.vars, mem.trace);
            && mem'.params == [] && mem'.vars == mem.vars && mem'.trace == t
            && Gets(m, code, At(from, mem), At(Pos(if a == 0 then fail else pass, 0), mem'), 1)
  {
    hide Gets, ExprAt, TestsAt;
    mem' := GetExpr(m, code, from, mid, cond, e, low, mem);
    TestGoes(m, code, mid, cond, pass, fail, mem');
    GetsOn(m, code, At(from, mem), At(mid, mem'), At(Pos(if mem'.Value(cond) == 0 then fail else pass, 0), mem'), 0, 1);
  }

  // ---- if ----

  /** Where the parts of an `if` sit in the code. */
  datatype Fork = Fork(from: Pos, mid: Pos, cond: Operand, low: nat, pass: nat, fail: nat, end: nat, passed: Pos,
                       failed: Pos)

  ghost predicate ForkAt(code: Code, f: Fork) {
    TestsAt(code, f.mid, f.cond, f.pass, f.fail) && InstrAt(code, f.passed, JumpTo(f.end)) &&
    InstrAt(code, f.failed, JumpTo(f.end))
  }

  lemma ForkRuns(m: Meaning, code: Code, f: Fork, targets: Option<Targets>, s: Stmt, fuel: nat, mem: Memory)
    requires s.If? && mem.params == [] && ForkAt(code, f) && ExprAt(m, code, f.from, f.mid, f.cond, s.cond, f.low, mem)
    requires forall mem': Memory :: StmtAt(m, code, Pos(f.pass, 0), f.passed, targets, s.thenBranch, fuel, mem')
    requires if s.elseBranch.Some? then
             forall mem': Memory :: StmtAt(m, code, Pos(f.fail, 0), f.failed, targets, s.elseBranch.value, fuel, mem')
             else f.failed == Pos(f.fail, 0)
    ensures StmtAt(m, code, f.from, Pos(f.end, 0), targets, s, fuel, mem)
  {
    hide Gets, GetsTo, InstrAt, TestsAt, ExprAt, EndsAs, Eval;
    var mem' := ConditionGoes(m, code, f.from, f.mid, f.cond, s.cond, f.low, f.pass, f.fail, mem);
    var (a, t) := Eval(m, s.cond, mem.vars, mem.trace);
    var o := Exec(m, s, mem.Store(), fuel);
    if a != 0 {
      assert StmtAt(m, code, Pos(f.pass, 0), f.passed, targets, s.thenBranch, fuel, mem');
      ThenJump(m, code, At(Pos(f.pass, 0), mem'), f.passed, f.end, targets, o, fuel);
      EndsAfter(m, code, At(f.from, mem), At(Pos(f.pass, 0), mem'), 1, Pos(f.end, 0), targets, o, fuel);
    } else {
      if s.elseBranch.Some? {
        assert StmtAt(m, code, Pos(f.fail, 0), f.failed, targets, s.elseBranch.value, fuel, mem');
      } else {
        StandsThere(m, code, f.failed, mem', targets, fuel);
      }
      ThenJump(m, code, At(Pos(f.fail, 0), mem'), f.failed, f.end, targets, o, fuel);
      EndsAfter(m, code, At(f.from, mem), At(Pos(f.fail, 0), mem'), 1, Pos(f.end, 0), targets, o, fuel);
    }
  }

  lemma StandsThere(m: Meaning, code: Code, p: Pos, mem: Memory, targets: Option<Targets>, fuel: nat)
    requires mem.params == []
    ensures EndsAs(m, code, At(p, mem), p, targets, Normal(mem.Store()), fuel) &&
            GetsTo(m, code, At(p, mem), p, mem.Store())
  {
    GetsItself(m, code, At(p, mem));
    assert mem == Memory(mem.vars, mem.temps, [], mem.trace);
  }

  lemma ExecutesIf(code: Code, f: Fork, targets: Option<Targets>, s: Stmt)
    requires s.If? && ForkAt(code, f) && Evaluates(code, f.from, f.mid, f.cond, s.cond, f.low)
    requires Executes(code, Pos(f.pass, 0), f.passed, targets, s.thenBranch)
    requires if s.elseBranch.Some? then Executes(code, Pos(f.fail, 0), f.failed, targets, s.elseBranch.value)
             else f.failed == Pos(f.fail, 0)
    ensures Executes(code, f.from, Pos(f.end, 0), targets, s)
  {
    forall m: Meaning, code': Code, fuel: nat, mem: Memory | Extends(code, code')
      ensures StmtAt(m, code', f.from, Pos(f.end, 0), targets, s, fuel, mem)
    {
      if mem.params == [] {
        TestsLater(code, code', f.mid, f.cond, f.pass, f.fail);
        InstrStays(code, code', f.passed, JumpTo(f.end));
        InstrStays(code, code', f.failed, JumpTo(f.end));
        ForkRuns(m, code', f, targets, s, fuel, mem);
      }
    }
    hide Extends, InstrAt, TestsAt, EndsAs;
  }

  // ---- loops ----

  /** The blocks of a loop: the test, the body, and the step, which is the test itself when there is none. */
  datatype Circle = Circle(test: nat, mid: Pos, cond: Operand, low: nat, body: nat, done: Pos, next: nat, stepped: Pos,
                           end: nat)
  {
    function Inside(): Option<Targets> {
      Some(Targets(end, next))
    }
  }

  ghost predicate CircleAt(code: Code, c: Circle, test: Option<Expr>, step: Option<Simple>) {
    && (if test.Some? then TestsAt(code, c.mid, c.cond, c.body, c.end)
        else c.mid == Pos(c.test, 0) && InstrAt(code, c.mid, JumpTo(c.body)))
    && InstrAt(code, c.done, JumpTo(c.next))
    && ((step.None? && c.next == c.test) ||
        (InstrAt(code, c.stepped, JumpTo(c.test)) && (step.None? ==> c.stepped == Pos(c.next, 0))))
  }

  lemma CircleLater(code: Code, code': Code, c: Circle, test: Option<Expr>, step: Option<Simple>)
    requires CircleAt(code, c, test, step) && Extends(code, code')
    ensures CircleAt(code', c, test, step)
  {
    hide Extends, InstrAt, TestsAt;
    if test.Some? {
      TestsLater(code, code', c.mid, c.cond, c.body, c.end);
    } else {
      InstrStays(code, code', c.mid, JumpTo(c.body));
    }
    InstrStays(code, code', c.done, JumpTo(c.next));
    if InstrAt(code, c.stepped, JumpTo(c.test)) {
      InstrStays(code, code', c.stepped, JumpTo(c.test));
    }
  }

  /** What the code of a loop's parts does. */
  ghost predicate PartsAt(m: Meaning, code: Code, c: Circle, test: Option<Expr>, step: Option<Simple>, body: Stmt) {
    && CircleAt(code, c, test, step)
    && (test.Some? ==> forall mem: Memory :: ExprAt(m, code, Pos(c.test, 0), c.mid, c.cond, test.value, c.low, mem))
    && (forall mem: Memory, fuel: nat :: StmtAt(m, code, Pos(c.body, 0), c.done, c.Inside(), body, fuel, mem))
    && (step.Some? ==> forall mem: Memory :: SimpleAt(m, code, Pos(c.next, 0), c.stepped, step.value, mem))
  }

  function Tested(m: Meaning, test: Option<Expr>, st: Store): (Word, seq<Event>) {
    if test.Some? then Eval(m, test.value, st.vars, st.trace) else (1, st.trace)
  }

  function Stepped(m: Meaning, step: Option<Simple>, st: Store): Store {
    if step.Some? then ExecSimple(m, step.value, st) else st
  }

  lemma TestRuns(m: Meaning, code: Code, c: Circle, test: Option<Expr>, step: Option<Simple>, body: Stmt, mem: Memory)
    returns (mem': Memory)
    requires PartsAt(m, code, c, test, step, body) && mem.params == []
    ensures var (a, t) := Tested(m, test, mem.Store());
            && mem'.params == [] && mem'.Store() == Structured.Store.Store(mem.vars, t)
            && Gets(m, code, At(Pos(c.test, 0), mem), At(Pos(if a == 0 then c.end else c.body, 0), mem'), 1)
  {
    hide Gets, TestsAt, ExprAt, StmtAt, SimpleAt, InstrAt;
    if test.Some? {
      mem' := ConditionGoes(m, code, Pos(c.test, 0), c.mid, c.cond, test.value, c.low, c.body, c.end, mem);
    } else {
      mem' := mem;
      Runs(m, code, At(c.mid, mem), JumpTo(c.body));
    }
  }

  /** The step, and back to the test. */
  lemma StepRuns(m: Meaning, code: Code, c: Circle, test: Option<Expr>, step: Option<Simple>, body: Stmt, mem: Memory)
    requires PartsAt(m, code, c, test, step, body) && mem.params == []
    ensures GetsTo(m, code, At(Pos(c.next, 0), mem), Pos(c.test, 0), Stepped(m, step, mem.Store()))
  {
    hide Gets, GetsTo, TestsAt, ExprAt, StmtAt, InstrAt, ExecSimple;
    StandsThere(m, code, Pos(c.next, 0), mem, None, 0);
    if step.Some? {
      assert SimpleAt(m, code, Pos(c.next, 0), c.stepped, step.value, mem);
      JumpsOn(m, code, At(Pos(c.next, 0), mem), c.stepped, c.test, Stepped(m, step, mem.Store()));
    } else if c.next != c.test {
      JumpsOn(m, code, At(Pos(c.next, 0), mem), c.stepped, c.test, mem.Store());
    }
  }

  /** After the body, when the loop goes on: step, and again at the test. */
  lemma GoesRound(m: Meaning, code: Code, c: Circle, test: Option<Expr>, step: Option<Simple>, body: Stmt, mem: Memory,
                  once: Outcome, fuel: nat)
    returns (mem': Memory)
    requires PartsAt(m, code, c, test, step, body) && (once.Normal? || once.Continued?)
    requires EndsAs(m, code, At(Pos(c.body, 0), mem), c.done, c.Inside(), once, fuel)
    ensures mem'.params == [] && mem'.Store() == Stepped(m, step, once.store)
    ensures Gets(m, code, At(Pos(c.body, 0), mem), At(Pos(c.test, 0), mem'), 0)
  {
    var start := At(Pos(c.body, 0), mem);
    if once.Normal? {
      JumpsOn(m, code, start, c.done, c.next, once.store);
    }
    hide Gets, GetsTo, InstrAt, TestsAt, ExprAt, StmtAt, SimpleAt, EndsAs, CircleAt;
    var mem1 := StoreReached(m, code, start, Pos(c.next, 0), once.store);
    StepRuns(m, code, c, test, step, body, mem1);
    GetsAfter(m, code, start, At(Pos(c.next, 0), mem1), 0, Pos(c.test, 0), Stepped(m, step, once.store));
    mem' := StoreReached(m, code, start, Pos(c.test, 0), Stepped(m, step, once.store));
  }

  /** How the loop ends when the body does not let it go on. */
  lemma Leaves(m: Meaning, code: Code, c: Circle, mem: Memory, once: Outcome, outer: Option<Targets>, fuel: nat)
    requires !once.Normal? && !once.Continued?
    requires EndsAs(m, code, At(Pos(c.body, 0), mem), c.done, c.Inside(), once, fuel)
    ensures EndsAs(m, code, At(Pos(c.body, 0), mem), Pos(c.end, 0), outer,
                   if once.Broke? then Normal(once.store) else once, fuel)
  {
    hide Gets, GetsTo, RunsOn;
  }

  /** A state that ends as an outcome with less fuel, reached in at least one step. */
  lemma OneRound(m: Meaning, code: Code, a: State, b: State, to: Pos, targets: Option<Targets>, o: Outcome, fuel: nat)
    requires fuel > 0 && Gets(m, code, a, b, 1) && EndsAs(m, code, b, to, targets, o, fuel - 1)
    ensures EndsAs(m, code, a, to, targets, o, fuel)
  {
    EndsAfter(m, code, a, b, 1, to, targets, o, fuel - 1);
    hide Gets, GetsTo, RunsOn;
  }

  /** From its test on, the loop ends as the source loop does; when that takes more iterations than allowed, the code
      reaches the same store after at least as many steps. */
  lemma {:induction false} LoopRuns(m: Meaning, code: Code, c: Circle, test: Option<Expr>, step: Option<Simple>,
                                    body: Stmt,
                                    outer: Option<Targets>, fuel: nat, mem: Memory)
    requires PartsAt(m, code, c, test, step, body) && mem.params == []
    ensures EndsAs(m, code, At(Pos(c.test, 0), mem), Pos(c.end, 0), outer,
                   Loop(m, test, step, body, mem.Store(), fuel), fuel)
    decreases fuel
  {
    hide Gets, GetsTo, EndsAs, CircleAt, Eval, ExecSimple, Exec, PartsAt;
    var start := At(Pos(c.test, 0), mem);
    if fuel == 0 {
      RunsAtAll(m, code, start, Pos(c.end, 0), outer);
    } else {
      var mem1 := TestRuns(m, code, c, test, step, body, mem);
      var (a, t) := Tested(m, test, mem.Store());
      if a == 0 {
        StandsThere(m, code, Pos(c.end, 0), mem1, outer, fuel);
        EndsAfter(m, code, start, At(Pos(c.end, 0), mem1), 1, Pos(c.end, 0), outer, Normal(mem1.Store()), fuel);
      } else {
        var inside := At(Pos(c.body, 0), mem1);
        var once := Exec(m, body, mem1.Store(), fuel - 1);
        BodyRuns(m, code, c, test, step, body, mem1, fuel - 1);
        if once.Normal? || once.Continued? {
          var mem2 := GoesRound(m, code, c, test, step, body, mem1, once, fuel - 1);
          LoopRuns(m, code, c, test, step, body, outer, fuel - 1, mem2);
          GetsOn(m, code, start, inside, At(Pos(c.test, 0), mem2), 1, 0);
          OneRound(m, code, start, At(Pos(c.test, 0), mem2), Pos(c.end, 0), outer,
                   Loop(m, test, step, body, mem2.Store(), fuel - 1), fuel);
        } else {
          Leaves(m, code, c, mem1, once, outer, fuel - 1);
          OneRound(m, code, start, inside, Pos(c.end, 0), outer,
                   if once.Broke? then Normal(once.store) else once, fuel);
        }
      }
    }
  }

  lemma RunsAtAll(m: Meaning, code: Code, s: State, to: Pos, targets: Option<Targets>)
    requires s.At?
    ensures EndsAs(m, code, s, to, targets, Spent(s.mem.Store()), 0)
  {
    assert Steps(m, code, s, 0) == s;
  }

  lemma BodyRuns(m: Meaning, code: Code, c: Circle, test: Option<Expr>, step: Option<Simple>, body: Stmt, mem: Memory,
                 fuel: nat)
    requires PartsAt(m, code, c, test, step, body) && mem.params == []
    ensures EndsAs(m, code, At(Pos(c.body, 0), mem), c.done, c.Inside(), Exec(m, body, mem.Store(), fuel), fuel)
  {
    assert StmtAt(m, code, Pos(c.body, 0), c.done, c.Inside(), body, fuel, mem);
    hide EndsAs, ExprAt, SimpleAt, CircleAt, Exec;
  }

  /** The code of a loop's parts, whatever is appended. */
  ghost predicate Parts(code: Code, c: Circle, test: Option<Expr>, step: Option<Simple>, body: Stmt) {
    && CircleAt(code, c, test, step)
    && (test.Some? ==> Evaluates(code, Pos(c.test, 0), c.mid, c.cond, test.value, c.low))
    && Executes(code, Pos(c.body, 0), c.done, c.Inside(), body)
    && (step.Some? ==> Performs(code, Pos(c.next, 0), c.stepped, step.value))
  }

  lemma PartsThere(m: Meaning, code: Code, code': Code, c: Circle, test: Option<Expr>, step: Option<Simple>, body: Stmt)
    requires Parts(code, c, test, step, body) && Extends(code, code')
    ensures PartsAt(m, code', c, test, step, body)
  {
    CircleLater(code, code', c, test, step);
    hide CircleAt, Extends, ExprAt, StmtAt, SimpleAt;
  }

  /** A jump to the test of a loop, after what may come before it. */
  lemma LoopReached(m: Meaning, code: Code, code': Code, s: State, before: Pos, c: Circle, test: Option<Expr>,
                    step: Option<Simple>, body: Stmt,
                    outer: Option<Targets>, first: Outcome, fuel: nat)
    requires Parts(code, c, test, step, body) && Extends(code, code') && InstrAt(code, before, JumpTo(c.test))
    requires EndsAs(m, code', s, before, outer, first, fuel)
    ensures EndsAs(m, code', s, Pos(c.end, 0), outer,
                   if first.Normal? then Loop(m, test, step, body, first.store, fuel) else first, fuel)
  {
    InstrStays(code, code', before, JumpTo(c.test));
    ThenJump(m, code', s, before, c.test, outer, first, fuel);
    PartsThere(m, code, code', c, test, step, body);
    if first.Normal? {
      var mem := StoreReached(m, code', s, Pos(c.test, 0), first.store);
      LoopRuns(m, code', c, test, step, body, outer, fuel, mem);
      EndsAfter(m, code', s, At(Pos(c.test, 0), mem), 0, Pos(c.end, 0), outer,
                Loop(m, test, step, body, first.store, fuel), fuel);
    }
    hide Parts, PartsAt, Extends, InstrAt, Gets, GetsTo, RunsOn;
  }

  lemma ExecutesWhile(code: Code, from: Pos, c: Circle, s: Stmt, outer: Option<Targets>)
    requires s.While? && Parts(code, c, Some(s.cond), None, s.body) && InstrAt(code, from, JumpTo(c.test))
    ensures Executes(code, from, Pos(c.end, 0), outer, s)
  {
    hide Parts, Extends, InstrAt, GetsTo, Gets, RunsOn, EndsAs;
    forall m: Meaning, code': Code, fuel: nat, mem: Memory | Extends(code, code')
      ensures StmtAt(m, code', from, Pos(c.end, 0), outer, s, fuel, mem)
    {
      if mem.params == [] {
        StandsThere(m, code', from, mem, outer, fuel);
        LoopReached(m, code, code', At(from, mem), from, c, Some(s.cond), None, s.body, outer, Normal(mem.Store()),
                    fuel);
      }
    }
  }

  lemma ExecutesFor(code: Code, from: Pos, before: Pos, c: Circle, s: Stmt, outer: Option<Targets>)
    requires s.For? && Parts(code, c, s.test, s.step, s.body) && InstrAt(code, before, JumpTo(c.test))
    requires if s.init.Some? then Executes(code, from, before, outer, s.init.value) else before == from
    ensures Executes(code, from, Pos(c.end, 0), outer, s)
  {
    hide Parts, Extends, InstrAt, GetsTo, Gets, RunsOn, EndsAs;
    forall m: Meaning, code': Code, fuel: nat, mem: Memory | Extends(code, code')
      ensures StmtAt(m, code', from, Pos(c.end, 0), outer, s, fuel, mem)
    {
      if mem.params == [] {
        var first := if s.init.Some? then Exec(m, s.init.value, mem.Store(), fuel) else Normal(mem.Store());
        if s.init.Some? {
          assert StmtAt(m, code', from, before, outer, s.init.value, fuel, mem);
        } else {
          StandsThere(m, code', from, mem, outer, fuel);
        }
        LoopReached(m, code, code', At(from, mem), before, c, s.test, s.step, s.body, outer, first, fuel);
      }
    }
  }
}
