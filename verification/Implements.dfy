/** When code carries out an expression or a statement, and how the code of each construct does, given that
    the code of its parts does. */
module Implements {
  import opened IdomTree
  import opened Vregs
  import opened Structured
  import opened LoweredCode

  // ---- expressions ----

  /** Temporaries up to `low` hold the same. */
  ghost predicate TempsKept(mem: Memory, mem': Memory, low: nat) {
    forall t: nat :: t <= low ==> Look(mem'.temps, t) == Look(mem.temps, t)
  }

  /** At `to` with the value in `result`, the events of the evaluation, and nothing else changed that was in use. */
  ghost predicate Computed(mem: Memory, s: State, to: Pos, result: Operand, value: Word, trace: seq<Event>, low: nat) {
    && s.At? && s.pos == to && s.mem.vars == mem.vars && s.mem.params == [] && s.mem.trace == trace
    && s.mem.Value(result) == value && TempsKept(mem, s.mem, low)
  }

  ghost predicate GetsComputed(m: Meaning, code: Code, from: Pos, to: Pos, result: Operand, value: Word,
                               trace: seq<Event>, low: nat, mem: Memory) {
    exists s: State :: Gets(m, code, At(from, mem), s, 0) && Computed(mem, s, to, result, value, trace, low)
  }

  /** From `from` on, the code evaluates `e`: it gets to `to` with the value of `e` in `result`. */
  ghost predicate ExprAt(m: Meaning, code: Code, from: Pos, to: Pos, result: Operand, e: Expr, low: nat, mem: Memory) {
    mem.params == [] ==>
      GetsComputed(m, code, from, to, result, Eval(m, e, mem.vars, mem.trace).0, Eval(m, e, mem.vars, mem.trace).1,
                   low, mem)
  }

  /** ... whatever is appended to the code later. */
  ghost predicate Evaluates(code: Code, from: Pos, to: Pos, result: Operand, e: Expr, low: nat) {
    forall m: Meaning, code': Code, mem: Memory {:trigger ExprAt(m, code', from, to, result, e, low, mem)} ::
      Extends(code, code') ==> ExprAt(m, code', from, to, result, e, low, mem)
  }

  /** A result that later temporaries do not overwrite. */
  predicate SafeBelow(result: Operand, high: nat) {
    !result.Label? && (result.OfTemp? ==> result.name <= high)
  }

  lemma EvaluatesLater(code: Code, code': Code, from: Pos, to: Pos, result: Operand, e: Expr, low: nat)
    requires Evaluates(code, from, to, result, e, low) && Extends(code, code')
    ensures Evaluates(code', from, to, result, e, low)
  {
    forall m: Meaning, code'': Code, mem: Memory | Extends(code', code'')
      ensures ExprAt(m, code'', from, to, result, e, low, mem)
    {
      ExtendsInTurn(code, code', code'');
    }
    hide ExprAt, Extends;
  }

  lemma GetExpr(m: Meaning, code: Code, from: Pos, to: Pos, result: Operand, e: Expr, low: nat, mem: Memory)
    returns (mem': Memory)
    requires ExprAt(m, code, from, to, result, e, low, mem) && mem.params == []
    ensures Gets(m, code, At(from, mem), At(to, mem'), 0)
    ensures Computed(mem, At(to, mem'), to, result, Eval(m, e, mem.vars, mem.trace).0,
                     Eval(m, e, mem.vars, mem.trace).1, low)
  {
    var s: State :| Gets(m, code, At(from, mem), s, 0)
                    && Computed(mem, s, to, result, Eval(m, e, mem.vars, mem.trace).0,
                                Eval(m, e, mem.vars, mem.trace).1, low);
    mem' := s.mem;
  }

  /** One more instruction after what was computed. */
  lemma ComputedNext(m: Meaning, code: Code, from: Pos, mem: Memory, mid: State, i: Instr, to: Pos, result: Operand,
                     value: Word, trace: seq<Event>, low: nat)
    requires Gets(m, code, At(from, mem), mid, 0) && mid.At? && InstrAt(code, mid.pos, i)
    requires Computed(mem, Perform(m, i, mid.pos, mid.mem), to, result, value, trace, low)
    ensures GetsComputed(m, code, from, to, result, value, trace, low, mem)
  {
    Runs(m, code, mid, i);
    GetsOn(m, code, At(from, mem), mid, Perform(m, i, mid.pos, mid.mem), 0, 1);
    WeakerGets(m, code, At(from, mem), Perform(m, i, mid.pos, mid.mem), 1);
  }

  lemma WeakerGets(m: Meaning, code: Code, a: State, b: State, k: nat)
    requires Gets(m, code, a, b, k)
    ensures Gets(m, code, a, b, 0)
  {
  }

  /** An operand that needs no code. */
  lemma EvaluatesAtom(code: Code, p: Pos, result: Operand, e: Expr, low: nat)
    requires (e.Literal? && result == ImmInt(e.value)) || (e.Variable? && result == OfVar(e.id))
    ensures Evaluates(code, p, p, result, e, low)
  {
    forall m: Meaning, code': Code, mem: Memory ensures ExprAt(m, code', p, p, result, e, low, mem) {
      if mem.params == [] {
        GetsItself(m, code', At(p, mem));
        assert Computed(mem, At(p, mem), p, result, Eval(m, e, mem.vars, mem.trace).0,
                        Eval(m, e, mem.vars, mem.trace).1, low);
      }
    }
    hide Extends;
  }

  function TempInto(opcode: Opcode, temp: nat, a: Option<Operand>, b: Option<Operand>): Instr {
    Instr(opcode, Some(OfTemp(temp)), a, b)
  }

  /** `-x` is `0 - x`. */
  lemma EvaluatesNegate(code: Code, from: Pos, mid: Pos, a: Operand, e: Expr, low: nat, temp: nat)
    requires e.Negate? && Evaluates(code, from, mid, a, e.operand, low) && temp > low
    requires InstrAt(code, mid, TempInto(Arithmetic(SUB), temp, Some(ImmInt(0)), Some(a)))
    ensures Evaluates(code, from, Next(mid), OfTemp(temp), e, low)
  {
    var i := TempInto(Arithmetic(SUB), temp, Some(ImmInt(0)), Some(a));
    forall m: Meaning, code': Code, mem: Memory | Extends(code, code')
      ensures ExprAt(m, code', from, Next(mid), OfTemp(temp), e, low, mem)
    {
      if mem.params == [] {
        InstrStays(code, code', mid, i);
        var mem' := GetExpr(m, code', from, mid, a, e.operand, low, mem);
        var (v, t) := Eval(m, e, mem.vars, mem.trace);
        ComputedNext(m, code', from, mem, At(mid, mem'), i, Next(mid), OfTemp(temp), v, t, low);
      }
    }
    hide Extends, InstrAt, Gets;
  }

  /** `!x` is `x == 0`. */
  lemma EvaluatesNot(code: Code, from: Pos, mid: Pos, a: Operand, e: Expr, low: nat, temp: nat)
    requires e.Not? && Evaluates(code, from, mid, a, e.operand, low) && temp > low
    requires InstrAt(code, mid, TempInto(Arithmetic(EQ), temp, Some(a), Some(ImmInt(0))))
    ensures Evaluates(code, from, Next(mid), OfTemp(temp), e, low)
  {
    var i := TempInto(Arithmetic(EQ), temp, Some(a), Some(ImmInt(0)));
    forall m: Meaning, code': Code, mem: Memory | Extends(code, code')
      ensures ExprAt(m, code', from, Next(mid), OfTemp(temp), e, low, mem)
    {
      if mem.params == [] {
        InstrStays(code, code', mid, i);
        var mem' := GetExpr(m, code', from, mid, a, e.operand, low, mem);
        var (v, t) := Eval(m, e, mem.vars, mem.trace);
        ComputedNext(m, code', from, mem, At(mid, mem'), i, Next(mid), OfTemp(temp), v, t, low);
      }
    }
    hide Extends, InstrAt, Gets;
  }

  /** Evaluating something else later leaves a safe result as it was. */
  lemma ResultKept(mem: Memory, mem': Memory, result: Operand, high: nat)
    requires mem'.vars == mem.vars && TempsKept(mem, mem', high) && SafeBelow(result, high)
    ensures mem'.Value(result) == mem.Value(result)
  {
  }

  lemma EvaluatesBinary(code: Code, from: Pos, mid: Pos, last: Pos, a: Operand, b: Operand, e: Expr, low: nat,
                        high: nat, temp: nat)
    requires e.Binary? && Evaluates(code, from, mid, a, e.left, low) && SafeBelow(a, high) && low <= high
    requires Evaluates(code, mid, last, b, e.right, high) && temp > low
    requires InstrAt(code, last, TempInto(Arithmetic(e.kind), temp, Some(a), Some(b)))
    ensures Evaluates(code, from, Next(last), OfTemp(temp), e, low)
  {
    var i := TempInto(Arithmetic(e.kind), temp, Some(a), Some(b));
    forall m: Meaning, code': Code, mem: Memory | Extends(code, code')
      ensures ExprAt(m, code', from, Next(last), OfTemp(temp), e, low, mem)
    {
      if mem.params == [] {
        InstrStays(code, code', last, i);
        var mem1 := GetExpr(m, code', from, mid, a, e.left, low, mem);
        var mem2 := GetExpr(m, code', mid, last, b, e.right, high, mem1);
        GetsOn(m, code', At(from, mem), At(mid, mem1), At(last, mem2), 0, 0);
        ResultKept(mem1, mem2, a, high);
        var (v, t) := Eval(m, e, mem.vars, mem.trace);
        ComputedNext(m, code', from, mem, At(last, mem2), i, Next(last), OfTemp(temp), v, t, low);
      }
    }
    hide Extends, InstrAt, Gets, Compute;
  }

  // ---- short circuits ----

  /** The blocks of `l && r` and `l || r`: the answer the left operand settles, the test of it, and the right operand
      in a block of its own. */
  datatype Circuit = Circuit(from: Pos, mid: Pos, a: Operand, temp: nat, rhs: nat, end: nat, last: Pos, b: Operand)

  ghost predicate CircuitAt(code: Code, c: Circuit, e: Expr) {
    && e.Logical?
    && InstrAt(code, c.mid, TempInto(Mov, c.temp, Some(ImmInt(if e.both then 0 else 1)), None))
    && InstrAt(code, Next(c.mid), Instr(if e.both then BranchIfNot else BranchIf, None, Some(c.a), Some(Label(c.end))))
    && InstrAt(code, Next(Next(c.mid)), Instr(Jump, None, Some(Label(c.rhs)), None))
    && InstrAt(code, c.last, if AnswersZeroOrOne(e.right) then TempInto(Mov, c.temp, Some(c.b), None)
                             else TempInto(Arithmetic(NEQ), c.temp, Some(c.b), Some(ImmInt(0))))
    && InstrAt(code, Next(c.last), Instr(Jump, None, Some(Label(c.end)), None))
  }

  lemma CircuitStays(code: Code, code': Code, c: Circuit, e: Expr)
    requires CircuitAt(code, c, e) && Extends(code, code')
    ensures CircuitAt(code', c, e)
  {
    hide Extends, InstrAt;
    InstrStays(code, code', c.mid, TempInto(Mov, c.temp, Some(ImmInt(if e.both then 0 else 1)), None));
    InstrStays(code, code', Next(c.mid),
               Instr(if e.both then BranchIfNot else BranchIf, None, Some(c.a), Some(Label(c.end))));
    InstrStays(code, code', Next(Next(c.mid)), Instr(Jump, None, Some(Label(c.rhs)), None));
    InstrStays(code, code', c.last, if AnswersZeroOrOne(e.right) then TempInto(Mov, c.temp, Some(c.b), None)
                                    else TempInto(Arithmetic(NEQ), c.temp, Some(c.b), Some(ImmInt(0))));
    InstrStays(code, code', Next(c.last), Instr(Jump, None, Some(Label(c.end)), None));
  }

  /** Past the left operand: at the right one, or at the end with the answer. */
  lemma CircuitBranches(m: Meaning, code: Code, c: Circuit, e: Expr, mem: Memory)
    requires CircuitAt(code, c, e) && !(c.a.OfTemp? && c.a.name == c.temp)
    ensures var mem' := mem.Write(Some(OfTemp(c.temp)), if e.both then 0 else 1);
            var settled := if e.both then mem.Value(c.a) == 0 else mem.Value(c.a) != 0;
            Gets(m, code, At(c.mid, mem), At(Pos(if settled then c.end else c.rhs, 0), mem'), 0)
  {
    hide InstrAt, Gets, Extends;
    var mem' := mem.Write(Some(OfTemp(c.temp)), if e.both then 0 else 1);
    assert mem'.Value(c.a) == mem.Value(c.a);
    hide Memory.Value;
    Runs(m, code, At(c.mid, mem), TempInto(Mov, c.temp, Some(ImmInt(if e.both then 0 else 1)), None));
    Runs(m, code, At(Next(c.mid), mem'),
         Instr(if e.both then BranchIfNot else BranchIf, None, Some(c.a), Some(Label(c.end))));
    var settled := if e.both then mem.Value(c.a) == 0 else mem.Value(c.a) != 0;
    var branched := At(if settled then Pos(c.end, 0) else Next(Next(c.mid)), mem');
    GetsOn(m, code, At(c.mid, mem), At(Next(c.mid), mem'), branched, 1, 1);
    if !settled {
      Runs(m, code, branched, Instr(Jump, None, Some(Label(c.rhs)), None));
      GetsOn(m, code, At(c.mid, mem), branched, At(Pos(c.rhs, 0), mem'), 2, 1);
      WeakerGets(m, code, At(c.mid, mem), At(Pos(c.rhs, 0), mem'), 3);
    } else {
      WeakerGets(m, code, At(c.mid, mem), branched, 2);
    }
  }

  /** Past the right operand: at the end with the answer. */
  lemma CircuitEnds(m: Meaning, code: Code, c: Circuit, e: Expr, mem: Memory)
    requires CircuitAt(code, c, e) && (AnswersZeroOrOne(e.right) ==> mem.Value(c.b) == Truth(mem.Value(c.b) != 0))
    ensures Gets(m, code, At(c.last, mem),
                 At(Pos(c.end, 0), mem.Write(Some(OfTemp(c.temp)), Truth(mem.Value(c.b) != 0))), 0)
  {
    var mem' := mem.Write(Some(OfTemp(c.temp)), Truth(mem.Value(c.b) != 0));
    hide InstrAt, Gets;
    Runs(m, code, At(c.last, mem), if AnswersZeroOrOne(e.right) then TempInto(Mov, c.temp, Some(c.b), None)
                                   else TempInto(Arithmetic(NEQ), c.temp, Some(c.b), Some(ImmInt(0))));
    Runs(m, code, At(Next(c.last), mem'), Instr(Jump, None, Some(Label(c.end)), None));
    GetsOn(m, code, At(c.last, mem), At(Next(c.last), mem'), At(Pos(c.end, 0), mem'), 1, 1);
    WeakerGets(m, code, At(c.last, mem), At(Pos(c.end, 0), mem'), 2);
  }

  lemma CircuitRuns(m: Meaning, code: Code, c: Circuit, e: Expr, low: nat, high: nat, mem: Memory)
    requires e.Logical? && CircuitAt(code, c, e) && mem.params == [] && low <= high < c.temp && SafeBelow(c.a, high)
    requires forall mem': Memory :: ExprAt(m, code, c.from, c.mid, c.a, e.left, low, mem')
    requires forall mem': Memory :: ExprAt(m, code, Pos(c.rhs, 0), c.last, c.b, e.right, c.temp, mem')
    ensures ExprAt(m, code, c.from, Pos(c.end, 0), OfTemp(c.temp), e, low, mem)
  {
    hide Gets, CircuitAt, InstrAt, ExprAt, Eval;
    var mem1 := GetExpr(m, code, c.from, c.mid, c.a, e.left, low, mem);
    CircuitBranches(m, code, c, e, mem1);
    var mem2 := mem1.Write(Some(OfTemp(c.temp)), if e.both then 0 else 1);
    var settled := if e.both then mem1.Value(c.a) == 0 else mem1.Value(c.a) != 0;
    GetsOn(m, code, At(c.from, mem), At(c.mid, mem1), At(Pos(if settled then c.end else c.rhs, 0), mem2), 0, 0);
    if settled {
      CircuitSettled(m, code, c, e, low, mem, mem1, mem2);
    } else {
      var mem3 := GetExpr(m, code, Pos(c.rhs, 0), c.last, c.b, e.right, c.temp, mem2);
      GetsOn(m, code, At(c.from, mem), At(Pos(c.rhs, 0), mem2), At(c.last, mem3), 0, 0);
      if AnswersZeroOrOne(e.right) {
        AnswersTruth(m, e.right, mem2.vars, mem2.trace);
      }
      CircuitEnds(m, code, c, e, mem3);
      var mem4 := mem3.Write(Some(OfTemp(c.temp)), Truth(mem3.Value(c.b) != 0));
      GetsOn(m, code, At(c.from, mem), At(c.last, mem3), At(Pos(c.end, 0), mem4), 0, 0);
      CircuitAnswered(m, code, c, e, low, mem, mem1, mem3, mem4);
    }
  }

  lemma CircuitSettled(m: Meaning, code: Code, c: Circuit, e: Expr, low: nat, mem: Memory, mem1: Memory, mem2: Memory)
    requires e.Logical? && low < c.temp
    requires Computed(mem, At(c.mid, mem1), c.mid, c.a, Eval(m, e.left, mem.vars, mem.trace).0,
                      Eval(m, e.left, mem.vars, mem.trace).1, low)
    requires mem2 == mem1.Write(Some(OfTemp(c.temp)), if e.both then 0 else 1)
    requires if e.both then mem1.Value(c.a) == 0 else mem1.Value(c.a) != 0
    requires Gets(m, code, At(c.from, mem), At(Pos(c.end, 0), mem2), 0)
    ensures ExprAt(m, code, c.from, Pos(c.end, 0), OfTemp(c.temp), e, low, mem)
  {
    assert Computed(mem, At(Pos(c.end, 0), mem2), Pos(c.end, 0), OfTemp(c.temp), Eval(m, e, mem.vars, mem.trace).0,
                    Eval(m, e, mem.vars, mem.trace).1, low);
    hide Gets;
  }

  lemma CircuitAnswered(m: Meaning, code: Code, c: Circuit, e: Expr, low: nat, mem: Memory, mem1: Memory, mem3: Memory,
                        mem4: Memory)
    requires e.Logical? && low < c.temp
    requires Computed(mem, At(c.mid, mem1), c.mid, c.a, Eval(m, e.left, mem.vars, mem.trace).0,
                      Eval(m, e.left, mem.vars, mem.trace).1, low)
    requires !(if e.both then mem1.Value(c.a) == 0 else mem1.Value(c.a) != 0)
    requires var mem2 := mem1.Write(Some(OfTemp(c.temp)), if e.both then 0 else 1);
             Computed(mem2, At(c.last, mem3), c.last, c.b, Eval(m, e.right, mem2.vars, mem2.trace).0,
                      Eval(m, e.right, mem2.vars, mem2.trace).1, c.temp)
    requires mem4 == mem3.Write(Some(OfTemp(c.temp)), Truth(mem3.Value(c.b) != 0))
    requires Gets(m, code, At(c.from, mem), At(Pos(c.end, 0), mem4), 0)
    ensures ExprAt(m, code, c.from, Pos(c.end, 0), OfTemp(c.temp), e, low, mem)
  {
    var mem2 := mem1.Write(Some(OfTemp(c.temp)), if e.both then 0 else 1);
    assert mem2.vars == mem.vars && mem2.trace == Eval(m, e.left, mem.vars, mem.trace).1;
    assert TempsKept(mem, mem2, low) && TempsKept(mem2, mem3, low) && TempsKept(mem3, mem4, low);
    assert mem3.Value(c.b) == Eval(m, e.right, mem.vars, mem2.trace).0;
    assert Eval(m, e, mem.vars, mem.trace) == (Truth(mem3.Value(c.b) != 0), mem3.trace);
    assert Computed(mem, At(Pos(c.end, 0), mem4), Pos(c.end, 0), OfTemp(c.temp), Eval(m, e, mem.vars, mem.trace).0,
                    Eval(m, e, mem.vars, mem.trace).1, low);
    hide Gets;
  }

  lemma EvaluatesLogical(code: Code, c: Circuit, e: Expr, low: nat, high: nat)
    requires CircuitAt(code, c, e) && low <= high < c.temp && SafeBelow(c.a, high)
    requires Evaluates(code, c.from, c.mid, c.a, e.left, low) &&
             Evaluates(code, Pos(c.rhs, 0), c.last, c.b, e.right, c.temp)
    ensures Evaluates(code, c.from, Pos(c.end, 0), OfTemp(c.temp), e, low)
  {
    forall m: Meaning, code': Code, mem: Memory | Extends(code, code')
      ensures ExprAt(m, code', c.from, Pos(c.end, 0), OfTemp(c.temp), e, low, mem)
    {
      if mem.params == [] {
        CircuitStays(code, code', c, e);
        CircuitRuns(m, code', c, e, low, high, mem);
      }
    }
    hide Extends, CircuitAt, Gets;
  }

  // ---- calls ----

  ghost predicate ArgsComputed(m: Meaning, code: Code, from: Pos, mem: Memory, to: Pos, mem': Memory,
                               results: seq<Operand>, call: Expr, low: nat) {
    && call.CallTo? && |results| <= |call.args|
    && Gets(m, code, At(from, mem), At(to, mem'), 0)
    && mem'.vars == mem.vars && mem'.params == [] && TempsKept(mem, mem', low)
    && mem'.trace == EvalArgs(m, call, |results|, mem.vars, mem.trace).1
    && forall k: nat :: k < |results| ==>
      mem'.Value(results[k]) == EvalArgs(m, call, |results|, mem.vars, mem.trace).0[k]
  }

  ghost predicate ArgsAt(m: Meaning, code: Code, from: Pos, to: Pos, results: seq<Operand>, call: Expr, low: nat,
                         mem: Memory) {
    mem.params == [] ==> exists mem': Memory :: ArgsComputed(m, code, from, mem, to, mem', results, call, low)
  }

  /** From `from` on, the code evaluates the first arguments of a call, from the left. */
  ghost predicate EvaluatesArgs(code: Code, from: Pos, to: Pos, results: seq<Operand>, call: Expr, low: nat) {
    forall m: Meaning, code': Code, mem: Memory {:trigger ArgsAt(m, code', from, to, results, call, low, mem)} ::
      Extends(code, code') ==> ArgsAt(m, code', from, to, results, call, low, mem)
  }

  lemma EvaluatesNoArgs(code: Code, p: Pos, call: Expr, low: nat)
    requires call.CallTo?
    ensures EvaluatesArgs(code, p, p, [], call, low)
  {
    forall m: Meaning, code': Code, mem: Memory ensures ArgsAt(m, code', p, p, [], call, low, mem) {
      if mem.params == [] {
        GetsItself(m, code', At(p, mem));
        assert ArgsComputed(m, code', p, mem, p, mem, [], call, low);
      }
    }
    hide Extends;
  }

  lemma OneMoreArg(m: Meaning, code: Code, from: Pos, mem: Memory, mid: Pos, mem1: Memory, to: Pos, mem2: Memory,
                   results: seq<Operand>, r: Operand,
                   call: Expr, low: nat, high: nat)
    requires ArgsComputed(m, code, from, mem, mid, mem1, results, call, low) && |results| < |call.args| && low <= high
    requires forall k: nat :: k < |results| ==> SafeBelow(results[k], high)
    requires Gets(m, code, At(mid, mem1), At(to, mem2), 0)
    requires var e := call.args[|results|];
             Computed(mem1, At(to, mem2), to, r, Eval(m, e, mem1.vars, mem1.trace).0,
                      Eval(m, e, mem1.vars, mem1.trace).1, high)
    ensures ArgsComputed(m, code, from, mem, to, mem2, results + [r], call, low)
  {
    GetsOn(m, code, At(from, mem), At(mid, mem1), At(to, mem2), 0, 0);
    hide Gets;
    var n := |results|;
    var (values, t) := EvalArgs(m, call, n, mem.vars, mem.trace);
    var (a, u) := Eval(m, call.args[n], mem.vars, t);
    var next := n + 1;
    assert EvalArgs(m, call, next, mem.vars, mem.trace) == (values + [a], u);
    forall k: nat | k < |results + [r]| ensures mem2.Value((results + [r])[k]) == (values + [a])[k] {
      if k < n {
        ResultKept(mem1, mem2, results[k], high);
      }
    }
  }

  lemma EvaluatesOneMore(code: Code, from: Pos, mid: Pos, to: Pos, results: seq<Operand>, r: Operand, call: Expr,
                         low: nat, high: nat)
    requires call.CallTo? && EvaluatesArgs(code, from, mid, results, call, low) && |results| < |call.args| &&
             low <= high
    requires forall k: nat :: k < |results| ==> SafeBelow(results[k], high)
    requires Evaluates(code, mid, to, r, call.args[|results|], high)
    ensures EvaluatesArgs(code, from, to, results + [r], call, low)
  {
    hide Extends, ArgsComputed, ExprAt;
    forall m: Meaning, code': Code, mem: Memory | Extends(code, code')
      ensures ArgsAt(m, code', from, to, results + [r], call, low, mem)
    {
      if mem.params == [] {
        assert ArgsAt(m, code', from, mid, results, call, low, mem);
        var mem1: Memory :| ArgsComputed(m, code', from, mem, mid, mem1, results, call, low);
        NoParams(m, code', from, mem, mid, mem1, results, call, low);
        var mem2 := GetExpr(m, code', mid, to, r, call.args[|results|], high, mem1);
        OneMoreArg(m, code', from, mem, mid, mem1, to, mem2, results, r, call, low, high);
      }
    }
  }

  lemma NoParams(m: Meaning, code: Code, from: Pos, mem: Memory, to: Pos, mem': Memory, results: seq<Operand>,
                 call: Expr, low: nat)
    requires ArgsComputed(m, code, from, mem, to, mem', results, call, low)
    ensures mem'.params == []
  {
  }

  function ParamOf(o: Operand): Instr {
    Instr(Param, None, Some(o), None)
  }

  /** The arguments are passed in a row. */
  ghost predicate PassesAll(code: Code, p: Pos, results: seq<Operand>) {
    forall k: nat :: k < |results| ==> InstrAt(code, Pos(p.block, p.row + k), ParamOf(results[k]))
  }

  function ValuesOf(mem: Memory, os: seq<Operand>): (r: seq<Word>)
    ensures |r| == |os| && forall k: nat :: k < |r| ==> r[k] == mem.Value(os[k])
  {
    seq(|os|, k requires 0 <= k < |os| => mem.Value(os[k]))
  }

  lemma {:induction false} Passing(m: Meaning, code: Code, p: Pos, results: seq<Operand>, k: nat, mem: Memory)
    requires PassesAll(code, p, results) && k <= |results| && mem.params == []
    ensures Gets(m, code, At(p, mem), At(Pos(p.block, p.row + k), mem.(params := ValuesOf(mem, results[..k]))), 0)
    decreases k
  {
    hide Gets;
    if k == 0 {
      assert ValuesOf(mem, results[..0]) == [];
      GetsItself(m, code, At(p, mem));
    } else {
      var j := k - 1;
      Passing(m, code, p, results, j, mem);
      var before := mem.(params := ValuesOf(mem, results[..j]));
      Runs(m, code, At(Pos(p.block, p.row + j), before), ParamOf(results[j]));
      assert ValuesOf(mem, results[..k]) == ValuesOf(mem, results[..j]) + [mem.Value(results[j])];
      assert before.Value(results[j]) == mem.Value(results[j]);
      var after := At(Pos(p.block, p.row + k), mem.(params := ValuesOf(mem, results[..k])));
      assert Perform(m, ParamOf(results[j]), Pos(p.block, p.row + j), before) == after;
      GetsOn(m, code, At(p, mem), At(Pos(p.block, p.row + j), before), after, 0, 1);
      WeakerGets(m, code, At(p, mem), after, 1);
    }
  }

  function CallOf(temp: nat, callee: nat, count: nat): Instr {
    TempInto(Call, temp, Some(Label(callee)), Some(ImmInt(count)))
  }

  lemma CallRuns(m: Meaning, code: Code, from: Pos, mid: Pos, results: seq<Operand>, e: Expr, low: nat, temp: nat,
                 mem: Memory, mem1: Memory)
    requires e.CallTo? && |results| == |e.args| && temp > low
    requires ArgsComputed(m, code, from, mem, mid, mem1, results, e, low)
    requires PassesAll(code, mid, results) &&
             InstrAt(code, Pos(mid.block, mid.row + |results|), CallOf(temp, e.callee, |results|))
    ensures GetsComputed(m, code, from, Pos(mid.block, mid.row + |results| + 1), OfTemp(temp),
                         Eval(m, e, mem.vars, mem.trace).0,
                         Eval(m, e, mem.vars, mem.trace).1, low, mem)
  {
    hide Gets, InstrAt;
    Passing(m, code, mid, results, |results|, mem1);
    assert results[..|results|] == results;
    var mem2 := mem1.(params := ValuesOf(mem1, results));
    var p := Pos(mid.block, mid.row + |results|);
    GetsOn(m, code, At(from, mem), At(mid, mem1), At(p, mem2), 0, 0);
    var (values, t) := EvalArgs(m, e, |e.args|, mem.vars, mem.trace);
    assert ValuesOf(mem1, results) == values;
    var (v, u) := Eval(m, e, mem.vars, mem.trace);
    ComputedNext(m, code, from, mem, At(p, mem2), CallOf(temp, e.callee, |results|), Next(p), OfTemp(temp), v, u, low);
  }

  lemma PassesLater(code: Code, code': Code, p: Pos, results: seq<Operand>)
    requires PassesAll(code, p, results) && Extends(code, code')
    ensures PassesAll(code', p, results)
  {
    forall k: nat | k < |results| ensures InstrAt(code', Pos(p.block, p.row + k), ParamOf(results[k])) {
      InstrStays(code, code', Pos(p.block, p.row + k), ParamOf(results[k]));
    }
    hide Extends, InstrAt;
  }

  lemma EvaluatesCall(code: Code, from: Pos, mid: Pos, results: seq<Operand>, e: Expr, low: nat, temp: nat)
    requires e.CallTo? && |results| == |e.args| && temp > low && EvaluatesArgs(code, from, mid, results, e, low)
    requires PassesAll(code, mid, results) &&
             InstrAt(code, Pos(mid.block, mid.row + |results|), CallOf(temp, e.callee, |results|))
    ensures Evaluates(code, from, Pos(mid.block, mid.row + |results| + 1), OfTemp(temp), e, low)
  {
    hide Extends, ArgsComputed, PassesAll, InstrAt, GetsComputed;
    var to := Pos(mid.block, mid.row + |results| + 1);
    forall m: Meaning, code': Code, mem: Memory | Extends(code, code')
      ensures ExprAt(m, code', from, to, OfTemp(temp), e, low, mem)
    {
      if mem.params == [] {
        PassesLater(code, code', mid, results);
        InstrStays(code, code', Pos(mid.block, mid.row + |results|), CallOf(temp, e.callee, |results|));
        assert ArgsAt(m, code', from, mid, results, e, low, mem);
        var mem1: Memory :| ArgsComputed(m, code', from, mem, mid, mem1, results, e, low);
        CallRuns(m, code', from, mid, results, e, low, temp, mem, mem1);
      }
    }
  }

  // ---- statements ----

  /** Where `break` and `continue` go. */
  datatype Targets = Targets(after: nat, nextIteration: nat)

  ghost predicate GetsTo(m: Meaning, code: Code, s: State, to: Pos, st: Store) {
    exists temps: map<nat, Word> :: Gets(m, code, s, At(to, Memory(st.vars, temps, [], st.trace)), 0)
  }

  /** The run from `s` on ends as a statement with that outcome does: at `to`, at the loop's targets, with the same
      result, or with the same store after `fuel` steps or more. */
  ghost predicate EndsAs(m: Meaning, code: Code, s: State, to: Pos, targets: Option<Targets>, o: Outcome, fuel: nat) {
    match o
    case Normal(st) => GetsTo(m, code, s, to, st)
    case Broke(st) => targets.Some? ==> GetsTo(m, code, s, Pos(targets.value.after, 0), st)
    case Continued(st) => targets.Some? ==> GetsTo(m, code, s, Pos(targets.value.nextIteration, 0), st)
    case Returned(value, trace) => Gets(m, code, s, Done(value, trace), 0)
    case Spent(st) => RunsOn(m, code, s, fuel, st)
  }

  ghost predicate StmtAt(m: Meaning, code: Code, from: Pos, to: Pos, targets: Option<Targets>, s: Stmt, fuel: nat,
                         mem: Memory) {
    mem.params == [] ==> EndsAs(m, code, At(from, mem), to, targets, Exec(m, s, mem.Store(), fuel), fuel)
  }

  /** From `from` on, the code does what the statement does, whatever is appended to it later. */
  ghost predicate Executes(code: Code, from: Pos, to: Pos, targets: Option<Targets>, s: Stmt) {
    forall m: Meaning, code': Code, fuel: nat,
    mem: Memory {:trigger StmtAt(m, code', from, to, targets, s, fuel, mem)} ::
      Extends(code, code') ==> StmtAt(m, code', from, to, targets, s, fuel, mem)
  }

  lemma ExecutesLater(code: Code, code': Code, from: Pos, to: Pos, targets: Option<Targets>, s: Stmt)
    requires Executes(code, from, to, targets, s) && Extends(code, code')
    ensures Executes(code', from, to, targets, s)
  {
    forall m: Meaning, code'': Code, fuel: nat, mem: Memory | Extends(code', code'')
      ensures StmtAt(m, code'', from, to, targets, s, fuel, mem)
    {
      ExtendsInTurn(code, code', code'');
    }
    hide StmtAt, Extends;
  }

  /** What comes before does not change how a run ends. */
  lemma EndsAfter(m: Meaning, code: Code, a: State, b: State, k: nat, to: Pos, targets: Option<Targets>, o: Outcome,
                  fuel: nat)
    requires Gets(m, code, a, b, k) && EndsAs(m, code, b, to, targets, o, fuel)
    ensures EndsAs(m, code, a, to, targets, o, fuel) && (o.Spent? ==> RunsOn(m, code, a, fuel + k, o.store))
  {
    match o
    case Normal(st) => GetsAfter(m, code, a, b, k, to, st);
    case Broke(st) => if targets.Some? { GetsAfter(m, code, a, b, k, Pos(targets.value.after, 0), st); }
    case Continued(st) => if targets.Some? { GetsAfter(m, code, a, b, k, Pos(targets.value.nextIteration, 0), st); }
    case Returned(value, trace) =>
      GetsOn(m, code, a, b, Done(value, trace), k, 0);
      WeakerGets(m, code, a, Done(value, trace), k);
    case Spent(st) =>
      RunsOnAfter(m, code, a, b, k, fuel, st);
      RunsOnLess(m, code, a, k + fuel, fuel, st);
  }

  lemma RunsOnLess(m: Meaning, code: Code, s: State, k: nat, less: nat, st: Store)
    requires RunsOn(m, code, s, k, st) && less <= k
    ensures RunsOn(m, code, s, less, st)
  {
  }

  lemma GetsAfter(m: Meaning, code: Code, a: State, b: State, k: nat, to: Pos, st: Store)
    requires Gets(m, code, a, b, k) && GetsTo(m, code, b, to, st)
    ensures GetsTo(m, code, a, to, st)
  {
    var temps: map<nat, Word> :| Gets(m, code, b, At(to, Memory(st.vars, temps, [], st.trace)), 0);
    GetsOn(m, code, a, b, At(to, Memory(st.vars, temps, [], st.trace)), k, 0);
    WeakerGets(m, code, a, At(to, Memory(st.vars, temps, [], st.trace)), k);
    hide Gets;
  }

  function JumpTo(block: nat): Instr {
    Instr(Jump, None, Some(Label(block)), None)
  }

  /** A jump at the end of a statement takes over where it ends normally. */
  lemma ThenJump(m: Meaning, code: Code, s: State, mid: Pos, to: nat, targets: Option<Targets>, o: Outcome, fuel: nat)
    requires EndsAs(m, code, s, mid, targets, o, fuel) && InstrAt(code, mid, JumpTo(to))
    ensures EndsAs(m, code, s, Pos(to, 0), targets, o, fuel)
  {
    if o.Normal? {
      JumpsOn(m, code, s, mid, to, o.store);
    }
  }

  lemma JumpsOn(m: Meaning, code: Code, s: State, mid: Pos, to: nat, st: Store)
    requires GetsTo(m, code, s, mid, st) && InstrAt(code, mid, JumpTo(to))
    ensures GetsTo(m, code, s, Pos(to, 0), st)
  {
    hide Gets, InstrAt;
    var temps: map<nat, Word> :| Gets(m, code, s, At(mid, Memory(st.vars, temps, [], st.trace)), 0);
    var mem := Memory(st.vars, temps, [], st.trace);
    Runs(m, code, At(mid, mem), JumpTo(to));
    GetsOn(m, code, s, At(mid, mem), At(Pos(to, 0), mem), 0, 1);
    WeakerGets(m, code, s, At(Pos(to, 0), mem), 1);
  }

  lemma ExecutesEmpty(code: Code, p: Pos, targets: Option<Targets>)
    ensures Executes(code, p, p, targets, Empty)
  {
    forall m: Meaning, code': Code, fuel: nat, mem: Memory ensures StmtAt(m, code', p, p, targets, Empty, fuel, mem) {
      if mem.params == [] {
        GetsItself(m, code', At(p, mem));
        assert mem == Memory(mem.vars, mem.temps, [], mem.trace);
      }
    }
    hide Extends, Gets;
  }

  /** A simple statement, from `mem` to what it makes of the store. */
  ghost predicate SimpleAt(m: Meaning, code: Code, from: Pos, to: Pos, s: Simple, mem: Memory) {
    mem.params == [] ==> GetsTo(m, code, At(from, mem), to, ExecSimple(m, s, mem.Store()))
  }

  ghost predicate Performs(code: Code, from: Pos, to: Pos, s: Simple) {
    forall m: Meaning, code': Code, mem: Memory {:trigger SimpleAt(m, code', from, to, s, mem)} ::
      Extends(code, code') ==> SimpleAt(m, code', from, to, s, mem)
  }

  lemma PerformsLater(code: Code, code': Code, from: Pos, to: Pos, s: Simple)
    requires Performs(code, from, to, s) && Extends(code, code')
    ensures Performs(code', from, to, s)
  {
    forall m: Meaning, code'': Code, mem: Memory | Extends(code', code'')
      ensures SimpleAt(m, code'', from, to, s, mem)
    {
      ExtendsInTurn(code, code', code'');
    }
    hide SimpleAt, Extends;
  }

  lemma PerformsEvaluate(code: Code, from: Pos, to: Pos, result: Operand, e: Expr, low: nat)
    requires Evaluates(code, from, to, result, e, low)
    ensures Performs(code, from, to, Evaluate(e))
  {
    forall m: Meaning, code': Code, mem: Memory | Extends(code, code')
      ensures SimpleAt(m, code', from, to, Evaluate(e), mem)
    {
      if mem.params == [] {
        var mem' := GetExpr(m, code', from, to, result, e, low, mem);
        assert mem' == Memory(mem.vars, mem'.temps, [], mem'.trace);
      }
    }
    hide Extends, Gets;
  }

  lemma PerformsSet(code: Code, from: Pos, mid: Pos, result: Operand, v: VarId, e: Expr, low: nat)
    requires Evaluates(code, from, mid, result, e, low)
    requires InstrAt(code, mid, Instr(Mov, Some(OfVar(v)), Some(result), None))
    ensures Performs(code, from, Next(mid), Set(v, e))
  {
    var i := Instr(Mov, Some(OfVar(v)), Some(result), None);
    forall m: Meaning, code': Code, mem: Memory | Extends(code, code')
      ensures SimpleAt(m, code', from, Next(mid), Set(v, e), mem)
    {
      if mem.params == [] {
        InstrStays(code, code', mid, i);
        var mem' := GetExpr(m, code', from, mid, result, e, low, mem);
        Runs(m, code', At(mid, mem'), i);
        var last := At(Next(mid), mem'.Write(Some(OfVar(v)), mem'.Value(result)));
        GetsOn(m, code', At(from, mem), At(mid, mem'), last, 0, 1);
        WeakerGets(m, code', At(from, mem), last, 1);
        var (a, t) := Eval(m, e, mem.vars, mem.trace);
        assert last.mem == Memory(mem.vars[v := a], mem'.temps, [], t);
      }
    }
    hide Extends, Gets, InstrAt;
  }

  lemma ExecutesSimple(code: Code, from: Pos, to: Pos, targets: Option<Targets>, s: Simple)
    requires Performs(code, from, to, s)
    ensures Executes(code, from, to, targets, Do(s))
  {
    forall m: Meaning, code': Code, fuel: nat, mem: Memory | Extends(code, code')
      ensures StmtAt(m, code', from, to, targets, Do(s), fuel, mem)
    {
      assert SimpleAt(m, code', from, to, s, mem);
    }
    hide Extends, GetsTo;
  }

  lemma ExecutesReturn(code: Code, from: Pos, mid: Pos, to: Pos, result: Option<Operand>, targets: Option<Targets>,
                       s: Stmt, low: nat)
    requires s.Return? && (s.value.Some? <==> result.Some?)
    requires if s.value.Some? then Evaluates(code, from, mid, result.value, s.value.value, low) else mid == from
    requires InstrAt(code, mid, Instr(Ret, None, result, None))
    ensures Executes(code, from, to, targets, s)
  {
    hide Extends, Gets, InstrAt;
    var i := Instr(Ret, None, result, None);
    forall m: Meaning, code': Code, fuel: nat, mem: Memory | Extends(code, code')
      ensures StmtAt(m, code', from, to, targets, s, fuel, mem)
    {
      if mem.params == [] {
        InstrStays(code, code', mid, i);
        var mem' := mem;
        if s.value.Some? {
          mem' := GetExpr(m, code', from, mid, result.value, s.value.value, low, mem);
        } else {
          GetsItself(m, code', At(from, mem));
        }
        Runs(m, code', At(mid, mem'), i);
        var last := Perform(m, i, mid, mem');
        GetsOn(m, code', At(from, mem), At(mid, mem'), last, 0, 1);
        WeakerGets(m, code', At(from, mem), last, 1);
      }
    }
  }

  /** `break` and `continue`. */
  lemma ExecutesJump(code: Code, from: Pos, to: Pos, targets: Targets, s: Stmt)
    requires s.Break? || s.Continue?
    requires InstrAt(code, from, JumpTo(if s.Break? then targets.after else targets.nextIteration))
    ensures Executes(code, from, to, Some(targets), s)
  {
    var block := if s.Break? then targets.after else targets.nextIteration;
    forall m: Meaning, code': Code, fuel: nat, mem: Memory | Extends(code, code')
      ensures StmtAt(m, code', from, to, Some(targets), s, fuel, mem)
    {
      if mem.params == [] {
        InstrStays(code, code', from, JumpTo(block));
        Runs(m, code', At(from, mem), JumpTo(block));
        WeakerGets(m, code', At(from, mem), At(Pos(block, 0), mem), 1);
        assert mem == Memory(mem.vars, mem.temps, [], mem.trace);
      }
    }
    hide Extends, Gets, InstrAt;
  }

  // ---- sequences ----

  ghost predicate ItemsAt(m: Meaning, code: Code, from: Pos, to: Pos, targets: Option<Targets>, s: Stmt, n: nat,
                          fuel: nat, mem: Memory) {
    s.Items? && n <= |s.items| && mem.params == [] ==>
      EndsAs(m, code, At(from, mem), to, targets, ExecItems(m, s, n, mem.Store(), fuel), fuel)
  }

  ghost predicate ExecutesItems(code: Code, from: Pos, to: Pos, targets: Option<Targets>, s: Stmt, n: nat) {
    forall m: Meaning, code': Code, fuel: nat,
    mem: Memory {:trigger ItemsAt(m, code', from, to, targets, s, n, fuel, mem)} ::
      Extends(code, code') ==> ItemsAt(m, code', from, to, targets, s, n, fuel, mem)
  }

  lemma ExecutesNoItems(code: Code, p: Pos, targets: Option<Targets>, s: Stmt)
    ensures ExecutesItems(code, p, p, targets, s, 0)
  {
    forall m: Meaning, code': Code, fuel: nat, mem: Memory ensures ItemsAt(m, code', p, p, targets, s, 0, fuel, mem) {
      if s.Items? && mem.params == [] {
        GetsItself(m, code', At(p, mem));
        assert mem == Memory(mem.vars, mem.temps, [], mem.trace);
      }
    }
    hide Extends, Gets;
  }

  lemma ItemsLater(code: Code, code': Code, from: Pos, to: Pos, targets: Option<Targets>, s: Stmt, n: nat)
    requires ExecutesItems(code, from, to, targets, s, n) && Extends(code, code')
    ensures ExecutesItems(code', from, to, targets, s, n)
  {
    forall m: Meaning, code'': Code, fuel: nat, mem: Memory | Extends(code', code'')
      ensures ItemsAt(m, code'', from, to, targets, s, n, fuel, mem)
    {
      ExtendsInTurn(code, code', code'');
    }
    hide ItemsAt, Extends;
  }

  lemma ExecutesOneMore(code: Code, from: Pos, mid: Pos, to: Pos, targets: Option<Targets>, s: Stmt, n: nat)
    requires s.Items? && n < |s.items| && ExecutesItems(code, from, mid, targets, s, n) &&
             Executes(code, mid, to, targets, s.items[n])
    ensures ExecutesItems(code, from, to, targets, s, n + 1)
  {
    hide Extends, Gets, GetsTo;
    var next := n + 1;
    forall m: Meaning, code': Code, fuel: nat, mem: Memory | Extends(code, code')
      ensures ItemsAt(m, code', from, to, targets, s, next, fuel, mem)
    {
      if mem.params == [] {
        assert ItemsAt(m, code', from, mid, targets, s, n, fuel, mem);
        var st := mem.Store();
        var before := ExecItems(m, s, n, st, fuel);
        if before.Normal? {
          var mem' := StoreReached(m, code', At(from, mem), mid, before.store);
          assert StmtAt(m, code', mid, to, targets, s.items[n], fuel, mem');
          EndsAfter(m, code', At(from, mem), At(mid, mem'), 0, to, targets, Exec(m, s.items[n], before.store, fuel),
                    fuel);
        }
      }
    }
  }

  lemma StoreReached(m: Meaning, code: Code, s: State, to: Pos, st: Store) returns (mem: Memory)
    requires GetsTo(m, code, s, to, st)
    ensures Gets(m, code, s, At(to, mem), 0) && mem.params == [] && mem.Store() == st
  {
    var temps: map<nat, Word> :| Gets(m, code, s, At(to, Memory(st.vars, temps, [], st.trace)), 0);
    mem := Memory(st.vars, temps, [], st.trace);
  }

  lemma ExecutesAllItems(code: Code, from: Pos, to: Pos, targets: Option<Targets>, s: Stmt)
    requires s.Items? && ExecutesItems(code, from, to, targets, s, |s.items|)
    ensures Executes(code, from, to, targets, s)
  {
    forall m: Meaning, code': Code, fuel: nat, mem: Memory | Extends(code, code')
      ensures StmtAt(m, code', from, to, targets, s, fuel, mem)
    {
      assert ItemsAt(m, code', from, to, targets, s, |s.items|, fuel, mem);
    }
    hide Extends, EndsAs;
  }
}
