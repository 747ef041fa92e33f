/** Blocks of three-address code while they are being written, and what running them does. */
module LoweredCode {
  import opened IdomTree
  import opened Vregs
  import opened Structured

  /** The instructions of each block, by the number of its label. */
  type Code = seq<seq<Instr>>

  datatype Pos = Pos(block: nat, row: nat)

  datatype Memory = Memory(vars: Vars, temps: map<nat, Word>, params: seq<Word>, trace: seq<Event>)
  {
    /** What the statements see of it. */
    function Store(): Store {
      Structured.Store.Store(vars, trace)
    }

    function Value(o: Operand): Word {
      match o
      case OfVar(id) => Look(vars, id)
      case OfTemp(name) => Look(temps, name)
      case ImmInt(value) => value
      case Label(_) => 0
    }

    function Field(o: Option<Operand>): Word {
      if o.Some? then Value(o.value) else 0
    }

    function Write(dest: Option<Operand>, w: Word): Memory {
      if dest.Some? && dest.value.OfVar? then this.(vars := vars[dest.value.id := w])
      else if dest.Some? && dest.value.OfTemp? then this.(temps := temps[dest.value.name := w])
      else this
    }
  }

  datatype State = At(pos: Pos, mem: Memory) | Done(result: Option<Word>, happened: seq<Event>)

  function Next(p: Pos): Pos {
    Pos(p.block, p.row + 1)
  }

  function LabelOf(o: Option<Operand>): nat {
    if o.Some? && o.value.Label? then o.value.target else 0
  }

  function NumberOf(o: Option<Operand>): nat {
    if o.Some? && o.value.ImmInt? && o.value.value >= 0 then o.value.value else 0
  }

  function Perform(m: Meaning, i: Instr, p: Pos, mem: Memory): State {
    match i.opcode
    case Mov => At(Next(p), mem.Write(i.dest, mem.Field(i.arg1)))
    case Arithmetic(kind) => At(Next(p), mem.Write(i.dest, Compute(m, kind, mem.Field(i.arg1), mem.Field(i.arg2))))
    case Param => At(Next(p), mem.(params := mem.params + [mem.Field(i.arg1)]))
    case Call =>
      var trace := mem.trace + [Called(LabelOf(i.arg1), mem.params)];
      At(Next(p), mem.(params := [], trace := trace).Write(i.dest, m.world(trace)))
    case GetParam => At(Next(p), mem.Write(i.dest, m.param(NumberOf(i.arg1))))
    case Jump => At(Pos(LabelOf(i.arg1), 0), mem)
    case BranchIf => At(if mem.Field(i.arg1) != 0 then Pos(LabelOf(i.arg2), 0) else Next(p), mem)
    case BranchIfNot => At(if mem.Field(i.arg1) == 0 then Pos(LabelOf(i.arg2), 0) else Next(p), mem)
    case Ret => Done(if i.arg1.Some? then Some(mem.Value(i.arg1.value)) else None, mem.trace)
    case _ => At(Next(p), mem)
  }

  // ---- what an instruction depends on ----

  /** The word in a variable or temporary. */
  function WordOf(mem: Memory, v: VirtualReg): Word {
    match v
    case Var(id) => Look(mem.vars, id)
    case Temp(name) => Look(mem.temps, name)
  }

  lemma FieldDepends(a: Memory, b: Memory, o: Option<Operand>)
    requires o.Some? && OperandToVreg(o.value).Some? ==>
               WordOf(a, OperandToVreg(o.value).value) == WordOf(b, OperandToVreg(o.value).value)
    ensures a.Field(o) == b.Field(o)
  {
  }

  lemma WriteIs(mem: Memory, dest: Option<Operand>, w: Word, v: VirtualReg)
    ensures WordOf(mem.Write(dest, w), v) ==
              if dest.Some? && OperandToVreg(dest.value) == Some(v) then w else WordOf(mem, v)
  {
  }

  /** The opcodes that statements and expressions become. */
  predicate IsStructured(opcode: Opcode) {
    opcode.Mov? || opcode.Arithmetic? || opcode.Param? || opcode.Call? || opcode.GetParam? || opcode.Jump?
    || opcode.BranchIf? || opcode.BranchIfNot? || opcode.Ret?
  }

  /** Agree on what the next instruction depends on besides the place. */
  ghost predicate SameFor(i: Instr, a: Memory, b: Memory) {
    && a.params == b.params && a.trace == b.trace
    && forall v: VirtualReg :: v in Uses(i) ==> WordOf(a, v) == WordOf(b, v)
  }

  lemma FieldsAgree(i: Instr, a: Memory, b: Memory)
    requires SameFor(i, a, b) && IsStructured(i.opcode)
    ensures !i.opcode.Jump? && !i.opcode.Call? && !i.opcode.GetParam? ==> a.Field(i.arg1) == b.Field(i.arg1)
    ensures i.opcode.Arithmetic? ==> a.Field(i.arg2) == b.Field(i.arg2)
  {
    hide Memory.Value, WordOf;
    if !i.opcode.Jump? && !i.opcode.Call? && !i.opcode.GetParam? {
      if i.arg1.Some? && OperandToVreg(i.arg1.value).Some? {
        assert OperandToVreg(i.arg1.value).value in Uses(i);
      }
      FieldDepends(a, b, i.arg1);
    }
    if i.opcode.Arithmetic? {
      if i.arg2.Some? && OperandToVreg(i.arg2.value).Some? {
        assert OperandToVreg(i.arg2.value).value in Uses(i);
      }
      FieldDepends(a, b, i.arg2);
    }
  }

  lemma DefIs(i: Instr)
    requires IsStructured(i.opcode)
    ensures Def(i) == if i.dest.Some? && (i.opcode.Mov? || i.opcode.Arithmetic? || i.opcode.Call? || i.opcode.GetParam?)
                      then OperandToVreg(i.dest.value) else None
  {
  }

  /** The same place, arguments and events, and the same word in `def`; or the same result. */
  ghost predicate SameAfter(def: Option<VirtualReg>, s: State, t: State) {
    match (s, t)
    case (At(q, a), At(q', b)) =>
      q == q' && a.params == b.params && a.trace == b.trace
      && (def.Some? ==> WordOf(a, def.value) == WordOf(b, def.value))
    case (Done(w, happened), Done(w', happened')) => w == w' && happened == happened'
    case _ => false
  }

  lemma SameWrite(a: Memory, b: Memory, dest: Option<Operand>, w: Word, p: Pos)
    requires a.params == b.params && a.trace == b.trace
    ensures SameAfter(if dest.Some? then OperandToVreg(dest.value) else None,
                      At(p, a.Write(dest, w)), At(p, b.Write(dest, w)))
  {
    if dest.Some? && OperandToVreg(dest.value).Some? {
      WriteIs(a, dest, w, OperandToVreg(dest.value).value);
      WriteIs(b, dest, w, OperandToVreg(dest.value).value);
    }
    hide WordOf;
  }

  /** An instruction goes on and computes alike wherever the registers it uses hold the same. */
  lemma DependsOnUses(m: Meaning, i: Instr, p: Pos, a: Memory, b: Memory)
    requires SameFor(i, a, b) && IsStructured(i.opcode)
    ensures SameAfter(Def(i), Perform(m, i, p, a), Perform(m, i, p, b))
  {
    FieldsAgree(i, a, b);
    DefIs(i);
    hide Uses, Def, Memory.Value, Memory.Write, WordOf, Compute, OperandToVreg;
    match i.opcode
    case Mov => SameWrite(a, b, i.dest, a.Field(i.arg1), Next(p));
    case Arithmetic(kind) => SameWrite(a, b, i.dest, Compute(m, kind, a.Field(i.arg1), a.Field(i.arg2)), Next(p));
    case Call =>
      var trace := a.trace + [Called(LabelOf(i.arg1), a.params)];
      SameWrite(a.(params := [], trace := trace), b.(params := [], trace := trace), i.dest, m.world(trace), Next(p));
    case GetParam => SameWrite(a, b, i.dest, m.param(NumberOf(i.arg1)), Next(p));
    case _ =>
  }

  /** And it changes no register but the one it defines. */
  lemma ChangesOnlyDef(m: Meaning, i: Instr, p: Pos, mem: Memory, v: VirtualReg)
    requires Perform(m, i, p, mem).At? && Def(i) != Some(v)
    ensures WordOf(Perform(m, i, p, mem).mem, v) == WordOf(mem, v)
  {
  }

  /** A condition tested is all a conditional branch uses. */
  lemma BranchUses(condition: Operand, target: nat, v: VirtualReg)
    ensures v in Uses(Instr(BranchIfNot, None, Some(condition), Some(Label(target)))) <==>
            OperandToVreg(condition) == Some(v)
    ensures v in Uses(Instr(BranchIf, None, Some(condition), Some(Label(target)))) <==>
            OperandToVreg(condition) == Some(v)
  {
  }

  /** Control that reaches the end of a block leaves the function. */
  function Step(m: Meaning, code: Code, s: State): State {
    if s.Done? then s
    else if s.pos.block < |code| && s.pos.row < |code[s.pos.block]| then
         Perform(m, code[s.pos.block][s.pos.row], s.pos, s.mem)
    else Done(None, s.mem.trace)
  }

  function Steps(m: Meaning, code: Code, s: State, n: nat): State
    decreases n
  {
    if n == 0 then s else Step(m, code, Steps(m, code, s, n - 1))
  }

  lemma {:induction false} StepsAdd(m: Meaning, code: Code, s: State, a: nat, b: nat)
    ensures Steps(m, code, s, a + b) == Steps(m, code, Steps(m, code, s, a), b)
    decreases b
  {
    if b > 0 {
      StepsAdd(m, code, s, a, b - 1);
      assert a + b - 1 == a + (b - 1);
    }
  }

  /** `s'` comes after `s`, at least `k` steps later. */
  ghost predicate Gets(m: Meaning, code: Code, s: State, s': State, k: nat) {
    exists n: nat :: k <= n && Steps(m, code, s, n) == s'
  }

  /** Still running, with the store `st`, after `k` steps or more. */
  ghost predicate RunsOn(m: Meaning, code: Code, s: State, k: nat, st: Store) {
    exists n: nat :: k <= n && RunsAt(Steps(m, code, s, n), st)
  }

  ghost predicate RunsAt(s: State, st: Store) {
    s.At? && s.mem.Store() == st
  }

  /** The events so far. */
  function TraceAt(s: State): seq<Event> {
    if s.At? then s.mem.trace else s.happened
  }

  lemma {:induction false} TracesGrow(m: Meaning, code: Code, s: State, n: nat, n': nat)
    requires n <= n'
    ensures TraceAt(Steps(m, code, s, n)) <= TraceAt(Steps(m, code, s, n'))
    decreases n'
  {
    if n < n' {
      TracesGrow(m, code, s, n, n' - 1);
      StepGrows(m, code, Steps(m, code, s, n' - 1));
    }
  }

  lemma StepGrows(m: Meaning, code: Code, s: State)
    ensures TraceAt(s) <= TraceAt(Step(m, code, s))
  {
  }

  lemma GetsItself(m: Meaning, code: Code, s: State)
    ensures Gets(m, code, s, s, 0)
  {
    assert Steps(m, code, s, 0) == s;
  }

  lemma GetsNext(m: Meaning, code: Code, s: State)
    ensures Gets(m, code, s, Step(m, code, s), 1)
  {
    assert Steps(m, code, s, 0) == s;
    assert Steps(m, code, s, 1) == Step(m, code, s);
  }

  lemma GetsOn(m: Meaning, code: Code, a: State, b: State, c: State, i: nat, j: nat)
    requires Gets(m, code, a, b, i) && Gets(m, code, b, c, j)
    ensures Gets(m, code, a, c, i + j)
  {
    var n: nat :| i <= n && Steps(m, code, a, n) == b;
    var n': nat :| j <= n' && Steps(m, code, b, n') == c;
    StepsAdd(m, code, a, n, n');
    assert i + j <= n + n' && Steps(m, code, a, n + n') == c;
  }

  lemma RunsOnAfter(m: Meaning, code: Code, a: State, b: State, i: nat, k: nat, st: Store)
    requires Gets(m, code, a, b, i) && RunsOn(m, code, b, k, st)
    ensures RunsOn(m, code, a, i + k, st)
  {
    var n: nat :| i <= n && Steps(m, code, a, n) == b;
    var n': nat :| k <= n' && RunsAt(Steps(m, code, b, n'), st);
    StepsAdd(m, code, a, n, n');
    assert i + k <= n + n' && RunsAt(Steps(m, code, a, n + n'), st);
  }

  /** Once done, done. */
  lemma {:induction false} DoneStays(m: Meaning, code: Code, s: State, n: nat, n': nat)
    requires Steps(m, code, s, n).Done? && n <= n'
    ensures Steps(m, code, s, n') == Steps(m, code, s, n)
    decreases n'
  {
    if n < n' {
      DoneStays(m, code, s, n, n' - 1);
    }
  }

  // ---- growing ----

  /** Every block is still there, with more instructions at its end perhaps. */
  ghost predicate Extends(code: Code, code': Code) {
    |code| <= |code'| && forall b: nat :: b < |code| ==> code[b] <= code'[b]
  }

  lemma ExtendsInTurn(a: Code, b: Code, c: Code)
    requires Extends(a, b) && Extends(b, c)
    ensures Extends(a, c)
  {
  }

  ghost predicate InstrAt(code: Code, p: Pos, i: Instr) {
    p.block < |code| && p.row < |code[p.block]| && code[p.block][p.row] == i
  }

  lemma InstrStays(code: Code, code': Code, p: Pos, i: Instr)
    requires InstrAt(code, p, i) && Extends(code, code')
    ensures InstrAt(code', p, i)
  {
    assert code[p.block] <= code'[p.block];
  }

  /** Running one known instruction. */
  lemma Runs(m: Meaning, code: Code, s: State, i: Instr)
    requires s.At? && InstrAt(code, s.pos, i)
    ensures Gets(m, code, s, Perform(m, i, s.pos, s.mem), 1)
  {
    GetsNext(m, code, s);
  }

  // ---- how blocks end ----

  predicate Transfers(i: Instr) {
    i.opcode.Jump? || i.opcode.BranchIf? || i.opcode.BranchIfNot? || i.opcode.Ret?
  }

  ghost predicate Straight(code: seq<Instr>) {
    forall k: nat :: k < |code| ==> !Transfers(code[k])
  }

  /** The ways a block may end: with nothing, a jump, a return, or a branch and a jump. */
  ghost predicate IsTail(tail: seq<Instr>) {
    || tail == []
    || (|tail| == 1 && (tail[0].opcode.Jump? || tail[0].opcode.Ret?))
    || (|tail| == 2 && (tail[0].opcode.BranchIf? || tail[0].opcode.BranchIfNot?) && tail[1].opcode.Jump?)
  }

  ghost predicate EndsWell(code: seq<Instr>) {
    exists k: nat :: k <= |code| && Straight(code[..k]) && IsTail(code[k..])
  }

  lemma StraightEndsWell(code: seq<Instr>, tail: seq<Instr>)
    requires Straight(code) && IsTail(tail)
    ensures EndsWell(code + tail)
  {
    var all := code + tail;
    assert all[..|code|] == code && all[|code|..] == tail;
  }
}
