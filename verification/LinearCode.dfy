/** The code leaving SSA form emits, in the instruction format the back end works on. */
module LinearCode {
  import opened IdomTree
  import Ssa
  import opened Destruct
  import opened LeaveSsa
  import opened ParallelCopies
  import Tac
  import V = Vregs
  import L = Linear
  import A = AllocSim
  import M = LinearMachine

  /** How functions are named in labels, and back. */
  datatype Naming = Naming(numberOf: string -> nat, nameOf: nat -> string)

  ghost predicate TellsApart(names: Naming) {
    forall name: string :: names.nameOf(names.numberOf(name)) == name
  }

  /** Values have even temporaries and phi temporaries odd ones. */
  function Number(p: Place): nat {
    match p
    case Home(v) => 2 * v
    case Scratch(k) => 2 * k + 1
  }

  function RegOf(p: Place): V.VirtualReg {
    V.Temp(Number(p))
  }

  function InPlace(p: Place): V.Operand {
    V.OfTemp(Number(p))
  }

  function InSource(s: Source): V.Operand {
    match s
    case From(p) => InPlace(p)
    case Const(c) => V.ImmInt(c)
  }

  function IntoPlace(dest: Option<Place>): Option<V.Operand> {
    if dest.Some? then Some(InPlace(dest.value)) else None
  }

  const NOTHING := V.Instr(V.Mov, None, None, None)

  /** An operation on values, slots being variables. */
  function EncodedOp(result: Option<Place>, op: Ssa.Op, args: seq<Source>): V.Instr
    requires |args| == |op.Operands()|
  {
    var dest := IntoPlace(result);
    match op
    case Binary(kind, _, _) => V.Instr(V.Arithmetic(kind), dest, Some(InSource(args[0])), Some(InSource(args[1])))
    case Convert(kind, _) => V.Instr(V.Convert(kind), dest, Some(InSource(args[0])), None)
    case SlotLoad(s) => V.Instr(V.Mov, dest, Some(V.OfVar(s)), None)
    case SlotStore(s, _) => V.Instr(V.Mov, Some(V.OfVar(s)), Some(InSource(args[0])), None)
    case ArrayLoad(s, _) => V.Instr(V.ArrayLoad, dest, Some(V.OfVar(s)), Some(InSource(args[0])))
    case ArrayAddr(s, _) => V.Instr(V.ArrayAddr, dest, Some(V.OfVar(s)), Some(InSource(args[0])))
    case ArrayStore(s, _, _) =>
      V.Instr(V.ArrayStore, Some(V.OfVar(s)), Some(InSource(args[0])), Some(InSource(args[1])))
    case Load(_) => V.Instr(V.Load, dest, Some(InSource(args[0])), None)
    case Store(_, _) => V.Instr(V.Store, None, Some(InSource(args[0])), Some(InSource(args[1])))
    case AddrOf(s) => V.Instr(V.AddrOf, dest, Some(V.OfVar(s)), None)
    case _ => NOTHING
  }

  function Encoded(names: Naming, t: Tac.Tac): V.Instr {
    match t
    case Mov(dest, source) => V.Instr(V.Mov, Some(InPlace(dest)), Some(InSource(source)), None)
    case Simple(result, op, args) => if |args| == |op.Operands()| then EncodedOp(result, op, args) else NOTHING
    case Param(arg) => V.Instr(V.Param, None, Some(InSource(arg)), None)
    case CallLabel(result, callee, count) =>
      V.Instr(V.Call, IntoPlace(result), Some(V.Label(names.numberOf(callee))), Some(V.ImmInt(count)))
    case ReadParam(into, index) => V.Instr(V.GetParam, IntoPlace(into), Some(V.ImmInt(index)), None)
    case Goto(target) => V.Instr(V.Jump, None, Some(V.Label(target)), None)
    case BranchIf(cond, target) => V.Instr(V.BranchIf, None, Some(InSource(cond)), Some(V.Label(target)))
    case Ret(value) => V.Instr(V.Ret, None, if value.Some? then Some(InSource(value.value)) else None, None)
  }

  function EncodedAll(names: Naming, code: seq<Tac.Tac>): (r: seq<V.Instr>)
    ensures |r| == |code| && forall i: nat :: i < |r| ==> r[i] == Encoded(names, code[i])
  {
    seq(|code|, i requires 0 <= i < |code| => Encoded(names, code[i]))
  }

  /** The blocks a block's transfers name, in order. */
  function Targets(code: seq<Tac.Tac>): seq<L.LabelId>
    decreases |code|
  {
    if code == [] then []
    else
      var last := code[|code| - 1];
      Targets(code[..|code| - 1]) + if last.Goto? || last.BranchIf? then [last.target] else []
  }

  function AsLinear(names: Naming, cfg: Tac.Cfg, entry: nat): (r: L.Cfg)
    ensures r.entry == entry
    ensures forall b: nat :: r.Body(b) == if b < |cfg| then EncodedAll(names, cfg[b]) else []
    ensures forall b: nat :: b < |cfg| ==> r.Successors(b) == Targets(cfg[b])
  {
    L.Cfg(map b: nat | 0 <= b < |cfg| :: L.BasicBlock(EncodedAll(names, cfg[b]), Targets(cfg[b])), entry)
  }

  // ---- what encoded code reads and writes ----

  /** The variable an operation reaches by name, read first: an element's array, or a variable's own word. */
  function BaseOf(op: Ssa.Op): seq<V.Operand> {
    match op
    case SlotLoad(s) => [V.OfVar(s)]
    case ArrayLoad(s, _) => [V.OfVar(s)]
    case ArrayAddr(s, _) => [V.OfVar(s)]
    case ArrayStore(s, _, _) => [V.OfVar(s)]
    case _ => []
  }

  function InSources(args: seq<Source>): (r: seq<V.Operand>)
    ensures |r| == |args| && forall i: nat :: i < |r| ==> r[i] == InSource(args[i])
  {
    seq(|args|, i requires 0 <= i < |args| => InSource(args[i]))
  }

  /** What code leaving SSA form makes into an instruction of its own kind: copies, calls and argument reads have
      theirs. */
  predicate IsPlain(op: Ssa.Op) {
    !op.Copy? && !op.Undef? && !op.Call? && !op.GetParam?
  }

  /** What an encoded operation reads is its variable, where it reads one, and then every operand in order; it writes
      the variable it stores to, or its result if it has a value. */
  lemma OperationReads(result: Option<Place>, op: Ssa.Op, args: seq<Source>)
    requires |args| == |op.Operands()| && IsPlain(op)
    ensures A.Read(EncodedOp(result, op, args)) == BaseOf(op) + InSources(args)
    ensures V.Def(EncodedOp(result, op, args)) ==
              if op.SlotStore? then Some(V.Var(op.slot))
              else if op.DefinesValue() && result.Some? then Some(RegOf(result.value)) else None
  {
  }

  /** The sources of an instruction, in order. */
  function SourcesOf(t: Tac.Tac): seq<Source> {
    match t
    case Mov(_, source) => [source]
    case Simple(_, _, args) => args
    case Param(arg) => [arg]
    case BranchIf(cond, _) => [cond]
    case Ret(value) => if value.Some? then [value.value] else []
    case _ => []
  }

  /** Where an instruction's value goes. */
  function PlaceOf(t: Tac.Tac): Option<Place> {
    match t
    case Mov(dest, _) => Some(dest)
    case Simple(result, op, _) => if op.DefinesValue() then result else None
    case CallLabel(result, _, _) => result
    case ReadParam(into, _) => into
    case _ => None
  }

  /** Plain operations have all their operands. */
  predicate WellMade(t: Tac.Tac) {
    t.Simple? ==> |t.args| == |t.op.Operands()| && IsPlain(t.op)
  }

  /** Encoded code reads exactly the sources of the code it came from, in order, after the variable it names, and
      writes exactly the place that code writes, or the variable it stores to. */
  lemma CodeReads(names: Naming, t: Tac.Tac)
    requires WellMade(t)
    ensures A.Read(Encoded(names, t)) == (if t.Simple? then BaseOf(t.op) else []) + InSources(SourcesOf(t))
    ensures V.Def(Encoded(names, t)) ==
              if t.Simple? && t.op.SlotStore? then Some(V.Var(t.op.slot))
              else if PlaceOf(t).Some? then Some(RegOf(PlaceOf(t).value)) else None
  {
    if t.Simple? {
      OperationReads(t.result, t.op, t.args);
      hide EncodedOp, A.Read, V.Def;
    }
  }

  /** A place an instruction's sources come from. */
  ghost predicate TakesFrom(t: Tac.Tac, v: V.VirtualReg) {
    exists i: nat :: i < |SourcesOf(t)| && SourcesOf(t)[i].From? && RegOf(SourcesOf(t)[i].place) == v
  }

  lemma InRegister(s: Source)
    ensures V.OperandToVreg(InSource(s)) == if s.From? then Some(RegOf(s.place)) else None
  {
  }

  /** The registers liveness counts as used: the places of the sources, and the variable named. */
  lemma CodeUses(names: Naming, t: Tac.Tac, v: V.VirtualReg)
    requires WellMade(t)
    ensures v in V.Uses(Encoded(names, t)) <==>
            TakesFrom(t, v) || (t.Simple? && BaseOf(t.op) != [] && V.OperandToVreg(BaseOf(t.op)[0]) == Some(v))
  {
    CodeReads(names, t);
    A.UsesAreRead(Encoded(names, t), v);
    hide Encoded, A.Read, V.Uses, RegOf, SourcesOf, BaseOf;
    RegistersOf(if t.Simple? then BaseOf(t.op) else [], SourcesOf(t), v);
    BaseIsOne(t);
  }

  lemma BaseIsOne(t: Tac.Tac)
    ensures t.Simple? ==> |BaseOf(t.op)| <= 1
  {
  }

  lemma RegistersOf(base: seq<V.Operand>, sources: seq<Source>, v: V.VirtualReg)
    ensures (exists k: nat ::
               k < |base + InSources(sources)| && V.OperandToVreg((base + InSources(sources))[k]) == Some(v))
       <==> (exists i: nat :: i < |sources| && sources[i].From? && RegOf(sources[i].place) == v)
            || exists k: nat :: k < |base| && V.OperandToVreg(base[k]) == Some(v)
  {
    var read, n := base + InSources(sources), |base|;
    hide InSource, RegOf, V.OperandToVreg;
    if k: nat :| k < |read| && V.OperandToVreg(read[k]) == Some(v) {
      if k >= n {
        InRegister(sources[k - n]);
      } else {
        assert V.OperandToVreg(base[k]) == Some(v);
      }
    }
    if i: nat :| i < |sources| && sources[i].From? && RegOf(sources[i].place) == v {
      InRegister(sources[i]);
      assert V.OperandToVreg(read[n + i]) == Some(v);
    }
    if k: nat :| k < |base| && V.OperandToVreg(base[k]) == Some(v) {
      assert V.OperandToVreg(read[k]) == Some(v);
    }
  }

  // ---- what the allocator asks of the code ----

  lemma {:induction false} TargetsHold(code: seq<Tac.Tac>, k: nat)
    requires k < |code| && (code[k].Goto? || code[k].BranchIf?)
    ensures code[k].target in Targets(code)
    decreases |code|
  {
    if k < |code| - 1 {
      TargetsHold(code[..|code| - 1], k);
    }
  }

  lemma TransferIs(names: Naming, t: Tac.Tac, args: seq<A.Word>)
    requires A.StepOf(Encoded(names, t), args).To?
    ensures (t.Goto? || t.BranchIf?) && A.StepOf(Encoded(names, t), args).target == t.target
  {
  }

  lemma TransferDefinesNothing(names: Naming, t: Tac.Tac)
    requires t.Transfers()
    ensures V.Def(Encoded(names, t)).None?
  {
  }

  /** Code that came from a function ends its blocks with their transfers and keeps arguments next to their call. */
  lemma LoweredIsCompilable(f: Ssa.Func, cfg: Tac.Cfg, names: Naming, entry: nat)
    requires Lowered(f, cfg)
    ensures A.TransfersLast(AsLinear(names, cfg, entry)) && A.ParamsBeforeCalls(AsLinear(names, cfg, entry))
    ensures M.BlocksLeave(AsLinear(names, cfg, entry))
  {
    var linear := AsLinear(names, cfg, entry);
    hide Lowered, AsLinear, Encoded, A.StepOf, V.Def;
    assert |cfg| == f.Size() by {
      LoweredSize(f, cfg);
    }
    forall b: nat, row: nat, args: seq<A.Word> |
      row < |linear.Body(b)| && A.StepOf(linear.Body(b)[row], args).To?
      ensures A.StepOf(linear.Body(b)[row], args).target in linear.Successors(b) && A.NoDefsFrom(linear, b, row)
    {
      TransferIs(names, cfg[b][row], args);
      TargetsHold(cfg[b], row);
      forall k: nat | row <= k < |linear.Body(b)| ensures V.Def(linear.Body(b)[k]).None? {
        TransfersComeLast(f, cfg, b, row, k);
        TransferDefinesNothing(names, cfg[b][k]);
      }
    }
    forall b: nat | linear.Body(b) != [] ensures M.Leaves(linear.Body(b)[|linear.Body(b)| - 1]) {
      LastLeaves(f, cfg, names, b);
    }
    forall b: nat, row: nat | row < |linear.Body(b)| && linear.Body(b)[row].opcode.Param?
      ensures A.ArgumentNext(linear, b, row + 1)
    {
      ParamIs(names, cfg[b][row]);
      ParamsSitBeforeCalls(f, cfg, b, row);
      NextIs(names, cfg[b][row + 1]);
    }
  }

  lemma LoweredSize(f: Ssa.Func, cfg: Tac.Cfg)
    requires Lowered(f, cfg)
    ensures |cfg| == f.Size()
  {
  }

  /** The last instruction of a lowered block jumps or returns. */
  lemma LastLeaves(f: Ssa.Func, cfg: Tac.Cfg, names: Naming, b: nat)
    requires Lowered(f, cfg) && b < |cfg|
    ensures cfg[b] != [] && M.Leaves(Encoded(names, cfg[b][|cfg[b]| - 1]))
  {
    assert BlockLowered(f, b, cfg[b]);
    var moves: seq<Move>, base: nat :| Owed(f, b, moves, base)
      && cfg[b] == LoweredInsts(f.blocks[b].insts) + Tac.AsTac(moves) + LoweredTerm(f.blocks[b].term);
    var term := LoweredTerm(f.blocks[b].term);
    assert term != [] && cfg[b][|cfg[b]| - 1] == term[|term| - 1];
    hide Owed, LoweredInsts;
  }

  lemma ParamIs(names: Naming, t: Tac.Tac)
    requires Encoded(names, t).opcode.Param?
    ensures t.Param?
  {
  }

  lemma NextIs(names: Naming, t: Tac.Tac)
    requires t.Param? || t.CallLabel?
    ensures Encoded(names, t).opcode.Param? || Encoded(names, t).opcode.Call?
  {
  }
}
