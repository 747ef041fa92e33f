/** Virtual registers: which values an instruction reads and which one it writes. */
module Vregs {
  import opened IdomTree

  datatype VirtualReg = Temp(name: nat) | Var(id: nat)

  datatype Operand = OfVar(id: nat) | OfTemp(name: nat) | ImmInt(value: int) | Label(target: nat)

  datatype Opcode =
    | Arithmetic(kind: nat) | Mov | Load | Convert(from: nat)
    | ArrayLoad | ArrayAddr | ArrayStore | Store
    | BranchIf | BranchIfNot | Param | Ret
    | Call | GetParam | Jump | AddrOf

  /** Every instruction has the same three operand fields. */
  datatype Instr = Instr(opcode: Opcode, dest: Option<Operand>, arg1: Option<Operand>, arg2: Option<Operand>)

  function OperandToVreg(o: Operand): Option<VirtualReg> {
    match o
    case OfVar(id) => Some(Var(id))
    case OfTemp(name) => Some(Temp(name))
    case _ => None
  }

  /** How an opcode treats the three fields of an instruction. */
  datatype DataFlow = DataFlow(readsDest: bool, readsArg1: bool, readsArg2: bool, writesDest: bool)

  function Flow(opcode: Opcode): DataFlow {
    match opcode
    case Arithmetic(_) => DataFlow(false, true, true, true)
    case Mov => DataFlow(false, true, false, true)
    case Load => DataFlow(false, true, false, true)
    case Convert(_) => DataFlow(false, true, false, true)
    case ArrayLoad => DataFlow(false, true, true, true)
    case ArrayAddr => DataFlow(false, true, true, true)
    case ArrayStore => DataFlow(true, true, true, false)
    case Store => DataFlow(false, true, true, false)
    case BranchIf => DataFlow(false, true, false, false)
    case BranchIfNot => DataFlow(false, true, false, false)
    case Param => DataFlow(false, true, false, false)
    case Ret => DataFlow(false, true, false, false)
    case Call => DataFlow(false, false, false, true)
    case GetParam => DataFlow(false, false, false, true)
    case Jump => DataFlow(false, false, false, false)
    case AddrOf => DataFlow(false, false, false, true)
  }

  function Field(read: bool, o: Option<Operand>): seq<VirtualReg> {
    if read && o.Some? && OperandToVreg(o.value).Some? then [OperandToVreg(o.value).value] else []
  }

  /** Every register named in a field the opcode reads, `dest` first. */
  function Uses(i: Instr): seq<VirtualReg> {
    var flow := Flow(i.opcode);
    Field(flow.readsDest, i.dest) + Field(flow.readsArg1, i.arg1) + Field(flow.readsArg2, i.arg2)
  }

  /** The virtual register it writes, if any. */
  function Def(i: Instr): Option<VirtualReg> {
    if Flow(i.opcode).writesDest && i.dest.Some? then OperandToVreg(i.dest.value) else None
  }
}
