/** Functions in SSA form: their blocks, their edges, and what running one does. */
module Ssa {
  import opened Graphs
  import opened IdomTree

  type Word = int
  type BlockId = nat
  type ValueId = nat
  type SlotId = nat

  datatype Operand = Value(id: ValueId) | Imm(constant: int)

  /** What an instruction does.  The operator of a `Binary` or `Convert` is an uninterpreted code. */
  datatype Op =
    | Binary(operator: nat, lhs: Operand, rhs: Operand)
    | Copy(source: Operand)
    | Convert(kind: nat, value: Operand)
    | Call(callee: string, args: seq<Operand>)
    | GetParam(index: nat)
    | Undef
    | SlotLoad(slot: SlotId)
    | SlotStore(slot: SlotId, value: Operand)
    | ArrayLoad(base: SlotId, position: Operand)
    | ArrayStore(base: SlotId, position: Operand, value: Operand)
    | ArrayAddr(base: SlotId, position: Operand)
    | Load(address: Operand)
    | Store(address: Operand, value: Operand)
    | AddrOf(slot: SlotId)
  {
    predicate DefinesValue() {
      !SlotStore? && !ArrayStore? && !Store?
    }

    /** What is read, left to right; as many as `On` takes. */
    function Operands(): seq<Operand> {
      match this
      case Binary(_, lhs, rhs) => [lhs, rhs]
      case Copy(source) => [source]
      case Convert(_, value) => [value]
      case Call(_, args) => args
      case GetParam(_) => []
      case Undef => []
      case SlotLoad(_) => []
      case SlotStore(_, value) => [value]
      case ArrayLoad(_, index) => [index]
      case ArrayStore(_, index, value) => [index, value]
      case ArrayAddr(_, index) => [index]
      case Load(address) => [address]
      case Store(address, value) => [address, value]
      case AddrOf(_) => []
    }

    /** The same operation on other operands. */
    function On(replacements: seq<Operand>): Op
      requires |replacements| == |Operands()|
    {
      match this
      case Binary(operator, _, _) => Binary(operator, replacements[0], replacements[1])
      case Copy(_) => Copy(replacements[0])
      case Convert(kind, _) => Convert(kind, replacements[0])
      case Call(callee, _) => Call(callee, replacements)
      case GetParam(_) => this
      case Undef => this
      case SlotLoad(_) => this
      case SlotStore(slot, _) => SlotStore(slot, replacements[0])
      case ArrayLoad(base, _) => ArrayLoad(base, replacements[0])
      case ArrayStore(base, _, _) => ArrayStore(base, replacements[0], replacements[1])
      case ArrayAddr(base, _) => ArrayAddr(base, replacements[0])
      case Load(_) => Load(replacements[0])
      case Store(_, _) => Store(replacements[0], replacements[1])
      case AddrOf(_) => this
    }

    /** The operation without its operands. */
    function Head(): Op {
      On(seq(|Operands()|, _ => Imm(0)))
    }
  }

  datatype Inst = Inst(dest: Option<ValueId>, op: Op)

  /** `args[i]` is the value arriving from the block's predecessor `i`. */
  datatype Phi = Phi(dest: ValueId, args: seq<Operand>, slot: SlotId)

  datatype Terminator =
    | Jump(target: BlockId)
    | Branch(cond: Operand, thenBlock: BlockId, elseBlock: BlockId)
    | Return(result: Option<Operand>)
  {
    function Successors(): seq<BlockId> {
      match this
      case Jump(target) => [target]
      case Branch(_, thenBlock, elseBlock) => [thenBlock, elseBlock]
      case Return(_) => []
    }

    function Operands(): seq<Operand> {
      match this
      case Jump(_) => []
      case Branch(cond, _, _) => [cond]
      case Return(result) => if result.Some? then [result.value] else []
    }

    function On(replacements: seq<Operand>): Terminator
      requires |replacements| == |Operands()|
    {
      match this
      case Jump(_) => this
      case Branch(_, thenBlock, elseBlock) => Branch(replacements[0], thenBlock, elseBlock)
      case Return(result) => if result.Some? then Return(Some(replacements[0])) else this
    }
  }

  datatype Block = Block(phis: seq<Phi>, insts: seq<Inst>, term: Terminator, preds: seq<BlockId>)

  /** What kind of definition a value has. */
  datatype Site = AtInst | AtPhi(block: BlockId, position: nat) | Removed

  /** The value of a function object: its block arena, where each value is defined, its entry. */
  datatype Func = Func(blocks: seq<Block>, sites: seq<Site>, entry: BlockId)
  {
    function Size(): nat { |blocks| }

    /** The graph shape, as the adjacency lists dominance works on. */
    function Adjacency(): Graph {
      Graph(entry,
            seq(|blocks|, b requires 0 <= b < |blocks| => blocks[b].preds),
            seq(|blocks|, b requires 0 <= b < |blocks| => blocks[b].term.Successors()))
    }
  }

  // ---- running ----

  /** A call, a store or a load of memory other code can reach, or the handing out of an address: the operation and
      what it read. */
  datatype Event = Event(head: Op, args: seq<Word>)

  /** What the function computes with: uninterpreted pure operations, the incoming arguments, the
      value of an undefined variable, and what the outside world answers to a history of events. */
  datatype Machine = Machine(pure: (Op, seq<Word>) -> Word, param: nat -> Word, undef: Word,
                             world: seq<Event> -> Word)

  /** Values, the memory of the private slots, and the events so far. */
  datatype State = State(vals: map<ValueId, Word>, mem: map<SlotId, Word>, trace: seq<Event>)
  {
    function Read(o: Operand): Word {
      match o
      case Value(v) => if v in vals then vals[v] else 0
      case Imm(c) => c
    }

    function ReadAll(os: seq<Operand>): seq<Word> {
      seq(|os|, i requires 0 <= i < |os| => Read(os[i]))
    }

    function Slot(m: Machine, s: SlotId): Word {
      if s in mem then mem[s] else m.undef
    }
  }

  /** The result of an operation, with the memory and the events after it.  Only loads and stores of
      `private` slots touch the memory; those of other slots, which some other code may reach, are
      events like a call. */
  function Perform(m: Machine, private: set<SlotId>, op: Op, args: seq<Word>, st: State)
    : (Word, map<SlotId, Word>, seq<Event>)
    requires |args| == |op.Operands()|
  {
    match op
    case Copy(_) => (args[0], st.mem, st.trace)
    case GetParam(i) => (m.param(i), st.mem, st.trace)
    case Undef => (m.undef, st.mem, st.trace)
    case Binary(_, _, _) => (m.pure(op.Head(), args), st.mem, st.trace)
    case Convert(_, _) => (m.pure(op.Head(), args), st.mem, st.trace)
    case SlotLoad(s) =>
      if s in private then (st.Slot(m, s), st.mem, st.trace) else Happen(m, op, args, st)
    case SlotStore(s, _) =>
      if s in private then (0, st.mem[s := args[0]], st.trace) else Happen(m, op, args, st)
    case _ => Happen(m, op, args, st)
  }

  function Happen(m: Machine, op: Op, args: seq<Word>, st: State): (Word, map<SlotId, Word>, seq<Event>) {
    var trace := st.trace + [Event(op.Head(), args)];
    (m.world(trace), st.mem, trace)
  }

  function Exec(m: Machine, private: set<SlotId>, inst: Inst, st: State): State {
    var (w, mem, trace) := Perform(m, private, inst.op, st.ReadAll(inst.op.Operands()), st);
    State(if inst.dest.Some? then st.vals[inst.dest.value := w] else st.vals, mem, trace)
  }

  function ExecAll(m: Machine, private: set<SlotId>, insts: seq<Inst>, st: State): State
    decreases |insts|
  {
    if insts == [] then st
    else Exec(m, private, insts[|insts| - 1], ExecAll(m, private, insts[..|insts| - 1], st))
  }

  /** The argument of a phi along the edge from `pred`: the one at its first position. */
  function Arrival(phi: Phi, preds: seq<BlockId>, pred: BlockId): Operand {
    var i := Position(preds, pred);
    if i < |phi.args| then phi.args[i] else Value(phi.dest)
  }

  function Position(preds: seq<BlockId>, pred: BlockId): (i: nat)
    ensures i <= |preds|
    ensures i < |preds| <==> pred in preds
    ensures i < |preds| ==> preds[i] == pred
    ensures forall k :: 0 <= k < i ==> preds[k] != pred
    decreases |preds|
  {
    if preds == [] then 0
    else if preds[0] == pred then 0
    else 1 + Position(preds[1..], pred)
  }

  /** All phis of a block at once: every argument is read before any destination is written. */
  function Assign(phis: seq<Phi>, preds: seq<BlockId>, pred: BlockId, st: State, vals: map<ValueId, Word>)
    : map<ValueId, Word>
    decreases |phis|
  {
    if phis == [] then vals
    else
      var phi := phis[|phis| - 1];
      Assign(phis[..|phis| - 1], preds, pred, st, vals)[phi.dest := st.Read(Arrival(phi, preds, pred))]
  }

  function Cross(block: Block, pred: BlockId, st: State): State {
    st.(vals := Assign(block.phis, block.preds, pred, st, st.vals))
  }

  /** Where a run stands at a block boundary. */
  datatype Status = At(block: BlockId, st: State) | Done(result: Option<Word>, trace: seq<Event>) | Stuck

  /** The block the terminator goes to. */
  function Target(term: Terminator, st: State): BlockId
    requires !term.Return?
  {
    match term
    case Jump(target) => target
    case Branch(cond, thenBlock, elseBlock) => if st.Read(cond) != 0 then thenBlock else elseBlock
  }

  function Leave(f: Func, b: BlockId, st: State): Status
    requires b < f.Size()
  {
    var term := f.blocks[b].term;
    if term.Return? then
      Done(if term.result.Some? then Some(st.Read(term.result.value)) else None, st.trace)
    else
      var target := Target(term, st);
      if target < f.Size() then At(target, Cross(f.blocks[target], b, st)) else Stuck
  }

  function Next(m: Machine, private: set<SlotId>, f: Func, status: Status): Status {
    match status
    case At(b, st) => if b < f.Size() then Leave(f, b, ExecAll(m, private, f.blocks[b].insts, st)) else Stuck
    case _ => status
  }

  /** A run after `n` blocks. */
  function Run(m: Machine, private: set<SlotId>, f: Func, n: nat): Status
    decreases n
  {
    if n == 0 then At(f.entry, State(map[], map[], []))
    else Next(m, private, f, Run(m, private, f, n - 1))
  }

  // ---- facts about running ----

  lemma RunStart(m: Machine, private: set<SlotId>, f: Func)
    ensures Run(m, private, f, 0) == At(f.entry, State(map[], map[], []))
  {
  }

  lemma RunStep(m: Machine, private: set<SlotId>, f: Func, n: nat)
    requires n > 0
    ensures Run(m, private, f, n) == Next(m, private, f, Run(m, private, f, n - 1))
  {
  }

  lemma ExecAllStep(m: Machine, private: set<SlotId>, insts: seq<Inst>, j: nat, st: State)
    requires j < |insts|
    ensures ExecAll(m, private, insts[..j + 1], st) == Exec(m, private, insts[j], ExecAll(m, private, insts[..j], st))
  {
    assert insts[..j + 1][..j] == insts[..j];
  }

  ghost predicate DistinctDests(phis: seq<Phi>) {
    forall i: nat, j: nat :: i < j < |phis| ==> phis[i].dest != phis[j].dest
  }

  ghost predicate Writes(phis: seq<Phi>, v: ValueId) {
    exists k: nat :: k < |phis| && phis[k].dest == v
  }

  /** The simultaneous assignment gives each destination the value arriving for it ... */
  lemma {:induction false} AssignWrites(phis: seq<Phi>, preds: seq<BlockId>, pred: BlockId, st: State,
                                        vals: map<ValueId, Word>, k: nat)
    requires DistinctDests(phis) && k < |phis|
    ensures phis[k].dest in Assign(phis, preds, pred, st, vals)
    ensures Assign(phis, preds, pred, st, vals)[phis[k].dest] == st.Read(Arrival(phis[k], preds, pred))
    decreases |phis|
  {
    if k < |phis| - 1 {
      AssignWrites(phis[..|phis| - 1], preds, pred, st, vals, k);
    }
  }

  /** ... and leaves every other value alone. */
  lemma {:induction false} AssignSpares(phis: seq<Phi>, preds: seq<BlockId>, pred: BlockId, st: State,
                                        vals: map<ValueId, Word>, v: ValueId)
    requires !Writes(phis, v)
    ensures v in Assign(phis, preds, pred, st, vals) <==> v in vals
    ensures v in vals ==> Assign(phis, preds, pred, st, vals)[v] == vals[v]
    decreases |phis|
  {
    if phis != [] {
      var rest := phis[..|phis| - 1];
      assert phis[|phis| - 1].dest != v;
      forall k: nat | k < |rest| ensures rest[k].dest != v {
        assert rest[k] == phis[k];
      }
      AssignSpares(rest, preds, pred, st, vals, v);
    }
  }
}
