/** Running a function with one memory for all its slots, which indexing and the outside world can change. */
module WholeMemory {
  import opened IdomTree
  import opened Ssa
  import opened SlotUses
  import opened Rewrites

  type Cells = map<SlotId, Word>

  /** What the outside world sees: the operation, what it read, and what the slots hold whose address it has. */
  datatype Seen = Seen(head: Op, args: seq<Word>, shown: Cells)

  /** What runs the function: the pure operations, how an element is put into the word of an aggregate and got from
      it, what the outside world answers, and what it leaves in slots it can reach. */
  datatype Outside = Outside(pure: (Op, seq<Word>) -> Word, param: nat -> Word, undef: Word,
                             put: (Word, Word, Word) -> Word, get: (Word, Word) -> Word,
                             answer: seq<Seen> -> Word, touch: seq<Seen> -> Cells)

  /** Every slot's word, the slots whose address was taken, and what the outside world saw. */
  datatype Ram = Ram(cells: Cells, taken: set<SlotId>, seen: seq<Seen>)

  function Cell(o: Outside, cells: Cells, s: SlotId): Word {
    if s in cells then cells[s] else o.undef
  }

  /** What the outside world can read: the slots whose address it has. */
  function Shown(o: Outside, m: Ram): Cells {
    map s | s in m.taken :: Cell(o, m.cells, s)
  }

  /** The outside world writes what it likes into the slots it can reach. */
  function Touched(cells: Cells, news: Cells, reach: set<SlotId>): Cells {
    map s | s in cells.Keys + (news.Keys * reach) :: if s in news && s in reach then news[s] else cells[s]
  }

  /** An operation on memory, given what it read.  A call that may return twice lets the outside world reach
      every slot it has something for. */
  function Act(o: Outside, head: Op, args: seq<Word>, m: Ram): (Word, Ram)
    requires |args| == |head.Operands()|
  {
    match head
    case SlotLoad(s) => (Cell(o, m.cells, s), m)
    case SlotStore(s, _) => (0, m.(cells := m.cells[s := args[0]]))
    case ArrayLoad(base, _) => (o.get(Cell(o, m.cells, base), args[0]), m)
    case ArrayStore(base, _, _) => (0, m.(cells := m.cells[base := o.put(Cell(o, m.cells, base), args[0], args[1])]))
    case AddrOf(s) => (o.pure(head, args), m.(taken := m.taken + {s}))
    case ArrayAddr(base, _) => (o.pure(head, args), m.(taken := m.taken + {base}))
    case _ =>
      var seen := m.seen + [Seen(head, args, Shown(o, m))];
      var reach := if head.Call? && head.callee in SETJMP_LIKE then o.touch(seen).Keys else m.taken;
      (o.answer(seen), Ram(Touched(m.cells, o.touch(seen), reach), m.taken, seen))
  }

  predicate OnMemory(op: Op) {
    !op.Copy? && !op.GetParam? && !op.Undef? && !op.Binary? && !op.Convert?
  }

  function PerformWhole(o: Outside, op: Op, args: seq<Word>, m: Ram): (Word, Ram)
    requires |args| == |op.Operands()|
  {
    match op
    case Copy(_) => (args[0], m)
    case GetParam(i) => (o.param(i), m)
    case Undef => (o.undef, m)
    case Binary(_, _, _) => (o.pure(op.Head(), args), m)
    case Convert(_, _) => (o.pure(op.Head(), args), m)
    case _ => Answered(o, Event(op.Head(), args), m)
  }

  type Vals = map<ValueId, Word>

  /** The values alone, to read operands from. */
  function Reading(vals: Vals): State {
    State(vals, map[], [])
  }

  function ExecWhole(o: Outside, inst: Inst, vals: Vals, m: Ram): (Vals, Ram) {
    var (w, m') := PerformWhole(o, inst.op, Reading(vals).ReadAll(inst.op.Operands()), m);
    (if inst.dest.Some? then vals[inst.dest.value := w] else vals, m')
  }

  function ExecAllWhole(o: Outside, insts: seq<Inst>, vals: Vals, m: Ram): (Vals, Ram)
    decreases |insts|
  {
    if insts == [] then (vals, m)
    else
      var (vals', m') := ExecAllWhole(o, insts[..|insts| - 1], vals, m);
      ExecWhole(o, insts[|insts| - 1], vals', m')
  }

  datatype Whole = WholeAt(block: BlockId, vals: Vals, m: Ram) | WholeDone(result: Option<Word>, seen: seq<Seen>) |
      WholeStuck

  function LeaveWhole(f: Func, b: BlockId, vals: Vals, m: Ram): Whole
    requires b < f.Size()
  {
    match Leave(f, b, Reading(vals))
    case At(target, st) => WholeAt(target, st.vals, m)
    case Done(result, _) => WholeDone(result, m.seen)
    case Stuck => WholeStuck
  }

  function NextWhole(o: Outside, f: Func, s: Whole): Whole {
    match s
    case WholeAt(b, vals, m) =>
      if b < f.Size() then
        var (vals', m') := ExecAllWhole(o, f.blocks[b].insts, vals, m);
        LeaveWhole(f, b, vals', m')
      else WholeStuck
    case _ => s
  }

  /** A run after `n` blocks. */
  function RunWhole(o: Outside, f: Func, n: nat): Whole
    decreases n
  {
    if n == 0 then WholeAt(f.entry, map[], Ram(map[], {}, [])) else NextWhole(o, f, RunWhole(o, f, n - 1))
  }

  // ---- the memory behind a history ----

  /** What the operations of a history, none of them on private slots, made of the memory. */
  function Replay(o: Outside, trace: seq<Event>): Ram
    decreases |trace|
  {
    if trace == [] then Ram(map[], {}, [])
    else Answered(o, trace[|trace| - 1], Replay(o, trace[..|trace| - 1])).1
  }

  function Answered(o: Outside, e: Event, m: Ram): (Word, Ram) {
    if |e.args| == |e.head.Operands()| then Act(o, e.head, e.args, m) else (0, m)
  }

  /** A machine whose answers come from the memory behind the history. */
  function Behind(o: Outside): Machine {
    Machine(o.pure, o.param, o.undef,
            (trace: seq<Event>) => if trace == [] then 0
                                   else Answered(o, trace[|trace| - 1], Replay(o, trace[..|trace| - 1])).0)
  }

  // ---- private slots ----

  /** The instruction reaches into no private slot, and if there is any does not return twice. */
  ghost predicate Discreet(private: set<SlotId>, inst: Inst) {
    (private == {} || !CallsSetjmp(inst)) && forall s: SlotId :: s in private ==> !ReachesInto(inst, s)
  }

  ghost predicate AllDiscreet(private: set<SlotId>, f: Func) {
    forall b: BlockId, i: nat :: b < f.Size() && i < |f.blocks[b].insts| ==> Discreet(private, f.blocks[b].insts[i])
  }

  /** Memories that agree but for the private slots, which nothing outside has the address of. */
  ghost predicate AgreeOff(o: Outside, private: set<SlotId>, a: Ram, b: Ram) {
    && a.taken == b.taken && a.seen == b.seen && a.taken !! private
    && forall s: SlotId :: s !in private ==> Cell(o, a.cells, s) == Cell(o, b.cells, s)
  }

  ghost predicate SameCells(o: Outside, private: set<SlotId>, a: Ram, b: Ram) {
    forall s: SlotId :: s in private ==> Cell(o, a.cells, s) == Cell(o, b.cells, s)
  }

  lemma ShownAlike(o: Outside, private: set<SlotId>, a: Ram, b: Ram)
    requires AgreeOff(o, private, a, b)
    ensures Shown(o, a) == Shown(o, b)
  {
  }

  lemma TouchedCell(o: Outside, cells: Cells, news: Cells, reach: set<SlotId>, s: SlotId)
    ensures Cell(o, Touched(cells, news, reach), s) == if s in news && s in reach then news[s] else Cell(o, cells, s)
  {
  }

  /** An operation that leaves the private slots alone does the same with or without them. */
  lemma ActOff(o: Outside, private: set<SlotId>, head: Op, args: seq<Word>, a: Ram, b: Ram)
    requires |args| == |head.Operands()| && AgreeOff(o, private, a, b) && OnMemory(head)
    requires private == {} || !(head.Call? && head.callee in SETJMP_LIKE)
    requires forall s: SlotId :: s in private ==> !ReachesInto(Inst(None, head), s)
    requires (head.SlotLoad? || head.SlotStore?) ==> head.slot !in private
    ensures Act(o, head, args, a).0 == Act(o, head, args, b).0
    ensures AgreeOff(o, private, Act(o, head, args, a).1, Act(o, head, args, b).1)
    ensures SameCells(o, private, a, Act(o, head, args, a).1)
  {
    ShownAlike(o, private, a, b);
    if head.AddrOf? {
      assert ReachesInto(Inst(None, head), head.slot);
    } else if head.ArrayLoad? || head.ArrayStore? || head.ArrayAddr? {
      assert ReachesInto(Inst(None, head), head.base);
    } else if !head.SlotLoad? && !head.SlotStore? {
      var seen := a.seen + [Seen(head, args, Shown(o, a))];
      var news := o.touch(seen);
      var reach := if head.Call? && head.callee in SETJMP_LIKE then news.Keys else a.taken;
      forall s: SlotId
        ensures Cell(o, Touched(a.cells, news, reach), s) ==
                  if s in news && s in reach then news[s] else Cell(o, a.cells, s)
        ensures Cell(o, Touched(b.cells, news, reach), s) ==
                  if s in news && s in reach then news[s] else Cell(o, b.cells, s)
      {
        TouchedCell(o, a.cells, news, reach, s);
        TouchedCell(o, b.cells, news, reach, s);
      }
      hide Touched, Cell, Shown;
    }
  }

  lemma HeadOf(op: Op)
    ensures |op.Head().Operands()| == |op.Operands()| && op.Head().Head() == op.Head()
    ensures OnMemory(op.Head()) == OnMemory(op)
    ensures CallsSetjmp(Inst(None, op.Head())) == CallsSetjmp(Inst(None, op))
    ensures forall s: SlotId :: ReachesInto(Inst(None, op.Head()), s) == ReachesInto(Inst(None, op), s)
    ensures op.SlotLoad? == op.Head().SlotLoad? && op.SlotStore? == op.Head().SlotStore?
    ensures op.SlotLoad? || op.SlotStore? ==> op.slot == op.Head().slot
  {
    var zeros := seq(|op.Operands()|, _ => Imm(0));
    OnReads(op, zeros);
    assert op.Head().Operands() == zeros;
  }

  // ---- the two runs side by side ----

  /** The whole memory is the private slots' memory and, for the others, the memory behind the history. */
  ghost predicate Splits(o: Outside, private: set<SlotId>, vals: Vals, m: Ram, st: State) {
    && vals == st.vals
    && AgreeOff(o, private, m, Replay(o, st.trace))
    && forall s: SlotId :: s in private ==> Cell(o, m.cells, s) == st.Slot(Behind(o), s)
  }

  lemma ReplayOn(o: Outside, trace: seq<Event>, e: Event)
    ensures Replay(o, trace + [e]) == Answered(o, e, Replay(o, trace)).1
    ensures Behind(o).world(trace + [e]) == Answered(o, e, Replay(o, trace)).0
  {
    var all := trace + [e];
    assert all[|all| - 1] == e && all[..|all| - 1] == trace;
  }

  /** An operation on memory answers the same over the whole memory as over the memory behind the history. */
  lemma AnswerSplits(o: Outside, private: set<SlotId>, head: Op, args: seq<Word>, m: Ram, trace: seq<Event>)
    requires |args| == |head.Operands()| && AgreeOff(o, private, m, Replay(o, trace)) && OnMemory(head)
    requires Discreet(private, Inst(None, head))
    requires (head.SlotLoad? || head.SlotStore?) ==> head.slot !in private
    ensures var e := Event(head, args);
            && Answered(o, e, m).0 == Behind(o).world(trace + [e])
            && AgreeOff(o, private, Answered(o, e, m).1, Replay(o, trace + [e]))
            && SameCells(o, private, m, Answered(o, e, m).1)
  {
    ReplayOn(o, trace, Event(head, args));
    hide Act, Replay, Behind, AgreeOff, SameCells;
    ActOff(o, private, head, args, m, Replay(o, trace));
  }

  function Written(vals: Vals, dest: Option<ValueId>, w: Word): Vals {
    if dest.Some? then vals[dest.value := w] else vals
  }

  lemma EventWhole(o: Outside, inst: Inst, vals: Vals, m: Ram, args: seq<Word>)
    requires OnMemory(inst.op) && args == Reading(vals).ReadAll(inst.op.Operands())
    ensures var (w, m') := Answered(o, Event(inst.op.Head(), args), m);
            ExecWhole(o, inst, vals, m) == (Written(vals, inst.dest, w), m')
  {
    hide Answered;
  }

  lemma EventHere(o: Outside, private: set<SlotId>, inst: Inst, st: State, args: seq<Word>)
    requires OnMemory(inst.op) && args == st.ReadAll(inst.op.Operands())
    requires (inst.op.SlotLoad? || inst.op.SlotStore?) ==> inst.op.slot !in private
    ensures var trace := st.trace + [Event(inst.op.Head(), args)];
            Exec(Behind(o), private, inst, st)
            == State(Written(st.vals, inst.dest, Behind(o).world(trace)), st.mem, trace)
  {
    hide Behind;
  }

  lemma SameReading(vals: Vals, st: State, os: seq<Operand>)
    requires vals == st.vals
    ensures Reading(vals).ReadAll(os) == st.ReadAll(os)
  {
  }

  lemma DiscreetHead(private: set<SlotId>, inst: Inst)
    requires Discreet(private, inst)
    ensures Discreet(private, Inst(None, inst.op.Head()))
  {
    HeadOf(inst.op);
  }

  /** An operation the machine takes for an event. */
  lemma EventSplits(o: Outside, private: set<SlotId>, inst: Inst, vals: Vals, m: Ram, st: State)
    requires Splits(o, private, vals, m, st) && Discreet(private, inst) && OnMemory(inst.op)
    requires (inst.op.SlotLoad? || inst.op.SlotStore?) ==> inst.op.slot !in private
    ensures var (vals', m') := ExecWhole(o, inst, vals, m);
            Splits(o, private, vals', m', Exec(Behind(o), private, inst, st))
  {
    var args := st.ReadAll(inst.op.Operands());
    SameReading(vals, st, inst.op.Operands());
    HeadOf(inst.op);
    DiscreetHead(private, inst);
    AnswerSplits(o, private, inst.op.Head(), args, m, st.trace);
    EventWhole(o, inst, vals, m, args);
    EventHere(o, private, inst, st, args);
    hide Replay, Behind, Act, Answered, AgreeOff, Cell, Discreet, Exec, ExecWhole, Written, OnMemory;
    SlotsStay(o, private, m, Answered(o, Event(inst.op.Head(), args), m).1, st, Exec(Behind(o), private, inst, st));
  }

  lemma SlotsStay(o: Outside, private: set<SlotId>, m: Ram, m': Ram, st: State, st': State)
    requires SameCells(o, private, m, m') && st'.mem == st.mem
    requires forall s: SlotId :: s in private ==> Cell(o, m.cells, s) == st.Slot(Behind(o), s)
    ensures forall s: SlotId :: s in private ==> Cell(o, m'.cells, s) == st'.Slot(Behind(o), s)
  {
    forall s: SlotId | s in private ensures Cell(o, m'.cells, s) == st'.Slot(Behind(o), s) {
      assert Cell(o, m'.cells, s) == Cell(o, m.cells, s);
    }
  }

  lemma LoadsPrivate(o: Outside, private: set<SlotId>, inst: Inst, m: Ram, st: State, args: seq<Word>)
    requires inst.op.SlotLoad? && inst.op.slot in private && args == st.ReadAll(inst.op.Operands())
    requires Cell(o, m.cells, inst.op.slot) == st.Slot(Behind(o), inst.op.slot)
    ensures var (w, m') := Answered(o, Event(inst.op.Head(), args), m);
            m' == m && Exec(Behind(o), private, inst, st) == st.(vals := Written(st.vals, inst.dest, w))
  {
    hide Replay, Cell;
  }

  lemma StoresPrivate(o: Outside, private: set<SlotId>, inst: Inst, m: Ram, st: State, args: seq<Word>)
    requires inst.op.SlotStore? && inst.op.slot in private && args == st.ReadAll(inst.op.Operands())
    ensures |args| == 1
    ensures Answered(o, Event(inst.op.Head(), args), m) == (0, m.(cells := m.cells[inst.op.slot := args[0]]))
    ensures Exec(Behind(o), private, inst, st)
         == State(Written(st.vals, inst.dest, 0), st.mem[inst.op.slot := args[0]], st.trace)
  {
    hide Replay, Behind, Cell;
  }

  /** A load or store of a private slot. */
  lemma PrivateSplits(o: Outside, private: set<SlotId>, inst: Inst, vals: Vals, m: Ram, st: State)
    requires Splits(o, private, vals, m, st)
    requires (inst.op.SlotLoad? || inst.op.SlotStore?) && inst.op.slot in private
    ensures var (vals', m') := ExecWhole(o, inst, vals, m);
            Splits(o, private, vals', m', Exec(Behind(o), private, inst, st))
  {
    var args := st.ReadAll(inst.op.Operands());
    SameReading(vals, st, inst.op.Operands());
    EventWhole(o, inst, vals, m, args);
    assert Cell(o, m.cells, inst.op.slot) == st.Slot(Behind(o), inst.op.slot);
    hide Replay, Behind, Answered, Exec, ExecWhole, Written, Op.Head, Op.Operands;
    if inst.op.SlotLoad? {
      LoadsPrivate(o, private, inst, m, st, args);
    } else {
      StoresPrivate(o, private, inst, m, st, args);
      hide AgreeOff;
      CellWritten(o, private, m, Replay(o, st.trace), inst.op.slot, args[0]);
    }
  }

  lemma CellWritten(o: Outside, private: set<SlotId>, m: Ram, other: Ram, s: SlotId, w: Word)
    requires s in private && AgreeOff(o, private, m, other)
    ensures AgreeOff(o, private, m.(cells := m.cells[s := w]), other)
  {
    forall r: SlotId | r !in private ensures Cell(o, m.cells[s := w], r) == Cell(o, other.cells, r) {
      assert Cell(o, m.cells, r) == Cell(o, other.cells, r);
    }
  }

  lemma PureDoes(o: Outside, private: set<SlotId>, inst: Inst, vals: Vals, m: Ram, st: State)
    requires vals == st.vals && !OnMemory(inst.op)
    ensures ExecWhole(o, inst, vals, m) == (Exec(Behind(o), private, inst, st).vals, m)
    ensures Exec(Behind(o), private, inst, st).mem == st.mem && Exec(Behind(o), private, inst, st).trace == st.trace
  {
    SameReading(vals, st, inst.op.Operands());
    hide Replay, Cell, Op.Operands, Op.Head, State.ReadAll;
  }

  /** An operation that does not touch memory. */
  lemma PureSplits(o: Outside, private: set<SlotId>, inst: Inst, vals: Vals, m: Ram, st: State)
    requires Splits(o, private, vals, m, st) && !OnMemory(inst.op)
    ensures var (vals', m') := ExecWhole(o, inst, vals, m);
            Splits(o, private, vals', m', Exec(Behind(o), private, inst, st))
  {
    PureDoes(o, private, inst, vals, m, st);
    hide Replay, Exec, ExecWhole, Behind, AgreeOff, Cell, OnMemory;
  }

  lemma ExecSplits(o: Outside, private: set<SlotId>, inst: Inst, vals: Vals, m: Ram, st: State)
    requires Splits(o, private, vals, m, st) && Discreet(private, inst)
    ensures var (vals', m') := ExecWhole(o, inst, vals, m);
            Splits(o, private, vals', m', Exec(Behind(o), private, inst, st))
  {
    hide Splits, Exec, ExecWhole, Behind, Discreet;
    if !OnMemory(inst.op) {
      PureSplits(o, private, inst, vals, m, st);
    } else if (inst.op.SlotLoad? || inst.op.SlotStore?) && inst.op.slot in private {
      PrivateSplits(o, private, inst, vals, m, st);
    } else {
      EventSplits(o, private, inst, vals, m, st);
    }
  }

  lemma {:induction false} ExecAllSplits(o: Outside, private: set<SlotId>, insts: seq<Inst>, vals: Vals, m: Ram,
                                         st: State)
    requires Splits(o, private, vals, m, st) && forall i: nat :: i < |insts| ==> Discreet(private, insts[i])
    ensures var (vals', m') := ExecAllWhole(o, insts, vals, m);
            Splits(o, private, vals', m', ExecAll(Behind(o), private, insts, st))
    decreases |insts|
  {
    hide Splits, Exec, ExecWhole, Behind, Discreet;
    if insts != [] {
      var rest := insts[..|insts| - 1];
      ExecAllSplits(o, private, rest, vals, m, st);
      var (vals', m') := ExecAllWhole(o, rest, vals, m);
      ExecSplits(o, private, insts[|insts| - 1], vals', m', ExecAll(Behind(o), private, rest, st));
    }
  }

  lemma {:induction false} AssignAlike(phis: seq<Phi>, preds: seq<BlockId>, pred: BlockId, a: State, b: State,
                                       vals: Vals)
    requires a.vals == b.vals
    ensures Assign(phis, preds, pred, a, vals) == Assign(phis, preds, pred, b, vals)
    decreases |phis|
  {
    if phis != [] {
      AssignAlike(phis[..|phis| - 1], preds, pred, a, b, vals);
    }
  }

  /** A run over the whole memory stands where the machine's does, with its memory split. */
  ghost predicate Corresponds(o: Outside, private: set<SlotId>, w: Whole, s: Status) {
    match s
    case At(b, st) => w.WholeAt? && w.block == b && Splits(o, private, w.vals, w.m, st)
    case Done(result, trace) => w == WholeDone(result, Replay(o, trace).seen)
    case Stuck => w.WholeStuck?
  }

  lemma LeaveCorresponds(o: Outside, private: set<SlotId>, f: Func, b: BlockId, vals: Vals, m: Ram, st: State)
    requires b < f.Size() && Splits(o, private, vals, m, st)
    ensures Corresponds(o, private, LeaveWhole(f, b, vals, m), Leave(f, b, st))
  {
    hide Replay, Behind, Cell;
    var term := f.blocks[b].term;
    if !term.Return? {
      var target := Target(term, st);
      assert Target(term, Reading(vals)) == target;
      if target < f.Size() {
        var block := f.blocks[target];
        AssignAlike(block.phis, block.preds, b, Reading(vals), st, vals);
      }
    }
  }

  lemma {:induction false} WholeIsSplit(o: Outside, private: set<SlotId>, f: Func, n: nat)
    requires AllDiscreet(private, f)
    ensures Corresponds(o, private, RunWhole(o, f, n), Run(Behind(o), private, f, n))
    decreases n
  {
    if n > 0 {
      WholeIsSplit(o, private, f, n - 1);
      RunStep(Behind(o), private, f, n);
      var s := Run(Behind(o), private, f, n - 1);
      hide Splits, Behind, Leave, LeaveWhole, ExecAll, ExecAllWhole, Run;
      if s.At? && s.block < f.Size() {
        var w := RunWhole(o, f, n - 1);
        var insts := f.blocks[s.block].insts;
        ExecAllSplits(o, private, insts, w.vals, w.m, s.st);
        var (vals, m) := ExecAllWhole(o, insts, w.vals, w.m);
        LeaveCorresponds(o, private, f, s.block, vals, m, ExecAll(Behind(o), private, insts, s.st));
      }
    }
  }
}
