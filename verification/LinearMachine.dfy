/** Emitted code run from its first instruction: block after block, each behind its label, jumps going to labels. */
module LinearMachine {
  import opened IdomTree
  import opened Lists
  import opened Vregs
  import opened Linear
  import opened Liveness
  import opened Intervals
  import opened LinearScan
  import opened Frame
  import opened AllocSim

  // ---- the code and its labels ----

  /** The blocks' instructions, one block after another. */
  function Emitted(instructions: seq<Instr>, blocks: seq<LinearBlock>): seq<Instr>
    decreases |blocks|
  {
    if blocks == [] then []
    else
      var last := blocks[|blocks| - 1];
      Emitted(instructions, blocks[..|blocks| - 1]) +
      if last.start <= last.end <= |instructions| then instructions[last.start..last.end] else []
  }

  function Code(linear: Linearized): seq<Instr> {
    Emitted(linear.instructions, linear.blocks)
  }

  /** How many blocks come before the label. */
  function Position(blocks: seq<LinearBlock>, name: LabelId): (k: nat)
    ensures k <= |blocks| && (k < |blocks| ==> blocks[k].name == name)
    ensures forall l: nat :: l < k ==> blocks[l].name != name
    decreases |blocks|
  {
    if blocks == [] || blocks[0].name == name then 0 else Position(blocks[1..], name) + 1
  }

  /** How many instructions come before the label. */
  function AddressOf(linear: Linearized, name: LabelId): nat {
    |Emitted(linear.instructions, linear.blocks[..Position(linear.blocks, name)])|
  }

  lemma {:induction false} EmittedUpTo(cfg: Cfg, linear: Linearized, full: nat, k: nat)
    requires IsLinear(cfg, linear, full) && k <= |linear.blocks|
    ensures Emitted(linear.instructions, linear.blocks[..k]) ==
              if k < full then linear.instructions[..linear.blocks[k].start] else linear.instructions
    decreases k
  {
    hide IsLinear, Emitted;
    if k > 0 {
      EmittedUpTo(cfg, linear, full, k - 1);
      EmitOne(cfg, linear, full, k - 1);
      EmittedStep(linear.instructions, linear.blocks, k - 1);
    } else {
      assert Emitted(linear.instructions, []) == [] by {
        EmittedNone(linear.instructions);
      }
      StartsAtZero(cfg, linear, full);
    }
  }

  lemma EmittedNone(instructions: seq<Instr>)
    ensures Emitted(instructions, []) == []
  {
  }

  lemma EmittedStep(instructions: seq<Instr>, blocks: seq<LinearBlock>, k: nat)
    requires k < |blocks| && blocks[k].start <= blocks[k].end <= |instructions|
    ensures Emitted(instructions, blocks[..k]) == instructions[..blocks[k].start] ==>
              Emitted(instructions, blocks[..k + 1]) == instructions[..blocks[k].end]
    ensures blocks[k].start == blocks[k].end ==>
              Emitted(instructions, blocks[..k + 1]) == Emitted(instructions, blocks[..k])
  {
    var start, end := blocks[k].start, blocks[k].end;
    assert blocks[..k + 1][..k] == blocks[..k];
    assert instructions[..start] + instructions[start..end] == instructions[..end];
  }

  lemma StartsAtZero(cfg: Cfg, linear: Linearized, full: nat)
    requires IsLinear(cfg, linear, full)
    ensures if 0 < full then linear.blocks[0].start == 0 else linear.instructions == []
  {
    assert linear.blocks[..full] == [] || linear.blocks[..full][0] == linear.blocks[0];
    hide Reachable, Distinct, Cfg.Body, AllHold, AllEmpty;
  }

  lemma EmitOne(cfg: Cfg, linear: Linearized, full: nat, k: nat)
    requires IsLinear(cfg, linear, full) && k < |linear.blocks|
    ensures full <= |linear.blocks|
    ensures linear.blocks[k].start <= linear.blocks[k].end <= |linear.instructions|
    ensures k < full ==> linear.blocks[k].end == if k + 1 < full then linear.blocks[k + 1].start
                                                 else |linear.instructions|
    ensures k >= full ==> linear.blocks[k].start == linear.blocks[k].end
  {
    HoldsAt(cfg, linear, full, k);
    if k < full {
      var tiles := linear.blocks[..full];
      assert tiles[k] == linear.blocks[k];
      if k + 1 < full {
        assert tiles[k + 1] == linear.blocks[k + 1];
      }
    } else {
      assert linear.blocks[full..][k - full] == linear.blocks[k];
    }
    hide Reachable, Distinct, Cfg.Body, AllHold, Holds;
  }

  lemma FullFits(cfg: Cfg, linear: Linearized, full: nat)
    requires IsLinear(cfg, linear, full)
    ensures full <= |linear.blocks|
  {
    hide AllHold, Reachable, Distinct, Tiles, AllEmpty, EntryFirst;
  }

  lemma CodeIs(cfg: Cfg, linear: Linearized, full: nat)
    requires IsLinear(cfg, linear, full)
    ensures Code(linear) == linear.instructions
  {
    FullFits(cfg, linear, full);
    hide IsLinear, Emitted;
    EmittedUpTo(cfg, linear, full, |linear.blocks|);
    assert linear.blocks[..|linear.blocks|] == linear.blocks;
  }

  /** A label's address is where its block starts; a label without code, or without a block, is past the end. */
  lemma AddressIs(cfg: Cfg, linear: Linearized, full: nat, name: LabelId)
    requires IsLinear(cfg, linear, full)
    ensures cfg.Body(name) == [] ==> AddressOf(linear, name) == |linear.instructions|
    ensures forall k: nat :: k < |linear.blocks| && linear.blocks[k].name == name && cfg.Body(name) != [] ==>
              AddressOf(linear, name) == linear.blocks[k].start
  {
    var at := Position(linear.blocks, name);
    EmittedUpTo(cfg, linear, full, at);
    if at < |linear.blocks| {
      HoldsAt(cfg, linear, full, at);
      HoldsSize(cfg, linear.instructions, linear.blocks[at]);
      FullBlocks(cfg, linear, full, at);
      forall k: nat | k < |linear.blocks| && linear.blocks[k].name == name ensures k == at {
        assert Labels(linear.blocks)[k] == Labels(linear.blocks)[at];
      }
    }
    hide AllHold, Reachable, Tiles, AllEmpty, Holds, Emitted, EntryFirst, Cfg.Body;
  }

  lemma HoldsSize(cfg: Cfg, instructions: seq<Instr>, block: LinearBlock)
    requires Holds(cfg, instructions, block)
    ensures block.end - block.start == |cfg.Body(block.name)| && block.end <= |instructions|
  {
  }

  lemma FullBlocks(cfg: Cfg, linear: Linearized, full: nat, k: nat)
    requires IsLinear(cfg, linear, full) && k < |linear.blocks|
    ensures full <= |linear.blocks| && (k < full <==> linear.blocks[k].start < linear.blocks[k].end)
  {
    if k < full {
      assert linear.blocks[..full][k] == linear.blocks[k];
    } else {
      assert linear.blocks[full..][k - full] == linear.blocks[k];
    }
    hide AllHold, Reachable, Distinct;
  }

  /** Code starts at the entry exactly when the entry has some, or nothing has. */
  lemma StartsAtEntry(cfg: Cfg, linear: Linearized, full: nat)
    requires IsLinear(cfg, linear, full)
    ensures AddressOf(linear, cfg.entry) == 0 <==> cfg.Body(cfg.entry) != [] || linear.instructions == []
  {
    AddressIs(cfg, linear, full, cfg.entry);
    StartsAtZero(cfg, linear, full);
    if cfg.Body(cfg.entry) != [] {
      HoldsAt(cfg, linear, full, 0);
      HoldsSize(cfg, linear.instructions, linear.blocks[0]);
      FullBlocks(cfg, linear, full, 0);
    }
    hide AllHold, Reachable, Tiles, AllEmpty, Distinct, AddressOf;
  }

  // ---- running it ----

  datatype MachineRun = Running(i: nat, s: PhysicalState) | Returned(value: Option<Word>, trace: seq<Event>) | RanOff

  /** One instruction: control goes on to the next, to a label, or out; past the last it runs off the end. */
  function MachineNext(h: Host, linear: Linearized, file: RegisterFile, layout: FrameLayout,
                       r: MachineRun): MachineRun {
    match r
    case Running(i, s) =>
      if i < |Code(linear)| then
        var instr := Code(linear)[i];
        var step := StepOf(instr, s.OperandsHeld(layout, Read(instr)));
        if step.Out? then Returned(step.value, s.trace)
        else Running(if step.To? then AddressOf(linear, step.target) else i + 1, PhysicalDo(h, file, layout, instr, s))
      else RanOff
    case _ => r
  }

  /** From the first instruction. */
  function MachineAfter(h: Host, linear: Linearized, file: RegisterFile, layout: FrameLayout, start: PhysicalState,
                        n: nat): MachineRun
    decreases n
  {
    if n == 0 then Running(0, start) else MachineNext(h, linear, file, layout,
                                                      MachineAfter(h, linear, file, layout, start, n - 1))
  }

  // ---- the same as running block by block ----

  /** A block with code ends with a jump to a label or a return. */
  ghost predicate BlocksLeave(cfg: Cfg) {
    forall name: LabelId :: cfg.Body(name) != [] ==> Leaves(cfg.Body(name)[|cfg.Body(name)| - 1])
  }

  predicate Leaves(instr: Instr) {
    instr.opcode.Ret? || (instr.opcode.Jump? && instr.arg1.Some? && instr.arg1.value.Label?)
  }

  lemma LeavesGoesAway(instr: Instr, args: seq<Word>)
    requires Leaves(instr)
    ensures !StepOf(instr, args).On?
  {
  }

  /** Where the instruction at `p` is, or past the end. */
  ghost predicate Placed(c: Compiled, p: Point, i: nat) {
    if p.row < |c.cfg.Body(p.name)| then i == IndexOf(c, p) else i == |c.linear.instructions|
  }

  ghost predicate InStep(c: Compiled, a: Run<PhysicalState>, b: MachineRun) {
    match (a, b)
    case (At(p, s), Running(i, t)) => s == t && Placed(c, p, i)
    case (Done(v, trace), Returned(v', trace')) => v == v' && trace == trace'
    case (Stuck, RanOff) => true
    case _ => false
  }

  lemma ValidIsLinear(c: Compiled)
    requires c.Valid()
    ensures IsLinear(c.cfg, c.linear, c.full) && Distinct(Labels(c.linear.blocks))
  {
  }

  lemma LabelPlaced(c: Compiled, name: LabelId)
    requires c.Valid()
    ensures Placed(c, Point(name, 0), AddressOf(c.linear, name))
  {
    ValidIsLinear(c);
    AddressIs(c.cfg, c.linear, c.full, name);
    hide Compiled.Valid, IsLinear, Distinct, AddressOf, IndexOf;
    if c.cfg.Body(name) != [] {
      var k := BlockOf(c, name);
      IndexIs(c, name, k);
    }
  }

  lemma NextPlaced(c: Compiled, p: Point, i: nat)
    requires c.Valid() && p.row + 1 < |c.cfg.Body(p.name)| && Placed(c, p, i)
    ensures Placed(c, Point(p.name, p.row + 1), i + 1)
  {
    hide Compiled.Valid, IndexOf;
    var k := BlockOf(c, p.name);
    IndexIs(c, p.name, k);
    assert p == Point(p.name, p.row);
  }

  lemma EntryPlaced(c: Compiled)
    requires c.Valid() && c.cfg.Body(c.cfg.entry) != []
    ensures Placed(c, Point(c.cfg.entry, 0), 0)
  {
    ValidIsLinear(c);
    StartsAtEntry(c.cfg, c.linear, c.full);
    hide Compiled.Valid, IsLinear, AddressOf, Placed;
    LabelPlaced(c, c.cfg.entry);
  }

  lemma InstrPlaced(c: Compiled, p: Point, i: nat)
    requires c.Valid() && p.row < |c.cfg.Body(p.name)| && Placed(c, p, i)
    ensures i < |Code(c.linear)| && Code(c.linear)[i] == c.cfg.Body(p.name)[p.row]
  {
    ValidIsLinear(c);
    CodeIs(c.cfg, c.linear, c.full);
    hide Compiled.Valid, IsLinear, Code, IndexOf;
    var k, at := InstrAt(c, p);
  }

  lemma StaysInBlock(c: Compiled, p: Point, args: seq<Word>)
    requires BlocksLeave(c.cfg) && p.row < |c.cfg.Body(p.name)| && StepOf(c.cfg.Body(p.name)[p.row], args).On?
    ensures p.row + 1 < |c.cfg.Body(p.name)|
  {
    hide StepOf, Leaves, Cfg.Body;
    if p.row + 1 == |c.cfg.Body(p.name)| {
      LeavesGoesAway(c.cfg.Body(p.name)[p.row], args);
    }
  }

  lemma NextInStep(h: Host, c: Compiled, p: Point, s: PhysicalState, i: nat)
    requires c.Valid() && BlocksLeave(c.cfg) && Placed(c, p, i)
    ensures InStep(c, PhysicalNext(h, c.cfg, c.file, c.layout, At(p, s)),
                   MachineNext(h, c.linear, c.file, c.layout, Running(i, s)))
  {
    hide Compiled.Valid, BlocksLeave, PhysicalDo, Read, StepOf, PhysicalState.OperandsHeld, Code, AddressOf, IndexOf,
         Cfg.Body;
    if p.row < |c.cfg.Body(p.name)| {
      InstrPlaced(c, p, i);
      var instr := c.cfg.Body(p.name)[p.row];
      var step := StepOf(instr, s.OperandsHeld(c.layout, Read(instr)));
      if step.To? {
        LabelPlaced(c, step.target);
      } else if step.On? {
        StaysInBlock(c, p, s.OperandsHeld(c.layout, Read(instr)));
        NextPlaced(c, p, i);
      }
      hide Placed;
    } else {
      ValidIsLinear(c);
      hide IsLinear;
      CodeIs(c.cfg, c.linear, c.full);
    }
  }

  /** Run from its first instruction, emitted code does step by step what it does block by block. */
  lemma {:induction false} OrderKeepsRuns(h: Host, c: Compiled, start: PhysicalState, n: nat)
    requires c.Valid() && BlocksLeave(c.cfg) && c.cfg.Body(c.cfg.entry) != []
    ensures InStep(c, PhysicalRun(h, c.cfg, c.file, c.layout, start, n),
                   MachineAfter(h, c.linear, c.file, c.layout, start, n))
    decreases n
  {
    hide Compiled.Valid, BlocksLeave, PhysicalNext, MachineNext, Placed;
    if n == 0 {
      EntryPlaced(c);
    } else {
      OrderKeepsRuns(h, c, start, n - 1);
      var a := PhysicalRun(h, c.cfg, c.file, c.layout, start, n - 1);
      var b := MachineAfter(h, c.linear, c.file, c.layout, start, n - 1);
      if a.At? {
        NextInStep(h, c, a.p, a.s, b.i);
      } else {
        EndedInStep(h, c, a, b);
      }
    }
  }

  lemma EndedInStep(h: Host, c: Compiled, a: Run<PhysicalState>, b: MachineRun)
    requires InStep(c, a, b) && !a.At?
    ensures InStep(c, PhysicalNext(h, c.cfg, c.file, c.layout, a), MachineNext(h, c.linear, c.file, c.layout, b))
  {
  }

  // ---- what the machine shows of code on virtual registers ----

  /** The same events and outcome. */
  ghost predicate SameSeen(a: Run<VirtualState>, b: MachineRun) {
    match (a, b)
    case (At(_, s), Running(_, t)) => s.trace == t.trace
    case (Done(v, trace), Returned(v', trace')) => v == v' && trace == trace'
    case (Stuck, RanOff) => true
    case _ => false
  }

  /** After every number of steps the emitted code, run on registers and frame from its first instruction, has shown
      what the code on virtual registers has. */
  lemma MachineKeepsRuns(h: Host, c: Compiled, s: VirtualState, t: PhysicalState, n: nat)
    requires c.Valid() && BlocksLeave(c.cfg) && StartsAs(c, s, t) && c.cfg.Body(c.cfg.entry) != []
    ensures SameSeen(VirtualRun(h, c.cfg, s, n), MachineAfter(h, c.linear, c.file, c.layout, t, n))
  {
    hide *;
    AllocationKeepsRuns(h, c, s, t, n);
    OrderKeepsRuns(h, c, t, n);
    SeenThrough(c, VirtualRun(h, c.cfg, s, n), PhysicalRun(h, c.cfg, c.file, c.layout, t, n),
                MachineAfter(h, c.linear, c.file, c.layout, t, n));
  }

  lemma SeenThrough(c: Compiled, a: Run<VirtualState>, r: Run<PhysicalState>, b: MachineRun)
    requires RunsAgree(c, a, r) && InStep(c, r, b)
    ensures SameSeen(a, b)
  {
    if a.At? {
      SameTrace(c, a.p, a.s, r.s);
    }
    hide Agrees, Placed;
  }

  /** Every emitted instruction is one of some block. */
  lemma {:induction false} EmittedIsSomewhere(cfg: Cfg, linear: Linearized, full: nat, n: nat, i: nat)
    returns (name: LabelId, row: nat)
    requires IsLinear(cfg, linear, full) && n <= |linear.blocks|
    requires i < |Emitted(linear.instructions, linear.blocks[..n])|
    ensures row < |cfg.Body(name)| && Emitted(linear.instructions, linear.blocks[..n])[i] == cfg.Body(name)[row]
    decreases n
  {
    hide IsLinear, Cfg.Body;
    var before := linear.blocks[..n - 1];
    assert linear.blocks[..n][..n - 1] == before;
    var k := |Emitted(linear.instructions, before)|;
    if i < k {
      name, row := EmittedIsSomewhere(cfg, linear, full, n - 1, i);
    } else {
      HoldsAt(cfg, linear, full, n - 1);
      name, row := linear.blocks[n - 1].name, i - k;
      HoldsInstr(cfg, linear.instructions, linear.blocks[n - 1], linear.blocks[n - 1].start + row);
    }
  }
}
