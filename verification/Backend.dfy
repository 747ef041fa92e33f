/** The back end after SSA form: linear order, intervals, registers and frame, and what the emitted code then does. */
module Backend {
  import opened IdomTree
  import opened Lists
  import opened Vregs
  import opened Linear
  import opened Intervals
  import opened LinearScan
  import opened Frame
  import opened AllocSim
  import opened LinearMachine

  // ---- what the frame must hold ----

  predicate Mentions(instr: Instr, o: Operand) {
    instr.dest == Some(o) || instr.arg1 == Some(o) || instr.arg2 == Some(o)
  }

  predicate TakesAddress(instr: Instr, id: nat) {
    instr.opcode.AddrOf? && instr.arg1 == Some(OfVar(id))
  }

  ghost predicate Mentioned(code: seq<Instr>, id: nat) {
    exists i: nat :: i < |code| && Mentions(code[i], OfVar(id))
  }

  ghost predicate AddressTaken(code: seq<Instr>, id: nat) {
    exists i: nat :: i < |code| && TakesAddress(code[i], id)
  }

  /** The objects are those the code mentions, with their sizes. */
  ghost predicate ObjectsOf(code: seq<Instr>, sizes: map<nat, nat>, objects: map<nat, nat>) {
    && (forall id: nat :: id in objects <==> id in sizes && Mentioned(code, id))
    && (forall id: nat :: id in objects ==> objects[id] == sizes[id])
  }

  lemma OneMoreMention(code: seq<Instr>, instr: Instr, id: nat)
    ensures Mentioned(code + [instr], id) <==> Mentioned(code, id) || Mentions(instr, OfVar(id))
    ensures AddressTaken(code + [instr], id) <==> AddressTaken(code, id) || TakesAddress(instr, id)
  {
    var all, n := code + [instr], |code|;
    assert all[n] == instr && forall i: nat :: i < n ==> all[i] == code[i];
    if i: nat :| i < n && Mentions(code[i], OfVar(id)) {
      assert Mentions(all[i], OfVar(id));
    }
    if i: nat :| i < |all| && Mentions(all[i], OfVar(id)) {
      assert i < n ==> Mentions(code[i], OfVar(id));
    }
    if i: nat :| i < n && TakesAddress(code[i], id) {
      assert TakesAddress(all[i], id);
    }
    if i: nat :| i < |all| && TakesAddress(all[i], id) {
      assert i < n ==> TakesAddress(code[i], id);
    }
    hide Mentions, TakesAddress;
  }

  /** Reserve an aggregate if the operand names one. */
  function WithObject(objects: map<nat, nat>, sizes: map<nat, nat>, o: Option<Operand>): map<nat, nat> {
    if o.Some? && o.value.OfVar? && o.value.id in sizes then objects[o.value.id := sizes[o.value.id]] else objects
  }

  lemma ObjectsStep(code: seq<Instr>, instr: Instr, sizes: map<nat, nat>, objects: map<nat, nat>)
    requires ObjectsOf(code, sizes, objects)
    ensures ObjectsOf(code + [instr], sizes, WithObject(WithObject(WithObject(objects, sizes, instr.dest), sizes,
                                                                   instr.arg1), sizes, instr.arg2))
  {
    hide Mentioned;
    forall id: nat
      ensures Mentioned(code + [instr], id) <==> Mentioned(code, id) || Mentions(instr, OfVar(id))
    {
      OneMoreMention(code, instr, id);
    }
  }

  /** The aggregates the code mentions, of all there are in the program, and the variables it takes the address of. */
  method FrameRequirements(code: seq<Instr>, sizes: map<nat, nat>) returns (objects: map<nat, nat>, addrTaken: set<nat>)
    ensures ObjectsOf(code, sizes, objects)
    ensures forall id: nat :: id in addrTaken <==> AddressTaken(code, id)
  {
    objects, addrTaken := map[], {};
    for i := 0 to |code|
      invariant ObjectsOf(code[..i], sizes, objects)
      invariant forall id: nat :: id in addrTaken <==> AddressTaken(code[..i], id)
    {
      var instr := code[i];
      assert code[..i + 1] == code[..i] + [instr];
      forall id: nat
        ensures Mentioned(code[..i + 1], id) <==> Mentioned(code[..i], id) || Mentions(instr, OfVar(id))
        ensures AddressTaken(code[..i + 1], id) <==> AddressTaken(code[..i], id) || TakesAddress(instr, id)
      {
        OneMoreMention(code[..i], instr, id);
      }
      hide Mentioned, AddressTaken, ObjectsOf, Mentions, WithObject;
      ObjectsStep(code[..i], instr, sizes, objects);
      objects := WithObject(WithObject(WithObject(objects, sizes, instr.dest), sizes, instr.arg1), sizes, instr.arg2);
      if instr.opcode.AddrOf? && instr.arg1.Some? && instr.arg1.value.OfVar? {
        addrTaken := addrTaken + {instr.arg1.value.id};
      }
    }
    assert code[..|code|] == code;
  }

  // ---- compiling a function ----

  /** The code takes no address. */
  ghost predicate TakesNoAddress(cfg: Cfg) {
    forall name: LabelId, row: nat :: row < |cfg.Body(name)| ==> !cfg.Body(name)[row].opcode.AddrOf?
  }

  lemma NoneTaken(cfg: Cfg, linear: Linearized, full: nat, id: nat)
    requires IsLinear(cfg, linear, full) && TakesNoAddress(cfg)
    ensures !AddressTaken(linear.instructions, id)
  {
    hide IsLinear, Emitted, Cfg.Body;
    CodeIs(cfg, linear, full);
    assert linear.blocks[..|linear.blocks|] == linear.blocks;
    assert Emitted(linear.instructions, linear.blocks) == linear.instructions;
    if i: nat :| i < |linear.instructions| && TakesAddress(linear.instructions[i], id) {
      var name, row := EmittedIsSomewhere(cfg, linear, full, |linear.blocks|, i);
    }
  }

  /** Linearise, find the intervals and calls, allocate, and lay out the frame. */
  method Compile(cfg: Cfg, file: RegisterFile, params: FrameParams, sizes: map<nat, nat>)
    returns (linear: Linearized, layout: FrameLayout, ghost c: Compiled, ghost objects: map<nat, nat>,
             ghost pinned: set<nat>, ghost areas: map<Thing, Area>)
    requires TransfersLast(cfg) && ParamsBeforeCalls(cfg) && Distinct(file.allocatable) && params.wordSize > 0
    ensures c.cfg == cfg && c.file == file && c.linear == linear && c.layout == layout
    ensures CoversLiveness(cfg, linear, c.intervals) && Sorted(c.intervals) && DistinctVregs(c.intervals)
    ensures forall call: CallSite :: call in c.calls <==> CallAt(linear, call)
    ensures IsLinear(cfg, linear, c.full) && IsSafe(file, c.intervals, c.calls, layout.allocation)
    ensures ScanGives(file, c.intervals, c.calls, layout.allocation) && NoneWider(cfg, linear, c.intervals)
    ensures layout.params == params && layout.savedBytes == |layout.allocation.calleeSaved| * params.wordSize
    ensures LaysOut(layout, objects, pinned, areas) && ObjectsOf(linear.instructions, sizes, objects)
    ensures forall id: nat :: id in pinned <==> AddressTaken(linear.instructions, id)
    ensures TakesNoAddress(cfg) ==> c.Valid()
    ensures TakesNoAddress(cfg) && BlocksLeave(cfg) && cfg.Body(cfg.entry) != [] ==>
              forall h: Host, s: VirtualState, t: PhysicalState, n: nat :: StartsAs(c, s, t) ==>
                SameSeen(VirtualRun(h, cfg, s, n), MachineAfter(h, linear, file, layout, t, n))
  {
    hide Sorted, IsLinear, CoversLiveness, NoneWider, IsSafe, IsScan, TransfersLast, ParamsBeforeCalls, LaysOut,
         DistinctVregs, TakesNoAddress,
         ObjectsOf, AddressTaken, BlocksLeave, StartsAs, SameSeen, VirtualRun, MachineAfter, Cfg.Body;
    ghost var full, order, reached;
    linear, full, order, reached := LinearizeCfg(cfg);
    var intervals := ComputeLiveIntervals(cfg, linear, full);
    var calls := FindCallSites(linear);
    SortedIsScannable(file, intervals, calls);
    var allocation;
    ghost var stages;
    allocation, stages := LinearScan.LinearScan(file, intervals, calls);
    var needed, addrTaken := FrameRequirements(linear.instructions, sizes);
    layout, areas := Plan(params, allocation, needed, addrTaken);
    objects, pinned := needed, addrTaken;
    c := Compiled(cfg, linear, full, file, intervals, calls, layout);
    if TakesNoAddress(cfg) {
      forall id: nat ensures id !in pinned {
        NoneTaken(cfg, linear, full, id);
      }
      NothingPinned(layout, objects, pinned, areas);
      hide Compiled.Valid;
      if BlocksLeave(cfg) && cfg.Body(cfg.entry) != [] {
        forall h: Host, s: VirtualState, t: PhysicalState, n: nat | StartsAs(c, s, t)
          ensures SameSeen(VirtualRun(h, cfg, s, n), MachineAfter(h, linear, file, layout, t, n))
        {
          MachineKeepsRuns(h, c, s, t, n);
        }
      }
    }
  }

  lemma SortedIsScannable(file: RegisterFile, intervals: seq<LiveInterval>, calls: seq<CallSite>)
    requires Distinct(file.allocatable) && Sorted(intervals) && DistinctVregs(intervals)
    requires forall a: nat, b: nat :: a < b < |calls| ==> calls[a].position < calls[b].position
    ensures Scannable(file, intervals, calls)
  {
    hide DistinctVregs;
    forall a: nat, b: nat | a < b < |intervals| ensures intervals[a].start <= intervals[b].start {
      assert NotAfter(intervals[a], intervals[b]);
    }
  }

  lemma NothingPinned(layout: FrameLayout, objects: map<nat, nat>, pinned: set<nat>, areas: map<Thing, Area>)
    requires LaysOut(layout, objects, pinned, areas) && pinned == {}
    ensures layout.addrTaken == map[]
  {
    assert layout.addrTaken.Keys == {};
  }
}
