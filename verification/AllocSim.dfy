/** Allocation preserves meaning: run with every value in its home and every call destroying the
    registers a callee may use, code does what it does on virtual registers. */
module AllocSim {
  import opened IdomTree
  import opened Lists
  import opened Vregs
  import opened Linear
  import opened Liveness
  import opened Intervals
  import opened LinearScan
  import opened Frame

  type Word = int

  /** A memory access, an address handed out or a call: the instruction and what it read. */
  datatype Event = Event(instr: Instr, args: seq<Word>)

  /** What instructions compute, from what they read and what happened before, and what a call leaves in
      a register it may use. */
  datatype Host = Host(result: (Instr, seq<Word>, seq<Event>) -> Word, garbage: (seq<Event>, PhysReg) -> Word)

  predicate IsEvent(opcode: Opcode) {
    || opcode.Call? || opcode.Load? || opcode.Store?
    || opcode.ArrayLoad? || opcode.ArrayStore? || opcode.ArrayAddr? || opcode.AddrOf?
  }

  // ---- on virtual registers ----

  type Values = map<VirtualReg, Word>

  function ValueOf(vals: Values, v: VirtualReg): Word {
    if v in vals then vals[v] else 0
  }

  function OperandValue(vals: Values, o: Operand): Word {
    match o
    case ImmInt(n) => n
    case Label(_) => 0
    case _ => ValueOf(vals, OperandToVreg(o).value)
  }

  /** The fields the opcode reads, left to right. */
  function Read(instr: Instr): seq<Operand> {
    var flow := Flow(instr.opcode);
    (if flow.readsDest && instr.dest.Some? then [instr.dest.value] else [])
    + (if flow.readsArg1 && instr.arg1.Some? then [instr.arg1.value] else [])
    + (if flow.readsArg2 && instr.arg2.Some? then [instr.arg2.value] else [])
  }

  /** The registers used are those of the operands read. */
  lemma UsesAreRead(instr: Instr, v: VirtualReg)
    ensures v in Uses(instr) <==> exists k: nat :: k < |Read(instr)| && OperandToVreg(Read(instr)[k]) == Some(v)
  {
    var flow, read := Flow(instr.opcode), Read(instr);
    var dest := if flow.readsDest && instr.dest.Some? then [instr.dest.value] else [];
    var arg1 := if flow.readsArg1 && instr.arg1.Some? then [instr.arg1.value] else [];
    var arg2 := if flow.readsArg2 && instr.arg2.Some? then [instr.arg2.value] else [];
    assert read == dest + arg1 + arg2;
    hide Flow, Read;
    if dest != [] {
      assert read[0] == instr.dest.value;
    }
    if arg1 != [] {
      assert read[|dest|] == instr.arg1.value;
    }
    if arg2 != [] {
      assert read[|dest| + |arg1|] == instr.arg2.value;
    }
  }

  function ReadValues(vals: Values, os: seq<Operand>): (r: seq<Word>)
    ensures |r| == |os| && forall i: nat :: i < |os| ==> r[i] == OperandValue(vals, os[i])
  {
    seq(|os|, i requires 0 <= i < |os| => OperandValue(vals, os[i]))
  }

  /** Values, the arguments passed so far for the next call, and the events. */
  datatype VirtualState = VirtualState(vals: Values, params: seq<Word>, trace: seq<Event>)

  /** What an instruction writes, and the events after it, given what it reads. */
  function Outcome(h: Host, instr: Instr, args: seq<Word>, trace: seq<Event>): (Word, seq<Event>) {
    var trace' := if IsEvent(instr.opcode) then trace + [Event(instr, args)] else trace;
    (h.result(instr, args, trace'), trace')
  }

  function VirtualDo(h: Host, instr: Instr, s: VirtualState): VirtualState {
    var args := ReadValues(s.vals, Read(instr));
    if instr.opcode.Param? then s.(params := s.params + args)
    else
      var (w, trace) := Outcome(h, instr, if instr.opcode.Call? then s.params else args, s.trace);
      VirtualState(if Def(instr).Some? then s.vals[Def(instr).value := w] else s.vals,
                   if instr.opcode.Call? then [] else s.params, trace)
  }

  // ---- on homes ----

  type FrameWords = map<int, Word>

  /** Registers and frame; the operands passed so far, which a call reads from their homes. */
  datatype PhysicalState = PhysicalState(regs: map<PhysReg, Word>, frame: FrameWords, params: seq<Operand>,
                                         trace: seq<Event>)
  {
    function Held(home: Home): Word {
      match home
      case RegisterHome(r) => if r in regs then regs[r] else 0
      case FrameHome(offset) => if offset in frame then frame[offset] else 0
    }

    function Write(home: Home, w: Word): PhysicalState {
      match home
      case RegisterHome(r) => this.(regs := regs[r := w])
      case FrameHome(offset) => this.(frame := frame[offset := w])
    }

    function OperandHeld(layout: FrameLayout, o: Operand): Word {
      match o
      case ImmInt(n) => n
      case Label(_) => 0
      case _ =>
        var home := layout.HomeOf(OperandToVreg(o).value);
        if home.Some? then Held(home.value) else 0
    }

    function OperandsHeld(layout: FrameLayout, os: seq<Operand>): (r: seq<Word>)
      ensures |r| == |os| && forall i: nat :: i < |os| ==> r[i] == OperandHeld(layout, os[i])
    {
      seq(|os|, i requires 0 <= i < |os| => OperandHeld(layout, os[i]))
    }

    /** After a call every register but the preserved ones holds something else. */
    function Clobbered(h: Host, file: RegisterFile, trace: seq<Event>): PhysicalState {
      this.(regs := map r | r in regs.Keys :: if r in file.calleeSaved then regs[r] else h.garbage(trace, r))
    }
  }

  function PhysicalDo(h: Host, file: RegisterFile, layout: FrameLayout, instr: Instr, s: PhysicalState): PhysicalState {
    if instr.opcode.Param? then s.(params := s.params + Read(instr))
    else
      var args := s.OperandsHeld(layout, if instr.opcode.Call? then s.params else Read(instr));
      var (w, trace) := Outcome(h, instr, args, s.trace);
      var s1 := s.(params := if instr.opcode.Call? then [] else s.params, trace := trace);
      var s2 := if instr.opcode.Call? then s1.Clobbered(h, file, trace) else s1;
      if Def(instr).Some? && layout.HomeOf(Def(instr).value).Some?
      then s2.Write(layout.HomeOf(Def(instr).value).value, w) else s2
  }

  // ---- control ----

  /** Where control goes after an instruction, given the value it tested: on, to a label, or out. */
  datatype Step = On | To(target: LabelId) | Out(value: Option<Word>)

  function StepOf(instr: Instr, args: seq<Word>): Step {
    match instr.opcode
    case Jump => if instr.arg1.Some? && instr.arg1.value.Label? then To(instr.arg1.value.target) else On
    case BranchIf =>
      if |args| > 0 && args[0] != 0 && instr.arg2.Some? && instr.arg2.value.Label? then To(instr.arg2.value.target)
      else On
    case BranchIfNot =>
      if |args| > 0 && args[0] == 0 && instr.arg2.Some? && instr.arg2.value.Label? then To(instr.arg2.value.target)
      else On
    case Ret => Out(if |args| > 0 then Some(args[0]) else None)
    case _ => On
  }

  function GoOn(p: Point, step: Step): Point {
    if step.To? then Point(step.target, 0) else Point(p.name, p.row + 1)
  }

  datatype Run<S> = At(p: Point, s: S) | Done(value: Option<Word>, trace: seq<Event>) | Stuck

  function VirtualNext(h: Host, cfg: Cfg, r: Run<VirtualState>): Run<VirtualState> {
    match r
    case At(p, s) =>
      if p.row < |cfg.Body(p.name)| then
        var instr := cfg.Body(p.name)[p.row];
        var step := StepOf(instr, ReadValues(s.vals, Read(instr)));
        if step.Out? then Done(step.value, s.trace) else At(GoOn(p, step), VirtualDo(h, instr, s))
      else Stuck
    case _ => r
  }

  function PhysicalNext(h: Host, cfg: Cfg, file: RegisterFile, layout: FrameLayout,
                        r: Run<PhysicalState>): Run<PhysicalState> {
    match r
    case At(p, s) =>
      if p.row < |cfg.Body(p.name)| then
        var instr := cfg.Body(p.name)[p.row];
        var step := StepOf(instr, s.OperandsHeld(layout, Read(instr)));
        if step.Out? then Done(step.value, s.trace) else At(GoOn(p, step), PhysicalDo(h, file, layout, instr, s))
      else Stuck
    case _ => r
  }

  function VirtualRun(h: Host, cfg: Cfg, start: VirtualState, n: nat): Run<VirtualState>
    decreases n
  {
    if n == 0 then At(Point(cfg.entry, 0), start) else VirtualNext(h, cfg, VirtualRun(h, cfg, start, n - 1))
  }

  function PhysicalRun(h: Host, cfg: Cfg, file: RegisterFile, layout: FrameLayout, start: PhysicalState,
                       n: nat): Run<PhysicalState>
    decreases n
  {
    if n == 0 then At(Point(cfg.entry, 0), start)
    else PhysicalNext(h, cfg, file, layout, PhysicalRun(h, cfg, file, layout, start, n - 1))
  }

  // ---- the code and its allocation ----

  /** A block's transfers end it: what follows one defines nothing, and what it names is a successor. */
  ghost predicate TransfersLast(cfg: Cfg) {
    forall name: LabelId, row: nat, args: seq<Word> ::
      row < |cfg.Body(name)| && StepOf(cfg.Body(name)[row], args).To? ==>
      StepOf(cfg.Body(name)[row], args).target in cfg.Successors(name) && NoDefsFrom(cfg, name, row)
  }

  ghost predicate NoDefsFrom(cfg: Cfg, name: LabelId, row: nat) {
    forall k: nat :: row <= k < |cfg.Body(name)| ==> Def(cfg.Body(name)[k]).None?
  }

  /** The arguments of a call sit directly before it. */
  ghost predicate ParamsBeforeCalls(cfg: Cfg) {
    forall name: LabelId, row: nat :: row < |cfg.Body(name)| && cfg.Body(name)[row].opcode.Param? ==>
      ArgumentNext(cfg, name, row + 1)
  }

  ghost predicate ArgumentNext(cfg: Cfg, name: LabelId, row: nat) {
    row < |cfg.Body(name)| && (cfg.Body(name)[row].opcode.Param? || cfg.Body(name)[row].opcode.Call?)
  }

  /** A function with its intervals, calls, safe allocation and frame; no variable is pinned to the frame. */
  datatype Compiled = Compiled(cfg: Cfg, linear: Linearized, full: nat, file: RegisterFile,
                               intervals: seq<LiveInterval>,
                               calls: seq<CallSite>, layout: FrameLayout)
  {
    ghost predicate Valid() {
      && IsLinear(cfg, linear, full) && TransfersLast(cfg) && ParamsBeforeCalls(cfg)
      && DistinctVregs(intervals) && CoversLiveness(cfg, linear, intervals)
      && (forall c: CallSite :: c in calls <==> CallAt(linear, c))
      && IsSafe(file, intervals, calls, layout.allocation)
      && layout.params.wordSize > 0 && layout.addrTaken == map[]
    }
  }

  ghost predicate NeededAt(cfg: Cfg, p: Point, v: VirtualReg) {
    DefinedAt(cfg, p, v) || Live(cfg, v, p)
  }

  ghost predicate HasBlock(c: Compiled, name: LabelId, k: nat) {
    k < |c.linear.blocks| && c.linear.blocks[k].name == name
  }

  ghost function IndexOf(c: Compiled, p: Point): nat {
    if exists k: nat :: HasBlock(c, p.name, k) then
      var k: nat :| HasBlock(c, p.name, k); c.linear.blocks[k].start + p.row
    else 0
  }

  lemma IndexIs(c: Compiled, name: LabelId, k: nat)
    requires Distinct(Labels(c.linear.blocks)) && HasBlock(c, name, k)
    ensures forall row: nat :: IndexOf(c, Point(name, row)) == c.linear.blocks[k].start + row
  {
    forall l: nat | HasBlock(c, name, l) ensures l == k {
      assert Labels(c.linear.blocks)[l] == Labels(c.linear.blocks)[k];
    }
  }

  lemma BlockOf(c: Compiled, name: LabelId) returns (k: nat)
    requires c.Valid() && c.cfg.Body(name) != []
    ensures HasBlock(c, name, k) && c.linear.blocks[k].end - c.linear.blocks[k].start == |c.cfg.Body(name)|
    ensures Distinct(Labels(c.linear.blocks))
  {
    assert name in Labels(c.linear.blocks);
    k :| k < |Labels(c.linear.blocks)| && Labels(c.linear.blocks)[k] == name;
    HoldsAt(c.cfg, c.linear, c.full, k);
  }

  lemma InstrAt(c: Compiled, p: Point) returns (k: nat, i: nat)
    requires c.Valid() && p.row < |c.cfg.Body(p.name)|
    ensures HasBlock(c, p.name, k) && k < |c.linear.blocks|
    ensures i == c.linear.blocks[k].start + p.row < c.linear.blocks[k].end
    ensures i == IndexOf(c, p) && i < |c.linear.instructions| && c.linear.instructions[i] == c.cfg.Body(p.name)[p.row]
  {
    k := BlockOf(c, p.name);
    i := c.linear.blocks[k].start + p.row;
    HoldsAt(c.cfg, c.linear, c.full, k);
    HoldsInstr(c.cfg, c.linear.instructions, c.linear.blocks[k], i);
    IndexIs(c, p.name, k);
    hide Compiled.Valid, IndexOf;
  }

  /** The interval of a value needed at a point holds the point's index. */
  lemma IntervalOf(c: Compiled, p: Point, v: VirtualReg) returns (n: nat, i: nat)
    requires c.Valid() && p.row < |c.cfg.Body(p.name)| && NeededAt(c.cfg, p, v)
    ensures n < |c.intervals| && c.intervals[n].vreg == v && c.intervals[n].start <= i <= c.intervals[n].end
    ensures i == IndexOf(c, p) && i < |c.linear.instructions| && c.linear.instructions[i] == c.cfg.Body(p.name)[p.row]
  {
    hide *;
    var k;
    k, i := InstrAt(c, p);
    NeededThere(c, p, v, k, i);
    n := CoveringInterval(c, k, i, v);
  }

  lemma NeededThere(c: Compiled, p: Point, v: VirtualReg, k: nat, i: nat)
    requires NeededAt(c.cfg, p, v) && HasBlock(c, p.name, k)
    requires i == c.linear.blocks[k].start + p.row < c.linear.blocks[k].end
    ensures Needed(c.cfg, c.linear.blocks[k], i, v)
  {
    assert Point(c.linear.blocks[k].name, i - c.linear.blocks[k].start) == p;
    hide Live, DefinedAt;
  }

  lemma CoveringInterval(c: Compiled, k: nat, i: nat, v: VirtualReg) returns (n: nat)
    requires c.Valid() && k < |c.linear.blocks| && Needed(c.cfg, c.linear.blocks[k], i, v)
    ensures n < |c.intervals| && c.intervals[n].vreg == v && c.intervals[n].start <= i <= c.intervals[n].end
  {
    assert CoversLiveness(c.cfg, c.linear, c.intervals);
    hide Compiled.Valid, Needed;
    n :| n < |c.intervals| && c.intervals[n].vreg == v && c.intervals[n].start <= i <= c.intervals[n].end;
  }

  /** Values needed at the same point live in different homes. */
  lemma HomesDiffer(c: Compiled, p: Point, u: VirtualReg, v: VirtualReg)
    requires c.Valid() && p.row < |c.cfg.Body(p.name)| && NeededAt(c.cfg, p, u) && NeededAt(c.cfg, p, v) && u != v
    ensures c.layout.HomeOf(u).Some? && c.layout.HomeOf(v).Some? && c.layout.HomeOf(u) != c.layout.HomeOf(v)
  {
    var a, i := IntervalOf(c, p, u);
    var b, j := IntervalOf(c, p, v);
    IntervalHomes(c, a, b, i);
  }

  lemma IntervalHomes(c: Compiled, a: nat, b: nat, i: nat)
    requires c.Valid() && a < |c.intervals| && b < |c.intervals| && a != b
    requires c.intervals[a].start <= i <= c.intervals[a].end && c.intervals[b].start <= i <= c.intervals[b].end
    ensures c.layout.HomeOf(c.intervals[a].vreg).Some? && c.layout.HomeOf(c.intervals[b].vreg).Some?
    ensures c.layout.HomeOf(c.intervals[a].vreg) != c.layout.HomeOf(c.intervals[b].vreg)
  {
    var asg := c.layout.allocation.assignments;
    assert c.intervals[a].vreg in asg && c.intervals[b].vreg in asg;
    var x, y := LinearScan.HomeOf(asg, c.intervals, a), LinearScan.HomeOf(asg, c.intervals, b);
    OrderedHomes(c, if a < b then a else b, if a < b then b else a, i);
    if x.Spill? && y.Spill? {
      OffsetsDistinct(c.layout, x.slot, y.slot);
    }
  }

  lemma OrderedHomes(c: Compiled, a: nat, b: nat, i: nat)
    requires c.Valid() && a < b < |c.intervals|
    requires c.intervals[a].start <= i <= c.intervals[a].end && c.intervals[b].start <= i <= c.intervals[b].end
    ensures LinearScan.HomeOf(c.layout.allocation.assignments, c.intervals, a)
            != LinearScan.HomeOf(c.layout.allocation.assignments, c.intervals, b)
  {
    hide LinearScan.HomeOf, KeysAre, SurvivesCalls, UsesRegister, UsesSlot;
  }

  /** A value live after a call that does not produce it is out of the callee's reach. */
  lemma HomeSurvives(c: Compiled, p: Point, v: VirtualReg)
    requires c.Valid() && p.row < |c.cfg.Body(p.name)| && c.cfg.Body(p.name)[p.row].opcode.Call?
    requires Live(c.cfg, v, p) && Def(c.cfg.Body(p.name)[p.row]) != Some(v)
    ensures c.layout.HomeOf(v).Some?
    ensures c.layout.HomeOf(v).value.RegisterHome? ==> c.layout.HomeOf(v).value.register in c.file.calleeSaved
  {
    var n, i := IntervalOf(c, p, v);
    var call := CallSite(i, Def(c.linear.instructions[i]));
    assert CallAt(c.linear, call);
    assert call in c.calls && c.intervals[n].CrossesCall(call);
    assert CrossesAny(c.intervals[n], c.calls);
    assert c.intervals[n].vreg in c.layout.allocation.assignments;
    assert LinearScan.HomeOf(c.layout.allocation.assignments, c.intervals, n) == c.layout.allocation.assignments[v];
  }

  // ---- every step ----

  /** The events are the same, the arguments passed so far are still in their homes, and the home of every
      live value holds it. */
  ghost predicate Agrees(c: Compiled, p: Point, s: VirtualState, t: PhysicalState) {
    && t.trace == s.trace
    && t.OperandsHeld(c.layout, t.params) == s.params
    && (t.params != [] ==> ArgumentNext(c.cfg, p.name, p.row))
    && forall v: VirtualReg :: Live(c.cfg, v, p) ==> HomeHolds(c, s, t, v)
  }

  ghost predicate HomeHolds(c: Compiled, s: VirtualState, t: PhysicalState, v: VirtualReg) {
    c.layout.HomeOf(v).Some? && t.Held(c.layout.HomeOf(v).value) == ValueOf(s.vals, v)
  }

  lemma ReadIsUse(instr: Instr, o: Operand)
    requires o in Read(instr)
    ensures OperandToVreg(o).Some? ==> OperandToVreg(o).value in Uses(instr)
  {
  }

  /** What an instruction reads is in its homes. */
  lemma ReadsAgree(c: Compiled, p: Point, s: VirtualState, t: PhysicalState)
    requires Agrees(c, p, s, t) && p.row < |c.cfg.Body(p.name)|
    ensures t.OperandsHeld(c.layout, Read(c.cfg.Body(p.name)[p.row])) ==
              ReadValues(s.vals, Read(c.cfg.Body(p.name)[p.row]))
  {
    var instr := c.cfg.Body(p.name)[p.row];
    var os := Read(instr);
    forall i: nat | i < |os| ensures t.OperandHeld(c.layout, os[i]) == OperandValue(s.vals, os[i]) {
      ReadIsUse(instr, os[i]);
      if OperandToVreg(os[i]).Some? {
        var v := OperandToVreg(os[i]).value;
        LiveAtRow(c.cfg, v, p);
        assert HomeHolds(c, s, t, v);
      }
    }
    hide Read, Live;
  }

  /** A value live after an instruction that does not define it was live before it. */
  lemma LiveAcross(cfg: Cfg, p: Point, v: VirtualReg)
    requires p.row < |cfg.Body(p.name)| && Live(cfg, v, Point(p.name, p.row + 1)) &&
             Def(cfg.Body(p.name)[p.row]) != Some(v)
    ensures Live(cfg, v, p)
  {
    LiveAtRow(cfg, v, p);
  }

  /** Writing the defined value to its home leaves the homes of the other live values alone. */
  lemma WriteKeeps(c: Compiled, p: Point, s: VirtualState, t: PhysicalState, w: Word, v: VirtualReg)
    requires c.Valid() && p.row < |c.cfg.Body(p.name)| && Live(c.cfg, v, Point(p.name, p.row + 1))
    requires Def(c.cfg.Body(p.name)[p.row]) != Some(v) ==> HomeHolds(c, s, t, v)
    ensures var d := Def(c.cfg.Body(p.name)[p.row]);
            && (d.Some? ==> c.layout.HomeOf(d.value).Some?)
            && HomeHolds(c, s.(vals := if d.Some? then s.vals[d.value := w] else s.vals),
                         if d.Some? then t.Write(c.layout.HomeOf(d.value).value, w) else t, v)
  {
    hide Compiled.Valid, Live, DefinedAt, FrameLayout.HomeOf, Def, NeededAt, PhysicalState.Held, PhysicalState.Write;
    var d := Def(c.cfg.Body(p.name)[p.row]);
    if d.Some? {
      DefIsNeeded(c.cfg, p);
      DefHasHome(c, p, d.value);
      if d.value != v {
        LiveAcross(c.cfg, p, v);
        LiveIsNeeded(c.cfg, p, v);
        HomesDiffer(c, p, d.value, v);
        WriteSpares(t, c.layout.HomeOf(d.value).value, w, c.layout.HomeOf(v).value);
      } else {
        WriteHolds(t, c.layout.HomeOf(v).value, w);
      }
    }
  }

  lemma DefIsNeeded(cfg: Cfg, p: Point)
    requires p.row < |cfg.Body(p.name)| && Def(cfg.Body(p.name)[p.row]).Some?
    ensures NeededAt(cfg, p, Def(cfg.Body(p.name)[p.row]).value)
  {
  }

  lemma LiveIsNeeded(cfg: Cfg, p: Point, v: VirtualReg)
    requires Live(cfg, v, p)
    ensures NeededAt(cfg, p, v)
  {
    hide Live;
  }

  lemma WriteSpares(t: PhysicalState, d: Home, w: Word, home: Home)
    requires d != home
    ensures t.Write(d, w).Held(home) == t.Held(home)
  {
  }

  lemma WriteHolds(t: PhysicalState, d: Home, w: Word)
    ensures t.Write(d, w).Held(d) == w
  {
  }

  lemma DefHasHome(c: Compiled, p: Point, v: VirtualReg)
    requires c.Valid() && p.row < |c.cfg.Body(p.name)| && NeededAt(c.cfg, p, v)
    ensures c.layout.HomeOf(v).Some?
  {
    var n, i := IntervalOf(c, p, v);
    assert c.intervals[n].vreg in c.layout.allocation.assignments;
    hide NeededAt, IndexOf;
  }

  /** Passing an argument: nothing moves, and a call or another argument follows. */
  lemma ParamAgrees(h: Host, c: Compiled, p: Point, s: VirtualState, t: PhysicalState)
    requires c.Valid() && Agrees(c, p, s, t) && p.row < |c.cfg.Body(p.name)| && c.cfg.Body(p.name)[p.row].opcode.Param?
    ensures Agrees(c, Point(p.name, p.row + 1), VirtualDo(h, c.cfg.Body(p.name)[p.row], s),
                   PhysicalDo(h, c.file, c.layout, c.cfg.Body(p.name)[p.row], t))
  {
    hide *;
    var instr := c.cfg.Body(p.name)[p.row];
    ReadsAgree(c, p, s, t);
    ArgumentFollows(c, p);
    ParamLive(c, p, s, t);
    ParamHeld(h, c, p, instr, s, t);
  }

  lemma ParamLive(c: Compiled, p: Point, s: VirtualState, t: PhysicalState)
    requires Agrees(c, p, s, t) && p.row < |c.cfg.Body(p.name)| && c.cfg.Body(p.name)[p.row].opcode.Param?
    ensures forall v: VirtualReg :: Live(c.cfg, v, Point(p.name, p.row + 1)) ==> HomeHolds(c, s, t, v)
  {
    assert Def(c.cfg.Body(p.name)[p.row]).None?;
    hide Live, HomeHolds;
    forall v: VirtualReg | Live(c.cfg, v, Point(p.name, p.row + 1)) ensures HomeHolds(c, s, t, v) {
      LiveAcross(c.cfg, p, v);
    }
  }

  lemma ParamHeld(h: Host, c: Compiled, p: Point, instr: Instr, s: VirtualState, t: PhysicalState)
    requires instr.opcode.Param? && Agrees(c, p, s, t) && ArgumentNext(c.cfg, p.name, p.row + 1)
    requires t.OperandsHeld(c.layout, Read(instr)) == ReadValues(s.vals, Read(instr))
    requires forall v: VirtualReg :: Live(c.cfg, v, Point(p.name, p.row + 1)) ==> HomeHolds(c, s, t, v)
    ensures Agrees(c, Point(p.name, p.row + 1), VirtualDo(h, instr, s), PhysicalDo(h, c.file, c.layout, instr, t))
  {
    var t' := t.(params := t.params + Read(instr));
    var s' := s.(params := s.params + ReadValues(s.vals, Read(instr)));
    HeldAppend(c.layout, t, t.params, Read(instr));
    HeldFrame(c.layout, t, t', t.params + Read(instr));
    hide Live, HomeHolds, ArgumentNext, Read, PhysicalState.OperandsHeld, ReadValues;
    forall v: VirtualReg | Live(c.cfg, v, Point(p.name, p.row + 1)) ensures HomeHolds(c, s', t', v) {
      SameHold(c, s, s', t, t', v);
    }
  }

  lemma ArgumentFollows(c: Compiled, p: Point)
    requires c.Valid() && p.row < |c.cfg.Body(p.name)| && c.cfg.Body(p.name)[p.row].opcode.Param?
    ensures ArgumentNext(c.cfg, p.name, p.row + 1)
  {
    assert ParamsBeforeCalls(c.cfg);
    hide Compiled.Valid;
  }

  lemma SameHold(c: Compiled, s: VirtualState, s': VirtualState, t: PhysicalState, t': PhysicalState, v: VirtualReg)
    requires HomeHolds(c, s, t, v) && s'.vals == s.vals && t'.regs == t.regs && t'.frame == t.frame
    ensures HomeHolds(c, s', t', v)
  {
  }

  lemma HeldAppend(layout: FrameLayout, t: PhysicalState, a: seq<Operand>, b: seq<Operand>)
    ensures t.OperandsHeld(layout, a + b) == t.OperandsHeld(layout, a) + t.OperandsHeld(layout, b)
  {
  }

  lemma HeldFrame(layout: FrameLayout, t: PhysicalState, t': PhysicalState, os: seq<Operand>)
    requires t'.regs == t.regs && t'.frame == t.frame
    ensures t'.OperandsHeld(layout, os) == t.OperandsHeld(layout, os)
  {
    forall i: nat | i < |os| ensures t'.OperandHeld(layout, os[i]) == t.OperandHeld(layout, os[i]) {
    }
  }

  /** A call reads its arguments from their homes; whatever is live after it is out of the callee's reach. */
  lemma CallAgrees(h: Host, c: Compiled, p: Point, s: VirtualState, t: PhysicalState)
    requires c.Valid() && Agrees(c, p, s, t) && p.row < |c.cfg.Body(p.name)| && c.cfg.Body(p.name)[p.row].opcode.Call?
    ensures Agrees(c, Point(p.name, p.row + 1), VirtualDo(h, c.cfg.Body(p.name)[p.row], s),
                   PhysicalDo(h, c.file, c.layout, c.cfg.Body(p.name)[p.row], t))
  {
    var instr := c.cfg.Body(p.name)[p.row];
    var (w, trace) := Outcome(h, instr, s.params, s.trace);
    var t1 := t.(params := [], trace := trace).Clobbered(h, c.file, trace);
    var s1 := s.(params := [], trace := trace);
    hide Live, FrameLayout.HomeOf, Compiled.Valid;
    forall v: VirtualReg | Live(c.cfg, v, Point(p.name, p.row + 1))
      ensures HomeHolds(c, VirtualDo(h, instr, s), PhysicalDo(h, c.file, c.layout, instr, t), v)
    {
      if Def(instr) != Some(v) {
        LiveAcross(c.cfg, p, v);
        HomeSurvives(c, p, v);
        assert HomeHolds(c, s, t, v);
        ClobberKeeps(h, c.file, t.(params := [], trace := trace), trace, c.layout.HomeOf(v).value);
      }
      WriteKeeps(c, p, s1, t1, w, v);
    }
  }

  lemma ClobberKeeps(h: Host, file: RegisterFile, t: PhysicalState, trace: seq<Event>, home: Home)
    requires home.RegisterHome? ==> home.register in file.calleeSaved
    ensures t.Clobbered(h, file, trace).Held(home) == t.Held(home)
  {
  }

  /** Any other instruction: its operands are in their homes, and its result goes to its own. */
  lemma PlainAgrees(h: Host, c: Compiled, p: Point, s: VirtualState, t: PhysicalState)
    requires c.Valid() && Agrees(c, p, s, t) && p.row < |c.cfg.Body(p.name)|
    requires !c.cfg.Body(p.name)[p.row].opcode.Call? && !c.cfg.Body(p.name)[p.row].opcode.Param?
    ensures Agrees(c, Point(p.name, p.row + 1), VirtualDo(h, c.cfg.Body(p.name)[p.row], s),
                   PhysicalDo(h, c.file, c.layout, c.cfg.Body(p.name)[p.row], t))
    ensures s.params == [] && t.params == []
  {
    hide Live, FrameLayout.HomeOf, Compiled.Valid, Read, PhysicalState.Held, ReadValues, HomeHolds, Outcome, Def;
    var instr := c.cfg.Body(p.name)[p.row];
    ReadsAgree(c, p, s, t);
    assert t.params == [];
    hide PhysicalState.OperandsHeld;
    var (w, trace) := Outcome(h, instr, ReadValues(s.vals, Read(instr)), s.trace);
    var t1 := t.(params := [], trace := trace);
    var s1 := s.(params := [], trace := trace);
    forall v: VirtualReg | Live(c.cfg, v, Point(p.name, p.row + 1))
      ensures HomeHolds(c, VirtualDo(h, instr, s), PhysicalDo(h, c.file, c.layout, instr, t), v)
    {
      if Def(instr) != Some(v) {
        LiveAcross(c.cfg, p, v);
        assert HomeHolds(c, s, t, v);
        SameHold(c, s, s1, t, t1, v);
      }
      WriteKeeps(c, p, s1, t1, w, v);
    }
  }

  lemma InstrAgrees(h: Host, c: Compiled, p: Point, s: VirtualState, t: PhysicalState)
    requires c.Valid() && Agrees(c, p, s, t) && p.row < |c.cfg.Body(p.name)|
    ensures Agrees(c, Point(p.name, p.row + 1), VirtualDo(h, c.cfg.Body(p.name)[p.row], s),
                   PhysicalDo(h, c.file, c.layout, c.cfg.Body(p.name)[p.row], t))
  {
    hide Agrees, Compiled.Valid, VirtualDo, PhysicalDo;
    var opcode := c.cfg.Body(p.name)[p.row].opcode;
    if opcode.Param? {
      ParamAgrees(h, c, p, s, t);
    } else if opcode.Call? {
      CallAgrees(h, c, p, s, t);
    } else {
      PlainAgrees(h, c, p, s, t);
    }
  }

  // ---- taking a transfer ----

  lemma {:induction false} LiveBackTo(cfg: Cfg, name: LabelId, row: nat, k: nat, v: VirtualReg)
    requires NoDefsFrom(cfg, name, row) && row <= k <= |cfg.Body(name)| && Live(cfg, v, Point(name, k))
    ensures Live(cfg, v, Point(name, row))
    decreases k
  {
    if row < k {
      var before := k - 1;
      assert Def(cfg.Body(name)[before]).None?;
      LiveAcross(cfg, Point(name, before), v);
      LiveBackTo(cfg, name, row, before, v);
      hide Live, NoDefsFrom;
    }
  }

  lemma TransferDoes(c: Compiled, p: Point, args: seq<Word>)
    requires c.Valid() && p.row < |c.cfg.Body(p.name)| && StepOf(c.cfg.Body(p.name)[p.row], args).To?
    ensures var instr := c.cfg.Body(p.name)[p.row];
            && StepOf(instr, args).target in c.cfg.Successors(p.name) && NoDefsFrom(c.cfg, p.name, p.row)
            && Def(instr).None? && !instr.opcode.Call? && !instr.opcode.Param? && !IsEvent(instr.opcode)
  {
    assert TransfersLast(c.cfg);
    hide Compiled.Valid;
  }

  lemma TransferLive(c: Compiled, p: Point, s: VirtualState, t: PhysicalState, target: LabelId)
    requires target in c.cfg.Successors(p.name) && NoDefsFrom(c.cfg, p.name, p.row) && p.row < |c.cfg.Body(p.name)|
    requires Agrees(c, p, s, t)
    ensures forall v: VirtualReg :: Live(c.cfg, v, Point(target, 0)) ==> HomeHolds(c, s, t, v)
  {
    hide Live, HomeHolds, NoDefsFrom;
    forall v: VirtualReg | Live(c.cfg, v, Point(target, 0)) ensures HomeHolds(c, s, t, v) {
      LiveAtEnd(c.cfg, v, p.name);
      LiveBackTo(c.cfg, p.name, p.row, |c.cfg.Body(p.name)|, v);
    }
  }

  lemma TransferAgrees(h: Host, c: Compiled, p: Point, s: VirtualState, t: PhysicalState, args: seq<Word>)
    requires c.Valid() && p.row < |c.cfg.Body(p.name)| && StepOf(c.cfg.Body(p.name)[p.row], args).To?
    requires Agrees(c, p, s, t)
    ensures var target := StepOf(c.cfg.Body(p.name)[p.row], args).target;
            Agrees(c, Point(target, 0), VirtualDo(h, c.cfg.Body(p.name)[p.row], s),
                   PhysicalDo(h, c.file, c.layout, c.cfg.Body(p.name)[p.row], t))
  {
    var instr := c.cfg.Body(p.name)[p.row];
    var target := StepOf(instr, args).target;
    TransferDoes(c, p, args);
    TransferLive(c, p, s, t, target);
    assert t.params == [];
    hide Compiled.Valid, Live, FrameLayout.HomeOf, Read, ReadValues, HomeHolds, NoDefsFrom, StepOf, Def;
    var s', t' := VirtualDo(h, instr, s), PhysicalDo(h, c.file, c.layout, instr, t);
    assert s' == s && t' == t;
  }

  // ---- every run ----

  ghost predicate RunsAgree(c: Compiled, a: Run<VirtualState>, b: Run<PhysicalState>) {
    match (a, b)
    case (At(p, s), At(q, t)) => p == q && Agrees(c, p, s, t)
    case (Done(v, trace), Done(v', trace')) => v == v' && trace == trace'
    case (Stuck, Stuck) => true
    case _ => false
  }

  lemma NextAgrees(h: Host, c: Compiled, p: Point, s: VirtualState, t: PhysicalState)
    requires c.Valid() && Agrees(c, p, s, t)
    ensures RunsAgree(c, VirtualNext(h, c.cfg, At(p, s)), PhysicalNext(h, c.cfg, c.file, c.layout, At(p, t)))
  {
    hide Agrees, Compiled.Valid, VirtualDo, PhysicalDo, Read, StepOf, PhysicalState.OperandsHeld, ReadValues;
    SameTrace(c, p, s, t);
    if p.row < |c.cfg.Body(p.name)| {
      var instr := c.cfg.Body(p.name)[p.row];
      ReadsAgree(c, p, s, t);
      var args := ReadValues(s.vals, Read(instr));
      if StepOf(instr, args).To? {
        TransferAgrees(h, c, p, s, t, args);
      } else {
        InstrAgrees(h, c, p, s, t);
      }
    }
  }

  lemma SameTrace(c: Compiled, p: Point, s: VirtualState, t: PhysicalState)
    requires Agrees(c, p, s, t)
    ensures t.trace == s.trace
  {
  }

  /** Each value live at the entry starts as what its home holds. */
  ghost predicate StartsAs(c: Compiled, s: VirtualState, t: PhysicalState) {
    && t.trace == s.trace && t.params == [] && s.params == []
    && forall v: VirtualReg :: Live(c.cfg, v, Point(c.cfg.entry, 0)) && c.layout.HomeOf(v).Some? ==>
         t.Held(c.layout.HomeOf(v).value) == ValueOf(s.vals, v)
  }

  lemma StartAgrees(c: Compiled, s: VirtualState, t: PhysicalState)
    requires c.Valid() && StartsAs(c, s, t) && c.cfg.Body(c.cfg.entry) != []
    ensures Agrees(c, Point(c.cfg.entry, 0), s, t)
  {
    var p := Point(c.cfg.entry, 0);
    forall v: VirtualReg | Live(c.cfg, v, p) ensures HomeHolds(c, s, t, v) {
      DefHasHome(c, p, v);
    }
    hide Compiled.Valid, Live, FrameLayout.HomeOf;
  }

  /** Allocation preserves meaning: after every number of steps, run on homes with calls destroying every
      register a callee may use, the code is where it is on virtual registers, with the same events and
      result, and the home of each live value holds it. */
  lemma {:induction false} AllocationKeepsRuns(h: Host, c: Compiled, s: VirtualState, t: PhysicalState, n: nat)
    requires c.Valid() && StartsAs(c, s, t) && c.cfg.Body(c.cfg.entry) != []
    ensures RunsAgree(c, VirtualRun(h, c.cfg, s, n), PhysicalRun(h, c.cfg, c.file, c.layout, t, n))
    decreases n
  {
    hide Compiled.Valid, StartsAs, Agrees, VirtualNext, PhysicalNext;
    if n == 0 {
      StartAgrees(c, s, t);
    } else {
      AllocationKeepsRuns(h, c, s, t, n - 1);
      var a, b := VirtualRun(h, c.cfg, s, n - 1), PhysicalRun(h, c.cfg, c.file, c.layout, t, n - 1);
      if a.At? {
        NextAgrees(h, c, a.p, a.s, b.s);
      } else {
        EndedStays(h, c, a, b);
      }
    }
  }

  lemma EndedStays(h: Host, c: Compiled, a: Run<VirtualState>, b: Run<PhysicalState>)
    requires RunsAgree(c, a, b) && !a.At?
    ensures RunsAgree(c, VirtualNext(h, c.cfg, a), PhysicalNext(h, c.cfg, c.file, c.layout, b))
  {
  }
}
