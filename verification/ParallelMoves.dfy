/** Moving values into registers as if all at once, with one scratch register. */
module ParallelMoves {
  import opened Lists

  type Word = int
  type Register = nat

  /** The register reserved for breaking cycles. */
  const SCRATCH: Register := 10

  /** A register, an immediate, or a slot of the frame. */
  datatype Source = Reg(register: Register) | Imm(constant: int) | Frame(offset: int)

  datatype Mov = Mov(dest: Register, source: Source)

  type Registers = map<Register, Word>
  type FrameMemory = map<int, Word>

  function Get(regs: Registers, r: Register): Word {
    if r in regs then regs[r] else 0
  }

  function Value(regs: Registers, frame: FrameMemory, s: Source): Word {
    match s
    case Reg(r) => Get(regs, r)
    case Imm(c) => c
    case Frame(offset) => if offset in frame then frame[offset] else 0
  }

  /** The registers after the moves, one after another. */
  function Run(movs: seq<Mov>, regs: Registers, frame: FrameMemory): Registers
    decreases |movs|
  {
    if movs == [] then regs
    else
      var before := Run(movs[..|movs| - 1], regs, frame);
      before[movs[|movs| - 1].dest := Value(before, frame, movs[|movs| - 1].source)]
  }

  lemma RunSnoc(movs: seq<Mov>, mov: Mov, regs: Registers, frame: FrameMemory)
    ensures Run(movs + [mov], regs, frame) ==
            Run(movs, regs, frame)[mov.dest := Value(Run(movs, regs, frame), frame, mov.source)]
  {
    assert (movs + [mov])[..|movs|] == movs;
  }

  ghost predicate DistinctDests(moves: seq<Mov>) {
    forall i: nat, j: nat :: i < j < |moves| ==> moves[i].dest != moves[j].dest
  }

  ghost predicate Writes(moves: seq<Mov>, r: Register) {
    exists i: nat :: i < |moves| && moves[i].dest == r
  }

  /** Every destination ends with what its source held at the start, and only destinations and the
      scratch register change. */
  ghost predicate Simultaneous(moves: seq<Mov>, regs: Registers, frame: FrameMemory, after: Registers) {
    && (forall i: nat :: i < |moves| ==> Get(after, moves[i].dest) == Value(regs, frame, moves[i].source))
    && (forall r: Register :: !Writes(moves, r) && r != SCRATCH ==> Get(after, r) == Get(regs, r))
  }

  /** Some pending move still reads `r`. */
  predicate ReadsRegister(pending: seq<Mov>, r: Register) {
    exists i: nat :: i < |pending| && pending[i].source == Reg(r)
  }

  // ---- the invariant ----

  /** Pending moves have distinct destinations, none of them the scratch register or its own source. */
  ghost predicate Proper(pending: seq<Mov>) {
    && DistinctDests(pending)
    && forall i: nat :: i < |pending| ==> pending[i].dest != SCRATCH && pending[i].source != Reg(pending[i].dest)
  }

  /** `now` is `regs` with the moves that are not pending done, and every pending source still worth what
      the destination is to receive. */
  ghost predicate Halfway(moves: seq<Mov>, pending: seq<Mov>, regs: Registers, frame: FrameMemory, now: Registers) {
    && (forall i: nat :: i < |pending| ==> Owed(moves, pending[i], regs, frame, now))
    && (forall i: nat :: i < |moves| && !Writes(pending, moves[i].dest) ==>
          Get(now, moves[i].dest) == Value(regs, frame, moves[i].source))
    && (forall r: Register :: !Writes(moves, r) && r != SCRATCH ==> Get(now, r) == Get(regs, r))
  }

  ghost predicate Owed(moves: seq<Mov>, mov: Mov, regs: Registers, frame: FrameMemory, now: Registers) {
    exists k: nat :: k < |moves| && moves[k].dest == mov.dest &&
                     Value(now, frame, mov.source) == Value(regs, frame, moves[k].source)
  }

  ghost predicate AlwaysHalfway(moves: seq<Mov>, pending: seq<Mov>, out: seq<Mov>) {
    forall regs: Registers, frame: FrameMemory :: Halfway(moves, pending, regs, frame, Run(out, regs, frame))
  }

  lemma WithoutWrites(pending: seq<Mov>, k: nat)
    requires k < |pending| && DistinctDests(pending)
    ensures DistinctDests(Without(pending, k))
    ensures forall r: Register :: Writes(Without(pending, k), r) <==> Writes(pending, r) && r != pending[k].dest
    ensures forall i: nat :: i < |pending| - 1 ==> Without(pending, k)[i] == pending[if i < k then i else i + 1]
  {
    var rest := Without(pending, k);
    forall i: nat | i < |rest| ensures rest[i] == pending[if i < k then i else i + 1] {
    }
    forall r: Register
      ensures Writes(rest, r) <==> Writes(pending, r) && r != pending[k].dest
    {
      if Writes(pending, r) && r != pending[k].dest {
        var i: nat :| i < |pending| && pending[i].dest == r;
        assert rest[if i < k then i else i - 1].dest == r;
      }
      if Writes(rest, r) {
        var i: nat :| i < |rest| && rest[i].dest == r;
        assert pending[if i < k then i else i + 1].dest == r;
      }
    }
  }

  /** Emitting a move whose destination no pending move reads. */
  lemma EmitReady(moves: seq<Mov>, pending: seq<Mov>, k: nat, regs: Registers, frame: FrameMemory, now: Registers)
    requires k < |pending| && Proper(pending) && DistinctDests(moves) && Halfway(moves, pending, regs, frame, now)
    requires !ReadsRegister(pending, pending[k].dest)
    ensures Halfway(moves, Without(pending, k), regs, frame,
                    now[pending[k].dest := Value(now, frame, pending[k].source)])
  {
    var d := pending[k].dest;
    var now' := now[d := Value(now, frame, pending[k].source)];
    var rest := Without(pending, k);
    WithoutWrites(pending, k);
    assert Owed(moves, pending[k], regs, frame, now);
    var own: nat :| own < |moves| && moves[own].dest == d &&
      Value(now, frame, pending[k].source) == Value(regs, frame, moves[own].source);
    forall i: nat | i < |rest| ensures Owed(moves, rest[i], regs, frame, now') {
      var was := if i < k then i else i + 1;
      assert Owed(moves, pending[was], regs, frame, now);
      assert pending[was].source != Reg(d);
      assert Value(now', frame, rest[i].source) == Value(now, frame, pending[was].source);
    }
    forall i: nat | i < |moves| && !Writes(rest, moves[i].dest)
      ensures Get(now', moves[i].dest) == Value(regs, frame, moves[i].source)
    {
      if moves[i].dest == d {
        assert i == own;
      }
    }
    assert Writes(moves, d);
    hide Without, Owed, Value;
  }

  // ---- breaking a cycle ----

  /** `pending` reading the scratch register instead of `stashed`. */
  function Redirected(pending: seq<Mov>, stashed: Register): (r: seq<Mov>)
    ensures |r| == |pending|
    ensures forall i: nat :: i < |pending| ==>
              r[i] == if pending[i].source == Reg(stashed) then pending[i].(source := Reg(SCRATCH)) else pending[i]
  {
    seq(|pending|, i requires 0 <= i < |pending| =>
      if pending[i].source == Reg(stashed) then pending[i].(source := Reg(SCRATCH)) else pending[i])
  }

  function Destinations(pending: seq<Mov>): (r: seq<Source>)
    ensures |r| == |pending| && forall i: nat :: i < |r| ==> r[i] == Reg(pending[i].dest)
  {
    seq(|pending|, i requires 0 <= i < |pending| => Reg(pending[i].dest))
  }

  function SourcesOf(pending: seq<Mov>): (r: seq<Source>)
    ensures |r| == |pending| && forall i: nat :: i < |r| ==> r[i] == pending[i].source
  {
    seq(|pending|, i requires 0 <= i < |pending| => pending[i].source)
  }

  /** When every pending destination is still read, the sources are the destinations in another order:
      the scratch register is not among them. */
  lemma StuckIsPermutation(pending: seq<Mov>)
    requires Proper(pending) && forall i: nat :: i < |pending| ==> ReadsRegister(pending, pending[i].dest)
    ensures Distinct(SourcesOf(pending))
    ensures forall s: Source :: s in SourcesOf(pending) <==> s in Destinations(pending)
    ensures !ReadsRegister(pending, SCRATCH)
  {
    var dests, sources := Destinations(pending), SourcesOf(pending);
    forall s: Source | s in dests ensures s in sources {
      var i: nat :| i < |dests| && dests[i] == s;
      assert ReadsRegister(pending, pending[i].dest);
      var j: nat :| j < |pending| && pending[j].source == Reg(pending[i].dest);
      assert sources[j] == s;
    }
    PigeonholeTight(dests, sources);
    forall j: nat | j < |pending| ensures pending[j].source != Reg(SCRATCH) {
      assert sources[j] in sources;
      var i: nat :| i < |dests| && dests[i] == sources[j];
    }
  }

  lemma Stash(moves: seq<Mov>, pending: seq<Mov>, stashed: Register, regs: Registers, frame: FrameMemory,
              now: Registers)
    requires Proper(pending) && Halfway(moves, pending, regs, frame, now) && !ReadsRegister(pending, SCRATCH)
    requires stashed != SCRATCH && forall i: nat :: i < |moves| ==> moves[i].dest != SCRATCH
    ensures Halfway(moves, Redirected(pending, stashed), regs, frame, now[SCRATCH := Get(now, stashed)])
  {
    var now' := now[SCRATCH := Get(now, stashed)];
    var pending' := Redirected(pending, stashed);
    forall i: nat | i < |pending'| ensures Owed(moves, pending'[i], regs, frame, now') {
      assert Owed(moves, pending[i], regs, frame, now);
      assert pending[i].source != Reg(SCRATCH);
      assert Value(now', frame, pending'[i].source) == Value(now, frame, pending[i].source);
    }
    SameDests(pending, stashed);
    hide Redirected, Owed, Value;
  }

  lemma SameDests(pending: seq<Mov>, stashed: Register)
    ensures forall r: Register :: Writes(Redirected(pending, stashed), r) <==> Writes(pending, r)
  {
    var pending' := Redirected(pending, stashed);
    forall r: Register ensures Writes(pending', r) <==> Writes(pending, r) {
      if Writes(pending, r) {
        var i: nat :| i < |pending| && pending[i].dest == r;
        assert pending'[i].dest == r;
      }
      if Writes(pending', r) {
        var i: nat :| i < |pending'| && pending'[i].dest == r;
        assert pending[i].dest == r;
      }
    }
  }

  /** Afterwards the stashed register is read by nothing pending. */
  lemma StashedIsReady(pending: seq<Mov>, stashed: Register)
    requires Proper(pending) && stashed != SCRATCH
    ensures Proper(Redirected(pending, stashed)) && !ReadsRegister(Redirected(pending, stashed), stashed)
  {
    var pending' := Redirected(pending, stashed);
    assert forall i: nat :: i < |pending| ==> pending'[i].dest == pending[i].dest;
  }

  // ---- dropping overwritten moves ----

  /** The moves whose destination is not written again later. */
  function LastWrites(moves: seq<Mov>): seq<Mov>
    decreases |moves|
  {
    if moves == [] then []
    else if exists j: nat :: 0 < j < |moves| && moves[j].dest == moves[0].dest then LastWrites(moves[1..])
    else [moves[0]] + LastWrites(moves[1..])
  }

  /** `moves[k]` is the last write to its destination. */
  ghost predicate IsLast(moves: seq<Mov>, k: nat) {
    k < |moves| && forall j: nat :: k < j < |moves| ==> moves[j].dest != moves[k].dest
  }

  /** Exactly the last write to each register survives, once, ... */
  lemma {:induction false} LastWritesAre(moves: seq<Mov>)
    ensures DistinctDests(LastWrites(moves))
    ensures forall m: Mov :: m in LastWrites(moves) <==> exists k: nat :: IsLast(moves, k) && moves[k] == m
    decreases |moves|
  {
    if moves != [] {
      var rest := moves[1..];
      LastWritesAre(rest);
      LastOfTail(moves);
      forall m: Mov
        ensures m in LastWrites(moves) <==> exists k: nat :: IsLast(moves, k) && moves[k] == m
      {
        if k: nat :| IsLast(moves, k) && moves[k] == m {
          if k > 0 {
            assert IsLast(rest, k - 1) && rest[k - 1] == m;
          }
        }
        if m in LastWrites(rest) {
          var k: nat :| IsLast(rest, k) && rest[k] == m;
          assert IsLast(moves, k + 1) && moves[k + 1] == m;
        }
      }
      if IsLast(moves, 0) {
        var kept := LastWrites(rest);
        forall i: nat | i < |kept| ensures kept[i].dest != moves[0].dest {
          assert kept[i] in kept;
          var k: nat :| IsLast(rest, k) && rest[k] == kept[i];
          assert moves[k + 1] == kept[i];
        }
      }
    }
  }

  lemma LastOfTail(moves: seq<Mov>)
    requires moves != []
    ensures forall k: nat :: IsLast(moves[1..], k) <==> IsLast(moves, k + 1)
    ensures LastWrites(moves) == if IsLast(moves, 0) then [moves[0]] + LastWrites(moves[1..])
                                 else LastWrites(moves[1..])
  {
    var rest := moves[1..];
    forall k: nat ensures IsLast(rest, k) <==> IsLast(moves, k + 1) {
      if IsLast(rest, k) {
        forall j: nat | k + 1 < j < |moves| ensures moves[j].dest != moves[k + 1].dest {
          assert rest[j - 1] == moves[j];
        }
      }
      if IsLast(moves, k + 1) {
        forall j: nat | k < j < |rest| ensures rest[j].dest != rest[k].dest {
          assert moves[j + 1] == rest[j];
        }
      }
    }
  }

  lemma EveryDestHasLast(moves: seq<Mov>, r: Register) returns (k: nat)
    requires Writes(moves, r)
    ensures IsLast(moves, k) && moves[k].dest == r
    decreases |moves|
  {
    var n := |moves| - 1;
    if moves[n].dest == r {
      k := n;
    } else {
      assert Writes(moves[..n], r) by {
        var i: nat :| i < |moves| && moves[i].dest == r;
        assert moves[..n][i].dest == r;
      }
      k := EveryDestHasLast(moves[..n], r);
      assert forall j: nat :: j < n ==> moves[..n][j] == moves[j];
    }
  }

  /** Of the writes to one register the last stays where it was; the order of what stays is kept. */
  method KeepLastWritePerRegister(moves: seq<Mov>) returns (kept: seq<Mov>)
    ensures kept == LastWrites(moves)
  {
    var written: set<Register> := {};
    var survives: seq<bool> := [];
    var i := |moves|;
    while i > 0
      invariant 0 <= i <= |moves| && |survives| == |moves| - i
      invariant forall r: Register :: r in written <==> Writes(moves[i..], r)
      invariant forall k: nat :: k < |survives| ==> (survives[k] <==> IsLast(moves, i + k))
    {
      i := i - 1;
      WritesCons(moves, i);
      var unwritten := moves[i].dest !in written;
      NewIsLast(moves, i);
      written := written + {moves[i].dest};
      survives := [unwritten] + survives;
    }
    kept := [];
    assert moves[|moves|..] == [];
    var k := |moves|;
    while k > 0
      invariant 0 <= k <= |moves|
      invariant kept == LastWrites(moves[k..])
    {
      k := k - 1;
      assert moves[k..][1..] == moves[k + 1..];
      LastOfTail(moves[k..]);
      LastOfSuffix(moves, k);
      if survives[k] {
        kept := [moves[k]] + kept;
      }
    }
    assert moves[0..] == moves;
  }

  lemma WritesCons(moves: seq<Mov>, i: nat)
    requires i < |moves|
    ensures forall r: Register :: Writes(moves[i..], r) <==> Writes(moves[i + 1..], r) || moves[i].dest == r
  {
    forall r: Register ensures Writes(moves[i..], r) <==> Writes(moves[i + 1..], r) || moves[i].dest == r {
      if Writes(moves[i + 1..], r) {
        var k: nat :| k < |moves| - i - 1 && moves[i + 1..][k].dest == r;
        assert moves[i..][k + 1].dest == r;
      }
      if moves[i].dest == r {
        assert moves[i..][0].dest == r;
      }
      if Writes(moves[i..], r) && moves[i].dest != r {
        var k: nat :| k < |moves| - i && moves[i..][k].dest == r;
        assert moves[i + 1..][k - 1].dest == r;
      }
    }
  }

  lemma NewIsLast(moves: seq<Mov>, i: nat)
    requires i < |moves|
    ensures Writes(moves[i + 1..], moves[i].dest) <==> !IsLast(moves, i)
  {
    if !IsLast(moves, i) {
      var j: nat :| i < j < |moves| && moves[j].dest == moves[i].dest;
      assert moves[i + 1..][j - i - 1].dest == moves[i].dest;
    }
    if Writes(moves[i + 1..], moves[i].dest) {
      var k: nat :| k < |moves| - i - 1 && moves[i + 1..][k].dest == moves[i].dest;
      assert moves[i + 1 + k].dest == moves[i].dest;
    }
  }

  lemma LastOfSuffix(moves: seq<Mov>, k: nat)
    requires k < |moves|
    ensures IsLast(moves[k..], 0) <==> IsLast(moves, k)
  {
    var rest := moves[k..];
    if IsLast(rest, 0) {
      forall j: nat | k < j < |moves| ensures moves[j].dest != moves[k].dest {
        assert rest[j - k] == moves[j];
      }
    }
    if IsLast(moves, k) {
      forall j: nat | 0 < j < |rest| ensures rest[j].dest != rest[0].dest {
        assert rest[j] == moves[k + j];
      }
    }
  }

  // ---- emitting ----

  /** An emitted instruction: a move into a register, or a store from one to the frame. */
  datatype Step = Into(mov: Mov) | Out(offset: int, from: Register)

  datatype Machine = Machine(regs: Registers, frame: FrameMemory)

  function Do(step: Step, at: Machine): Machine {
    match step
    case Into(mov) => at.(regs := at.regs[mov.dest := Value(at.regs, at.frame, mov.source)])
    case Out(offset, from) => at.(frame := at.frame[offset := Get(at.regs, from)])
  }

  function RunSteps(steps: seq<Step>, at: Machine): Machine
    decreases |steps|
  {
    if steps == [] then at else Do(steps[|steps| - 1], RunSteps(steps[..|steps| - 1], at))
  }

  function Steps(movs: seq<Mov>): (r: seq<Step>)
    ensures |r| == |movs| && forall i: nat :: i < |movs| ==> r[i] == Into(movs[i])
  {
    seq(|movs|, i requires 0 <= i < |movs| => Into(movs[i]))
  }

  lemma {:induction false} MovesOnlyRegisters(movs: seq<Mov>, at: Machine)
    ensures RunSteps(Steps(movs), at) == at.(regs := Run(movs, at.regs, at.frame))
    decreases |movs|
  {
    if movs != [] {
      var n := |movs| - 1;
      assert Steps(movs)[..n] == Steps(movs[..n]);
      MovesOnlyRegisters(movs[..n], at);
    }
  }

  lemma {:induction false} StepsInTurn(a: seq<Step>, b: seq<Step>, at: Machine)
    ensures RunSteps(a + b, at) == RunSteps(b, RunSteps(a, at))
    decreases |b|
  {
    if b == [] {
      assert a + b == a;
    } else {
      var n := |b| - 1;
      assert (a + b)[..|a + b| - 1] == a + b[..n];
      StepsInTurn(a, b[..n], at);
    }
  }

  lemma StepSnoc(steps: seq<Step>, step: Step, at: Machine)
    ensures RunSteps(steps + [step], at) == Do(step, RunSteps(steps, at))
  {
    assert (steps + [step])[..|steps|] == steps;
  }

  lemma OutGrows(before: seq<Step>, out: seq<Step>, movs: seq<Mov>, mov: Mov)
    requires out == before + Steps(movs)
    ensures out + [Into(mov)] == before + Steps(movs + [mov])
  {
    assert Steps(movs + [mov]) == Steps(movs) + [Into(mov)];
  }

  class Emission {
    var out: seq<Step>

    constructor ()
      ensures out == []
    {
      out := [];
    }

    /** After the emitted moves each destination holds what its source held before the first of them. */
    method EmitParallelMoves(moves: seq<Mov>) returns (ghost emitted: seq<Mov>)
      requires DistinctDests(moves) && forall i: nat :: i < |moves| ==> moves[i].dest != SCRATCH
      modifies this
      ensures out == old(out) + Steps(emitted)
      ensures forall regs: Registers, frame: FrameMemory :: Simultaneous(moves, regs, frame, Run(emitted, regs, frame))
    {
      var pending := DropSelfMoves(moves);
      emitted := [];
      while |pending| > 0
        invariant out == old(out) + Steps(emitted)
        invariant Proper(pending) && AlwaysHalfway(moves, pending, emitted)
        decreases |pending|
      {
        hide AlwaysHalfway, Proper, ReadsRegister, Without, Steps, Simultaneous, Run, DistinctDests, Redirected;
        var index := FindReady(pending);
        if index == |pending| {
          index := 0;
          var stashed := pending[0].dest;
          StashAlways(moves, pending, emitted);
          OutGrows(old(out), out, emitted, Mov(SCRATCH, Reg(stashed)));
          out := out + [Into(Mov(SCRATCH, Reg(stashed)))];
          emitted := emitted + [Mov(SCRATCH, Reg(stashed))];
          pending := Redirect(pending, stashed);
        }
        EmitAlways(moves, pending, index, emitted);
        OutGrows(old(out), out, emitted, pending[index]);
        out := out + [Into(pending[index])];
        emitted := emitted + [pending[index]];
        pending := Without(pending, index);
      }
      Emitted(moves, pending, emitted);
    }

    /** Lower a run of incoming parameters: those kept in the frame are written while every argument is
        still where it arrived, then the registers are filled as one simultaneous assignment. */
    method LowerIncomingArguments(group: seq<Incoming>) returns (ghost emitted: seq<Step>)
      requires Arrives(group)
      modifies this
      ensures out == old(out) + emitted
      ensures forall at: Machine :: Received(group, at, RunSteps(emitted, at))
    {
      var moves: seq<Mov> := [];
      emitted := [];
      for i := 0 to |group|
        invariant out == old(out) + emitted
        invariant moves == RegisterMoves(group[..i])
        invariant AlwaysStored(group[..i], emitted)
      {
        var item := group[i];
        assert group[..i + 1][..i] == group[..i];
        ghost var before := emitted;
        if item.offset.Some? {
          var from;
          if item.source.Reg? {
            from := item.source.register;
          } else {
            from := SCRATCH;
            out := out + [Into(Mov(SCRATCH, item.source))];
            emitted := emitted + [Into(Mov(SCRATCH, item.source))];
          }
          out := out + [Out(item.offset.value, from)];
          emitted := emitted + [Out(item.offset.value, from)];
        }
        StoreOne(group, i, before, emitted);
        if item.register.Some? {
          moves := moves + [Mov(item.register.value, item.source)];
        }
      }
      assert group[..|group|] == group;
      var kept := KeepLastWritePerRegister(moves);
      LastWritesAre(moves);
      MovesAvoidScratch(group, kept);
      ghost var stores := emitted;
      ghost var shuffled := EmitParallelMoves(kept);
      emitted := emitted + Steps(shuffled);
      forall at: Machine ensures Received(group, at, RunSteps(emitted, at)) {
        AllReceived(group, stores, shuffled, at);
      }
    }
  }

  /** One parameter: where in the frame it is kept, which register it lives in, where it arrives. */
  datatype Incoming = Incoming(offset: Option<int>, register: Option<Register>, source: Source)

  datatype Option<T> = None | Some(value: T)

  /** No argument arrives in the scratch register or where a parameter is kept, nor is one to live there. */
  ghost predicate Arrives(group: seq<Incoming>) {
    forall i: nat :: i < |group| ==>
      && group[i].source != Reg(SCRATCH) && group[i].register != Some(SCRATCH)
      && forall j: nat :: j < |group| && group[j].offset.Some? ==> group[i].source != Frame(group[j].offset.value)
  }

  ghost predicate LastInRegister(group: seq<Incoming>, i: nat) {
    i < |group| && group[i].register.Some? && forall j: nat :: i < j < |group| ==>
      group[j].register != group[i].register
  }

  ghost predicate LastInFrame(group: seq<Incoming>, i: nat) {
    i < |group| && group[i].offset.Some? && forall j: nat :: i < j < |group| ==> group[j].offset != group[i].offset
  }

  /** Every parameter is where it is to live, unless a later one was given the same place; nothing else
      but the scratch register changed. */
  ghost predicate Received(group: seq<Incoming>, at: Machine, after: Machine) {
    && (forall i: nat :: LastInRegister(group, i) ==>
          Get(after.regs, group[i].register.value) == Value(at.regs, at.frame, group[i].source))
    && (forall i: nat :: LastInFrame(group, i) ==>
          Value(after.regs, after.frame, Frame(group[i].offset.value)) == Value(at.regs, at.frame, group[i].source))
    && (forall r: Register :: r != SCRATCH && (forall i: nat :: i < |group| ==> group[i].register != Some(r)) ==>
          Get(after.regs, r) == Get(at.regs, r))
    && (forall o: int :: (forall i: nat :: i < |group| ==> group[i].offset != Some(o)) ==>
          Value(after.regs, after.frame, Frame(o)) == Value(at.regs, at.frame, Frame(o)))
  }

  /** The frame holds the last parameter kept in each slot; registers but the scratch one are untouched. */
  ghost predicate Stored(group: seq<Incoming>, at: Machine, after: Machine) {
    && (forall r: Register :: r != SCRATCH ==> Get(after.regs, r) == Get(at.regs, r))
    && (forall i: nat :: LastInFrame(group, i) ==>
          Value(after.regs, after.frame, Frame(group[i].offset.value)) == Value(at.regs, at.frame, group[i].source))
    && (forall o: int :: (forall i: nat :: i < |group| ==> group[i].offset != Some(o)) ==>
          Value(after.regs, after.frame, Frame(o)) == Value(at.regs, at.frame, Frame(o)))
  }

  ghost predicate AlwaysStored(group: seq<Incoming>, emitted: seq<Step>) {
    forall at: Machine :: Stored(group, at, RunSteps(emitted, at))
  }

  function RegisterMoves(group: seq<Incoming>): seq<Mov>
    decreases |group|
  {
    if group == [] then []
    else
      var last := group[|group| - 1];
      RegisterMoves(group[..|group| - 1]) +
      (if last.register.Some? then [Mov(last.register.value, last.source)] else [])
  }

  /** An argument still reads as it did on arrival. */
  lemma StillArrived(group: seq<Incoming>, i: nat, at: Machine, after: Machine)
    requires Arrives(group) && i < |group| && Stored(group[..i], at, after)
    ensures Value(after.regs, after.frame, group[i].source) == Value(at.regs, at.frame, group[i].source)
  {
    var s := group[i].source;
    if s.Frame? {
      forall j: nat | j < i ensures group[..i][j].offset != Some(s.offset) {
        assert group[j].offset.Some? ==> s != Frame(group[j].offset.value);
      }
    }
  }

  lemma StoreOne(group: seq<Incoming>, i: nat, before: seq<Step>, emitted: seq<Step>)
    requires Arrives(group) && i < |group| && AlwaysStored(group[..i], before)
    requires var item := group[i];
             emitted == if item.offset.None? then before
                        else if item.source.Reg? then before + [Out(item.offset.value, item.source.register)]
                        else before + [Into(Mov(SCRATCH, item.source))] + [Out(item.offset.value, SCRATCH)]
    ensures AlwaysStored(group[..i + 1], emitted)
  {
    forall at: Machine ensures Stored(group[..i + 1], at, RunSteps(emitted, at)) {
      assert Stored(group[..i], at, RunSteps(before, at));
      StoreOneFrom(group, i, before, emitted, at);
    }
    hide Stored, RunSteps, Arrives;
  }

  lemma StoreOneFrom(group: seq<Incoming>, i: nat, before: seq<Step>, emitted: seq<Step>, at: Machine)
    requires Arrives(group) && i < |group| && Stored(group[..i], at, RunSteps(before, at))
    requires var item := group[i];
             emitted == if item.offset.None? then before
                        else if item.source.Reg? then before + [Out(item.offset.value, item.source.register)]
                        else before + [Into(Mov(SCRATCH, item.source))] + [Out(item.offset.value, SCRATCH)]
    ensures Stored(group[..i + 1], at, RunSteps(emitted, at))
  {
    var item := group[i];
    var was, now := RunSteps(before, at), RunSteps(emitted, at);
    StillArrived(group, i, at, was);
    if item.offset.Some? {
      if item.source.Reg? {
        StepSnoc(before, Out(item.offset.value, item.source.register), at);
      } else {
        StepSnoc(before, Into(Mov(SCRATCH, item.source)), at);
        StepSnoc(before + [Into(Mov(SCRATCH, item.source))], Out(item.offset.value, SCRATCH), at);
      }
    }
    hide RunSteps;
    FrameGrows(group, i, at, was, now);
  }

  lemma FrameGrows(group: seq<Incoming>, i: nat, at: Machine, was: Machine, now: Machine)
    requires i < |group| && Stored(group[..i], at, was)
    requires forall r: Register :: r != SCRATCH ==> Get(now.regs, r) == Get(was.regs, r)
    requires forall o: int :: Value(now.regs, now.frame, Frame(o)) ==
               if group[i].offset == Some(o) then Value(at.regs, at.frame, group[i].source)
               else Value(was.regs, was.frame, Frame(o))
    ensures Stored(group[..i + 1], at, now)
  {
    var more := group[..i + 1];
    forall k: nat | LastInFrame(more, k)
      ensures Value(now.regs, now.frame, Frame(more[k].offset.value)) == Value(at.regs, at.frame, more[k].source)
    {
      if k < i {
        assert more[i].offset != more[k].offset;
        forall j: nat | k < j < i ensures group[..i][j].offset != group[..i][k].offset {
          assert more[j].offset != more[k].offset;
        }
        assert LastInFrame(group[..i], k);
      }
    }
    forall o: int | forall k: nat :: k < |more| ==> more[k].offset != Some(o)
      ensures Value(now.regs, now.frame, Frame(o)) == Value(at.regs, at.frame, Frame(o))
    {
      assert more[i].offset != Some(o);
      forall k: nat | k < i ensures group[..i][k].offset != Some(o) {
        assert more[k].offset != Some(o);
      }
    }
    hide Value, Get;
  }

  lemma {:induction false} MoveCame(group: seq<Incoming>, k: nat) returns (i: nat)
    requires k < |RegisterMoves(group)|
    ensures i < |group| && group[i].register == Some(RegisterMoves(group)[k].dest) &&
            group[i].source == RegisterMoves(group)[k].source
    decreases |group|
  {
    var n := |group| - 1;
    if k < |RegisterMoves(group[..n])| {
      i := MoveCame(group[..n], k);
    } else {
      i := n;
    }
  }

  /** The last parameter given a register is the last move into it. */
  lemma {:induction false} LastMove(group: seq<Incoming>, i: nat) returns (k: nat)
    requires LastInRegister(group, i)
    ensures IsLast(RegisterMoves(group), k)
    ensures RegisterMoves(group)[k] == Mov(group[i].register.value, group[i].source)
    decreases |group|
  {
    var n := |group| - 1;
    var moves := RegisterMoves(group);
    var fewer := RegisterMoves(group[..n]);
    if i == n {
      k := |fewer|;
    } else {
      assert group[n].register != group[i].register;
      assert forall j: nat :: j < n ==> group[..n][j] == group[j];
      k := LastMove(group[..n], i);
      forall j: nat | k < j < |moves| ensures moves[j].dest != moves[k].dest {
        if j < |fewer| {
          assert moves[j] == fewer[j];
        }
      }
    }
  }

  lemma MovesAvoidScratch(group: seq<Incoming>, kept: seq<Mov>)
    requires Arrives(group) && kept == LastWrites(RegisterMoves(group))
    ensures DistinctDests(kept) && forall i: nat :: i < |kept| ==> kept[i].dest != SCRATCH
  {
    var moves := RegisterMoves(group);
    LastWritesAre(moves);
    forall i: nat | i < |kept| ensures kept[i].dest != SCRATCH {
      assert kept[i] in kept;
      var k: nat :| IsLast(moves, k) && moves[k] == kept[i];
      var j := MoveCame(group, k);
    }
  }

  lemma AllReceived(group: seq<Incoming>, stores: seq<Step>, shuffled: seq<Mov>, at: Machine)
    requires Arrives(group) && AlwaysStored(group, stores)
    requires forall regs: Registers, frame: FrameMemory ::
               Simultaneous(LastWrites(RegisterMoves(group)), regs, frame, Run(shuffled, regs, frame))
    ensures Received(group, at, RunSteps(stores + Steps(shuffled), at))
  {
    var kept := LastWrites(RegisterMoves(group));
    var mid := RunSteps(stores, at);
    assert Stored(group, at, mid);
    StepsInTurn(stores, Steps(shuffled), at);
    MovesOnlyRegisters(shuffled, mid);
    var after := mid.(regs := Run(shuffled, mid.regs, mid.frame));
    assert Simultaneous(kept, mid.regs, mid.frame, after.regs);
    hide Run, RunSteps, LastWrites, RegisterMoves, Steps;
    forall i: nat | LastInRegister(group, i)
      ensures Get(after.regs, group[i].register.value) == Value(at.regs, at.frame, group[i].source)
    {
      LastReceived(group, i, at, mid, after);
    }
    forall r: Register | r != SCRATCH && (forall i: nat :: i < |group| ==> group[i].register != Some(r))
      ensures Get(after.regs, r) == Get(at.regs, r)
    {
      NotWritten(group, r);
    }
  }

  lemma KeptCame(group: seq<Incoming>, i: nat) returns (j: nat)
    requires i < |LastWrites(RegisterMoves(group))|
    ensures j < |group| && group[j].register == Some(LastWrites(RegisterMoves(group))[i].dest)
  {
    var moves := RegisterMoves(group);
    var kept := LastWrites(moves);
    LastWritesAre(moves);
    assert kept[i] in kept;
    var k: nat :| IsLast(moves, k) && moves[k] == kept[i];
    j := MoveCame(group, k);
  }

  lemma NotWritten(group: seq<Incoming>, r: Register)
    requires forall i: nat :: i < |group| ==> group[i].register != Some(r)
    ensures !Writes(LastWrites(RegisterMoves(group)), r)
  {
    var kept := LastWrites(RegisterMoves(group));
    forall i: nat | i < |kept| ensures kept[i].dest != r {
      var j := KeptCame(group, i);
    }
  }

  lemma LastReceived(group: seq<Incoming>, i: nat, at: Machine, mid: Machine, after: Machine)
    requires Arrives(group) && Stored(group, at, mid) && LastInRegister(group, i)
    requires Simultaneous(LastWrites(RegisterMoves(group)), mid.regs, mid.frame, after.regs)
    ensures Get(after.regs, group[i].register.value) == Value(at.regs, at.frame, group[i].source)
  {
    var moves := RegisterMoves(group);
    var kept := LastWrites(moves);
    LastWritesAre(moves);
    var k := LastMove(group, i);
    assert moves[k] in kept;
    var j: nat :| j < |kept| && kept[j] == moves[k];
    assert Get(after.regs, kept[j].dest) == Value(mid.regs, mid.frame, kept[j].source);
    ArrivedThroughout(group, i, at, mid);
  }

  lemma ArrivedThroughout(group: seq<Incoming>, i: nat, at: Machine, after: Machine)
    requires Arrives(group) && i < |group| && Stored(group, at, after)
    ensures Value(after.regs, after.frame, group[i].source) == Value(at.regs, at.frame, group[i].source)
  {
    var s := group[i].source;
    if s.Frame? {
      forall j: nat | j < |group| ensures group[j].offset != Some(s.offset) {
        assert group[j].offset.Some? ==> s != Frame(group[j].offset.value);
      }
    }
  }

  /** The moves that are not from a register to itself. */
  method DropSelfMoves(moves: seq<Mov>) returns (pending: seq<Mov>)
    requires DistinctDests(moves) && forall i: nat :: i < |moves| ==> moves[i].dest != SCRATCH
    ensures Proper(pending) && AlwaysHalfway(moves, pending, [])
  {
    pending := [];
    for i := 0 to |moves|
      invariant Proper(pending)
      invariant forall k: nat :: k < |pending| ==> exists j: nat :: j < i && moves[j] == pending[k]
      invariant forall j: nat :: j < i ==> moves[j] in pending || moves[j].source == Reg(moves[j].dest)
    {
      if moves[i].source != Reg(moves[i].dest) {
        ghost var before := pending;
        pending := pending + [moves[i]];
        assert pending[|before|] == moves[i];
        assert forall m: Mov :: m in before ==> m in pending;
      }
    }
    forall regs: Registers, frame: FrameMemory ensures Halfway(moves, pending, regs, frame, Run([], regs, frame)) {
      forall k: nat | k < |pending| ensures Owed(moves, pending[k], regs, frame, regs) {
        var j: nat :| j < |moves| && moves[j] == pending[k];
      }
      forall i: nat | i < |moves| && !Writes(pending, moves[i].dest)
        ensures Get(regs, moves[i].dest) == Value(regs, frame, moves[i].source)
      {
        PendingWrites(pending, moves[i]);
      }
    }
  }

  lemma PendingWrites(pending: seq<Mov>, m: Mov)
    ensures m in pending ==> Writes(pending, m.dest)
  {
    if m in pending {
      var k: nat :| k < |pending| && pending[k] == m;
      assert pending[k].dest == m.dest;
    }
  }

  /** The first pending move whose destination no pending move reads, if any. */
  method FindReady(pending: seq<Mov>) returns (index: nat)
    ensures index <= |pending|
    ensures index < |pending| ==> !ReadsRegister(pending, pending[index].dest)
    ensures index == |pending| ==> forall i: nat :: i < |pending| ==> ReadsRegister(pending, pending[i].dest)
  {
    index := 0;
    while index < |pending|
      invariant index <= |pending|
      invariant forall i: nat :: i < index ==> ReadsRegister(pending, pending[i].dest)
    {
      if !ReadsRegister(pending, pending[index].dest) {
        return;
      }
      index := index + 1;
    }
  }

  method Redirect(pending: seq<Mov>, stashed: Register) returns (r: seq<Mov>)
    ensures r == Redirected(pending, stashed)
  {
    r := pending;
    for i := 0 to |pending|
      invariant |r| == |pending|
      invariant forall k: nat :: k < |pending| ==> r[k] == if k < i then Redirected(pending, stashed)[k] else pending[k]
    {
      if r[i].source == Reg(stashed) {
        r := r[i := r[i].(source := Reg(SCRATCH))];
      }
    }
  }

  lemma StashAlways(moves: seq<Mov>, pending: seq<Mov>, emitted: seq<Mov>)
    requires |pending| > 0 && Proper(pending) && AlwaysHalfway(moves, pending, emitted)
    requires forall i: nat :: i < |pending| ==> ReadsRegister(pending, pending[i].dest)
    requires forall i: nat :: i < |moves| ==> moves[i].dest != SCRATCH
    ensures var stashed := pending[0].dest;
            && Proper(Redirected(pending, stashed))
            && AlwaysHalfway(moves, Redirected(pending, stashed), emitted + [Mov(SCRATCH, Reg(stashed))])
            && !ReadsRegister(Redirected(pending, stashed), Redirected(pending, stashed)[0].dest)
  {
    var stashed := pending[0].dest;
    StuckIsPermutation(pending);
    StashedIsReady(pending, stashed);
    forall regs: Registers, frame: FrameMemory
      ensures Halfway(moves, Redirected(pending, stashed), regs, frame,
                      Run(emitted + [Mov(SCRATCH, Reg(stashed))], regs, frame))
    {
      assert Halfway(moves, pending, regs, frame, Run(emitted, regs, frame));
      RunSnoc(emitted, Mov(SCRATCH, Reg(stashed)), regs, frame);
      Stash(moves, pending, stashed, regs, frame, Run(emitted, regs, frame));
    }
    hide Halfway, Run, ReadsRegister;
  }

  lemma EmitAlways(moves: seq<Mov>, pending: seq<Mov>, k: nat, emitted: seq<Mov>)
    requires k < |pending| && Proper(pending) && DistinctDests(moves) && AlwaysHalfway(moves, pending, emitted)
    requires !ReadsRegister(pending, pending[k].dest)
    ensures Proper(Without(pending, k)) && AlwaysHalfway(moves, Without(pending, k), emitted + [pending[k]])
  {
    WithoutWrites(pending, k);
    forall regs: Registers, frame: FrameMemory
      ensures Halfway(moves, Without(pending, k), regs, frame, Run(emitted + [pending[k]], regs, frame))
    {
      assert Halfway(moves, pending, regs, frame, Run(emitted, regs, frame));
      RunSnoc(emitted, pending[k], regs, frame);
      EmitReady(moves, pending, k, regs, frame, Run(emitted, regs, frame));
    }
    hide Halfway, Run, ReadsRegister, Without;
  }

  lemma Emitted(moves: seq<Mov>, pending: seq<Mov>, emitted: seq<Mov>)
    requires AlwaysHalfway(moves, pending, emitted) && pending == []
    ensures forall regs: Registers, frame: FrameMemory :: Simultaneous(moves, regs, frame, Run(emitted, regs, frame))
  {
    forall regs: Registers, frame: FrameMemory ensures Simultaneous(moves, regs, frame, Run(emitted, regs, frame)) {
      assert Halfway(moves, pending, regs, frame, Run(emitted, regs, frame));
      assert forall r: Register :: !Writes(pending, r);
    }
    hide Run;
  }
}
