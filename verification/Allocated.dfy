/** From a function in memory to code on registers and a frame: what the machine shows, the function shows. */
module Allocated {
  import opened IdomTree
  import opened Lists
  import opened Ssa
  import opened SsaValid
  import opened Functions
  import opened Heads
  import opened Prepare
  import opened PromotedHeads
  import opened Stuttering
  import opened GraphEdits
  import opened CriticalEdges
  import opened ParallelCopies
  import opened Tac
  import opened Destruct
  import opened ThroughSsa
  import opened LinearCode
  import opened LinearRuns
  import CopyProp
  import BlockMerging
  import V = Vregs
  import A = AllocSim
  import M = LinearMachine
  import B = Backend
  import L = Linear
  import LinearScan
  import Frame

  // ---- what is encodable ----

  /** The function works on values, memory it is handed the address of, and slots of its own. */
  ghost predicate OnScalars(slots: set<SlotId>, f: Func) {
    forall head: Op :: OccursIn(f, head) ==> Scalar(slots, head)
  }

  lemma ScalarHead(slots: set<SlotId>, op: Op)
    ensures Scalar(slots, op.Head()) == Scalar(slots, op)
  {
  }

  lemma ScalarsStay(slots: set<SlotId>, f: Func, f': Func)
    requires OnScalars(slots, f) && OnlyUndefAdded(f, f')
    ensures OnScalars(slots, f')
  {
    hide OccursIn;
  }

  lemma InstScalar(slots: set<SlotId>, private: set<SlotId>, f: Func, b: BlockId, i: nat)
    requires OnScalars(slots, f) && slots <= private && b < f.Size() && i < |f.blocks[b].insts|
    ensures Scalar(private, f.blocks[b].insts[i].op)
  {
    var head := f.blocks[b].insts[i].op.Head();
    assert Occurs(f.blocks[b].insts, head);
    assert OccursIn(f, head);
    ScalarHead(slots, f.blocks[b].insts[i].op);
  }

  ghost predicate CodeEncodable(private: set<SlotId>, code: seq<Tac>) {
    forall k: nat :: k < |code| ==> Encodable(private, code[k]) && StoresPlain(code[k])
  }

  lemma InstEncodable(private: set<SlotId>, inst: Inst)
    requires Scalar(private, inst.op) && (inst.dest.Some? <==> inst.op.DefinesValue())
    ensures CodeEncodable(private, LoweredInst(inst))
  {
  }

  lemma {:induction false} InstsEncodable(private: set<SlotId>, insts: seq<Inst>)
    requires forall i: nat :: i < |insts| ==>
               Scalar(private, insts[i].op) && (insts[i].dest.Some? <==> insts[i].op.DefinesValue())
    ensures CodeEncodable(private, LoweredInsts(insts))
    decreases |insts|
  {
    hide Encodable, StoresPlain, LoweredInst, Scalar, Op.DefinesValue;
    if insts != [] {
      InstsEncodable(private, insts[..|insts| - 1]);
      InstEncodable(private, insts[|insts| - 1]);
    }
  }

  lemma TailEncodable(private: set<SlotId>, moves: seq<Move>, term: Terminator)
    ensures CodeEncodable(private, AsTac(moves)) && CodeEncodable(private, LoweredTerm(term))
  {
  }

  lemma EncodableInTurn(private: set<SlotId>, a: seq<Tac>, b: seq<Tac>)
    requires CodeEncodable(private, a) && CodeEncodable(private, b)
    ensures CodeEncodable(private, a + b)
  {
    hide Encodable, StoresPlain;
  }

  lemma BlockEncodable(slots: set<SlotId>, private: set<SlotId>, f: Func, cfg: Cfg, b: BlockId)
    requires OnScalars(slots, f) && slots <= private && SingleDefs(f) && Lowered(f, cfg) && b < f.Size()
    ensures b < |cfg| && CodeEncodable(private, cfg[b])
  {
    assert BlockLowered(f, b, cfg[b]);
    var insts, term := f.blocks[b].insts, f.blocks[b].term;
    var moves: seq<Move>, base: nat :| Owed(f, b, moves, base)
                                       && cfg[b] == LoweredInsts(insts) + AsTac(moves) + LoweredTerm(term);
    forall i: nat | i < |insts|
      ensures Scalar(private, insts[i].op) && (insts[i].dest.Some? <==> insts[i].op.DefinesValue())
    {
      InstScalar(slots, private, f, b, i);
    }
    hide *;
    InstsEncodable(private, insts);
    TailEncodable(private, moves, term);
    EncodableInTurn(private, LoweredInsts(insts), AsTac(moves));
    EncodableInTurn(private, LoweredInsts(insts) + AsTac(moves), LoweredTerm(term));
  }

  lemma LoweredEncodable(slots: set<SlotId>, private: set<SlotId>, f: Func, cfg: Cfg)
    requires OnScalars(slots, f) && slots <= private && SingleDefs(f) && Lowered(f, cfg)
    ensures AllEncodable(private, cfg)
  {
    LoweredSize(f, cfg);
    hide OnScalars, SingleDefs, Lowered, Encodable, StoresPlain;
    forall b: nat | b < |cfg| ensures CodeEncodable(private, cfg[b]) {
      BlockEncodable(slots, private, f, cfg, b);
    }
  }

  // ---- what the machine shows ----

  ghost predicate SameAsPhysical(names: Naming, s: Status, r: M.MachineRun) {
    match r
    case Running(_, t) => s.At? && s.st.trace == DecodedAll(names, t.trace)
    case Returned(value, trace) => s == Done(value, DecodedAll(names, trace))
    case RanOff => s.Stuck?
  }

  /** The emitted code on registers and frame, `k` instructions after its first. */
  function Physical(m: Machine, names: Naming, garbage: (seq<A.Event>, nat) -> Word, c: A.Compiled,
                    start: A.PhysicalState, k: nat): M.MachineRun {
    M.MachineAfter(HostOf(m, names, garbage), c.linear, c.file, c.layout, start, k)
  }

  /** From `n` on there is a number of instructions after which the machine has shown what the function has after
      some number of blocks. */
  ghost predicate PhysicalShows(m: Machine, names: Naming, garbage: (seq<A.Event>, nat) -> Word, private: set<SlotId>,
                                f: Func, c: A.Compiled, start: A.PhysicalState, n: nat) {
    exists k: nat, n': nat :: n <= k && n <= n' &&
      SameAsPhysical(names, Run(m, private, f, n'), Physical(m, names, garbage, c, start, k))
  }

  const NOTHING_YET := A.VirtualState(map[], [], [])

  /** A machine with everything zero can start any code. */
  lemma ZeroStarts(c: A.Compiled)
    ensures A.StartsAs(c, NOTHING_YET, A.PhysicalState(map[], map[], [], []))
  {
  }

  lemma ChainIsPhysical(names: Naming, s: Status, t: TacStatus, v: A.Run<A.VirtualState>,
                        r: M.MachineRun)
    requires SameAsCode(s, t) && RunMirrors(names, v, t) && M.SameSeen(v, r)
    ensures SameAsPhysical(names, s, r)
  {
    if t.TacAt? {
      MirrorsTrace(names, v.s, t.st);
    }
    hide Mirrors;
  }

  /** The machine keeps up with the code, and the code with the function. */
  lemma AllocatedShows(m: Machine, names: Naming, garbage: (seq<A.Event>, nat) -> Word, private: set<SlotId>, f: Func,
                       cfg: Cfg, entry: BlockId, c: A.Compiled, start: A.PhysicalState, n: nat)
    requires CodeShows(m, private, f, cfg, entry, n) && AllEncodable(private, cfg) && TellsApart(names) && m.undef == 0
    requires c.Valid() && c.cfg == AsLinear(names, cfg, entry) && entry < |cfg| && cfg[entry] != []
    requires M.BlocksLeave(c.cfg) && A.StartsAs(c, NOTHING_YET, start)
    ensures PhysicalShows(m, names, garbage, private, f, c, start, n)
  {
    var k := RunsMirror(m, names, garbage, private, cfg, entry, n);
    var h := HostOf(m, names, garbage);
    assert c.cfg.Body(entry) == EncodedAll(names, cfg[entry]);
    assert c.cfg.entry == entry;
    var t := TacRun(m, private, cfg, entry, n);
    var n': nat :| n <= n' && SameAsCode(Run(m, private, f, n'), t);
    hide A.Compiled.Valid, A.StartsAs, HostOf, AsLinear, AllEncodable, Run, TacRun, A.VirtualRun, M.MachineAfter,
         SameAsPhysical, SameAsCode, RunMirrors, M.SameSeen, M.BlocksLeave;
    M.MachineKeepsRuns(h, c, NOTHING_YET, start, k);
    ChainIsPhysical(names, Run(m, private, f, n'), t, A.VirtualRun(h, c.cfg, NOTHING_YET, k),
                    Physical(m, names, garbage, c, start, k));
  }

  lemma {:induction false} PhysicalStays(m: Machine, names: Naming, garbage: (seq<A.Event>, nat) -> Word,
                                         c: A.Compiled, start: A.PhysicalState, k: nat, l: nat)
    requires Physical(m, names, garbage, c, start, k).Returned? && k <= l
    ensures Physical(m, names, garbage, c, start, l) == Physical(m, names, garbage, c, start, k)
    decreases l
  {
    if k < l {
      PhysicalStays(m, names, garbage, c, start, k, l - 1);
    }
  }

  ghost predicate PhysicalResult(names: Naming, r: M.MachineRun, result: Option<Word>, trace: seq<Event>) {
    r.Returned? && r.value == result && DecodedAll(names, r.trace) == trace
  }

  /** Code on registers ends exactly when the function does, with its result and its events. */
  lemma PhysicalEnds(m: Machine, names: Naming, garbage: (seq<A.Event>, nat) -> Word, private: set<SlotId>, f: Func,
                     c: A.Compiled, start: A.PhysicalState, result: Option<Word>, trace: seq<Event>)
    requires forall n: nat :: PhysicalShows(m, names, garbage, private, f, c, start, n)
    ensures Ends(m, private, f, result, trace) <==>
            exists k: nat :: PhysicalResult(names, Physical(m, names, garbage, c, start, k), result, trace)
  {
    hide Run, Physical;
    if k0: nat :| PhysicalResult(names, Physical(m, names, garbage, c, start, k0), result, trace) {
      assert PhysicalShows(m, names, garbage, private, f, c, start, k0);
      var k: nat, n: nat :| k0 <= k && k0 <= n &&
        SameAsPhysical(names, Run(m, private, f, n), Physical(m, names, garbage, c, start, k));
      PhysicalStays(m, names, garbage, c, start, k0, k);
    }
    if Ends(m, private, f, result, trace) {
      var n0: nat :| Run(m, private, f, n0) == Done(result, trace);
      assert PhysicalShows(m, names, garbage, private, f, c, start, n0);
      var k: nat, n: nat :| n0 <= k && n0 <= n &&
        SameAsPhysical(names, Run(m, private, f, n), Physical(m, names, garbage, c, start, k));
      Settled(m, private, f, n0, n);
      assert PhysicalResult(names, Physical(m, names, garbage, c, start, k), result, trace);
    }
  }

  // ---- splitting the critical edges first ----

  lemma SplitKeepsMemoryForm(f0: Func, f: Func)
    requires MemoryForm(f0) && WithoutCritical(f0, f)
    ensures MemoryForm(f) && CriticalFree(f) && WellFormed(f)
  {
    SplitParts(f0, f);
    hide ValidSsa, WellFormed, CriticalFree, WithoutCritical, DefinedAt;
    forall b: nat | b < f.Size() ensures f.blocks[b].phis == [] {
      SplitBlockIs(f0, f, b);
    }
    forall v: ValueId, p: Point | DefinedAt(f, v, p) ensures v < |f.sites| {
      SplitDefines(f0, f, v, p);
    }
  }

  lemma SplitDefines(f0: Func, f: Func, v: ValueId, p: Point)
    requires WithoutCritical(f0, f) && DefinedAt(f, v, p)
    ensures DefinedAt(f0, v, p)
  {
    hide WithoutCritical;
    SplitBlockIs(f0, f, p.block);
  }

  lemma SplitParts(f0: Func, f: Func)
    requires WithoutCritical(f0, f)
    ensures WellFormed(f) && CriticalFree(f) && f.entry == f0.entry && f0.Size() <= f.Size()
    ensures (ValidSsa(f0) ==> ValidSsa(f)) && f.sites == f0.sites
  {
    hide ValidSsa, WellFormed, CriticalFree, OldBlock, NewBlock;
  }

  lemma SplitBlockIs(f0: Func, f: Func, b: BlockId)
    requires WithoutCritical(f0, f) && b < f.Size()
    ensures if b < f0.Size() then f.blocks[b].phis == f0.blocks[b].phis && f.blocks[b].insts == f0.blocks[b].insts
            else f.blocks[b].phis == [] && f.blocks[b].insts == []
  {
    assert b < f0.Size() ==> OldBlock(f0, f, b);
    assert b >= f0.Size() ==> NewBlock(f0, f, b);
    hide ValidSsa, WellFormed, CriticalFree;
  }

  lemma SplitKeepsScalars(slots: set<SlotId>, f0: Func, f: Func)
    requires WithoutCritical(f0, f) && OnScalars(slots, f0)
    ensures OnScalars(slots, f)
  {
    forall head: Op | OccursIn(f, head) ensures Scalar(slots, head) {
      var b: BlockId :| b < f.Size() && Occurs(f.blocks[b].insts, head);
      SplitBlockIs(f0, f, b);
      assert OccursIn(f0, head);
    }
    hide WithoutCritical, Occurs;
  }

  lemma NoPhisAgree(f: Func)
    requires MemoryForm(f)
    ensures AllParallelAgree(f)
  {
    hide ValidSsa;
  }

  lemma LaterStillRuns(m: Machine, private: set<SlotId>, f: Func, i: nat, n: nat)
    requires i <= n && Run(m, private, f, n).At?
    ensures Run(m, private, f, i).At?
  {
    if !Run(m, private, f, i).At? {
      Settled(m, private, f, i, n);
    }
    hide Run;
  }

  /** Where the split function is after `i` blocks and later, the other one has shown it all by `n` blocks. */
  lemma ShownByThen(m: Machine, private: set<SlotId>, f0: Func, f: Func, n: nat, i: nat, l: nat, j: nat)
    requires Run(m, private, f, i) == Run(m, private, f0, n) && i <= l && j < n
    requires SameShown(Run(m, private, f0, j), Run(m, private, f, l))
    ensures SameShown(Run(m, private, f0, n), Run(m, private, f, l))
  {
    hide Run;
    if Run(m, private, f0, j).At? {
      LaterStillRuns(m, private, f, i, l);
      TracesGrow(m, private, f0, j, n);
      TracesGrow(m, private, f, i, l);
    } else {
      Settled(m, private, f0, j, n);
    }
  }

  lemma ShownIsPhysical(names: Naming, s0: Status, s: Status, r: M.MachineRun)
    requires SameShown(s0, s) && SameAsPhysical(names, s, r)
    ensures SameAsPhysical(names, s0, r)
  {
  }

  lemma SplitShows(m: Machine, names: Naming, garbage: (seq<A.Event>, nat) -> Word, private: set<SlotId>, f0: Func,
                   f: Func, c: A.Compiled, start: A.PhysicalState, n: nat)
    requires FollowsAlways(f0, f) && TrailsAlways(f0, f)
    requires forall i: nat :: PhysicalShows(m, names, garbage, private, f, c, start, i)
    ensures PhysicalShows(m, names, garbage, private, f0, c, start, n)
  {
    hide Run, Physical, SameAsPhysical, SameShown;
    assert Follows(m, private, f0, f) && CaughtUp(m, private, f0, f, n);
    var i: nat :| n <= i && Run(m, private, f, i) == Run(m, private, f0, n);
    assert PhysicalShows(m, names, garbage, private, f, c, start, i);
    var k: nat, l: nat :| i <= k && i <= l &&
      SameAsPhysical(names, Run(m, private, f, l), Physical(m, names, garbage, c, start, k));
    assert Trails(m, private, f0, f, l);
    var j: nat :| SameShown(Run(m, private, f0, j), Run(m, private, f, l));
    var at := if j < n then n else j;
    if j < n {
      ShownByThen(m, private, f0, f, n, i, l, j);
    }
    ShownIsPhysical(names, Run(m, private, f0, at), Run(m, private, f, l), Physical(m, names, garbage, c, start, k));
    assert SameAsPhysical(names, Run(m, private, f0, at), Physical(m, names, garbage, c, start, k));
  }

  // ---- what the emitted code no longer mentions ----

  /** No instruction mentions one of the slots, to read it, write it or take its address. */
  ghost predicate GoneFrom(code: seq<V.Instr>, slots: set<SlotId>) {
    forall i: nat, s: SlotId :: i < |code| && s in slots ==> !B.Mentions(code[i], V.OfVar(s))
  }

  /** Encoded code mentions the variables its operations name, and takes the address of those whose address is taken:
      the frame gets room for exactly the aggregates and pinned variables the code it came from uses. */
  lemma EncodedNames(names: Naming, t: Tac, id: SlotId)
    requires WellMade(t)
    ensures B.Mentions(Encoded(names, t), V.OfVar(id)) <==> t.Simple? && NamesAny(t.op, {id})
    ensures B.TakesAddress(Encoded(names, t), id) <==> t.Simple? && t.op == AddrOf(id)
  {
  }

  lemma EncodedMentionsNone(names: Naming, private: set<SlotId>, t: Tac, slots: set<SlotId>, s: SlotId)
    requires Encodable(private, t) && s in slots && (t.Simple? ==> !NamesAny(t.op, slots))
    ensures !B.Mentions(Encoded(names, t), V.OfVar(s))
  {
    EncodedNames(names, t, s);
    hide Encoded;
  }

  lemma NoAddresses(names: Naming, private: set<SlotId>, cfg: Cfg, entry: nat)
    requires AllEncodable(private, cfg)
    ensures B.TakesNoAddress(AsLinear(names, cfg, entry))
  {
    var linear := AsLinear(names, cfg, entry);
    hide AsLinear, Encodable, StoresPlain, Encoded;
    forall b: nat, row: nat | row < |linear.Body(b)| ensures !linear.Body(b)[row].opcode.AddrOf? {
      EncodedTakesNone(names, private, cfg[b][row]);
    }
  }

  lemma EncodedTakesNone(names: Naming, private: set<SlotId>, t: Tac)
    requires Encodable(private, t)
    ensures !Encoded(names, t).opcode.AddrOf?
  {
  }

  lemma PromotedAreGone(names: Naming, private: set<SlotId>, cfg: Cfg, entry: nat, linear: L.Linearized, full: nat,
                        slots: set<SlotId>)
    requires AllEncodable(private, cfg) && CodeNeverNames(cfg, slots)
    requires L.IsLinear(AsLinear(names, cfg, entry), linear, full)
    ensures GoneFrom(M.Code(linear), slots)
  {
    var code, n := M.Code(linear), |linear.blocks|;
    assert linear.blocks[..n] == linear.blocks;
    hide AsLinear, L.IsLinear, Encodable, StoresPlain, NamesAny, B.Mentions, Encoded, M.Emitted;
    forall i: nat, s: SlotId | i < |code| && s in slots ensures !B.Mentions(code[i], V.OfVar(s)) {
      var b, row := M.EmittedIsSomewhere(AsLinear(names, cfg, entry), linear, full, n, i);
      EncodedMentionsNone(names, private, cfg[b][row], slots, s);
    }
  }

  lemma SplitKeepsOnlyByName(f0: Func, f: Func, aggregates: set<SlotId>, s: SlotId)
    requires WithoutCritical(f0, f)
    ensures SlotUses.OnlyByName(f, aggregates, s) <==> SlotUses.OnlyByName(f0, aggregates, s)
  {
    SplitIsLonger(f0, f);
    hide WithoutCritical, SlotUses.CallsSetjmp, SlotUses.ReachesInto;
    forall b: nat | b < f.Size()
      ensures b < f0.Size() ==> f.blocks[b].insts == f0.blocks[b].insts
      ensures b >= f0.Size() ==> f.blocks[b].insts == []
    {
      SplitBlockIs(f0, f, b);
    }
    if SlotUses.OnlyByName(f, aggregates, s) {
      forall b: BlockId, i: nat | SlotUses.Somewhere(f0, b, i)
        ensures !SlotUses.CallsSetjmp(f0.blocks[b].insts[i]) && !SlotUses.ReachesInto(f0.blocks[b].insts[i], s)
      {
        assert SlotUses.Somewhere(f, b, i);
      }
    }
    if SlotUses.OnlyByName(f0, aggregates, s) {
      forall b: BlockId, i: nat | SlotUses.Somewhere(f, b, i)
        ensures !SlotUses.CallsSetjmp(f.blocks[b].insts[i]) && !SlotUses.ReachesInto(f.blocks[b].insts[i], s)
      {
        assert SlotUses.Somewhere(f0, b, i);
      }
    }
  }

  lemma SplitIsLonger(f0: Func, f: Func)
    requires WithoutCritical(f0, f)
    ensures f0.Size() <= f.Size()
  {
    hide ValidSsa, WellFormed, CriticalFree, OldBlock, NewBlock;
  }

  // ---- the whole compiler ----

  lemma EntryHasCode(f: Func, cfg: Cfg)
    requires ValidSsa(f) && Lowered(f, cfg)
    ensures f.entry < |cfg| && cfg[f.entry] != []
  {
    assert f.entry < f.Adjacency().Size();
    assert BlockLowered(f, f.entry, cfg[f.entry]);
    var moves: seq<Move>, base: nat :| Owed(f, f.entry, moves, base)
      && cfg[f.entry] == LoweredInsts(f.blocks[f.entry].insts) + AsTac(moves) + LoweredTerm(f.blocks[f.entry].term);
    assert |LoweredTerm(f.blocks[f.entry].term)| > 0;
    hide LoweredInsts, LoweredTerm, AsTac;
  }

  lemma ValidIsSingle(f: Func)
    requires ValidSsa(f)
    ensures SingleDefs(f)
  {
  }

  /** The way through SSA form, then linear order, intervals, registers and frame. */
  method CompileSplit(fn: Function, slots: set<SlotId>, sizes: map<nat, nat>, optimize: bool, names: Naming,
                      file: LinearScan.RegisterFile, params: Frame.FrameParams)
    returns (linear: L.Linearized, layout: Frame.FrameLayout, ghost c: A.Compiled, eligible: set<SlotId>,
             ghost objects: map<nat, nat>, ghost pinned: set<nat>, ghost areas: map<Frame.Thing, Frame.Area>)
    requires MemoryForm(fn.View()) && CriticalFree(fn.View()) && fn.Valid() && OnScalars(slots, fn.View())
    requires Distinct(file.allocatable) && params.wordSize > 0 && TellsApart(names)
    modifies fn
    ensures c.Valid() && c.file == file && c.linear == linear && c.layout == layout && layout.params == params
    ensures forall s: SlotId :: s in eligible <==> s in slots && SlotUses.OnlyByName(old(fn.View()), sizes.Keys, s)
    ensures NeverNames(fn.View(), eligible) && GoneFrom(M.Code(linear), eligible)
    ensures ValidSsa(fn.View()) && fn.Valid()
    ensures optimize ==> CopyProp.NoCopies(fn.View()) && BlockMerging.NothingToMerge(fn.View())
    ensures Frame.LaysOut(layout, objects, pinned, areas) && B.ObjectsOf(linear.instructions, sizes, objects)
    ensures layout.savedBytes == |layout.allocation.calleeSaved| * params.wordSize
    ensures forall m: Machine, garbage: (seq<A.Event>, nat) -> Word, private: set<SlotId>, start: A.PhysicalState,
              n: nat :: slots <= private && m.undef == 0 && A.StartsAs(c, NOTHING_YET, start) ==>
              PhysicalShows(m, names, garbage, private, old(fn.View()), c, start, n)
  {
    hide MemoryForm, CriticalFree, Function.Valid, OnScalars, ValidSsa, Lowered, SingleDefs, OnlyUndefAdded, CodeShows,
         CodeShowsWhole, AllEncodable, A.Compiled.Valid, A.StartsAs, PhysicalShows, A.TransfersLast,
         A.ParamsBeforeCalls, AsLinear, TellsApart, SlotUses.OnlyByName, M.BlocksLeave, Heads.NeverNames,
         CodeNeverNames, GoneFrom, M.Code, L.IsLinear, Frame.LaysOut, B.ObjectsOf, B.AddressTaken,
         B.TakesNoAddress, LinearScan.IsSafe, CopyProp.NoCopies, BlockMerging.NothingToMerge, IsPromoted;
    ghost var f := fn.View();
    var cfg;
    cfg, eligible := OptimizeThroughSsa(fn, slots, sizes.Keys, optimize);
    ghost var f' := fn.View();
    LoweredIsCompilable(f', cfg, names, f'.entry);
    EntryHasCode(f', cfg);
    ValidIsSingle(f');
    ScalarsStay(slots, f, f');
    LoweredEncodable(slots, slots, f', cfg);
    NoAddresses(names, slots, cfg, f'.entry);
    linear, layout, c, objects, pinned, areas := B.Compile(AsLinear(names, cfg, fn.entry), file, params, sizes);
    PromotedAreGone(names, slots, cfg, f'.entry, linear, c.full, eligible);
    forall m: Machine, garbage: (seq<A.Event>, nat) -> Word, private: set<SlotId>, start: A.PhysicalState, n: nat |
      slots <= private && m.undef == 0 && A.StartsAs(c, NOTHING_YET, start)
      ensures PhysicalShows(m, names, garbage, private, f, c, start, n)
    {
      LoweredEncodable(slots, private, f', cfg);
      AllocatedShows(m, names, garbage, private, f, cfg, f'.entry, c, start, n);
    }
  }

  /** From a function in memory to its registers and frame: run there, with calls destroying every register they may
      use, it shows at some point after every step what the function run in memory shows. */
  method CompileFunction(fn: Function, slots: set<SlotId>, sizes: map<nat, nat>, optimize: bool, names: Naming,
                         file: LinearScan.RegisterFile, params: Frame.FrameParams)
    returns (linear: L.Linearized, layout: Frame.FrameLayout, ghost c: A.Compiled, eligible: set<SlotId>,
             ghost objects: map<nat, nat>, ghost pinned: set<nat>, ghost areas: map<Frame.Thing, Frame.Area>)
    requires MemoryForm(fn.View()) && fn.Valid() && OnScalars(slots, fn.View())
    requires Distinct(file.allocatable) && params.wordSize > 0 && TellsApart(names)
    modifies fn
    ensures c.Valid() && c.file == file && c.linear == linear && c.layout == layout && layout.params == params
    ensures forall s: SlotId :: s in eligible <==> s in slots && SlotUses.OnlyByName(old(fn.View()), sizes.Keys, s)
    ensures NeverNames(fn.View(), eligible) && GoneFrom(M.Code(linear), eligible)
    ensures ValidSsa(fn.View()) && fn.Valid()
    ensures optimize ==> CopyProp.NoCopies(fn.View()) && BlockMerging.NothingToMerge(fn.View())
    ensures Frame.LaysOut(layout, objects, pinned, areas) && B.ObjectsOf(linear.instructions, sizes, objects)
    ensures layout.savedBytes == |layout.allocation.calleeSaved| * params.wordSize
    ensures forall m: Machine, garbage: (seq<A.Event>, nat) -> Word, private: set<SlotId>, start: A.PhysicalState,
              n: nat :: slots <= private && m.undef == 0 && A.StartsAs(c, NOTHING_YET, start) ==>
              PhysicalShows(m, names, garbage, private, old(fn.View()), c, start, n)
  {
    hide MemoryForm, CriticalFree, WellFormed, OnScalars, ValidSsa, A.Compiled.Valid, A.StartsAs, PhysicalShows,
         TellsApart, WithoutCritical, FollowsAlways, TrailsAlways, AllParallelAgree, SlotUses.OnlyByName,
         Heads.NeverNames, GoneFrom, M.Code, Frame.LaysOut, B.ObjectsOf, CopyProp.NoCopies, BlockMerging.NothingToMerge;
    ghost var f := fn.View();
    SplitCriticalEdges(fn);
    ghost var split := fn.View();
    SplitKeepsMemoryForm(f, split);
    SplitKeepsScalars(slots, f, split);
    NoPhisAgree(f);
    forall s: SlotId
      ensures SlotUses.OnlyByName(split, sizes.Keys, s) <==> SlotUses.OnlyByName(f, sizes.Keys, s)
    {
      SplitKeepsOnlyByName(f, split, sizes.Keys, s);
    }
    linear, layout, c, eligible, objects, pinned, areas :=
      CompileSplit(fn, slots, sizes, optimize, names, file, params);
    forall m: Machine, garbage: (seq<A.Event>, nat) -> Word, private: set<SlotId>, start: A.PhysicalState, n: nat |
      slots <= private && m.undef == 0 && A.StartsAs(c, NOTHING_YET, start)
      ensures PhysicalShows(m, names, garbage, private, f, c, start, n)
    {
      SplitShows(m, names, garbage, private, f, split, c, start, n);
    }
  }
}
