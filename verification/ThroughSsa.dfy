/** From a function in memory through SSA form to code: what the code shows, the function shows. */
module ThroughSsa {
  import opened Graphs
  import opened IdomTree
  import opened Ssa
  import opened SsaValid
  import opened GraphEdits
  import opened Heads
  import opened Functions
  import opened SlotUses
  import opened Rewrites
  import opened Prepare
  import opened RenameSpec
  import opened Mem2Reg
  import opened PromotedShape
  import opened PromotedHeads
  import opened Promoted
  import opened PromotedWhole
  import opened WholeMemory
  import opened Stuttering
  import opened Rounds
  import opened ParallelCopies
  import opened Tac
  import opened Destruct
  import opened LeaveSsa

  // ---- leaving after promotion ----

  /** Valid SSA without critical edges whose phis stand where edges meet can be turned into code. */
  lemma JoinsLower(f: Func)
    requires ValidSsa(f) && CriticalFree(f) && PhisJoin(f)
    ensures Lowerable(f) && SingleDefs(f)
  {
    var g := f.Adjacency();
    forall b: nat, c: nat | b < f.Size() && c < f.Size() && g.Edge(b, c) && f.blocks[c].phis != []
      ensures |f.blocks[b].term.Successors()| == 1
    {
      assert g.succs[b] == f.blocks[b].term.Successors();
      assert |f.blocks[b].term.Successors()| < 2;
    }
    hide UsesOk, Graph.AllReachable;
  }

  ghost predicate SameAsCode(s: Status, t: TacStatus) {
    match t
    case TacAt(_, u) => s.At? && s.st.trace == u.trace
    case TacDone(result, trace) => s == Done(result, trace)
    case TacStuck => s.Stuck?
  }

  /** What the code has shown after `n` blocks the function shows as well, after no fewer. */
  ghost predicate CodeShows(m: Machine, private: set<SlotId>, f: Func, cfg: Cfg, entry: BlockId, n: nat) {
    exists n': nat :: n <= n' && SameAsCode(Run(m, private, f, n'), TacRun(m, private, cfg, entry, n))
  }

  lemma LeftCodeShows(m: Machine, private: set<SlotId>, slots: set<SlotId>, f: Func, f': Func, cfg: Cfg, n: nat)
    requires KeepsShows(slots, f, f') && slots <= private && m.undef == 0
    requires Lowerable(f') && SingleDefs(f') && Lowered(f', cfg)
    ensures CodeShows(m, private, f, cfg, f'.entry, n)
  {
    LeavingKeepsRuns(m, private, f', cfg, n);
    hide Run, TacRun, Lowerable, SingleDefs, Lowered, Agrees;
    assert Shows(m, private, f, f', n);
    var n': nat :| n <= n' && SameShown(Run(m, private, f, n'), Run(m, private, f', n));
    MatchedIsShown(Run(m, private, f, n'), Run(m, private, f', n), TacRun(m, private, cfg, f'.entry, n));
  }

  lemma MatchedIsShown(s: Status, s': Status, t: TacStatus)
    requires SameShown(s, s') && Matches(s', t)
    ensures SameAsCode(s, t)
  {
  }

  /** Code showing what a function shows ends as it does, or neither ends. */
  lemma CodeEnds(m: Machine, private: set<SlotId>, f: Func, cfg: Cfg, entry: BlockId, result: Option<Word>,
                 trace: seq<Event>)
    requires forall n: nat :: CodeShows(m, private, f, cfg, entry, n)
    ensures Ends(m, private, f, result, trace) <==>
              exists n: nat :: TacRun(m, private, cfg, entry, n) == TacDone(result, trace)
  {
    hide Run, TacRun;
    if n: nat :| TacRun(m, private, cfg, entry, n) == TacDone(result, trace) {
      assert CodeShows(m, private, f, cfg, entry, n);
      var i: nat :| n <= i && SameAsCode(Run(m, private, f, i), TacRun(m, private, cfg, entry, n));
    }
    if Ends(m, private, f, result, trace) {
      var n: nat :| Run(m, private, f, n) == Done(result, trace);
      assert CodeShows(m, private, f, cfg, entry, n);
      var i: nat :| n <= i && SameAsCode(Run(m, private, f, i), TacRun(m, private, cfg, entry, n));
      Settled(m, private, f, n, i);
      assert TacRun(m, private, cfg, entry, n) == TacDone(result, trace);
    }
  }

  // ---- what the code no longer does ----

  /** No operation of the code names one of the slots. */
  ghost predicate CodeNeverNames(cfg: Cfg, slots: set<SlotId>) {
    forall b: nat, k: nat :: b < |cfg| && k < |cfg[b]| && cfg[b][k].Simple? ==> !NamesAny(cfg[b][k].op, slots)
  }

  ghost predicate ListNeverNames(code: seq<Tac>, slots: set<SlotId>) {
    forall k: nat :: k < |code| && code[k].Simple? ==> !NamesAny(code[k].op, slots)
  }

  /** What the gate lets through nothing else reaches, so once its loads and stores are gone nothing names it. */
  lemma GateLeavesNone(f: Func, f': Func, aggregates: set<SlotId>, eligible: set<SlotId>)
    requires OnlyUndefAdded(f, f') && NeverTouches(f', eligible)
    requires forall s: SlotId :: s in eligible ==> OnlyByName(f, aggregates, s)
    ensures NeverNames(f', eligible)
  {
    hide OnlyByName, Touches, Op.Head;
    forall b: nat, j: nat | b < f'.Size() && j < |f'.blocks[b].insts|
      ensures !NamesAny(f'.blocks[b].insts[j].op, eligible)
    {
      var op := f'.blocks[b].insts[j].op;
      if op.AddrOf? && op.slot in eligible {
        NotReached(f, f', aggregates, b, j, op.slot);
      }
      if (op.ArrayLoad? || op.ArrayStore? || op.ArrayAddr?) && op.base in eligible {
        NotReached(f, f', aggregates, b, j, op.base);
      }
    }
  }

  lemma NotReached(f: Func, f': Func, aggregates: set<SlotId>, b: nat, j: nat, s: SlotId)
    requires OnlyUndefAdded(f, f') && OnlyByName(f, aggregates, s)
    requires b < f'.Size() && j < |f'.blocks[b].insts|
    ensures !ReachesInto(f'.blocks[b].insts[j], s)
  {
    hide Op.Head, ReachesInto, CallsSetjmp;
    var inst := f'.blocks[b].insts[j];
    ReachKeepsHead(inst, s);
    assert Occurs(f'.blocks[b].insts, inst.op.Head());
    assert OccursIn(f', inst.op.Head());
    if inst.op.Head() != Undef {
      var a: BlockId :| a < f.Size() && Occurs(f.blocks[a].insts, inst.op.Head());
      var i: nat :| i < |f.blocks[a].insts| && f.blocks[a].insts[i].op.Head() == inst.op.Head();
      assert Somewhere(f, a, i);
      ReachKeepsHead(f.blocks[a].insts[i], s);
    } else {
      UndefReachesNone(inst, s);
    }
  }

  lemma ReachKeepsHead(inst: Inst, s: SlotId)
    ensures ReachesInto(Inst(None, inst.op.Head()), s) == ReachesInto(inst, s)
  {
  }

  lemma UndefReachesNone(inst: Inst, s: SlotId)
    requires inst.op.Head() == Undef
    ensures !ReachesInto(inst, s)
  {
  }

  lemma InstNamesNone(inst: Inst, slots: set<SlotId>)
    requires !NamesAny(inst.op, slots)
    ensures ListNeverNames(LoweredInst(inst), slots)
  {
    hide NamesAny;
  }

  lemma {:induction false} InstsNameNone(insts: seq<Inst>, slots: set<SlotId>)
    requires forall j: nat :: j < |insts| ==> !NamesAny(insts[j].op, slots)
    ensures ListNeverNames(LoweredInsts(insts), slots)
    decreases |insts|
  {
    hide NamesAny, LoweredInst;
    if insts != [] {
      InstsNameNone(insts[..|insts| - 1], slots);
      InstNamesNone(insts[|insts| - 1], slots);
    }
  }

  lemma BlockNamesNone(f: Func, cfg: Cfg, slots: set<SlotId>, b: BlockId)
    requires NeverNames(f, slots) && Lowered(f, cfg) && b < f.Size()
    ensures b < |cfg| && ListNeverNames(cfg[b], slots)
  {
    assert BlockLowered(f, b, cfg[b]);
    var insts, term := f.blocks[b].insts, f.blocks[b].term;
    var moves: seq<Move>, base: nat :| Owed(f, b, moves, base)
                                       && cfg[b] == LoweredInsts(insts) + AsTac(moves) + LoweredTerm(term);
    InstsNameNone(insts, slots);
    hide Owed, NamesAny, LoweredInsts;
  }

  lemma LoweredNamesNone(f: Func, cfg: Cfg, slots: set<SlotId>)
    requires NeverNames(f, slots) && Lowered(f, cfg)
    ensures CodeNeverNames(cfg, slots)
  {
    forall b: nat | b < |cfg| ensures ListNeverNames(cfg[b], slots) {
      BlockNamesNone(f, cfg, slots, b);
    }
    hide NamesAny, BlockLowered, NeverNames;
  }

  // ---- over the whole memory ----

  ghost predicate WholeAsCode(o: Outside, w: Whole, t: TacStatus) {
    match t
    case TacAt(_, u) => w.WholeAt? && w.m.seen == Replay(o, u.trace).seen
    case TacDone(result, trace) => w == WholeDone(result, Replay(o, trace).seen)
    case TacStuck => w.WholeStuck?
  }

  /** The outside world has seen of the code after `n` blocks what it sees of the function run in memory, after no
      fewer. */
  ghost predicate CodeShowsWhole(o: Outside, slots: set<SlotId>, f: Func, cfg: Cfg, entry: BlockId, n: nat) {
    exists n': nat :: n <= n' && WholeAsCode(o, RunWhole(o, f, n'), TacRun(Behind(o), slots, cfg, entry, n))
  }

  lemma CodeIsWhole(o: Outside, slots: set<SlotId>, f: Func, cfg: Cfg, entry: BlockId, n: nat)
    requires CodeShows(Behind(o), slots, f, cfg, entry, n) && AllDiscreet(slots, f)
    ensures CodeShowsWhole(o, slots, f, cfg, entry, n)
  {
    var t := TacRun(Behind(o), slots, cfg, entry, n);
    hide Run, TacRun, Behind, Replay, RunWhole, AllDiscreet, Cell;
    var n': nat :| n <= n' && SameAsCode(Run(Behind(o), slots, f, n'), t);
    WholeIsSplit(o, slots, f, n');
    assert WholeAsCode(o, RunWhole(o, f, n'), t);
  }

  // ---- the whole way ----

  lemma PromotionShows(f: Func, f': Func, slots: set<SlotId>)
    requires forall m: Machine, private: set<SlotId>, n: nat :: slots <= private ==>
               SameBut(m, Replaced(f, f', slots), Run(m, private, f, n), Run(m, private, f', n))
    ensures KeepsShows(slots, f, f')
  {
    hide Run, Shows;
    forall m: Machine, private: set<SlotId>, n: nat | slots <= private ensures Shows(m, private, f, f', n) {
      assert SameBut(m, Replaced(f, f', slots), Run(m, private, f, n), Run(m, private, f', n));
      SameButShows(m, private, Replaced(f, f', slots), f, f', n);
    }
  }

  lemma GraphKeepsCritical(f: Func, f': Func)
    requires f'.Adjacency() == f.Adjacency() && CriticalFree(f)
    ensures CriticalFree(f')
  {
    assert |f'.Adjacency().preds| == |f.Adjacency().preds|;
    SameGraphNoCritical(f, f');
  }

  /** `f'` is `f` with the slots replaced by values, and nothing else done. */
  ghost predicate IsPromoted(f: Func, f': Func, slots: set<SlotId>) {
    if slots == {} then f' == f
    else exists c: Promo, prologue: nat, nonLocal: set<SlotId> :: PromotedBy(f, f', slots, c, prologue, nonLocal)
  }

  /** The gate, the pass, if asked for the rounds, and the way out of SSA form. */
  method OptimizeThroughSsa(fn: Function, slots: set<SlotId>, aggregates: set<SlotId>, optimize: bool)
    returns (cfg: Cfg, eligible: set<SlotId>)
    requires MemoryForm(fn.View()) && CriticalFree(fn.View()) && fn.Valid()
    modifies fn
    ensures forall s: SlotId :: s in eligible <==> s in slots && OnlyByName(old(fn.View()), aggregates, s)
    ensures ValidSsa(fn.View()) && fn.Valid() && Lowered(fn.View(), cfg)
    ensures OnlyUndefAdded(old(fn.View()), fn.View())
    ensures NeverNames(fn.View(), eligible) && CodeNeverNames(cfg, eligible)
    ensures !optimize ==> IsPromoted(old(fn.View()), fn.View(), eligible)
    ensures optimize ==> CopyProp.NoCopies(fn.View()) && BlockMerging.NothingToMerge(fn.View())
    ensures forall m: Machine, private: set<SlotId>, n: nat :: eligible <= private && m.undef == 0 ==>
              CodeShows(m, private, old(fn.View()), cfg, fn.entry, n)
    ensures forall o: Outside, n: nat :: o.undef == 0 ==>
              CodeShowsWhole(o, eligible, old(fn.View()), cfg, fn.entry, n)
  {
    hide MemoryForm, CriticalFree, WellFormed, OnlyByName, ValidSsa, PhisJoin, KeepsShows, RoundsKeep, SameBut,
         Replaced,
         CopyProp.NoCopies, BlockMerging.NothingToMerge, Lowerable, SingleDefs, Lowered, CodeShows, CodeShowsWhole,
         AllDiscreet, PromotedBy, Behind, Func.Adjacency, OnlyUndefAdded, NoNewHeads, NeverTouches, NeverNames,
         CodeNeverNames;
    ghost var f := fn.View();
    eligible := Promotable(Func(fn.blocks, fn.sites, fn.entry), slots, aggregates);
    PromoteSlots(fn, eligible);
    ghost var promoted := fn.View();
    PromotionShows(f, promoted, eligible);
    GraphKeepsCritical(f, promoted);
    if eligible == {} {
      SameDoesNoMore(f);
    } else {
      ghost var c: Promo, prologue: nat, nonLocal: set<SlotId> :|
        PromotedBy(f, promoted, eligible, c, prologue, nonLocal);
      PromotedDoesNoMore(f, promoted, eligible, c, prologue, nonLocal);
    }
    if optimize {
      Optimize(fn);
      RoundsParts(promoted, fn.View());
      DoesNoMoreInTurn(f, promoted, fn.View());
      NeverTouchesStays(promoted, fn.View(), eligible);
      FewerSlots({}, eligible, promoted, fn.View());
      ShowsInTurn(eligible, f, promoted, fn.View());
    }
    ghost var f' := fn.View();
    JoinsLower(f');
    cfg := ToCfg(Func(fn.blocks, fn.sites, fn.entry));
    GateLeavesNone(f, f', aggregates, eligible);
    LoweredNamesNone(f', cfg, eligible);
    forall m: Machine, private: set<SlotId>, n: nat | eligible <= private && m.undef == 0
      ensures CodeShows(m, private, f, cfg, f'.entry, n)
    {
      LeftCodeShows(m, private, eligible, f, f', cfg, n);
    }
    GateIsDiscreet(f, aggregates, eligible);
    forall o: Outside, n: nat | o.undef == 0
      ensures CodeShowsWhole(o, eligible, f, cfg, f'.entry, n)
    {
      assert Behind(o).undef == 0 by {
        BehindUndef(o);
      }
      CodeIsWhole(o, eligible, f, cfg, f'.entry, n);
    }
  }

  lemma SameDoesNoMore(f: Func)
    ensures OnlyUndefAdded(f, f)
  {
    hide OccursIn;
  }

  lemma DoesNoMoreInTurn(f: Func, f1: Func, f2: Func)
    requires OnlyUndefAdded(f, f1) && NoNewHeads(f1, f2)
    ensures OnlyUndefAdded(f, f2)
  {
    hide OccursIn;
  }

  lemma BehindUndef(o: Outside)
    ensures Behind(o).undef == o.undef
  {
  }

  lemma RoundsParts(f: Func, f': Func)
    requires RoundsKeep(f, f')
    ensures ValidSsa(f') && WellFormed(f') && KeepsShows({}, f, f')
    ensures (PhisJoin(f) ==> PhisJoin(f')) && (CriticalFree(f) ==> CriticalFree(f')) && NoNewHeads(f, f')
  {
  }
}
