/** Promoting exactly the slots the gate admits, over one memory that indexing and the outside world can change. */
module PromotedWhole {
  import opened IdomTree
  import opened Ssa
  import opened SlotUses
  import opened Rewrites
  import opened SsaValid
  import opened Functions
  import opened RenameSpec
  import opened Promotion
  import opened RenameSteps
  import opened Prepare
  import opened Promoted
  import opened Mem2Reg
  import opened WholeMemory

  /** Two runs at the same place, having shown the outside world the same, with the same values and the same
      memory but for what is `dead`. */
  ghost predicate SameWhole(o: Outside, dead: Dead, a: Whole, b: Whole) {
    match a
    case WholeAt(x, vals, m) =>
      && b.WholeAt? && b.block == x && b.m.seen == m.seen && b.m.taken == m.taken
      && (forall v: ValueId :: v !in dead.values ==> Reading(vals).Read(Value(v)) == Reading(b.vals).Read(Value(v)))
      && (forall s: SlotId :: s !in dead.slots ==> Cell(o, m.cells, s) == Cell(o, b.m.cells, s))
    case WholeDone(_, _) => b == a
    case WholeStuck => b == a
  }

  // ---- promotion adds nothing that reaches a slot ----

  lemma SubDiscreet(slots: set<SlotId>, sub: Substitution, dest: Option<ValueId>, op: Op)
    requires Discreet(slots, Inst(dest, op))
    ensures Discreet(slots, Inst(dest, SubOp(sub, op)))
  {
    forall s: SlotId
      ensures ReachesInto(Inst(dest, SubOp(sub, op)), s) == ReachesInto(Inst(dest, op), s)
    {
    }
  }

  lemma RenamedDiscreet(f: Func, c: Promo, prologue: nat, b: BlockId, j: nat)
    requires Prepared(f, c, prologue) && AllDiscreet(c.slots, f) && b < c.f.Size() && j < |c.f.blocks[b].insts|
    ensures Discreet(c.slots, RenamedInst(c, b, j))
  {
    InstCame(f, c, prologue, b, j);
    var inst := c.f.blocks[b].insts[j];
    assert Discreet(c.slots, inst);
    hide Discreet, Prepared, SubOp, AllDiscreet;
    SubDiscreet(c.slots, c.EnvBefore(b, j).sub, inst.dest, inst.op);
  }

  ghost predicate InstsDiscreet(slots: set<SlotId>, insts: seq<Inst>) {
    forall i: nat :: i < |insts| ==> Discreet(slots, insts[i])
  }

  lemma ErasedDiscreet(slots: set<SlotId>, dead: Dead, insts: seq<Inst>)
    requires InstsDiscreet(slots, insts)
    ensures InstsDiscreet(slots, EraseInsts(dead, insts))
  {
    hide Discreet, EraseInsts;
    forall j: nat | j < |EraseInsts(dead, insts)| ensures Discreet(slots, EraseInsts(dead, insts)[j]) {
      var i := Erasure.Origin(dead, insts, j);
    }
  }

  lemma SlimDiscreet(f: Func, c: Promo, prologue: nat, b: BlockId)
    requires Prepared(f, c, prologue) && AllDiscreet(c.slots, f) && b < c.f.Size()
    ensures Slim(c).Size() == c.f.Size() && InstsDiscreet(c.slots, Slim(c).blocks[b].insts)
  {
    SlimIs(c);
    hide Slim, Prepared, AllDiscreet, Discreet, Gone, RenamedInst, EraseInsts;
    forall j: nat | j < |RenamedInsts(c, b)| ensures Discreet(c.slots, RenamedInsts(c, b)[j]) {
      RenamedDiscreet(f, c, prologue, b, j);
    }
    ErasedDiscreet(c.slots, Gone(c), RenamedInsts(c, b));
  }

  lemma SlimmerDiscreet(f: Func, c: Promo, prologue: nat, b: BlockId)
    requires Prepared(f, c, prologue) && AllDiscreet(c.slots, f) && b < c.f.Size()
    ensures Slimmer(c).Size() == c.f.Size() && InstsDiscreet(c.slots, Slimmer(c).blocks[b].insts)
  {
    SlimDiscreet(f, c, prologue, b);
    SlimmerIs(c);
    hide Slim, Slimmer, Prepared, AllDiscreet, Discreet, EraseInsts;
    ErasedDiscreet(c.slots, OnlyUndef(c), Slim(c).blocks[b].insts);
  }

  lemma AllInstsDiscreet(slots: set<SlotId>, f: Func)
    requires forall b: BlockId :: b < f.Size() ==> InstsDiscreet(slots, f.blocks[b].insts)
    ensures AllDiscreet(slots, f)
  {
    hide Discreet;
  }

  lemma PromotedDiscreet(f: Func, f': Func, slots: set<SlotId>, c: Promo, prologue: nat, nonLocal: set<SlotId>)
    requires PromotedBy(f, f', slots, c, prologue, nonLocal) && AllDiscreet(slots, f)
    ensures AllDiscreet(slots, f')
  {
    PromotedParts(f, f', slots, c, prologue, nonLocal);
    SlimIs(c);
    SlimmerIs(c);
    hide *;
    forall b: BlockId | b < c.f.Size()
      ensures InstsDiscreet(slots, f'.blocks[b].insts)
    {
      SlimDiscreet(f, c, prologue, b);
      SlimmerDiscreet(f, c, prologue, b);
    }
    AllInstsDiscreet(slots, f');
  }

  // ---- the runs ----

  lemma SplitAlike(o: Outside, slots: set<SlotId>, dead: Dead, a: Whole, b: Whole, s: Status, t: Status)
    requires Corresponds(o, slots, a, s) && Corresponds(o, slots, b, t)
    requires SameBut(Behind(o), dead, s, t) && slots <= dead.slots
    ensures SameWhole(o, dead, a, b)
  {
    hide Replay, Behind;
    if s.At? {
      forall v: ValueId | v !in dead.values
        ensures Reading(a.vals).Read(Value(v)) == Reading(b.vals).Read(Value(v))
      {
        assert s.st.Read(Value(v)) == t.st.Read(Value(v));
      }
      forall r: SlotId | r !in dead.slots ensures Cell(o, a.m.cells, r) == Cell(o, b.m.cells, r) {
        assert Cell(o, a.m.cells, r) == Cell(o, Replay(o, s.st.trace).cells, r);
        assert Cell(o, b.m.cells, r) == Cell(o, Replay(o, t.st.trace).cells, r);
      }
    }
  }

  /** Promoting slots that are reached only by name keeps every run over the whole memory: the same blocks, the
      same things shown to the outside world, the same result, and every value and slot not replaced the same. */
  lemma PromotionKeepsWholeRuns(f: Func, f': Func, slots: set<SlotId>, c: Promo, prologue: nat, nonLocal: set<SlotId>,
                                o: Outside, n: nat)
    requires PromotedBy(f, f', slots, c, prologue, nonLocal) && AllDiscreet(slots, f)
    ensures SameWhole(o, Replaced(f, f', slots), RunWhole(o, f, n), RunWhole(o, f', n))
  {
    PromotedDiscreet(f, f', slots, c, prologue, nonLocal);
    assert slots <= Replaced(f, f', slots).slots;
    hide *;
    WholeIsSplit(o, slots, f, n);
    WholeIsSplit(o, slots, f', n);
    PromotionKeepsRuns(f, f', slots, c, prologue, nonLocal, Behind(o), slots, n);
    SplitAlike(o, slots, Replaced(f, f', slots), RunWhole(o, f, n), RunWhole(o, f', n),
               Run(Behind(o), slots, f, n), Run(Behind(o), slots, f', n));
  }

  lemma WholeAlready(o: Outside, dead: Dead, w: Whole)
    ensures SameWhole(o, dead, w, w)
  {
  }

  lemma GateIsDiscreet(f: Func, aggregates: set<SlotId>, eligible: set<SlotId>)
    requires forall s: SlotId :: s in eligible ==> OnlyByName(f, aggregates, s)
    ensures AllDiscreet(eligible, f)
  {
    forall b: BlockId, i: nat | b < f.Size() && i < |f.blocks[b].insts|
      ensures Discreet(eligible, f.blocks[b].insts[i])
    {
      assert Somewhere(f, b, i);
      if eligible != {} {
        var one :| one in eligible;
        assert OnlyByName(f, aggregates, one);
      }
    }
  }

  /** The gate and the pass together: of `slots`, those reached only by name become values, and every run over the
      whole memory stays what it was. */
  method PromoteEligible(fn: Function, slots: set<SlotId>, aggregates: set<SlotId>) returns (eligible: set<SlotId>)
    requires MemoryForm(fn.View())
    modifies fn
    ensures forall s: SlotId :: s in eligible <==> s in slots && OnlyByName(old(fn.View()), aggregates, s)
    ensures ValidSsa(fn.View())
    ensures eligible == {} ==> fn.View() == old(fn.View())
    ensures eligible != {} ==> exists c: Promo, prologue: nat, nonLocal: set<SlotId> ::
              PromotedBy(old(fn.View()), fn.View(), eligible, c, prologue, nonLocal)
    ensures forall o: Outside, n: nat ::
              SameWhole(o, Replaced(old(fn.View()), fn.View(), eligible),
                        RunWhole(o, old(fn.View()), n), RunWhole(o, fn.View(), n))
  {
    ghost var f := fn.View();
    eligible := Promotable(Func(fn.blocks, fn.sites, fn.entry), slots, aggregates);
    PromoteSlots(fn, eligible);
    ghost var f' := fn.View();
    forall o: Outside, n: nat
      ensures SameWhole(o, Replaced(f, f', eligible), RunWhole(o, f, n), RunWhole(o, f', n))
    {
      WholeAlready(o, Replaced(f, f', eligible), RunWhole(o, f, n));
      if eligible != {} {
        GateIsDiscreet(f, aggregates, eligible);
        hide *;
        ghost var c: Promo, prologue: nat, nonLocal: set<SlotId> :|
          PromotedBy(f, f', eligible, c, prologue, nonLocal);
        PromotionKeepsWholeRuns(f, f', eligible, c, prologue, nonLocal, o, n);
      }
    }
  }
}
