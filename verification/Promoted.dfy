/** What promotion leaves: valid SSA that runs as the function in memory did. */
module Promoted {
  import opened Graphs
  import opened IdomTree
  import opened DomFixpoint
  import opened Ssa
  import opened Rewrites
  import opened SsaValid
  import opened Erasure
  import opened RenameSpec
  import opened Promotion
  import opened RenameSteps
  import opened RenameBlocks
  import opened Prepare

  // ---- the renamed function is valid ----

  lemma SeenIsAvailable(c: Promo, b: BlockId, j: nat, v: ValueId)
    requires c.Sound() && b < c.f.Size() && j <= |c.f.blocks[b].insts| && v in c.EnvBefore(b, j).seen
    ensures AvailableAt(c.f, v, Point(b, j + 1))
  {
    var insts := c.f.blocks[b].insts;
    StepsSee(c, c.Start(b), insts, j, v);
    if i: nat :| i < j && insts[i].dest == Some(v) {
      assert DefinedAt(c.f, v, Point(b, i + 1));
    } else {
      PhisSee(c, c.In(b), c.f.blocks[b].phis, v);
      if Writes(c.f.blocks[b].phis, v) {
        assert DefinedAt(c.f, v, Point(b, 0));
      } else {
        var p := SeenIsInDominator(c, b, v);
        assert Before(c.f.Adjacency(), p, Point(b, j + 1));
      }
    }
  }

  lemma UndefIsAvailable(c: Promo, prologue: nat, b: BlockId, j: nat)
    requires c.Sound() && UndefAt(c, prologue) && b < c.f.Size() && (b == c.f.entry ==> prologue < j)
    ensures AvailableAt(c.f, c.undef, Point(b, j + 1))
  {
    var p := Point(c.f.entry, prologue + 1);
    assert DefinedAt(c.f, c.undef, p);
    if b != c.f.entry {
      EntryIsAnc(c.tree, b);
      assert c.tree.Anc(c.f.entry, b) <==> c.f.Adjacency().Dom(c.f.entry, b);
    }
    assert Before(c.f.Adjacency(), p, Point(b, j + 1));
  }

  lemma NameIsOk(c: Promo, prologue: nat, b: BlockId, j: nat, o: Operand)
    requires c.Sound() && UndefAt(c, prologue) && b < c.f.Size() && j <= |c.f.blocks[b].insts|
    requires b == c.f.entry ==> prologue < j
    requires OperandSeen(c, c.EnvBefore(b, j), o)
    ensures OperandOk(c.f, o, Point(b, j + 1))
  {
    if o.Value? {
      if o.id in c.EnvBefore(b, j).seen {
        SeenIsAvailable(c, b, j, o.id);
      } else {
        UndefIsAvailable(c, prologue, b, j);
      }
    }
  }

  lemma SubstitutedNamesOk(c: Promo, prologue: nat, b: BlockId, j: nat, os: seq<Operand>)
    requires c.Sound() && UndefAt(c, prologue) && !IsLoad(c, c.undef) && b < c.f.Size() && j <= |c.f.blocks[b].insts|
    requires b == c.f.entry && j <= prologue ==> os == []
    requires AllOk(c.f, os, Point(b, j + 1))
    ensures AllOk(c.f, SubAll(c.EnvBefore(b, j).sub, os), Point(b, j + 1))
  {
    EnvsOk(c, b);
    BodyKeepsOk(c, b, j);
    forall i: nat | i < |os|
      ensures OperandOk(c.f, SubAll(c.EnvBefore(b, j).sub, os)[i], Point(b, j + 1))
    {
      assert OperandOk(c.f, os[i], Point(b, j + 1));
      SubstitutedSeen(c, b, j, os[i]);
      NameIsOk(c, prologue, b, j, SubOperand(c.EnvBefore(b, j).sub, os[i]));
    }
  }

  lemma RenamedInstOk(c: Promo, prologue: nat, b: BlockId, j: nat)
    requires c.Sound() && UndefAt(c, prologue) && !IsLoad(c, c.undef) && b < c.f.Size() && j < |c.f.blocks[b].insts|
    ensures AllOk(c.f, RenamedInst(c, b, j).op.Operands(), Point(b, j + 1))
    ensures RenamedInst(c, b, j).dest == c.f.blocks[b].insts[j].dest
    ensures RenamedInst(c, b, j).op.DefinesValue() == c.f.blocks[b].insts[j].op.DefinesValue()
  {
    var inst := c.f.blocks[b].insts[j];
    OnReads(inst.op, SubAll(c.EnvBefore(b, j).sub, inst.op.Operands()));
    assert AllOk(c.f, inst.op.Operands(), Point(b, j + 1));
    assert b == c.f.entry && j <= prologue ==> inst.op.Operands() == [];
    SubstitutedNamesOk(c, prologue, b, j, inst.op.Operands());
  }

  lemma FilledArgOk(c: Promo, prologue: nat, b: BlockId, i: nat, s: SlotId)
    requires c.Sound() && UndefAt(c, prologue) && !IsLoad(c, c.undef) && b < c.f.Size() && i < |c.f.blocks[b].preds|
    ensures OperandOk(c.f, c.Cur(c.Out(c.f.blocks[b].preds[i]), s), End(c.f, c.f.blocks[b].preds[i]))
  {
    var a := c.f.blocks[b].preds[i];
    assert c.f.Adjacency().preds[b][i] < c.f.Size();
    EnvsOk(c, a);
    CurIsSeen(c, c.Out(a), s);
    var insts := c.f.blocks[a].insts;
    assert insts[..|insts|] == insts;
    NameIsOk(c, prologue, a, |insts|, c.Cur(c.Out(a), s));
  }

  lemma RenamedBlockOk(c: Promo, prologue: nat, b: BlockId)
    requires c.Sound() && UndefAt(c, prologue) && !IsLoad(c, c.undef) && b < c.f.Size()
    ensures UsesOkIn(c.f, RenamedBlock(c, b), b)
  {
    var insts := c.f.blocks[b].insts;
    forall j: nat | j < |insts| ensures AllOk(c.f, RenamedInst(c, b, j).op.Operands(), Point(b, j + 1)) {
      RenamedInstOk(c, prologue, b, j);
    }
    var term := c.f.blocks[b].term;
    assert insts[..|insts|] == insts;
    assert AllOk(c.f, term.Operands(), End(c.f, b));
    SubstitutedNamesOk(c, prologue, b, |insts|, term.Operands());
    assert SubTerm(c.Out(b).sub, term).Operands() == SubAll(c.Out(b).sub, term.Operands());
    forall k: nat, i: nat | k < |c.f.blocks[b].phis| && i < |c.f.blocks[b].preds|
      ensures OperandOk(c.f, FilledPhi(c, b, c.f.blocks[b].phis[k]).args[i], End(c.f, c.f.blocks[b].preds[i]))
    {
      FilledArgOk(c, prologue, b, i, c.f.blocks[b].phis[k].slot);
    }
    hide AllOk, OperandOk, Promo.Sound, RenamedInst, SubTerm, SubAll;
  }

  lemma RenamedAlike(c: Promo, prologue: nat, b: BlockId)
    requires c.Sound() && UndefAt(c, prologue) && !IsLoad(c, c.undef) && b < c.f.Size()
    ensures AlikeBlock(c.f.blocks[b], RenamedBlock(c, b))
  {
    forall j: nat | j < |c.f.blocks[b].insts|
      ensures RenamedInst(c, b, j).dest == c.f.blocks[b].insts[j].dest
      ensures RenamedInst(c, b, j).op.DefinesValue() == c.f.blocks[b].insts[j].op.DefinesValue()
    {
      RenamedInstOk(c, prologue, b, j);
    }
    SameSuccessors(c.Out(b).sub, c.f.blocks[b].term);
    forall k: nat | k < |c.f.blocks[b].phis|
      ensures FilledPhi(c, b, c.f.blocks[b].phis[k]).dest == c.f.blocks[b].phis[k].dest
      ensures |FilledPhi(c, b, c.f.blocks[b].phis[k]).args| == |c.f.blocks[b].phis[k].args|
    {
    }
    hide RenamedInst, FilledPhi, SubTerm;
  }

  /** Before anything is dropped, the renamed function is valid SSA. */
  lemma RenamedIsValid(c: Promo, prologue: nat)
    requires c.Sound() && UndefAt(c, prologue) && !IsLoad(c, c.undef)
    ensures ValidSsa(Renamed(c))
  {
    var f := Renamed(c);
    forall b: nat | b < c.f.Size()
      ensures AlikeBlock(c.f.blocks[b], f.blocks[b]) && UsesOkIn(c.f, f.blocks[b], b)
    {
      RenamedBlockOk(c, prologue, b);
      RenamedAlike(c, prologue, b);
      assert f.blocks[b] == RenamedBlock(c, b);
    }
    ReadingElseKeepsValid(c.f, f);
    hide AlikeBlock, UsesOkIn, RenamedBlock;
  }

  // ---- what promotion makes of a function ----

  /** The renamed function without the promoted loads and stores. */
  ghost function Slim(c: Promo): Func {
    c.f.(blocks := EraseBlocks(Gone(c), Renamed(c).blocks))
  }

  ghost function OnlyUndef(c: Promo): Dead {
    Dead({c.undef}, {})
  }

  /** The undefined value goes too if nothing reads it. */
  ghost function Slimmer(c: Promo): Func {
    c.f.(blocks := EraseBlocks(OnlyUndef(c), Slim(c).blocks))
  }

  /** `f'` is what promoting `slots` makes of `f`, by way of the prepared function `c.f`. */
  ghost predicate PromotedBy(f: Func, f': Func, slots: set<SlotId>, c: Promo, prologue: nat, nonLocal: set<SlotId>) {
    && MemoryForm(f) && Prepared(f, c, prologue) && Ready(c, nonLocal, prologue) && c.slots == slots
    && PhisNonLocal(c, nonLocal)
    && (f' == Slim(c) || (f' == Slimmer(c) && FuncAvoids(c.undef, Slim(c))))
  }

  /** Only slots read across an edge have phis. */
  ghost predicate PhisNonLocal(c: Promo, nonLocal: set<SlotId>) {
    forall b: nat, k: nat :: b < c.f.Size() && k < |c.f.blocks[b].phis| ==> c.f.blocks[b].phis[k].slot in nonLocal
  }

  /** The results of the loads of `slots`. */
  ghost function Loaded(f: Func, slots: set<SlotId>): set<ValueId> {
    set b: nat, i: nat {:trigger f.blocks[b].insts[i]} |
      b < f.Size() && i < |f.blocks[b].insts| && f.blocks[b].insts[i].op.SlotLoad? &&
      f.blocks[b].insts[i].op.slot in slots
      && f.blocks[b].insts[i].dest.Some?
      :: f.blocks[b].insts[i].dest.value
  }

  /** What a promoted function lacks or adds: the promoted loads' results, values `f` did not have, and
      the memory of the slots. */
  ghost function Replaced(f: Func, f': Func, slots: set<SlotId>): Dead {
    Dead(Loaded(f, slots) + NewValues(|f.sites|, |f'.sites|), slots)
  }

  lemma LoadedCame(f: Func, c: Promo, prologue: nat, v: ValueId)
    requires Prepared(f, c, prologue) && v in LoadResults(c)
    ensures v in Loaded(f, c.slots)
  {
    var b: nat, j: nat :| b < c.f.Size() && j < |c.f.blocks[b].insts| && c.Loads(c.f.blocks[b].insts[j])
                          && c.f.blocks[b].insts[j].dest.value == v;
    InstCame(f, c, prologue, b, j);
    assert f.blocks[b].insts[Prepare.Origin(f, prologue, b, j)].op.SlotLoad?;
  }

  ghost predicate Within(d: Dead, e: Dead) {
    d.values <= e.values && d.slots <= e.slots
  }

  lemma SameInTurn(m: Machine, d: Dead, d1: Dead, d2: Dead, a: Status, b: Status, x: Status)
    requires SameBut(m, d1, a, b) && SameBut(m, d2, b, x) && Within(d1, d) && Within(d2, d)
    ensures SameBut(m, d, a, x)
  {
    if a.At? {
      forall v: ValueId | v !in d.values ensures a.st.Read(Value(v)) == x.st.Read(Value(v)) {
        assert a.st.Read(Value(v)) == b.st.Read(Value(v));
        assert b.st.Read(Value(v)) == x.st.Read(Value(v));
      }
      forall s: SlotId | s !in d.slots ensures a.st.Slot(m, s) == x.st.Slot(m, s) {
        assert a.st.Slot(m, s) == b.st.Slot(m, s);
        assert b.st.Slot(m, s) == x.st.Slot(m, s);
      }
    }
  }

  lemma SameBackwards(m: Machine, d: Dead, a: Status, b: Status)
    requires SameBut(m, d, a, b)
    ensures SameBut(m, d, b, a)
  {
  }

  lemma UndefInst(c: Promo, prologue: nat, private: set<SlotId>, b: BlockId, j: nat)
    requires SingleDefs(c.f) && UndefAt(c, prologue) && b < c.f.Size() && j < |c.f.blocks[b].insts|
    requires c.f.blocks[b].insts[j].dest == Some(c.undef)
    ensures RenamedInst(c, b, j).op.Undef?
  {
    assert DefinedAt(c.f, c.undef, Point(c.f.entry, prologue + 1));
    assert DefinedAt(c.f, c.undef, Point(b, j + 1));
  }

  lemma AvoidsIsUnread(c: Promo, os: seq<Operand>)
    requires AllAvoid(c.undef, os)
    ensures Unread(OnlyUndef(c), os)
  {
    forall i: nat | i < |os| ensures !(os[i].Value? && os[i].id in OnlyUndef(c).values) {
      assert Avoids(c.undef, os[i]);
    }
  }

  lemma SlimBlockErasable(c: Promo, prologue: nat, private: set<SlotId>, b: BlockId)
    requires c.Sound() && UndefAt(c, prologue) && b < c.f.Size() &&
             BlockAvoids(c.undef, EraseBlock(Gone(c), RenamedBlock(c, b)))
    ensures BlockErasable(private, OnlyUndef(c), EraseBlock(Gone(c), RenamedBlock(c, b)))
  {
    var block := EraseBlock(Gone(c), RenamedBlock(c, b));
    var dead := OnlyUndef(c);
    forall i: nat | i < |block.insts| ensures InstErasable(private, dead, block.insts[i]) {
      var j := Erasure.Origin(Gone(c), RenamedInsts(c, b), i);
      assert block.insts[i] == RenamedInst(c, b, j);
      if block.insts[i].dest == Some(c.undef) {
        UndefInst(c, prologue, private, b, j);
      }
      AvoidsIsUnread(c, block.insts[i].op.Operands());
    }
    forall k: nat | k < |block.phis| ensures PhiErasable(dead, block.phis[k]) {
      AvoidsIsUnread(c, block.phis[k].args);
    }
    AvoidsIsUnread(c, block.term.Operands());
    hide Promo.Sound, AllAvoid, Unread, RenamedInst, RenamedInsts, EraseInsts, ErasePhis;
  }

  lemma SlimIs(c: Promo)
    ensures Slim(c).Size() == c.f.Size() && Slim(c).entry == c.f.entry && Slim(c).sites == c.f.sites
    ensures forall b: nat :: b < c.f.Size() ==> Slim(c).blocks[b] == EraseBlock(Gone(c), RenamedBlock(c, b))
  {
  }

  lemma SlimErasable(c: Promo, prologue: nat, private: set<SlotId>)
    requires c.Sound() && UndefAt(c, prologue) && FuncAvoids(c.undef, Slim(c))
    ensures Erasable(private, OnlyUndef(c), Slim(c))
  {
    SlimIs(c);
    forall b: nat | b < c.f.Size() ensures BlockErasable(private, OnlyUndef(c), Slim(c).blocks[b]) {
      assert BlockAvoids(c.undef, Slim(c).blocks[b]);
      SlimBlockErasable(c, prologue, private, b);
    }
    hide Promo.Sound, BlockAvoids, BlockErasable, Slim, RenamedBlock, EraseBlock;
  }

  lemma SlimRuns(c: Promo, m: Machine, private: set<SlotId>, nonLocal: set<SlotId>, prologue: nat, n: nat)
    requires Ready(c, nonLocal, prologue) && c.slots <= private
    ensures SameBut(m, Gone(c), Run(m, private, Filled(c), n), Run(m, private, Slim(c), n))
  {
    DroppingKeepsRuns(c, m, private, nonLocal, prologue, Slim(c), n);
  }

  lemma SlimmerRuns(c: Promo, m: Machine, private: set<SlotId>, nonLocal: set<SlotId>, prologue: nat, n: nat)
    requires Ready(c, nonLocal, prologue) && FuncAvoids(c.undef, Slim(c))
    ensures SameBut(m, OnlyUndef(c), Run(m, private, Slim(c), n), Run(m, private, Slimmer(c), n))
  {
    SlimErasable(c, prologue, private);
    EraseKeepsRuns(m, private, OnlyUndef(c), Slim(c), Slimmer(c), n);
  }

  lemma ReplacedHolds(f: Func, f': Func, slots: set<SlotId>, c: Promo, prologue: nat, nonLocal: set<SlotId>)
    requires PromotedBy(f, f', slots, c, prologue, nonLocal)
    ensures Within(Added(f, c), Replaced(f, f', slots)) && Within(Gone(c), Replaced(f, f', slots))
    ensures Within(OnlyUndef(c), Replaced(f, f', slots))
  {
    assert f'.sites == c.f.sites;
    forall v: ValueId | v in LoadResults(c) ensures v in Loaded(f, slots) {
      LoadedCame(f, c, prologue, v);
    }
    hide LoadResults, Loaded, MemoryForm, Ready, FuncAvoids, PhisNonLocal, Renamed;
  }

  /** Promotion preserves meaning: every run of the promoted function takes the blocks the run in
      memory takes, with the same events and result, and every value that is not a promoted load's is
      what it was, as is every other slot's memory. */
  lemma PromotionKeepsRuns(f: Func, f': Func, slots: set<SlotId>, c: Promo, prologue: nat, nonLocal: set<SlotId>,
                           m: Machine, private: set<SlotId>, n: nat)
    requires PromotedBy(f, f', slots, c, prologue, nonLocal) && slots <= private
    ensures SameBut(m, Replaced(f, f', slots), Run(m, private, f, n), Run(m, private, f', n))
  {
    var d := Replaced(f, f', slots);
    ReplacedHolds(f, f', slots, c, prologue, nonLocal);
    PromotedParts(f, f', slots, c, prologue, nonLocal);
    hide *;
    PreparingKeepsRuns(f, c, prologue, m, private, n);
    SameBackwards(m, Added(f, c), Run(m, private, Filled(c), n), Run(m, private, f, n));
    SlimRuns(c, m, private, nonLocal, prologue, n);
    SameInTurn(m, d, Added(f, c), Gone(c), Run(m, private, f, n), Run(m, private, Filled(c), n),
               Run(m, private, Slim(c), n));
    if f' != Slim(c) {
      SlimmerRuns(c, m, private, nonLocal, prologue, n);
      WithinItself(d);
      SameInTurn(m, d, d, OnlyUndef(c), Run(m, private, f, n), Run(m, private, Slim(c), n), Run(m, private, f', n));
    }
  }

  lemma WithinItself(d: Dead)
    ensures Within(d, d)
  {
  }

  lemma PromotedParts(f: Func, f': Func, slots: set<SlotId>, c: Promo, prologue: nat, nonLocal: set<SlotId>)
    requires PromotedBy(f, f', slots, c, prologue, nonLocal)
    ensures MemoryForm(f) && Prepared(f, c, prologue) && Ready(c, nonLocal, prologue) && c.slots == slots
    ensures f' == Slim(c) || (f' == Slimmer(c) && FuncAvoids(c.undef, Slim(c)))
    ensures PhisNonLocal(c, nonLocal)
    ensures c.Sound() && UndefAt(c, prologue) && !IsLoad(c, c.undef)
  {
    UndefIsNoLoad(c, prologue);
    hide MemoryForm, Prepared, Promo.Sound, FuncAvoids, Slim, Slimmer, UndefAt, IsLoad;
  }

  /** The promoted function is valid SSA: every use is dominated by its definition. */
  lemma PromotionIsValid(f: Func, f': Func, slots: set<SlotId>, c: Promo, prologue: nat, nonLocal: set<SlotId>)
    requires PromotedBy(f, f', slots, c, prologue, nonLocal)
    ensures ValidSsa(f')
  {
    PromotedParts(f, f', slots, c, prologue, nonLocal);
    SlimIs(c);
    RenamedIsValid(c, prologue);
    RenamedErasable(c, slots);
    SlimIsErased(c);
    hide *;
    ErasureKeepsValid(slots, Gone(c), Renamed(c), Slim(c));
    if f' != Slim(c) {
      SlimErasable(c, prologue, slots);
      ErasureKeepsValid(slots, OnlyUndef(c), Slim(c), Slimmer(c));
    }
  }

  lemma SlimIsErased(c: Promo)
    ensures Erased(Renamed(c), Slim(c), Gone(c))
    ensures Erased(Slim(c), Slimmer(c), OnlyUndef(c))
  {
    hide EraseBlocks, Gone;
  }
}
