/** What a promoted function still does: only what it did, without the promoted loads and stores. */
module PromotedHeads {
  import opened IdomTree
  import opened Ssa
  import opened Rewrites
  import opened Heads
  import opened RenameSpec
  import opened Promotion
  import opened RenameSteps
  import opened Prepare
  import opened Promoted
  import opened Mem2Reg
  import Erasure

  /** `f'` does nothing that `f` did not, but for reading an undefined variable. */
  ghost predicate OnlyUndefAdded(f: Func, f': Func) {
    forall head: Op :: OccursIn(f', head) ==> head == Undef || OccursIn(f, head)
  }

  /** Every instruction does what one of `f` does, or reads an undefined variable. */
  ghost predicate OldOrUndef(f: Func, insts: seq<Inst>) {
    forall i: nat :: i < |insts| ==> insts[i].op == Undef || OccursIn(f, insts[i].op.Head())
  }

  lemma ErasedOldOrUndef(f: Func, dead: Dead, insts: seq<Inst>)
    requires OldOrUndef(f, insts)
    ensures OldOrUndef(f, EraseInsts(dead, insts))
  {
    hide EraseInsts, OccursIn, Op.Head;
    forall j: nat | j < |EraseInsts(dead, insts)|
      ensures EraseInsts(dead, insts)[j].op == Undef || OccursIn(f, EraseInsts(dead, insts)[j].op.Head())
    {
      var i := Erasure.Origin(dead, insts, j);
    }
  }

  lemma RenamedOldOrUndef(f: Func, c: Promo, prologue: nat, b: BlockId)
    requires Prepared(f, c, prologue) && b < c.f.Size()
    ensures OldOrUndef(f, RenamedInsts(c, b))
  {
    forall j: nat | j < |RenamedInsts(c, b)|
      ensures RenamedInsts(c, b)[j].op == Undef || OccursIn(f, RenamedInsts(c, b)[j].op.Head())
    {
      InstCame(f, c, prologue, b, j);
      var op := c.f.blocks[b].insts[j].op;
      SubKeepsHead(c.EnvBefore(b, j).sub, op);
      if !(b == f.entry && j == prologue) {
        assert Occurs(f.blocks[b].insts, op.Head());
      }
    }
    hide OccursIn;
  }

  lemma SlimOldOrUndef(f: Func, c: Promo, prologue: nat, b: BlockId)
    requires Prepared(f, c, prologue) && b < c.f.Size()
    ensures Slim(c).Size() == c.f.Size() && Slimmer(c).Size() == c.f.Size()
    ensures OldOrUndef(f, Slim(c).blocks[b].insts) && OldOrUndef(f, Slimmer(c).blocks[b].insts)
  {
    SlimIs(c);
    SlimmerIs(c);
    hide Prepared, Slim, Slimmer, OldOrUndef, EraseInsts, RenamedInsts, Gone;
    RenamedOldOrUndef(f, c, prologue, b);
    ErasedOldOrUndef(f, Gone(c), RenamedInsts(c, b));
    ErasedOldOrUndef(f, OnlyUndef(c), Slim(c).blocks[b].insts);
  }

  lemma BlocksOldOrUndef(f: Func, f': Func)
    requires forall b: BlockId :: b < f'.Size() ==> OldOrUndef(f, f'.blocks[b].insts)
    ensures OnlyUndefAdded(f, f')
  {
    forall head: Op | OccursIn(f', head) ensures head == Undef || OccursIn(f, head) {
      var b: BlockId :| b < f'.Size() && Occurs(f'.blocks[b].insts, head);
      var i: nat :| i < |f'.blocks[b].insts| && f'.blocks[b].insts[i].op.Head() == head;
      assert OldOrUndef(f, f'.blocks[b].insts);
      UndefIsItsHead();
    }
    hide OccursIn, Op.Head;
  }

  lemma UndefIsItsHead()
    ensures Undef.Head() == Undef
  {
  }

  lemma PromotedDoesNoMore(f: Func, f': Func, slots: set<SlotId>, c: Promo, prologue: nat, nonLocal: set<SlotId>)
    requires PromotedBy(f, f', slots, c, prologue, nonLocal)
    ensures OnlyUndefAdded(f, f')
  {
    PromotedParts(f, f', slots, c, prologue, nonLocal);
    SlimIs(c);
    SlimmerIs(c);
    hide *;
    forall b: BlockId | b < c.f.Size() ensures OldOrUndef(f, f'.blocks[b].insts) {
      SlimOldOrUndef(f, c, prologue, b);
    }
    BlocksOldOrUndef(f, f');
  }
}
