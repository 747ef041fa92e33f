/** Which operations a function has, whatever they read. */
module Heads {
  import opened IdomTree
  import opened Ssa
  import opened Rewrites
  import opened SsaValid

  /** Some instruction of the list is this operation. */
  ghost predicate Occurs(insts: seq<Inst>, head: Op) {
    exists i: nat :: i < |insts| && insts[i].op.Head() == head
  }

  ghost predicate OccursIn(f: Func, head: Op) {
    exists b: BlockId :: b < f.Size() && Occurs(f.blocks[b].insts, head)
  }

  /** `f'` does nothing that `f` did not. */
  ghost predicate NoNewHeads(f: Func, f': Func) {
    forall head: Op :: OccursIn(f', head) ==> OccursIn(f, head)
  }

  lemma HeadsInTurn(f: Func, f1: Func, f2: Func)
    requires NoNewHeads(f, f1) && NoNewHeads(f1, f2)
    ensures NoNewHeads(f, f2)
  {
    hide OccursIn;
  }

  /** A block whose instructions all come from blocks of `f`. */
  ghost predicate HeadsFrom(f: Func, insts: seq<Inst>) {
    forall head: Op :: Occurs(insts, head) ==> OccursIn(f, head)
  }

  lemma BlocksFrom(f: Func, f': Func)
    requires forall b: BlockId :: b < f'.Size() ==> HeadsFrom(f, f'.blocks[b].insts)
    ensures NoNewHeads(f, f')
  {
    hide Occurs;
    forall head: Op | OccursIn(f', head) ensures OccursIn(f, head) {
      var b: BlockId :| b < f'.Size() && Occurs(f'.blocks[b].insts, head);
      assert HeadsFrom(f, f'.blocks[b].insts);
    }
  }

  lemma OwnHeads(f: Func, b: BlockId)
    requires b < f.Size()
    ensures HeadsFrom(f, f.blocks[b].insts)
  {
    hide Occurs;
  }

  lemma AppendedHeads(f: Func, a: seq<Inst>, b: seq<Inst>)
    requires HeadsFrom(f, a) && HeadsFrom(f, b)
    ensures HeadsFrom(f, a + b)
  {
    forall head: Op | Occurs(a + b, head) ensures OccursIn(f, head) {
      var i: nat :| i < |a + b| && (a + b)[i].op.Head() == head;
      if i < |a| {
        assert a[i].op.Head() == head;
        assert Occurs(a, head);
      } else {
        assert b[i - |a|].op.Head() == head;
        assert Occurs(b, head);
      }
    }
    hide OccursIn, Op.Head;
  }

  /** Each instruction does what one of the other list does. */
  lemma HeadsOf(f: Func, insts: seq<Inst>, insts': seq<Inst>)
    requires HeadsFrom(f, insts)
    requires forall j: nat :: j < |insts'| ==> exists i: nat :: i < |insts| && insts'[j].op.Head() == insts[i].op.Head()
    ensures HeadsFrom(f, insts')
  {
    hide OccursIn, Op.Head;
    forall head: Op | Occurs(insts', head) ensures OccursIn(f, head) {
      var j: nat :| j < |insts'| && insts'[j].op.Head() == head;
      var i: nat :| i < |insts| && insts'[j].op.Head() == insts[i].op.Head();
      assert Occurs(insts, head);
    }
  }

  // ---- which slots it touches ----

  /** The operation loads or stores one of the slots. */
  predicate Touches(op: Op, slots: set<SlotId>) {
    (op.SlotLoad? || op.SlotStore?) && op.slot in slots
  }

  /** The operation names one of the slots in any way. */
  predicate NamesAny(op: Op, slots: set<SlotId>) {
    || Touches(op, slots)
    || (op.AddrOf? && op.slot in slots)
    || ((op.ArrayLoad? || op.ArrayStore? || op.ArrayAddr?) && op.base in slots)
  }

  /** No operation of the function names one of the slots. */
  ghost predicate NeverNames(f: Func, slots: set<SlotId>) {
    forall b: nat, j: nat :: b < f.Size() && j < |f.blocks[b].insts| ==> !NamesAny(f.blocks[b].insts[j].op, slots)
  }

  /** Nothing in the function loads or stores one of the slots. */
  ghost predicate NeverTouches(f: Func, slots: set<SlotId>) {
    forall b: nat, j: nat :: b < f.Size() && j < |f.blocks[b].insts| ==> !Touches(f.blocks[b].insts[j].op, slots)
  }

  lemma HeadTouches(op: Op, slots: set<SlotId>)
    ensures Touches(op.Head(), slots) == Touches(op, slots)
  {
  }

  lemma NeverTouchesStays(f: Func, f': Func, slots: set<SlotId>)
    requires NeverTouches(f, slots) && NoNewHeads(f, f')
    ensures NeverTouches(f', slots)
  {
    hide Op.Head, Touches;
    forall b: nat, j: nat | b < f'.Size() && j < |f'.blocks[b].insts|
      ensures !Touches(f'.blocks[b].insts[j].op, slots)
    {
      var head := f'.blocks[b].insts[j].op.Head();
      HeadTouches(f'.blocks[b].insts[j].op, slots);
      assert Occurs(f'.blocks[b].insts, head);
      assert OccursIn(f', head);
      var a: BlockId :| a < f.Size() && Occurs(f.blocks[a].insts, head);
      var i: nat :| i < |f.blocks[a].insts| && f.blocks[a].insts[i].op.Head() == head;
      HeadTouches(f.blocks[a].insts[i].op, slots);
    }
  }

  lemma SubKeepsHead(sub: Substitution, op: Op)
    ensures SubOp(sub, op).Head() == op.Head()
  {
  }
}
