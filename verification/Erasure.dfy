/** Erasing definitions nothing reads keeps a function valid SSA. */
module Erasure {
  import opened Graphs
  import opened IdomTree
  import opened Ssa
  import opened Rewrites
  import opened SsaValid
  import opened Functions

  /** `f'` is `f` without what is dead. */
  ghost predicate Erased(f: Func, f': Func, dead: Dead) {
    f'.blocks == EraseBlocks(dead, f.blocks) && f'.entry == f.entry
  }

  lemma ErasedBlock(f: Func, f': Func, dead: Dead, b: BlockId)
    requires Erased(f, f', dead)
    ensures f'.Size() == f.Size()
    ensures b < f.Size() ==> f'.blocks[b] == EraseBlock(dead, f.blocks[b])
  {
  }

  /** Where the `j`-th surviving instruction was. */
  ghost function Origin(dead: Dead, insts: seq<Inst>, j: nat): (i: nat)
    requires j < |EraseInsts(dead, insts)|
    ensures i < |insts| && insts[i] == EraseInsts(dead, insts)[j] && Keeps(dead, insts[i])
    decreases |insts|
  {
    var n := |insts| - 1;
    if j < |EraseInsts(dead, insts[..n])| then Origin(dead, insts[..n], j) else n
  }

  lemma {:induction false} OriginGrows(dead: Dead, insts: seq<Inst>, j: nat, k: nat)
    requires j < k < |EraseInsts(dead, insts)|
    ensures Origin(dead, insts, j) < Origin(dead, insts, k)
    decreases |insts|
  {
    var n := |insts| - 1;
    if k < |EraseInsts(dead, insts[..n])| {
      OriginGrows(dead, insts[..n], j, k);
    }
  }

  /** Where a surviving instruction is now. */
  lemma {:induction false} Survivor(dead: Dead, insts: seq<Inst>, i: nat) returns (j: nat)
    requires i < |insts| && Keeps(dead, insts[i])
    ensures j < |EraseInsts(dead, insts)| && Origin(dead, insts, j) == i
    decreases |insts|
  {
    var n := |insts| - 1;
    if i == n {
      j := |EraseInsts(dead, insts[..n])|;
    } else {
      j := Survivor(dead, insts[..n], i);
    }
  }

  lemma {:induction false} ErasedPhiWas(dead: Dead, phis: seq<Phi>, k: nat) returns (i: nat)
    requires k < |ErasePhis(dead, phis)|
    ensures i < |phis| && phis[i] == ErasePhis(dead, phis)[k] && phis[i].dest !in dead.values
    decreases |phis|
  {
    var n := |phis| - 1;
    if k < |ErasePhis(dead, phis[..n])| {
      i := ErasedPhiWas(dead, phis[..n], k);
    } else {
      i := n;
    }
  }

  lemma {:induction false} ErasedPhisWrite(dead: Dead, phis: seq<Phi>, v: ValueId)
    requires v !in dead.values
    ensures Writes(ErasePhis(dead, phis), v) <==> Writes(phis, v)
    decreases |phis|
  {
    if phis != [] {
      var n := |phis| - 1;
      ErasedPhisWrite(dead, phis[..n], v);
      assert phis[..n + 1] == phis;
      WritesStep(phis, n);
      var kept := ErasePhis(dead, phis[..n]);
      var all := kept + [phis[n]];
      assert all[..|kept|] == kept && all[..|kept| + 1] == all;
      WritesStep(all, |kept|);
      assert kept + [] == kept;
    }
  }

  /** The row a row of the erased block had: the surviving instructions keep their order. */
  ghost function OldRow(dead: Dead, insts: seq<Inst>, row: nat): (r: nat)
    ensures r == 0 <==> row == 0
  {
    if row == 0 then 0
    else if row - 1 < |EraseInsts(dead, insts)| then Origin(dead, insts, row - 1) + 1
    else |insts| + 1
  }

  lemma OldRowGrows(dead: Dead, insts: seq<Inst>, r: nat, s: nat)
    requires r < s && r <= |EraseInsts(dead, insts)|
    ensures OldRow(dead, insts, r) < OldRow(dead, insts, s)
  {
    if 0 < r && s - 1 < |EraseInsts(dead, insts)| {
      OriginGrows(dead, insts, r - 1, s - 1);
    }
  }

  ghost function OldPoint(f: Func, dead: Dead, p: Point): Point {
    if p.block >= f.Size() then p
    else Point(p.block, OldRow(dead, f.blocks[p.block].insts, p.row))
  }

  lemma DefinedBefore(f: Func, f': Func, dead: Dead, v: ValueId, p: Point)
    requires Erased(f, f', dead) && DefinedAt(f', v, p)
    ensures DefinedAt(f, v, OldPoint(f, dead, p)) && v !in dead.values
  {
    ErasedBlock(f, f', dead, p.block);
    hide EraseInsts, ErasePhis;
    if p.row == 0 {
      var phis := f.blocks[p.block].phis;
      var k: nat :| k < |f'.blocks[p.block].phis| && f'.blocks[p.block].phis[k].dest == v;
      var i := ErasedPhiWas(dead, phis, k);
      assert f.blocks[p.block].phis[i].dest == v;
    }
  }

  /** A surviving phi still comes before what it came before. */
  lemma PhiStillDefined(f: Func, f': Func, dead: Dead, v: ValueId, q: Point, p: Point)
    requires Erased(f, f', dead) && v !in dead.values && DefinedAt(f, v, q) && q.row == 0
    requires p.block < f.Size() && Before(f.Adjacency(), q, OldPoint(f, dead, p))
    ensures DefinedAt(f', v, q) && Before(f.Adjacency(), q, p)
  {
    var phis := f.blocks[q.block].phis;
    ErasedBlock(f, f', dead, q.block);
    var k: nat :| k < |f.blocks[q.block].phis| && f.blocks[q.block].phis[k].dest == v;
    assert phis[k].dest == v;
    ErasedPhisWrite(dead, phis, v);
  }

  /** Where a surviving instruction is now, still before every row it was before. */
  lemma RowSurvives(dead: Dead, insts: seq<Inst>, row: nat) returns (row': nat)
    requires 0 < row <= |insts| && Keeps(dead, insts[row - 1])
    ensures 0 < row' <= |EraseInsts(dead, insts)| && EraseInsts(dead, insts)[row' - 1] == insts[row - 1]
    ensures forall s: nat :: row < OldRow(dead, insts, s) ==> row' < s
  {
    var j := Survivor(dead, insts, row - 1);
    row' := j + 1;
    forall s: nat | row < OldRow(dead, insts, s)
      ensures row' < s
    {
      if s < row' {
        OldRowGrows(dead, insts, s, row');
      }
    }
  }

  lemma InstStillDefined(f: Func, f': Func, dead: Dead, v: ValueId, q: Point, p: Point)
    requires Erased(f, f', dead) && v !in dead.values && DefinedAt(f, v, q) && q.row > 0 && SingleDefs(f)
    requires p.block < f.Size() && Before(f.Adjacency(), q, OldPoint(f, dead, p))
    ensures exists q': Point :: DefinedAt(f', v, q') && Before(f.Adjacency(), q', p)
  {
    hide EraseInsts, ErasePhis, OldRow;
    var insts := f.blocks[q.block].insts;
    ErasedBlock(f, f', dead, q.block);
    var row' := RowSurvives(dead, insts, q.row);
    assert DefinedAt(f', v, Point(q.block, row'));
    assert Before(f.Adjacency(), Point(q.block, row'), p);
  }

  /** A surviving definition and a later point keep their order. */
  lemma StillDefined(f: Func, f': Func, dead: Dead, v: ValueId, q: Point, p: Point)
    requires Erased(f, f', dead) && v !in dead.values && DefinedAt(f, v, q) && SingleDefs(f)
    requires p.block < f.Size() && Before(f.Adjacency(), q, OldPoint(f, dead, p))
    ensures AvailableAt(f', v, p)
  {
    SameGraph(f, f', dead);
    hide Erased, DefinedAt, Func.Adjacency;
    if q.row == 0 {
      PhiStillDefined(f, f', dead, v, q, p);
    } else {
      InstStillDefined(f, f', dead, v, q, p);
    }
  }

  lemma SameGraph(f: Func, f': Func, dead: Dead)
    requires Erased(f, f', dead)
    ensures f'.Adjacency() == f.Adjacency() && f'.Size() == f.Size()
    ensures forall b: nat :: b < f.Size() ==> f'.blocks[b].preds == f.blocks[b].preds
  {
    hide EraseInsts, ErasePhis;
    forall b: nat | b < f.Size()
      ensures f'.blocks[b].term.Successors() == f.blocks[b].term.Successors()
    {
    }
    assert f'.Adjacency().preds == f.Adjacency().preds;
    assert f'.Adjacency().succs == f.Adjacency().succs;
  }

  // ---- validity ----

  lemma OperandSurvives(f: Func, f': Func, dead: Dead, o: Operand, p: Point)
    requires ValidSsa(f) && Erased(f, f', dead) && p.block < f.Size()
    requires OperandOk(f, o, OldPoint(f, dead, p)) && !(o.Value? && o.id in dead.values)
    ensures OperandOk(f', o, p)
  {
    if o.Value? {
      ScopeIsAvailability(f, o.id, OldPoint(f, dead, p));
      StillDefined(f, f', dead, o.id, SiteOf(f, o.id), p);
    }
  }

  lemma OperandsSurvive(f: Func, f': Func, dead: Dead, os: seq<Operand>, p: Point)
    requires ValidSsa(f) && Erased(f, f', dead) && p.block < f.Size()
    requires AllOk(f, os, OldPoint(f, dead, p)) && Unread(dead, os)
    ensures AllOk(f', os, p)
  {
    forall i: nat | i < |os| ensures OperandOk(f', os[i], p) {
      assert OperandOk(f, os[i], OldPoint(f, dead, p));
      OperandSurvives(f, f', dead, os[i], p);
    }
  }

  lemma EndIsOldEnd(f: Func, f': Func, dead: Dead, b: BlockId)
    requires Erased(f, f', dead) && b < f.Size()
    ensures b < f'.Size() && OldPoint(f, dead, End(f', b)) == End(f, b)
  {
    ErasedBlock(f, f', dead, b);
  }

  lemma InstSurvives(f: Func, f': Func, private: set<SlotId>, dead: Dead, b: BlockId, j: nat)
    requires ValidSsa(f) && Erasable(private, dead, f) && Erased(f, f', dead)
    requires b < f.Size() && b < f'.Size() && j < |f'.blocks[b].insts|
    ensures AllOk(f', f'.blocks[b].insts[j].op.Operands(), Point(b, j + 1))
    ensures f'.blocks[b].insts[j].dest.Some? <==> f'.blocks[b].insts[j].op.DefinesValue()
  {
    ErasedBlock(f, f', dead, b);
    var i := Origin(dead, f.blocks[b].insts, j);
    var inst := f.blocks[b].insts[i];
    assert BlockUsesOk(f, b) && BlockErasable(private, dead, f.blocks[b]);
    assert InstErasable(private, dead, inst);
    OperandsSurvive(f, f', dead, inst.op.Operands(), Point(b, j + 1));
  }

  lemma PhiSurvives(f: Func, f': Func, private: set<SlotId>, dead: Dead, b: BlockId, k: nat)
    requires ValidSsa(f) && Erasable(private, dead, f) && Erased(f, f', dead)
    requires b < f.Size() && b < f'.Size() && k < |f'.blocks[b].phis|
    ensures |f'.blocks[b].phis[k].args| == |f'.blocks[b].preds|
    ensures forall i: nat :: i < |f'.blocks[b].preds| && i < |f'.blocks[b].phis[k].args| ==>
              OperandOk(f', f'.blocks[b].phis[k].args[i], End(f', f'.blocks[b].preds[i]))
  {
    ErasedBlock(f, f', dead, b);
    var was := ErasedPhiWas(dead, f.blocks[b].phis, k);
    var phi := f.blocks[b].phis[was];
    assert BlockErasable(private, dead, f.blocks[b]);
    assert PhiErasable(dead, phi);
    forall i: nat | i < |phi.args|
      ensures OperandOk(f', phi.args[i], End(f', f.blocks[b].preds[i]))
    {
      var a := f.blocks[b].preds[i];
      assert f.Adjacency().preds[b][i] < f.Size();
      assert BlockUsesOk(f, b);
      assert OperandOk(f, phi.args[i], End(f, a));
      EndIsOldEnd(f, f', dead, a);
      OperandSurvives(f, f', dead, phi.args[i], End(f', a));
    }
  }

  lemma BlockSurvives(f: Func, f': Func, private: set<SlotId>, dead: Dead, b: BlockId)
    requires ValidSsa(f) && Erasable(private, dead, f) && Erased(f, f', dead)
    requires b < f.Size() && b < f'.Size()
    ensures BlockUsesOk(f', b)
  {
    forall j: nat | j < |f'.blocks[b].insts|
      ensures AllOk(f', f'.blocks[b].insts[j].op.Operands(), Point(b, j + 1))
    {
      InstSurvives(f, f', private, dead, b, j);
    }
    ErasedBlock(f, f', dead, b);
    assert BlockUsesOk(f, b) && BlockErasable(private, dead, f.blocks[b]);
    EndIsOldEnd(f, f', dead, b);
    OperandsSurvive(f, f', dead, f.blocks[b].term.Operands(), End(f', b));
    forall k: nat, i: nat | k < |f'.blocks[b].phis| && i < |f'.blocks[b].phis[k].args| && i < |f'.blocks[b].preds|
      ensures OperandOk(f', f'.blocks[b].phis[k].args[i], End(f', f'.blocks[b].preds[i]))
    {
      PhiSurvives(f, f', private, dead, b, k);
    }
    hide Erased, ValidSsa, Erasable, EraseInsts, ErasePhis;
  }

  lemma SingleDefsSurvive(f: Func, f': Func, private: set<SlotId>, dead: Dead)
    requires ValidSsa(f) && Erasable(private, dead, f) && Erased(f, f', dead)
    ensures SingleDefs(f')
  {
    SameGraph(f, f', dead);
    forall v: ValueId, p: Point, q: Point | DefinedAt(f', v, p) && DefinedAt(f', v, q)
      ensures p == q
    {
      DefinedBefore(f, f', dead, v, p);
      DefinedBefore(f, f', dead, v, q);
      SameOldPoint(f, f', dead, v, p, q);
    }
    forall b: nat | b < f'.Size()
      ensures DistinctDests(f'.blocks[b].phis)
    {
      assert DistinctDests(f.blocks[b].phis);
      ErasedBlock(f, f', dead, b);
      KeptAreOld(f.blocks[b].phis, dead.values);
      SamePhisKept(dead, f.blocks[b].phis);
    }
    forall b: nat, i: nat | b < f'.Size() && i < |f'.blocks[b].insts|
      ensures f'.blocks[b].insts[i].dest.Some? <==> f'.blocks[b].insts[i].op.DefinesValue()
    {
      InstSurvives(f, f', private, dead, b, i);
    }
    hide Erased, Erasable, DefinedAt, DistinctDests, OldPoint;
  }

  lemma {:induction false} SamePhisKept(dead: Dead, phis: seq<Phi>)
    ensures ErasePhis(Dead(dead.values, {}), phis) == ErasePhis(dead, phis)
    decreases |phis|
  {
    if phis != [] {
      SamePhisKept(dead, phis[..|phis| - 1]);
    }
  }

  lemma SameOldPoint(f: Func, f': Func, dead: Dead, v: ValueId, p: Point, q: Point)
    requires Erased(f, f', dead) && DefinedAt(f', v, p) && DefinedAt(f', v, q)
    requires OldPoint(f, dead, p) == OldPoint(f, dead, q)
    ensures p == q
  {
    ErasedBlock(f, f', dead, p.block);
    assert p.block == q.block && p.block < f.Size();
    var insts := f.blocks[p.block].insts;
    hide OldRow;
    if p.row < q.row {
      OldRowGrows(dead, insts, p.row, q.row);
    } else if q.row < p.row {
      OldRowGrows(dead, insts, q.row, p.row);
    }
  }

  /** Without definitions nothing read, every use is still dominated by its definition. */
  lemma ErasureKeepsValid(private: set<SlotId>, dead: Dead, f: Func, f': Func)
    requires ValidSsa(f) && Erasable(private, dead, f) && Erased(f, f', dead)
    ensures ValidSsa(f')
  {
    SameGraph(f, f', dead);
    SingleDefsSurvive(f, f', private, dead);
    forall b: nat | b < f'.Size()
      ensures BlockUsesOk(f', b)
    {
      BlockSurvives(f, f', private, dead, b);
    }
    forall b: nat, k: nat | b < f'.Size() && k < |f'.blocks[b].phis|
      ensures |f'.blocks[b].phis[k].args| == |f'.blocks[b].preds|
    {
      PhiSurvives(f, f', private, dead, b, k);
    }
    hide SingleDefs, BlockUsesOk, Erased, Erasable, Func.Adjacency;
  }
}
