/** When running copy propagation a second time changes nothing. */
module SecondRun {
  import opened Graphs
  import opened IdomTree
  import opened Ssa
  import opened Rewrites
  import opened SsaValid
  import opened Functions
  import opened CopyProp

  /** Reading the ends of the chains, no phi that was not a copy becomes one. */
  ghost predicate PhisStayApart(f: Func, resolved: Copies) {
    forall b: BlockId, k: nat, o: Operand ::
      b < f.Size() && k < |f.blocks[b].phis| && f.blocks[b].phis[k].dest !in resolved ==>
      !StandsFor(SubPhi(resolved, f.blocks[b].phis[k]), o)
  }

  lemma {:induction false} ErasedPhisFrom(dead: Dead, phis: seq<Phi>, i: nat) returns (k: nat)
    requires i < |ErasePhis(dead, phis)|
    ensures k < |phis| && phis[k] == ErasePhis(dead, phis)[i] && phis[k].dest !in dead.values
    decreases |phis|
  {
    var n := |phis| - 1;
    var before := ErasePhis(dead, phis[..n]);
    if i < |before| {
      k := ErasedPhisFrom(dead, phis[..n], i);
    } else {
      k := n;
    }
  }

  lemma {:induction false} ErasedPhisHold(dead: Dead, phis: seq<Phi>, k: nat) returns (i: nat)
    requires k < |phis| && phis[k].dest !in dead.values
    ensures i < |ErasePhis(dead, phis)| && ErasePhis(dead, phis)[i] == phis[k]
    decreases |phis|
  {
    var n := |phis| - 1;
    var before := ErasePhis(dead, phis[..n]);
    if k < n {
      i := ErasedPhisHold(dead, phis[..n], k);
    } else {
      i := |before|;
    }
  }

  lemma {:induction false} ErasedInstsFrom(dead: Dead, insts: seq<Inst>, i: nat) returns (k: nat)
    requires i < |EraseInsts(dead, insts)|
    ensures k < |insts| && insts[k] == EraseInsts(dead, insts)[i] && Keeps(dead, insts[k])
    decreases |insts|
  {
    var n := |insts| - 1;
    var before := EraseInsts(dead, insts[..n]);
    if i < |before| {
      k := ErasedInstsFrom(dead, insts[..n], i);
    } else {
      k := n;
    }
  }

  lemma PropagatedIs(f: Func, resolved: Copies, f': Func, b: BlockId)
    requires f'.blocks == Propagated(f, resolved) && b < f.Size()
    ensures f'.Size() == f.Size()
    ensures f'.blocks[b].phis == ErasePhis(Dead(resolved.Keys, {}), SubPhis(resolved, f.blocks[b].phis))
    ensures f'.blocks[b].insts == EraseInsts(Dead(resolved.Keys, {}), SubInsts(resolved, f.blocks[b].insts))
  {
    assert Propagated(f, resolved)[b] == EraseBlock(Dead(resolved.Keys, {}), SubBlock(resolved, f.blocks[b]));
  }

  lemma SubbedCopy(resolved: Copies, inst: Inst)
    ensures SubInst(resolved, inst).op.Copy? <==> inst.op.Copy?
  {
  }

  /** No explicit copy is left. */
  lemma NoCopyInstLeft(f: Func, direct: Copies, resolved: Copies, f': Func, b: BlockId, i: nat, v: ValueId, o: Operand)
    requires ValidSsa(f) && AreDirect(f, direct) && resolved.Keys == direct.Keys
    requires f'.blocks == Propagated(f, resolved) && b < f.Size() == f'.Size() && i < |f'.blocks[b].insts|
    ensures f'.blocks[b].insts[i] != Inst(Some(v), Copy(o))
  {
    hide ValidSsa, Propagated, EraseInsts, AreDirect, SubPhis, SubOp, ErasePhis;
    PropagatedIs(f, resolved, f', b);
    var dead := Dead(resolved.Keys, {});
    var k := ErasedInstsFrom(dead, SubInsts(resolved, f.blocks[b].insts), i);
    SubbedCopy(resolved, f.blocks[b].insts[k]);
    if f.blocks[b].insts[k].op.Copy? && f.blocks[b].insts[k].dest.Some? {
      CopyIsDirect(f, direct, b, k);
    }
  }

  lemma CopyIsDirect(f: Func, direct: Copies, b: BlockId, k: nat)
    requires AreDirect(f, direct) && b < f.Size() && k < |f.blocks[b].insts|
    requires f.blocks[b].insts[k].op.Copy? && f.blocks[b].insts[k].dest.Some?
    ensures f.blocks[b].insts[k].dest.value in direct
  {
    var inst := f.blocks[b].insts[k];
    assert CopiesAt(f, Point(b, k + 1), inst.dest.value, inst.op.source);
    assert IsCopy(f, inst.dest.value, inst.op.source);
  }

  lemma PhiLeft(f: Func, resolved: Copies, f': Func, b: BlockId, k: nat, o: Operand)
    requires f'.blocks == Propagated(f, resolved) && b < f.Size() && k < |f.blocks[b].phis| &&
             f.blocks[b].phis[k].dest !in resolved
    requires StandsFor(SubPhi(resolved, f.blocks[b].phis[k]), o)
    ensures !NoCopies(f')
  {
    PropagatedIs(f, resolved, f', b);
    var i := ErasedPhisHold(Dead(resolved.Keys, {}), SubPhis(resolved, f.blocks[b].phis), k);
    assert f'.blocks[b].phis[i] == SubPhi(resolved, f.blocks[b].phis[k]);
    assert CopiesAt(f', Point(b, 0), f.blocks[b].phis[k].dest, o);
    assert IsCopy(f', f.blocks[b].phis[k].dest, o);
    hide Propagated, ErasePhis;
  }

  /** The result of the pass has a copy exactly when some phi became one: a second run, which reports a change exactly
      when there is a copy, changes nothing exactly when the phis stay apart. */
  lemma SecondRunStops(f: Func, direct: Copies, resolved: Copies, f': Func)
    requires ValidSsa(f) && AreDirect(f, direct) && AreResolved(direct, resolved)
    requires f'.blocks == Propagated(f, resolved) && f'.entry == f.entry
    ensures NoCopies(f') <==> PhisStayApart(f, resolved)
  {
    EveryCopyResolves(f, direct, resolved);
    if !PhisStayApart(f, resolved) {
      var b: BlockId, k: nat, o: Operand :|
        && b < f.Size() && k < |f.blocks[b].phis| && f.blocks[b].phis[k].dest !in resolved
        && StandsFor(SubPhi(resolved, f.blocks[b].phis[k]), o);
      PhiLeft(f, resolved, f', b, k, o);
    } else {
      forall v: ValueId, o: Operand ensures !IsCopy(f', v, o) {
        if IsCopy(f', v, o) {
          CopyWasPhi(f, direct, resolved, f', v, o);
        }
      }
    }
    hide ValidSsa, AreDirect, AreResolved, Propagated;
  }

  lemma CopyWasPhi(f: Func, direct: Copies, resolved: Copies, f': Func, v: ValueId, o: Operand)
    requires ValidSsa(f) && AreDirect(f, direct) && resolved.Keys == direct.Keys
    requires f'.blocks == Propagated(f, resolved) && IsCopy(f', v, o)
    ensures !PhisStayApart(f, resolved)
  {
    var p: Point :| CopiesAt(f', p, v, o);
    SameSize(f, resolved, f');
    PropagatedIs(f, resolved, f', p.block);
    hide ValidSsa, AreDirect, Propagated;
    if p.row == 0 {
      var i: nat :| i < |f'.blocks[p.block].phis| && f'.blocks[p.block].phis[i].dest == v &&
        StandsFor(f'.blocks[p.block].phis[i], o);
      var k := ErasedPhisFrom(Dead(resolved.Keys, {}), SubPhis(resolved, f.blocks[p.block].phis), i);
      assert f'.blocks[p.block].phis[i] == SubPhi(resolved, f.blocks[p.block].phis[k]);
    } else {
      NoCopyInstLeft(f, direct, resolved, f', p.block, p.row - 1, v, o);
    }
  }

  lemma SameSize(f: Func, resolved: Copies, f': Func)
    requires f'.blocks == Propagated(f, resolved)
    ensures f'.Size() == f.Size()
  {
  }

  // ---- a function where it does ----

  // x, value 1, starts as the argument and then is y, value 2, which is x again.
  const ROUND := Func([Block([], [Inst(Some(0), GetParam(0))], Jump(1), []),
                       Block([Phi(1, [Value(0), Value(2)], 0)], [], Jump(2), [0, 2]),
                       Block([Phi(2, [Value(1)], 0)], [], Jump(1), [1])], [AtInst, AtPhi(1, 0), AtPhi(2, 0)], 0)
  const SHORT: map<ValueId, Operand> := map[2 := Value(1)]

  /** The first run makes `x = phi(a, y)`, `y = phi(x)` into `x = phi(a, x)`, which the second run takes for a copy. */
  lemma SecondRunMayChange()
    ensures AreDirect(ROUND, SHORT) && AreResolved(SHORT, SHORT) && !PhisStayApart(ROUND, SHORT)
  {
    RoundCopies();
    RoundResolves();
    var phi := SubPhi(SHORT, ROUND.blocks[1].phis[0]);
    assert phi == Phi(1, [Value(0), Value(1)], 0);
    assert phi.args[0] in phi.args;
    assert StandsFor(phi, Value(0));
  }

  lemma RoundCopies()
    ensures AreDirect(ROUND, SHORT)
  {
    var phi := ROUND.blocks[2].phis[0];
    assert phi.args[0] in phi.args;
    assert StandsFor(phi, Value(1));
    assert CopiesAt(ROUND, Point(2, 0), 2, Value(1));
    assert IsCopy(ROUND, 2, Value(1));
    forall v: ValueId, o: Operand | IsCopy(ROUND, v, o) ensures v in SHORT {
      var p: Point :| CopiesAt(ROUND, p, v, o);
      if p.row == 0 && p.block == 1 {
        NotStanding(o);
      }
    }
  }

  lemma NotStanding(o: Operand)
    ensures !StandsFor(ROUND.blocks[1].phis[0], o)
  {
    var phi := ROUND.blocks[1].phis[0];
    assert phi.args[0] == Value(0) && phi.args[1] == Value(2);
  }

  lemma RoundResolves()
    ensures AreResolved(SHORT, SHORT)
  {
    assert Follow(SHORT, 2, 0) == Value(2);
    assert Follow(SHORT, 2, 1) == Value(1);
    assert EndOf(SHORT, 2, Value(1));
  }

  lemma RoundGraph()
    ensures var g := ROUND.Adjacency();
            g.entry == 0 && g.succs == [[1], [2], [1]] && g.preds == [[], [0, 2], [1]] && g.Valid()
  {
    var g := ROUND.Adjacency();
    assert g.succs == [[1], [2], [1]] && g.preds == [[], [0, 2], [1]];
  }

  lemma RoundReachable()
    ensures ROUND.Adjacency().AllReachable()
  {
    RoundGraph();
    var g := ROUND.Adjacency();
    hide Func.Adjacency;
    assert g.PathTo([0], 0);
    assert g.Edge(0, 1) && g.Edge(1, 2);
    ReachableStep(g, 0, 1);
    ReachableStep(g, 1, 2);
  }

  /** ... and it is a valid function in SSA form. */
  lemma RoundIsValid()
    ensures ValidSsa(ROUND)
  {
    RoundGraph();
    RoundReachable();
    RoundUses();
    RoundDefs();
    hide Func.Adjacency, Graph.Valid, Graph.AllReachable, SingleDefs, UsesOk;
    assert ROUND.blocks[0].preds == [];
  }

  lemma RoundDefs()
    ensures SingleDefs(ROUND)
  {
    forall v: ValueId, p: Point | DefinedAt(ROUND, v, p) ensures p == (if v == 0 then Point(0, 1) else Point(v, 0)) {
    }
  }

  lemma RoundUses()
    ensures UsesOk(ROUND)
  {
    RoundEntryUses();
    RoundLoopUses();
    hide BlockUsesOk;
  }

  lemma RoundEntryUses()
    ensures BlockUsesOk(ROUND, 0)
  {
    hide OperandOk, Func.Adjacency;
  }

  /** A value defined in row `row` of a block is there at the end of the block. */
  lemma AtOwnEnd(f: Func, v: ValueId, b: BlockId, row: nat)
    requires DefinedAt(f, v, Point(b, row)) && row <= |f.blocks[b].insts|
    ensures OperandOk(f, Value(v), End(f, b))
  {
    assert Before(f.Adjacency(), Point(b, row), End(f, b));
  }

  lemma RoundDefined()
    ensures DefinedAt(ROUND, 0, Point(0, 1)) && DefinedAt(ROUND, 1, Point(1, 0)) && DefinedAt(ROUND, 2, Point(2, 0))
  {
    assert ROUND.blocks[0].insts[0].dest == Some(0);
    assert ROUND.blocks[1].phis[0].dest == 1;
    assert ROUND.blocks[2].phis[0].dest == 2;
  }

  lemma RoundLoopUses()
    ensures BlockUsesOk(ROUND, 1) && BlockUsesOk(ROUND, 2)
  {
    RoundDefined();
    AtOwnEnd(ROUND, 0, 0, 1);
    AtOwnEnd(ROUND, 1, 1, 0);
    AtOwnEnd(ROUND, 2, 2, 0);
    hide OperandOk, Func.Adjacency, DefinedAt, End;
  }
}
