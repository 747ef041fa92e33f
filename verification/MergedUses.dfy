/** Absorbing a block keeps single definitions and every use dominated by its definition. */
module MergedUses {
  import opened Graphs
  import opened IdomTree
  import opened Ssa
  import opened SsaValid
  import opened GraphSurgery

  /** What a merge needs of the rest of the function. */
  ghost predicate Absorbable(f: Func, first: BlockId, second: BlockId) {
    Mergeable(f, first, second) && f.Adjacency().Valid() && f.entry != second
  }

  // ---- paths ----

  /** An edge of the merged function was there before, and its block lists as many predecessors. */
  lemma MergedEdgeBack(f: Func, first: BlockId, second: BlockId, b: BlockId, c: BlockId)
    requires Mergeable(f, first, second) && MergeOf(f, first, second).Adjacency().Edge(b, c)
    ensures var a := if b == first then second else b;
            && b < f.Size() && c < f.Size() && f.Adjacency().Edge(a, c)
            && MergeOf(f, first, second).blocks[b].term == f.blocks[a].term
    ensures |MergeOf(f, first, second).blocks[c].preds| <= |f.blocks[c].preds|
  {
    var f' := MergeOf(f, first, second);
    assert f'.blocks[b] == MergedAt(f, first, second, b) && f'.blocks[c] == MergedAt(f, first, second, c);
    hide MergeOf;
  }

  /** A path with the absorbed block put back wherever it was passed. */
  function Through(path: seq<BlockId>, first: BlockId, second: BlockId): seq<BlockId>
    decreases |path|
  {
    if |path| <= 1 then path
    else
      var n := |path| - 1;
      Through(path[..n], first, second) + (if path[n - 1] == first then [second] else []) + [path[n]]
  }

  lemma {:induction false} ThroughHolds(path: seq<BlockId>, first: BlockId, second: BlockId, x: BlockId)
    requires x in Through(path, first, second)
    ensures x in path || (x == second && first in path)
    decreases |path|
  {
    var n := |path| - 1;
    if n > 0 && x != path[n] {
      if x in Through(path[..n], first, second) {
        ThroughHolds(path[..n], first, second, x);
      }
    }
  }

  lemma ThroughStep(f: Func, first: BlockId, second: BlockId, before: seq<BlockId>, a: BlockId, b: BlockId)
    requires Mergeable(f, first, second) && f.Adjacency().PathTo(before, a)
    requires f.Adjacency().Edge(if a == first then second else a, b)
    ensures f.Adjacency().PathTo(before + (if a == first then [second] else []) + [b], b)
  {
    var g := f.Adjacency();
    if a == first {
      assert g.Edge(first, second);
      ExtendPath(g, before, first, second);
      ExtendPath(g, before + [second], second, b);
    } else {
      ExtendPath(g, before, a, b);
      assert before + [] + [b] == before + [b];
    }
  }

  lemma EntryIsPath(f: Func, first: BlockId, second: BlockId, path: seq<BlockId>, b: BlockId)
    requires Absorbable(f, first, second) && MergeOf(f, first, second).Adjacency().PathTo(path, b) && |path| <= 1
    ensures f.Adjacency().PathTo(Through(path, first, second), b) && second !in path
  {
    var g, g' := f.Adjacency(), MergeOf(f, first, second).Adjacency();
    assert g'.entry == g.entry && g'.Size() == g.Size();
    hide MergeOf, Func.Adjacency, Graph.Valid, Mergeable;
    assert path == [g.entry];
  }

  lemma {:induction false} ThroughIsPath(f: Func, first: BlockId, second: BlockId, path: seq<BlockId>, b: BlockId)
    requires Absorbable(f, first, second) && MergeOf(f, first, second).Adjacency().PathTo(path, b)
    ensures f.Adjacency().PathTo(Through(path, first, second), b) && second !in path
    decreases |path|
  {
    var g' := MergeOf(f, first, second).Adjacency();
    hide MergeOf, Func.Adjacency, Graph.Valid, Mergeable;
    if |path| <= 1 {
      EntryIsPath(f, first, second, path, b);
    } else {
      var k := |path| - 2;
      PathPrefix(g', path, b, k);
      assert g'.Edge(path[k], path[k + 1]);
      hide Graph.Edge, Graph.PathTo;
      ThroughIsPath(f, first, second, path[..k + 1], path[k]);
      MergedEdgeBack(f, first, second, path[k], b);
      NotEntered(f, first, second, if path[k] == first then second else path[k], b);
      ThroughStep(f, first, second, Through(path[..k + 1], first, second), path[k], b);
      assert path == path[..k + 1] + [b];
    }
  }

  lemma NotEntered(f: Func, first: BlockId, second: BlockId, a: BlockId, b: BlockId)
    requires Absorbable(f, first, second) && f.Adjacency().Edge(a, b) && a != first
    ensures b != second
  {
    assert f.Adjacency().preds[second] == [first];
  }

  function Into(first: BlockId, second: BlockId, x: BlockId): BlockId {
    if x == second then first else x
  }

  lemma MergedDom(f: Func, first: BlockId, second: BlockId, a: BlockId, b: BlockId)
    requires Absorbable(f, first, second) && f.Adjacency().Dom(a, b)
    ensures MergeOf(f, first, second).Adjacency().Dom(Into(first, second, a), Into(first, second, b))
  {
    var g, g' := f.Adjacency(), MergeOf(f, first, second).Adjacency();
    hide MergeOf, Graph.Valid;
    forall path | g'.PathTo(path, Into(first, second, b)) ensures Into(first, second, a) in path {
      ThroughIsPath(f, first, second, path, Into(first, second, b));
      var through := Through(path, first, second);
      if b == second {
        assert g.Edge(first, second);
        ExtendPath(g, through, first, second);
        assert a in through + [second];
        assert first in path;
      }
      if a in through {
        ThroughHolds(path, first, second, a);
      }
    }
  }

  // ---- definitions ----

  /** Where a point of the function is once `second` is absorbed. */
  function Shifted(f: Func, first: BlockId, second: BlockId, p: Point): Point {
    if p.block == second && first < f.Size() then Point(first, |f.blocks[first].insts| + p.row) else p
  }

  lemma ShiftedDefined(f: Func, first: BlockId, second: BlockId, v: ValueId, p: Point)
    requires Mergeable(f, first, second) && DefinedAt(f, v, p)
    ensures DefinedAt(MergeOf(f, first, second), v, Shifted(f, first, second, p))
    ensures p.block == second ==> p.row > 0
    ensures p.row <= |f.blocks[p.block].insts|
  {
    var f' := MergeOf(f, first, second);
    assert f'.blocks[p.block] == MergedAt(f, first, second, p.block);
    assert f'.blocks[first] == MergedAt(f, first, second, first);
    hide MergeOf;
  }

  lemma DefinedBefore(f: Func, first: BlockId, second: BlockId, v: ValueId, q: Point) returns (p: Point)
    requires Mergeable(f, first, second) && DefinedAt(MergeOf(f, first, second), v, q)
    ensures DefinedAt(f, v, p) && q == Shifted(f, first, second, p)
  {
    var f' := MergeOf(f, first, second);
    assert f'.blocks[q.block] == MergedAt(f, first, second, q.block);
    hide MergeOf;
    var n := |f.blocks[first].insts|;
    if q.block == first && q.row > n {
      p := Point(second, q.row - n);
    } else {
      p := q;
    }
  }

  lemma MergedSingle(f: Func, first: BlockId, second: BlockId)
    requires Mergeable(f, first, second) && SingleDefs(f)
    ensures SingleDefs(MergeOf(f, first, second))
  {
    var f' := MergeOf(f, first, second);
    forall v: ValueId, p: Point, q: Point | DefinedAt(f', v, p) && DefinedAt(f', v, q) ensures p == q {
      var p0 := DefinedBefore(f, first, second, v, p);
      var q0 := DefinedBefore(f, first, second, v, q);
    }
    forall b: nat | b < f'.Size()
      ensures DistinctDests(f'.blocks[b].phis)
      ensures forall i: nat :: i < |f'.blocks[b].insts| ==>
                (f'.blocks[b].insts[i].dest.Some? <==> f'.blocks[b].insts[i].op.DefinesValue())
    {
      assert f'.blocks[b] == MergedAt(f, first, second, b);
    }
    hide MergeOf, DefinedAt, DistinctDests;
  }

  // ---- uses ----

  lemma ShiftedBefore(f: Func, first: BlockId, second: BlockId, v: ValueId, p: Point, q: Point)
    requires Absorbable(f, first, second) && f.Adjacency().Reachable(first)
    requires DefinedAt(f, v, p) && Before(f.Adjacency(), p, q) && q.row > 0
    ensures Before(MergeOf(f, first, second).Adjacency(), Shifted(f, first, second, p), Shifted(f, first, second, q))
  {
    ShiftedDefined(f, first, second, v, p);
    if p.block != q.block {
      hide MergeOf, DefinedAt;
      if p.block == second && q.block == first {
        FirstDominates(f, first, second);
        DomAntisymmetric(f.Adjacency(), second, first);
      } else {
        MergedDom(f, first, second, p.block, q.block);
      }
    }
  }

  lemma FirstDominates(f: Func, first: BlockId, second: BlockId)
    requires Absorbable(f, first, second)
    ensures f.Adjacency().Dom(first, second)
  {
    var g := f.Adjacency();
    forall path | g.PathTo(path, second) ensures first in path {
      assert |path| > 1;
      assert g.Edge(path[|path| - 2], path[|path| - 1]);
      if path[|path| - 2] != first {
        NotEntered(f, first, second, path[|path| - 2], second);
      }
    }
  }

  lemma ShiftedOk(f: Func, first: BlockId, second: BlockId, os: seq<Operand>, q: Point)
    requires Absorbable(f, first, second) && f.Adjacency().Reachable(first) && AllOk(f, os, q) && q.row > 0
    ensures AllOk(MergeOf(f, first, second), os, Shifted(f, first, second, q))
  {
    var f' := MergeOf(f, first, second);
    forall i: nat | i < |os| ensures OperandOk(f', os[i], Shifted(f, first, second, q)) {
      assert OperandOk(f, os[i], q);
      if os[i].Value? {
        var p: Point :| DefinedAt(f, os[i].id, p) && Before(f.Adjacency(), p, q);
        ShiftedBefore(f, first, second, os[i].id, p, q);
        ShiftedDefined(f, first, second, os[i].id, p);
      }
      hide MergeOf, DefinedAt, Before, Shifted, Absorbable, Graph.Reachable;
    }
  }

  /** The end of a block that leads to phis is where its merged block ends. */
  lemma ShiftedEnd(f: Func, first: BlockId, second: BlockId, b: BlockId)
    requires Mergeable(f, first, second) && b < f.Size() && b != first
    ensures Shifted(f, first, second, End(f, b)) == End(MergeOf(f, first, second), Into(first, second, b))
  {
    var f' := MergeOf(f, first, second);
    assert f'.blocks[b] == MergedAt(f, first, second, b);
    assert f'.blocks[first] == MergedAt(f, first, second, first);
    hide MergeOf;
  }

  lemma MergedInstOk(f: Func, first: BlockId, second: BlockId, b: BlockId, i: nat)
    requires Absorbable(f, first, second) && f.Adjacency().Reachable(first) && UsesOk(f)
    requires b < f.Size() && b != second && i < |MergeOf(f, first, second).blocks[b].insts|
    ensures AllOk(MergeOf(f, first, second), MergeOf(f, first, second).blocks[b].insts[i].op.Operands(),
                  Point(b, i + 1))
  {
    assert MergeOf(f, first, second).blocks[b] == MergedAt(f, first, second, b);
    hide MergeOf, AllOk;
    var n := |f.blocks[first].insts|;
    if b == first && i >= n {
      assert BlockUsesOk(f, second);
      ShiftedOk(f, first, second, f.blocks[second].insts[i - n].op.Operands(), Point(second, i - n + 1));
    } else {
      assert BlockUsesOk(f, b);
      ShiftedOk(f, first, second, f.blocks[b].insts[i].op.Operands(), Point(b, i + 1));
    }
  }

  lemma MergedTermOk(f: Func, first: BlockId, second: BlockId, b: BlockId)
    requires Absorbable(f, first, second) && f.Adjacency().Reachable(first) && UsesOk(f)
    requires b < f.Size() && b != second
    ensures AllOk(MergeOf(f, first, second), MergeOf(f, first, second).blocks[b].term.Operands(),
                  End(MergeOf(f, first, second), b))
  {
    assert MergeOf(f, first, second).blocks[b] == MergedAt(f, first, second, b);
    var a := if b == first then second else b;
    assert BlockUsesOk(f, a);
    ShiftedEnd(f, first, second, a);
    hide MergeOf, AllOk;
    ShiftedOk(f, first, second, f.blocks[a].term.Operands(), End(f, a));
  }

  lemma MergedPhiOk(f: Func, first: BlockId, second: BlockId, b: BlockId, k: nat, i: nat)
    requires Absorbable(f, first, second) && f.Adjacency().Reachable(first) && UsesOk(f)
    requires b < f.Size() && b != second && k < |f.blocks[b].phis|
    requires i < |f.blocks[b].phis[k].args| && i < |f.blocks[b].preds|
    ensures var f' := MergeOf(f, first, second);
            && f'.blocks[b].phis == f.blocks[b].phis && i < |f'.blocks[b].preds|
            && OperandOk(f', f.blocks[b].phis[k].args[i], End(f', f'.blocks[b].preds[i]))
  {
    var f' := MergeOf(f, first, second);
    assert f'.blocks[b] == MergedAt(f, first, second, b);
    assert BlockUsesOk(f, b);
    var a, o := f.blocks[b].preds[i], f.blocks[b].phis[k].args[i];
    PhiPredIsOther(f, first, second, b, i);
    ShiftedEnd(f, first, second, a);
    hide MergeOf, Absorbable, UsesOk, BlockUsesOk;
    assert AllOk(f, [o], End(f, a));
    ShiftedOk(f, first, second, [o], End(f, a));
    assert [o][0] == o;
  }

  lemma PhiPredIsOther(f: Func, first: BlockId, second: BlockId, b: BlockId, i: nat)
    requires Absorbable(f, first, second) && b < f.Size() && f.blocks[b].phis != [] && i < |f.blocks[b].preds|
    ensures f.blocks[b].preds[i] < f.Size() && f.blocks[b].preds[i] != first
  {
    var g := f.Adjacency();
    var a := g.preds[b][i];
    assert a in g.preds[b];
    assert b in g.succs[a];
  }

  /** A merge keeps every use within reach of its definition. */
  lemma MergedUsesOk(f: Func, first: BlockId, second: BlockId)
    requires Absorbable(f, first, second) && f.Adjacency().Reachable(first) && UsesOk(f)
    ensures UsesOk(MergeOf(f, first, second))
  {
    var f' := MergeOf(f, first, second);
    forall b: nat | b < f'.Size() ensures BlockUsesOk(f', b) {
      assert f'.blocks[b] == MergedAt(f, first, second, b);
      if b != second {
        forall i: nat | i < |f'.blocks[b].insts|
          ensures AllOk(f', f'.blocks[b].insts[i].op.Operands(), Point(b, i + 1))
        {
          MergedInstOk(f, first, second, b, i);
        }
        MergedTermOk(f, first, second, b);
        forall k: nat, i: nat | k < |f'.blocks[b].phis| && i < |f'.blocks[b].phis[k].args| && i < |f'.blocks[b].preds|
          ensures OperandOk(f', f'.blocks[b].phis[k].args[i], End(f', f'.blocks[b].preds[i]))
        {
          MergedPhiOk(f, first, second, b, k, i);
        }
      }
      hide MergeOf, AllOk, OperandOk, End, Absorbable, UsesOk, Graph.Reachable;
    }
  }
}
