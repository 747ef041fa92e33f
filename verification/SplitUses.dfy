/** Splitting an edge keeps single definitions and every use dominated by its definition. */
module SplitUses {
  import opened Graphs
  import opened IdomTree
  import opened Lists
  import opened Ssa
  import opened SsaValid
  import opened GraphEdits
  import opened GraphSurgery

  /** The edge is there. */
  ghost predicate Splittable(f: Func, from: BlockId, to: BlockId) {
    f.Adjacency().Valid() && f.Adjacency().Edge(from, to)
  }

  // ---- paths ----

  /** A path without the new block. */
  function Skipping(path: seq<BlockId>, split: BlockId): seq<BlockId>
    decreases |path|
  {
    if path == [] then []
    else
      var n := |path| - 1;
      Skipping(path[..n], split) + if path[n] == split then [] else [path[n]]
  }

  lemma {:induction false} SkippingHolds(path: seq<BlockId>, split: BlockId, x: BlockId)
    requires x in Skipping(path, split)
    ensures x in path
    decreases |path|
  {
    var n := |path| - 1;
    if x in Skipping(path[..n], split) {
      SkippingHolds(path[..n], split, x);
    }
  }

  /** Where an edge of the split function comes from. */
  lemma SplitEdgeWas(f: Func, from: BlockId, to: BlockId, a: BlockId, b: BlockId)
    requires Splittable(f, from, to) && SplitOf(f, from, to).Adjacency().Edge(a, b)
    ensures b == f.Size() ==> a == from
    ensures a == f.Size() ==> b == to
    ensures a < f.Size() && b < f.Size() ==> f.Adjacency().Edge(a, b)
    ensures a <= f.Size() && b <= f.Size()
  {
    var f' := SplitOf(f, from, to);
    assert f'.blocks[a] == SplitAt(f, from, to, a);
    assert a < f.Size() ==> forall s: BlockId :: s in f.blocks[a].term.Successors() ==> s < f.Size() by {
      if a < f.Size() {
        forall s: BlockId | s in f.blocks[a].term.Successors() ensures s < f.Size() {
          assert s in f.Adjacency().succs[a];
        }
      }
    }
    hide SplitOf;
  }

  function Behind(f: Func, from: BlockId, b: BlockId): BlockId {
    if b == f.Size() then from else b
  }

  lemma {:induction false} SkippingIsPath(f: Func, from: BlockId, to: BlockId, path: seq<BlockId>, b: BlockId)
    requires Splittable(f, from, to) && SplitOf(f, from, to).Adjacency().PathTo(path, b)
    ensures f.Adjacency().PathTo(Skipping(path, f.Size()), Behind(f, from, b))
    decreases |path|
  {
    var g' := SplitOf(f, from, to).Adjacency();
    var n := |path| - 1;
    if n == 0 {
      assert path == [b] && Skipping(path[..0], f.Size()) == [];
      assert f.entry < f.Size();
      assert Skipping(path, f.Size()) == [b];
    } else {
      PathPrefix(g', path, b, n - 1);
      assert g'.Edge(path[n - 1], path[n - 1 + 1]);
      hide SplitOf, Func.Adjacency, Graph.Valid;
      SkippingIsPath(f, from, to, path[..n], path[n - 1]);
      SplitEdgeWas(f, from, to, path[n - 1], b);
      var before := Skipping(path[..n], f.Size());
      if b == f.Size() {
        assert Skipping(path, f.Size()) == before + [];
        assert before + [] == before;
      } else {
        ExtendPath(f.Adjacency(), before, Behind(f, from, path[n - 1]), b);
      }
    }
  }

  lemma SplitDom(f: Func, from: BlockId, to: BlockId, a: BlockId, b: BlockId)
    requires Splittable(f, from, to) && f.Adjacency().Dom(a, Behind(f, from, b))
    ensures SplitOf(f, from, to).Adjacency().Dom(a, b)
  {
    hide SplitOf, Graph.Valid;
    forall path | SplitOf(f, from, to).Adjacency().PathTo(path, b) ensures a in path {
      SkippingIsPath(f, from, to, path, b);
      assert a in Skipping(path, f.Size());
      SkippingHolds(path, f.Size(), a);
    }
  }

  // ---- definitions and uses ----

  /** Blocks define what they did; the new one defines nothing. */
  lemma SplitDefines(f: Func, from: BlockId, to: BlockId, v: ValueId, p: Point)
    requires Splittable(f, from, to)
    ensures DefinedAt(SplitOf(f, from, to), v, p) <==> DefinedAt(f, v, p)
  {
    if p.block <= f.Size() {
      assert SplitOf(f, from, to).blocks[p.block] == SplitAt(f, from, to, p.block);
    }
    hide SplitOf;
  }

  lemma SplitSingle(f: Func, from: BlockId, to: BlockId)
    requires Splittable(f, from, to) && SingleDefs(f)
    ensures SingleDefs(SplitOf(f, from, to))
  {
    var f' := SplitOf(f, from, to);
    forall v: ValueId, p: Point, q: Point | DefinedAt(f', v, p) && DefinedAt(f', v, q) ensures p == q {
      SplitDefines(f, from, to, v, p);
      SplitDefines(f, from, to, v, q);
    }
    forall b: nat | b < f'.Size()
      ensures DistinctDests(f'.blocks[b].phis)
      ensures forall i: nat :: i < |f'.blocks[b].insts| ==>
                (f'.blocks[b].insts[i].dest.Some? <==> f'.blocks[b].insts[i].op.DefinesValue())
    {
      assert f'.blocks[b] == SplitAt(f, from, to, b);
    }
    hide SplitOf, DefinedAt, DistinctDests;
  }

  /** What is available at a point still is, and at the end of the new block what was where the edge begins. */
  lemma SplitAvailable(f: Func, from: BlockId, to: BlockId, v: ValueId, q: Point, q': Point)
    requires Splittable(f, from, to) && AvailableAt(f, v, q) && q'.block <= f.Size()
    requires q.block == Behind(f, from, q'.block) && (q'.block < f.Size() ==> q' == q)
    ensures AvailableAt(SplitOf(f, from, to), v, q')
  {
    var g' := SplitOf(f, from, to).Adjacency();
    var p: Point :| DefinedAt(f, v, p) && Before(f.Adjacency(), p, q);
    SplitDefines(f, from, to, v, p);
    assert p.block < f.Size();
    hide SplitOf, DefinedAt;
    if p.block == q.block {
      SelfDom(f.Adjacency(), p.block);
    }
    SplitDom(f, from, to, p.block, q'.block);
    assert Before(g', p, q');
  }

  lemma SelfDom(g: Graph, a: BlockId)
    ensures g.Dom(a, a)
  {
  }

  lemma SplitOk(f: Func, from: BlockId, to: BlockId, os: seq<Operand>, q: Point, q': Point)
    requires Splittable(f, from, to) && AllOk(f, os, q) && q'.block <= f.Size()
    requires q.block == Behind(f, from, q'.block) && (q'.block < f.Size() ==> q' == q)
    ensures AllOk(SplitOf(f, from, to), os, q')
  {
    forall i: nat | i < |os| ensures OperandOk(SplitOf(f, from, to), os[i], q') {
      assert OperandOk(f, os[i], q);
      hide SplitOf, AvailableAt, Splittable;
      if os[i].Value? {
        SplitAvailable(f, from, to, os[i].id, q, q');
      }
    }
  }

  lemma SplitTermReads(term: Terminator, from: BlockId, to: BlockId)
    ensures Retarget(term, from, to).Operands() == term.Operands()
  {
  }

  /** What the split function's blocks read. */
  lemma SplitReads(f: Func, from: BlockId, to: BlockId, b: BlockId)
    requires Splittable(f, from, to) && b < f.Size()
    ensures var block := SplitOf(f, from, to).blocks[b];
            && block.insts == f.blocks[b].insts && block.phis == f.blocks[b].phis
            && block.term.Operands() == f.blocks[b].term.Operands()
            && |block.preds| == |f.blocks[b].preds|
            && End(SplitOf(f, from, to), b) == End(f, b)
            && forall i: nat :: i < |block.preds| ==> Behind(f, from, block.preds[i]) == f.blocks[b].preds[i]
                                                      && block.preds[i] <= f.Size()
  {
    assert SplitOf(f, from, to).blocks[b] == SplitAt(f, from, to, b);
    SplitTermReads(f.blocks[b].term, to, f.Size());
    forall i: nat | i < |f.blocks[b].preds| ensures f.blocks[b].preds[i] < f.Size() {
      assert f.Adjacency().preds[b][i] < f.Size();
    }
    assert from in f.Adjacency().preds[to];
    hide SplitOf, Retarget;
  }

  lemma SplitBlockOk(f: Func, from: BlockId, to: BlockId, b: BlockId)
    requires Splittable(f, from, to) && UsesOk(f) && b < f.Size()
    ensures BlockUsesOk(SplitOf(f, from, to), b)
  {
    var f' := SplitOf(f, from, to);
    var block := f.blocks[b];
    SplitReads(f, from, to, b);
    assert BlockUsesOk(f, b);
    hide SplitOf, UsesOk, AllOk, End, Splittable, OperandOk, Behind;
    SplitOldBlock(f, from, b);
    forall i: nat | i < |block.insts| ensures AllOk(f', block.insts[i].op.Operands(), Point(b, i + 1)) {
      SplitOk(f, from, to, block.insts[i].op.Operands(), Point(b, i + 1), Point(b, i + 1));
    }
    EndAt(f, b);
    SplitOk(f, from, to, block.term.Operands(), End(f, b), End(f, b));
    forall k: nat, i: nat | k < |block.phis| && i < |block.phis[k].args| && i < |block.preds|
      ensures OperandOk(f', block.phis[k].args[i], End(f', f'.blocks[b].preds[i]))
    {
      SplitPhiOk(f, from, to, b, k, i);
    }
  }

  lemma SplitOldBlock(f: Func, from: BlockId, b: BlockId)
    requires b < f.Size()
    ensures Behind(f, from, b) == b
  {
  }

  lemma EndAt(f: Func, b: BlockId)
    ensures End(f, b).block == b
  {
  }

  lemma SplitPhiOk(f: Func, from: BlockId, to: BlockId, b: BlockId, k: nat, i: nat)
    requires Splittable(f, from, to) && UsesOk(f) && b < f.Size() && k < |f.blocks[b].phis|
    requires i < |f.blocks[b].phis[k].args| && i < |f.blocks[b].preds|
    ensures var f' := SplitOf(f, from, to);
            && i < |f'.blocks[b].preds|
            && OperandOk(f', f.blocks[b].phis[k].args[i], End(f', f'.blocks[b].preds[i]))
  {
    var f' := SplitOf(f, from, to);
    SplitReads(f, from, to, b);
    assert BlockUsesOk(f, b);
    var o, a := f.blocks[b].phis[k].args[i], f'.blocks[b].preds[i];
    assert OperandOk(f, o, End(f, f.blocks[b].preds[i]));
    if a < f.Size() {
      SplitReads(f, from, to, a);
    }
    EndAt(f', a);
    EndAt(f, f.blocks[b].preds[i]);
    hide SplitOf, UsesOk, BlockUsesOk, End, Splittable, AvailableAt;
    if o.Value? {
      SplitAvailable(f, from, to, o.id, End(f, f.blocks[b].preds[i]), End(f', a));
    }
  }

  /** A split keeps every use within reach of its definition. */
  lemma SplitUsesOk(f: Func, from: BlockId, to: BlockId)
    requires Splittable(f, from, to) && UsesOk(f)
    ensures UsesOk(SplitOf(f, from, to))
  {
    var f' := SplitOf(f, from, to);
    forall b: nat | b < f'.Size() ensures BlockUsesOk(f', b) {
      if b < f.Size() {
        SplitBlockOk(f, from, to, b);
      } else {
        assert f'.blocks[b] == SplitAt(f, from, to, b);
      }
    }
    hide BlockUsesOk, SplitOf;
  }
}
