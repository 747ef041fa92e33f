/** Deleting unreachable blocks nothing reachable is entered from keeps a function valid SSA. */
module RetainedUses {
  import opened Graphs
  import opened IdomTree
  import opened Ssa
  import opened SsaValid
  import opened GraphEdits
  import opened GraphSurgery
  import opened Renumbering

  /** What is kept is what can be reached, and it is entered only from what is kept. */
  ghost predicate Trimmed(f: Func, order: seq<BlockId>, keep: seq<bool>) {
    && Wired(f) && KeptInOrder(f, order, keep) && KeepClosed(f, keep)
    && (forall b: BlockId {:trigger Kept(keep, b)} :: Kept(keep, b) <==> f.Adjacency().Reachable(b))
    && forall i: nat :: i < |order| ==> EntersFromKept(f, order, keep, i)
  }

  ghost predicate EntersFromKept(f: Func, order: seq<BlockId>, keep: seq<bool>, i: nat)
    requires i < |order|
  {
    order[i] < f.Size() && forall k: nat :: k < |f.blocks[order[i]].preds| ==> Kept(keep, f.blocks[order[i]].preds[k])
  }

  lemma {:induction false} NothingDropped(block: Block, keep: seq<bool>, n: nat)
    requires n <= |block.preds| && forall k: nat :: k < n ==> Kept(keep, block.preds[k])
    ensures DropUnreached(block, keep, n) == block
    decreases n
  {
    if n > 0 {
      NothingDropped(block, keep, n - 1);
    }
  }

  /** A block that is kept changes in the numbers of other blocks only. */
  lemma RetainedIs(f: Func, order: seq<BlockId>, keep: seq<bool>, i: nat)
    requires Trimmed(f, order, keep) && i < |order|
    ensures order[i] < f.Size() && Kept(keep, order[i])
    ensures var was, now := f.blocks[order[i]], RetainOf(f, order, keep).blocks[i];
            && now.phis == was.phis && now.insts == was.insts && now.term == RemapTerm(order, was.term)
            && |now.preds| == |was.preds|
            && forall k: nat :: k < |now.preds| ==> now.preds[k] < |order| && order[now.preds[k]] == was.preds[k]
  {
    InOrder(f, order, keep, i);
    assert EntersFromKept(f, order, keep, i);
    var block := f.blocks[order[i]];
    NothingDropped(block, keep, |block.preds|);
    assert RetainOf(f, order, keep).blocks[i] == RetainedAt(f, order, keep, i);
    hide RetainOf, Wired, KeepClosed, DropUnreached, Graph.Reachable, EntersFromKept;
    forall k: nat | k < |block.preds| ensures block.preds[k] in order {
      assert Kept(keep, block.preds[k]);
    }
  }

  function Old(order: seq<BlockId>, p: Point): Point {
    if p.block < |order| then Point(order[p.block], p.row) else p
  }

  lemma SameOperands(order: seq<BlockId>, term: Terminator)
    ensures RemapTerm(order, term).Operands() == term.Operands()
  {
  }

  lemma SameDefinitions(f: Func, f': Func, v: ValueId, p: Point, q: Point)
    requires p.block < f.Size() && q.block < f'.Size() && p.row == q.row
    requires f.blocks[p.block].phis == f'.blocks[q.block].phis && f.blocks[p.block].insts == f'.blocks[q.block].insts
    ensures DefinedAt(f, v, p) <==> DefinedAt(f', v, q)
  {
  }

  lemma RetainedDefines(f: Func, order: seq<BlockId>, keep: seq<bool>, v: ValueId, p: Point)
    requires Trimmed(f, order, keep) && p.block < |order|
    ensures DefinedAt(RetainOf(f, order, keep), v, p) <==> DefinedAt(f, v, Old(order, p))
  {
    hide *;
    RetainedIs(f, order, keep, p.block);
    RetainedSize(f, order, keep);
    OldPoint(order, p);
    SameDefinitions(f, RetainOf(f, order, keep), v, Old(order, p), p);
  }

  lemma OldPoint(order: seq<BlockId>, p: Point)
    requires p.block < |order|
    ensures Old(order, p) == Point(order[p.block], p.row)
  {
  }

  // ---- dominance ----

  function OldPath(order: seq<BlockId>, path: seq<BlockId>): (r: seq<BlockId>)
    ensures |r| == |path|
    ensures forall i: nat :: i < |r| ==> r[i] == if path[i] < |order| then order[path[i]] else path[i]
  {
    seq(|path|, i requires 0 <= i < |path| => if path[i] < |order| then order[path[i]] else path[i])
  }

  lemma OldStart(f: Func, order: seq<BlockId>, keep: seq<bool>)
    requires Trimmed(f, order, keep) && RetainOf(f, order, keep).entry < |order|
    ensures order[RetainOf(f, order, keep).entry] == f.entry && f.entry < f.Size()
  {
    EntryKept(f, order, keep);
    hide RetainOf, Wired, KeepClosed, Graph.Reachable;
    IndexOf(order, f.entry);
    InOrder(f, order, keep, NewIndex(order, f.entry));
  }

  lemma OldEdge(f: Func, order: seq<BlockId>, keep: seq<bool>, a: BlockId, b: BlockId)
    requires Trimmed(f, order, keep) && RetainOf(f, order, keep).Adjacency().Edge(a, b)
    ensures a < |order| && b < |order| && f.Adjacency().Edge(order[a], order[b])
  {
    hide RetainOf, Wired, KeptInOrder, KeepClosed, Graph.Reachable, Graph.Edge;
    RetainedEdgeBack(f, order, keep, a, b);
  }

  lemma OldPathSnoc(order: seq<BlockId>, path: seq<BlockId>, n: nat)
    requires |path| == n + 1 && path[n] < |order|
    ensures OldPath(order, path) == OldPath(order, path[..n]) + [order[path[n]]]
  {
  }

  lemma OldPathStarts(f: Func, order: seq<BlockId>, keep: seq<bool>, path: seq<BlockId>, b: BlockId)
    requires Trimmed(f, order, keep) && b < |order| && RetainOf(f, order, keep).Adjacency().PathTo(path, b)
    requires |path| == 1
    ensures f.Adjacency().PathTo(OldPath(order, path), order[b])
  {
    assert RetainOf(f, order, keep).entry == b && path == [b];
    OldStart(f, order, keep);
    hide Trimmed, RetainOf;
    assert OldPath(order, path) == [order[b]];
  }

  lemma OldPathGoesOn(f: Func, order: seq<BlockId>, path: seq<BlockId>, n: nat)
    requires |path| == n + 1 && n > 0 && path[n] < |order| && path[n - 1] < |order|
    requires f.Adjacency().PathTo(OldPath(order, path[..n]), order[path[n - 1]])
    requires f.Adjacency().Edge(order[path[n - 1]], order[path[n]])
    ensures f.Adjacency().PathTo(OldPath(order, path), order[path[n]])
  {
    OldPathSnoc(order, path, n);
    hide *;
    ExtendPath(f.Adjacency(), OldPath(order, path[..n]), order[path[n - 1]], order[path[n]]);
  }

  lemma {:induction false} OldPathIsPath(f: Func, order: seq<BlockId>, keep: seq<bool>, path: seq<BlockId>, b: BlockId)
    requires Trimmed(f, order, keep) && b < |order| && RetainOf(f, order, keep).Adjacency().PathTo(path, b)
    ensures f.Adjacency().PathTo(OldPath(order, path), order[b])
    decreases |path|
  {
    var g' := RetainOf(f, order, keep).Adjacency();
    hide Trimmed, RetainOf, Func.Adjacency, OldPath;
    if |path| == 1 {
      OldPathStarts(f, order, keep, path, b);
    } else {
      var n := |path| - 1;
      PathPrefix(g', path, b, n - 1);
      assert g'.Edge(path[n - 1], path[n - 1 + 1]);
      hide Graph.PathTo, Graph.Edge;
      OldEdge(f, order, keep, path[n - 1], b);
      OldPathIsPath(f, order, keep, path[..n], path[n - 1]);
      OldPathGoesOn(f, order, path, n);
    }
  }

  lemma {:induction false} OnlyKept(f: Func, order: seq<BlockId>, keep: seq<bool>, path: seq<BlockId>, b: BlockId,
                                    i: nat)
    requires Trimmed(f, order, keep) && b < |order| && RetainOf(f, order, keep).Adjacency().PathTo(path, b) &&
             i < |path|
    ensures path[i] < |order|
  {
    var g' := RetainOf(f, order, keep).Adjacency();
    hide Trimmed, RetainOf;
    if i < |path| - 1 {
      assert g'.Edge(path[i], path[i + 1]);
      hide Func.Adjacency;
      OldEdge(f, order, keep, path[i], path[i + 1]);
    }
  }

  lemma RetainedDom(f: Func, order: seq<BlockId>, keep: seq<bool>, a: BlockId, b: BlockId)
    requires Trimmed(f, order, keep) && a < |order| && b < |order| && f.Adjacency().Dom(order[a], order[b])
    ensures RetainOf(f, order, keep).Adjacency().Dom(a, b)
  {
    InOrder(f, order, keep, a);
    hide RetainOf, Wired, KeptInOrder, KeepClosed, Graph.Reachable;
    forall path | RetainOf(f, order, keep).Adjacency().PathTo(path, b) ensures a in path {
      OldPathIsPath(f, order, keep, path, b);
      var i: nat :| i < |path| && OldPath(order, path)[i] == order[a];
      OnlyKept(f, order, keep, path, b, i);
      assert path[i] == a;
    }
  }

  /** What dominates a kept block is kept. */
  lemma DominatorKept(f: Func, order: seq<BlockId>, keep: seq<bool>, a: BlockId, b: BlockId) returns (i: nat)
    requires Trimmed(f, order, keep) && Kept(keep, b) && f.Adjacency().Dom(a, b)
    ensures i < |order| && order[i] == a
  {
    var g := f.Adjacency();
    var path :| g.PathTo(path, b);
    var k: nat :| k < |path| && path[k] == a;
    PathPrefix(g, path, b, k);
    assert Kept(keep, a);
    i :| 0 <= i < |order| && order[i] == a;
  }

  // ---- uses ----

  lemma RetainedOk(f: Func, order: seq<BlockId>, keep: seq<bool>, os: seq<Operand>, q: Point)
    requires Trimmed(f, order, keep) && q.block < |order| && AllOk(f, os, Old(order, q))
    ensures AllOk(RetainOf(f, order, keep), os, q)
  {
    var f' := RetainOf(f, order, keep);
    InOrder(f, order, keep, q.block);
    forall i: nat | i < |os| ensures OperandOk(f', os[i], q) {
      assert OperandOk(f, os[i], Old(order, q));
      if os[i].Value? {
        hide RetainOf, Trimmed, DefinedAt, Graph.Dom;
        var p: Point :| DefinedAt(f, os[i].id, p) && Before(f.Adjacency(), p, Old(order, q));
        RetainedAvailable(f, order, keep, os[i].id, p, q);
      }
    }
  }

  lemma RetainedAvailable(f: Func, order: seq<BlockId>, keep: seq<bool>, v: ValueId, p: Point, q: Point)
    requires Trimmed(f, order, keep) && q.block < |order|
    requires DefinedAt(f, v, p) && Before(f.Adjacency(), p, Old(order, q))
    ensures AvailableAt(RetainOf(f, order, keep), v, q)
  {
    var g' := RetainOf(f, order, keep).Adjacency();
    InOrder(f, order, keep, q.block);
    var b: nat := q.block;
    if p.block != order[q.block] {
      b := DominatorKept(f, order, keep, p.block, order[q.block]);
      RetainedDom(f, order, keep, b, q.block);
    }
    var p' := Point(b, p.row);
    RetainedDefines(f, order, keep, v, p');
    hide RetainOf, Trimmed, DefinedAt, Graph.Dom;
    assert Old(order, p') == p;
    assert Before(g', p', q);
  }

  lemma RetainedEnd(f: Func, order: seq<BlockId>, keep: seq<bool>, b: BlockId)
    requires Trimmed(f, order, keep) && b < |order|
    ensures Old(order, End(RetainOf(f, order, keep), b)) == End(f, order[b])
  {
    RetainedIs(f, order, keep, b);
    RetainedSize(f, order, keep);
    hide RetainOf, Trimmed;
  }

  lemma RetainedBlockOk(f: Func, order: seq<BlockId>, keep: seq<bool>, b: BlockId)
    requires Trimmed(f, order, keep) && UsesOk(f) && b < |order|
    ensures BlockUsesOk(RetainOf(f, order, keep), b)
  {
    var f' := RetainOf(f, order, keep);
    RetainedIs(f, order, keep, b);
    var block := f.blocks[order[b]];
    assert BlockUsesOk(f, order[b]);
    RetainedSize(f, order, keep);
    hide RetainOf, Trimmed, AllOk, UsesOk, End, OperandOk;
    forall i: nat | i < |block.insts| ensures AllOk(f', block.insts[i].op.Operands(), Point(b, i + 1)) {
      RetainedOk(f, order, keep, block.insts[i].op.Operands(), Point(b, i + 1));
    }
    RetainedEnd(f, order, keep, b);
    SameOperands(order, block.term);
    RetainedOk(f, order, keep, block.term.Operands(), End(f', b));
    forall k: nat, i: nat | k < |block.phis| && i < |block.phis[k].args| && i < |block.preds|
      ensures OperandOk(f', block.phis[k].args[i], End(f', f'.blocks[b].preds[i]))
    {
      RetainedPhiOk(f, order, keep, b, k, i);
    }
  }

  lemma RetainedPhiOk(f: Func, order: seq<BlockId>, keep: seq<bool>, b: BlockId, k: nat, i: nat)
    requires Trimmed(f, order, keep) && UsesOk(f) && b < |order| && order[b] < f.Size()
    requires k < |f.blocks[order[b]].phis| && i < |f.blocks[order[b]].phis[k].args| && i < |f.blocks[order[b]].preds|
    ensures var f' := RetainOf(f, order, keep);
            i < |f'.blocks[b].preds| &&
            OperandOk(f', f.blocks[order[b]].phis[k].args[i], End(f', f'.blocks[b].preds[i]))
  {
    var f' := RetainOf(f, order, keep);
    RetainedIs(f, order, keep, b);
    RetainedSize(f, order, keep);
    assert BlockUsesOk(f, order[b]);
    var o, a := f.blocks[order[b]].phis[k].args[i], f'.blocks[b].preds[i];
    RetainedEnd(f, order, keep, a);
    hide RetainOf, Trimmed, UsesOk, BlockUsesOk, End;
    assert AllOk(f, [o], Old(order, End(f', a)));
    RetainedOk(f, order, keep, [o], End(f', a));
    assert [o][0] == o;
  }

  lemma RetainedSingle(f: Func, order: seq<BlockId>, keep: seq<bool>)
    requires Trimmed(f, order, keep) && SingleDefs(f)
    ensures SingleDefs(RetainOf(f, order, keep))
  {
    var f' := RetainOf(f, order, keep);
    RetainedSize(f, order, keep);
    forall v: ValueId, p: Point, q: Point | DefinedAt(f', v, p) && DefinedAt(f', v, q) ensures p == q {
      RetainedDefines(f, order, keep, v, p);
      RetainedDefines(f, order, keep, v, q);
      InOrder(f, order, keep, p.block);
      assert Old(order, p) == Old(order, q);
    }
    forall b: nat | b < f'.Size()
      ensures DistinctDests(f'.blocks[b].phis)
      ensures forall i: nat :: i < |f'.blocks[b].insts| ==>
                (f'.blocks[b].insts[i].dest.Some? <==> f'.blocks[b].insts[i].op.DefinesValue())
    {
      RetainedIs(f, order, keep, b);
    }
    hide RetainOf, DefinedAt, DistinctDests, Trimmed;
  }

  /** Deleting what cannot be reached leaves valid SSA. */
  lemma RetainedIsValid(f: Func, order: seq<BlockId>, keep: seq<bool>)
    requires Trimmed(f, order, keep) && SingleDefs(f) && UsesOk(f) && f.entry < f.Size()
    requires f.blocks[f.entry].preds == []
    ensures ValidSsa(RetainOf(f, order, keep))
  {
    var f' := RetainOf(f, order, keep);
    RetainedSingle(f, order, keep);
    RetainWired(f, order, keep);
    WiredIsValid(f');
    RetainedAllReachable(f, order, keep);
    EntryKept(f, order, keep);
    RetainedSize(f, order, keep);
    IndexOf(order, f.entry);
    RetainedIs(f, order, keep, f'.entry);
    WiredArgs(f');
    hide RetainOf, Trimmed, SingleDefs, Wired, BlockUsesOk, Graph.Valid, Graph.AllReachable;
    forall b: nat | b < f'.Size() ensures BlockUsesOk(f', b) {
      RetainedBlockOk(f, order, keep, b);
    }
  }
}
