/** What a function in SSA form satisfies: agreeing edges, one definition per value, and every use
    dominated by its definition. */
module SsaValid {
  import opened Graphs
  import opened IdomTree
  import opened Ssa

  /** A place in a function: row 0 of a block is its phis, row `k + 1` its instruction `k`, and the
      row after the last instruction its terminator. */
  datatype Point = Point(block: BlockId, row: nat)

  ghost predicate DefinedAt(f: Func, v: ValueId, p: Point) {
    p.block < f.Size() &&
    if p.row == 0 then Writes(f.blocks[p.block].phis, v)
    else p.row - 1 < |f.blocks[p.block].insts| && f.blocks[p.block].insts[p.row - 1].dest == Some(v)
  }

  /** `p` is earlier in the same block, or in another block that dominates this one. */
  ghost predicate Before(g: Graph, p: Point, q: Point) {
    if p.block == q.block then p.row < q.row else g.Dom(p.block, q.block)
  }

  ghost predicate AvailableAt(f: Func, v: ValueId, q: Point) {
    exists p: Point :: DefinedAt(f, v, p) && Before(f.Adjacency(), p, q)
  }

  ghost predicate OperandOk(f: Func, o: Operand, q: Point) {
    o.Value? ==> AvailableAt(f, o.id, q)
  }

  ghost predicate AllOk(f: Func, os: seq<Operand>, q: Point) {
    forall i: nat :: i < |os| ==> OperandOk(f, os[i], q)
  }

  ghost function End(f: Func, b: BlockId): Point {
    Point(b, if b < f.Size() then |f.blocks[b].insts| + 1 else 0)
  }

  /** Predecessor lists agree with the terminators, phis have one argument per predecessor, every
      block is reachable and nothing branches into the entry. */
  ghost predicate WellShaped(f: Func) {
    && f.Adjacency().Valid()
    && f.Adjacency().AllReachable()
    && f.blocks[f.entry].preds == []
    && forall b: nat, k: nat :: b < f.Size() && k < |f.blocks[b].phis| ==>
         |f.blocks[b].phis[k].args| == |f.blocks[b].preds|
  }

  /** No value has two definitions. */
  ghost predicate SingleDefs(f: Func) {
    && (forall v: ValueId, p: Point, q: Point :: DefinedAt(f, v, p) && DefinedAt(f, v, q) ==> p == q)
    && (forall b: nat :: b < f.Size() ==> DistinctDests(f.blocks[b].phis))
    && forall b: nat, i: nat :: b < f.Size() && i < |f.blocks[b].insts| ==>
         (f.blocks[b].insts[i].dest.Some? <==> f.blocks[b].insts[i].op.DefinesValue())
  }

  ghost predicate BlockUsesOk(f: Func, b: BlockId)
    requires b < f.Size()
  {
    && (forall i: nat :: i < |f.blocks[b].insts| ==> AllOk(f, f.blocks[b].insts[i].op.Operands(), Point(b, i + 1)))
    && AllOk(f, f.blocks[b].term.Operands(), End(f, b))
    && forall k: nat, i: nat :: k < |f.blocks[b].phis| && i < |f.blocks[b].phis[k].args| && i < |f.blocks[b].preds| ==>
         OperandOk(f, f.blocks[b].phis[k].args[i], End(f, f.blocks[b].preds[i]))
  }

  ghost predicate UsesOk(f: Func) {
    forall b: nat :: b < f.Size() ==> BlockUsesOk(f, b)
  }

  ghost predicate ValidSsa(f: Func) {
    WellShaped(f) && SingleDefs(f) && UsesOk(f)
  }

  /** No edge leaves a branching block for a block with several predecessors. */
  ghost predicate CriticalFree(f: Func) {
    forall b: nat, c: nat :: b < f.Size() && c < f.Size() && f.Adjacency().Edge(b, c) ==>
      |f.blocks[b].term.Successors()| < 2 || |f.blocks[c].preds| < 2
  }

  /** Phis sit only where several edges meet. */
  ghost predicate PhisJoin(f: Func) {
    forall b: nat :: b < f.Size() && f.blocks[b].phis != [] ==> |f.blocks[b].preds| >= 2
  }

  // ---- the one definition of a value ----

  ghost function SiteOf(f: Func, v: ValueId): Point {
    if exists p: Point :: DefinedAt(f, v, p) then
      var p: Point :| DefinedAt(f, v, p); p
    else Point(f.Size(), 0)
  }

  /** `v` is defined, and its definition comes before `q`. */
  ghost predicate InScope(f: Func, v: ValueId, q: Point) {
    DefinedAt(f, v, SiteOf(f, v)) && Before(f.Adjacency(), SiteOf(f, v), q)
  }

  lemma SiteIs(f: Func, v: ValueId, p: Point)
    requires SingleDefs(f) && DefinedAt(f, v, p)
    ensures SiteOf(f, v) == p
  {
  }

  lemma ScopeIsAvailability(f: Func, v: ValueId, q: Point)
    requires SingleDefs(f)
    ensures AvailableAt(f, v, q) <==> InScope(f, v, q)
  {
    if AvailableAt(f, v, q) {
      var p: Point :| DefinedAt(f, v, p) && Before(f.Adjacency(), p, q);
      SiteIs(f, v, p);
    }
  }

  // ---- the order of points ----

  lemma BeforeTransitive(g: Graph, p: Point, q: Point, r: Point)
    requires g.Reachable(q.block)
    requires Before(g, p, q) && Before(g, q, r)
    ensures Before(g, p, r)
  {
    if p.block != q.block && q.block != r.block {
      DomTransitive(g, p.block, q.block, r.block);
      if p.block == r.block {
        DomAntisymmetric(g, p.block, q.block);
      }
    }
  }

  lemma BeforeAntisymmetric(g: Graph, p: Point, q: Point)
    requires g.Reachable(q.block)
    ensures !(Before(g, p, q) && Before(g, q, p))
  {
    if p.block != q.block && Before(g, p, q) && Before(g, q, p) {
      DomAntisymmetric(g, p.block, q.block);
    }
  }

  /** What comes before a block it is not in comes before the end of each of its predecessors. */
  lemma BeforeEdge(f: Func, p: Point, b: BlockId, c: BlockId, v: ValueId)
    requires f.Adjacency().Edge(b, c) && DefinedAt(f, v, p)
    requires p.block != c && Before(f.Adjacency(), p, Point(c, 1))
    ensures Before(f.Adjacency(), p, End(f, b))
  {
    StrictDomReachesPreds(f.Adjacency(), p.block, b, c);
  }

  lemma TargetIsEdge(f: Func, b: BlockId, st: State)
    requires f.Adjacency().Valid() && b < f.Size() && !f.blocks[b].term.Return?
    ensures Target(f.blocks[b].term, st) < f.Size()
    ensures f.Adjacency().Edge(b, Target(f.blocks[b].term, st))
    ensures b in f.blocks[Target(f.blocks[b].term, st)].preds
  {
    var g := f.Adjacency();
    var c := Target(f.blocks[b].term, st);
    var succ := g.succs[b];
    assert succ == f.blocks[b].term.Successors();
    var k: nat :| k < |succ| && succ[k] == c;
    assert g.succs[b][k] < g.Size();
    assert b in g.preds[c];
  }

  // ---- reading other operands ----

  /** The same definitions and the same edges. */
  ghost predicate AlikeBlock(block: Block, block': Block) {
    && block'.preds == block.preds && block'.term.Successors() == block.term.Successors()
    && |block'.insts| == |block.insts| && |block'.phis| == |block.phis|
    && (forall i: nat :: i < |block.insts| ==>
          block'.insts[i].dest == block.insts[i].dest &&
          block'.insts[i].op.DefinesValue() == block.insts[i].op.DefinesValue())
    && (forall k: nat :: k < |block.phis| ==>
          block'.phis[k].dest == block.phis[k].dest && |block'.phis[k].args| == |block.phis[k].args|)
  }

  /** What `block'` reads is defined in `f` before the place it would read it. */
  ghost predicate UsesOkIn(f: Func, block': Block, b: BlockId) {
    && (forall i: nat :: i < |block'.insts| ==> AllOk(f, block'.insts[i].op.Operands(), Point(b, i + 1)))
    && AllOk(f, block'.term.Operands(), End(f, b))
    && forall k: nat, i: nat :: k < |block'.phis| && i < |block'.phis[k].args| && i < |block'.preds| ==>
         OperandOk(f, block'.phis[k].args[i], End(f, block'.preds[i]))
  }

  lemma AlikeDefines(f: Func, f': Func, v: ValueId, p: Point)
    requires f'.Size() == f.Size() && forall b: nat :: b < f.Size() ==> AlikeBlock(f.blocks[b], f'.blocks[b])
    ensures DefinedAt(f', v, p) <==> DefinedAt(f, v, p)
  {
    if p.block < f.Size() {
      var block, block' := f.blocks[p.block], f'.blocks[p.block];
      assert AlikeBlock(block, block');
      if p.row == 0 {
        if Writes(block.phis, v) {
          var k: nat :| k < |block.phis| && block.phis[k].dest == v;
          assert block'.phis[k].dest == v;
        }
        if Writes(block'.phis, v) {
          var k: nat :| k < |block'.phis| && block'.phis[k].dest == v;
          assert block.phis[k].dest == v;
        }
      }
    }
  }

  lemma AlikeOperandOk(f: Func, f': Func, o: Operand, q: Point)
    requires f'.Size() == f.Size() && forall b: nat :: b < f.Size() ==> AlikeBlock(f.blocks[b], f'.blocks[b])
    requires f'.Adjacency() == f.Adjacency() && OperandOk(f, o, q)
    ensures OperandOk(f', o, q)
  {
    if o.Value? {
      var p: Point :| DefinedAt(f, o.id, p) && Before(f.Adjacency(), p, q);
      AlikeDefines(f, f', o.id, p);
    }
  }

  lemma AlikeUsesOk(f: Func, f': Func, b: BlockId)
    requires f'.Size() == f.Size() && forall x: nat :: x < f.Size() ==> AlikeBlock(f.blocks[x], f'.blocks[x])
    requires f'.Adjacency() == f.Adjacency() && f.Adjacency().Valid() && b < f.Size() && UsesOkIn(f, f'.blocks[b], b)
    ensures BlockUsesOk(f', b)
  {
    var block' := f'.blocks[b];
    assert AlikeBlock(f.blocks[b], block');
    forall i: nat, k: nat | i < |block'.insts| && k < |block'.insts[i].op.Operands()|
      ensures OperandOk(f', block'.insts[i].op.Operands()[k], Point(b, i + 1))
    {
      assert AllOk(f, block'.insts[i].op.Operands(), Point(b, i + 1));
      AlikeOperandOk(f, f', block'.insts[i].op.Operands()[k], Point(b, i + 1));
    }
    forall k: nat | k < |block'.term.Operands()|
      ensures OperandOk(f', block'.term.Operands()[k], End(f', b))
    {
      AlikeOperandOk(f, f', block'.term.Operands()[k], End(f, b));
    }
    forall k: nat, i: nat | k < |block'.phis| && i < |block'.phis[k].args| && i < |block'.preds|
      ensures OperandOk(f', block'.phis[k].args[i], End(f', block'.preds[i]))
    {
      assert f.Adjacency().preds[b][i] < f.Size();
      assert AlikeBlock(f.blocks[block'.preds[i]], f'.blocks[block'.preds[i]]);
      AlikeOperandOk(f, f', block'.phis[k].args[i], End(f, block'.preds[i]));
    }
    hide OperandOk;
  }

  lemma AlikeGraph(f: Func, f': Func)
    requires f'.Size() == f.Size() && f'.entry == f.entry
    requires forall b: nat :: b < f.Size() ==> AlikeBlock(f.blocks[b], f'.blocks[b])
    ensures f'.Adjacency() == f.Adjacency()
  {
    forall b: nat | b < f.Size()
      ensures f'.Adjacency().preds[b] == f.Adjacency().preds[b] && f'.Adjacency().succs[b] == f.Adjacency().succs[b]
    {
      assert AlikeBlock(f.blocks[b], f'.blocks[b]);
    }
    assert f'.Adjacency().preds == f.Adjacency().preds && f'.Adjacency().succs == f.Adjacency().succs;
  }

  lemma AlikeSingle(f: Func, f': Func)
    requires f'.Size() == f.Size() && SingleDefs(f)
    requires forall b: nat :: b < f.Size() ==> AlikeBlock(f.blocks[b], f'.blocks[b])
    ensures SingleDefs(f')
  {
    forall v: ValueId, p: Point, q: Point | DefinedAt(f', v, p) && DefinedAt(f', v, q)
      ensures p == q
    {
      AlikeDefines(f, f', v, p);
      AlikeDefines(f, f', v, q);
    }
    forall b: nat | b < f'.Size() ensures DistinctDests(f'.blocks[b].phis) {
      assert AlikeBlock(f.blocks[b], f'.blocks[b]) && DistinctDests(f.blocks[b].phis);
    }
    forall b: nat, i: nat | b < f'.Size() && i < |f'.blocks[b].insts|
      ensures f'.blocks[b].insts[i].dest.Some? <==> f'.blocks[b].insts[i].op.DefinesValue()
    {
      assert AlikeBlock(f.blocks[b], f'.blocks[b]);
    }
    hide DefinedAt;
  }

  /** Reading something else that is defined before keeps a function's single definitions and shape,
      and makes its uses dominated. */
  lemma ReadingElseKeepsValid(f: Func, f': Func)
    requires WellShaped(f) && SingleDefs(f) && f'.Size() == f.Size() && f'.entry == f.entry
    requires forall b: nat :: b < f.Size() ==> AlikeBlock(f.blocks[b], f'.blocks[b]) && UsesOkIn(f, f'.blocks[b], b)
    ensures ValidSsa(f')
  {
    AlikeGraph(f, f');
    AlikeSingle(f, f');
    forall b: nat | b < f'.Size() ensures BlockUsesOk(f', b) {
      AlikeUsesOk(f, f', b);
    }
    forall b: nat, k: nat | b < f'.Size() && k < |f'.blocks[b].phis|
      ensures |f'.blocks[b].phis[k].args| == |f'.blocks[b].preds|
    {
      assert AlikeBlock(f.blocks[b], f'.blocks[b]);
    }
    assert AlikeBlock(f.blocks[f.entry], f'.blocks[f.entry]);
    hide SingleDefs, UsesOkIn, BlockUsesOk;
  }
}
