/** Promotion leaves the edges alone, and its phis stand where several of them meet. */
module PromotedShape {
  import opened Graphs
  import opened IdomTree
  import opened DomFixpoint
  import opened Frontiers
  import opened Ssa
  import opened Rewrites
  import opened SsaValid
  import opened GraphEdits
  import opened Wiring
  import opened RenameSpec
  import opened Promotion
  import opened RenameSteps
  import opened Prepare
  import opened Promoted

  // ---- shapes ----

  /** The same blocks with the same edges and the same phis, but for what is read. */
  ghost predicate SameShapes(f: Func, f': Func) {
    && f'.Size() == f.Size() && f'.entry == f.entry
    && forall b: BlockId :: b < f.Size() ==> SameShape(f.blocks[b], f'.blocks[b])
  }

  lemma SameShapesKeep(f: Func, f': Func)
    requires SameShapes(f, f')
    ensures f'.Adjacency() == f.Adjacency()
    ensures PhisJoin(f) ==> PhisJoin(f')
    ensures CriticalFree(f) ==> CriticalFree(f')
    ensures WellFormed(f) && f'.sites == f.sites ==> WellFormed(f')
  {
    forall b: BlockId | b < f.Size()
      ensures f'.Adjacency().preds[b] == f.Adjacency().preds[b] && f'.Adjacency().succs[b] == f.Adjacency().succs[b]
      ensures f'.blocks[b].phis != [] ==> f.blocks[b].phis != []
    {
      assert SameShape(f.blocks[b], f'.blocks[b]);
    }
    assert f'.Adjacency().preds == f.Adjacency().preds && f'.Adjacency().succs == f.Adjacency().succs;
    if CriticalFree(f) {
      SameGraphNoCritical(f, f');
    }
    hide WellFormed, Func.Adjacency, CriticalFree;
    if WellFormed(f) && f'.sites == f.sites {
      ShapeKeepsWellFormed(f, f');
    }
  }

  lemma SameGraphNoCritical(f: Func, f': Func)
    requires f'.Adjacency() == f.Adjacency() && f'.Size() == f.Size() && CriticalFree(f)
    ensures CriticalFree(f')
  {
    var g := f.Adjacency();
    forall b: nat | b < f.Size()
      ensures f'.blocks[b].term.Successors() == f.blocks[b].term.Successors() && f'.blocks[b].preds == f.blocks[b].preds
    {
      assert f'.Adjacency().succs[b] == g.succs[b] && f'.Adjacency().preds[b] == g.preds[b];
    }
    hide Func.Adjacency, Graph.Edge;
  }

  // ---- the renamed function ----

  lemma FilledPhisStay(c: Promo, b: BlockId)
    requires SingleDefs(c.f) && b < c.f.Size()
    ensures ErasePhis(Gone(c), FilledBlock(c, b).phis) == FilledBlock(c, b).phis
  {
    var phis := FilledBlock(c, b).phis;
    forall k: nat | k < |phis| ensures phis[k].dest !in Gone(c).values {
      var v := c.f.blocks[b].phis[k].dest;
      SiteIs(c.f, v, Point(b, 0));
      PhiIsNoLoad(c, v);
      LoadResultIsLoad(c, v);
    }
    hide LoadResults;
    EraseNoPhis(Gone(c), phis);
  }

  lemma FilledShape(c: Promo, b: BlockId, block: Block)
    requires c.f.Adjacency().Valid() && b < c.f.Size()
    requires forall k: nat :: k < |c.f.blocks[b].phis| ==> |c.f.blocks[b].phis[k].args| == |c.f.blocks[b].preds|
    requires block.phis == FilledBlock(c, b).phis && block.preds == c.f.blocks[b].preds
    requires block.term.Successors() == c.f.blocks[b].term.Successors()
    ensures SameShape(c.f.blocks[b], block)
  {
    hide Promo.Cur, Promo.Out, Graph.Valid;
    forall k: nat | k < |c.f.blocks[b].phis| ensures block.phis[k] == FilledPhi(c, b, c.f.blocks[b].phis[k]) {
    }
  }

  lemma SlimParts(c: Promo, b: BlockId)
    requires SingleDefs(c.f) && b < c.f.Size()
    ensures Slim(c).Size() == c.f.Size()
    ensures var block := Slim(c).blocks[b];
            && block.phis == FilledBlock(c, b).phis && block.preds == c.f.blocks[b].preds
            && block.term == SubTerm(c.Out(b).sub, c.f.blocks[b].term)
  {
    SlimIs(c);
    FilledPhisStay(c, b);
    hide Slim, SubTerm, Gone, EraseInsts, ErasePhis, RenamedInsts, Promo.Out, SingleDefs, FilledPhi;
  }

  lemma SoundParts(c: Promo, b: BlockId)
    requires c.Sound() && b < c.f.Size()
    ensures SingleDefs(c.f) && c.f.Adjacency().Valid()
    ensures forall k: nat :: k < |c.f.blocks[b].phis| ==> |c.f.blocks[b].phis[k].args| == |c.f.blocks[b].preds|
  {
    hide SingleDefs, Promo.ReadsDefined, IsDomTree, Graph.Valid, Graph.AllReachable;
  }

  lemma SlimShape(c: Promo, b: BlockId)
    requires c.Sound() && b < c.f.Size()
    ensures Slim(c).Size() == c.f.Size() && SameShape(c.f.blocks[b], Slim(c).blocks[b])
  {
    SoundParts(c, b);
    SameSuccessors(c.Out(b).sub, c.f.blocks[b].term);
    hide *;
    SlimParts(c, b);
    FilledShape(c, b, Slim(c).blocks[b]);
  }

  lemma SlimShapes(c: Promo)
    requires c.Sound()
    ensures SameShapes(c.f, Slim(c)) && Slim(c).sites == c.f.sites
  {
    SlimIs(c);
    hide Slim, Promo.Sound, SameShape;
    forall b: BlockId | b < c.f.Size() ensures SameShape(c.f.blocks[b], Slim(c).blocks[b]) {
      SlimShape(c, b);
    }
  }

  /** Other instructions in one block change no shape. */
  lemma InstsShapes(f: Func, f': Func, b: BlockId, insts: seq<Inst>)
    requires b < f.Size() && f'.entry == f.entry && f'.blocks == f.blocks[b := f.blocks[b].(insts := insts)]
    ensures SameShapes(f, f')
  {
  }

  lemma InstsShapesKeep(f: Func, f': Func, b: BlockId, insts: seq<Inst>)
    requires b < f.Size() && f'.entry == f.entry && f'.blocks == f.blocks[b := f.blocks[b].(insts := insts)]
    ensures f'.Adjacency() == f.Adjacency() && (PhisJoin(f) ==> PhisJoin(f'))
  {
    InstsShapes(f, f', b, insts);
    hide *;
    SameShapesKeep(f, f');
  }

  lemma SlimKeeps(f: Func, c: Promo, prologue: nat)
    requires Prepared(f, c, prologue) && c.Sound() && PhisJoin(c.f)
    ensures Slim(c).Adjacency() == f.Adjacency() && PhisJoin(Slim(c))
    ensures WellFormed(c.f) ==> WellFormed(Slim(c))
  {
    SlimShapes(c);
    SameGraph(f, c, prologue);
    hide *;
    SameShapesKeep(c.f, Slim(c));
  }

  // ---- where phis are placed ----

  /** A placed block has several predecessors: the others are in no frontier. */
  lemma PlacedAtJoins(f: Func, t: Tree, frontiers: seq<set<nat>>, defs: set<nat>, placed: set<nat>, b: BlockId)
    requires AreClimbed(f.Adjacency(), t, frontiers, f.Size()) && IteratedFrontier(frontiers, defs, placed) &&
             b in placed
    ensures b < f.Size() && |f.blocks[b].preds| >= 2
  {
    var joins := set x: nat | x in placed && x < f.Size() && |f.blocks[x].preds| >= 2;
    forall a: nat, x: nat | a < |frontiers| && (a in defs || a in joins) && x in frontiers[a] ensures x in joins {
      assert Climbed(f.Adjacency(), t, x, a);
    }
    assert ClosedUnderFrontiers(frontiers, defs, joins);
  }
}
