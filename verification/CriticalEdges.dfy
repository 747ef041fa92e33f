/** Breaking up every critical edge: the edges of the result, the order of its predecessors, and its runs. */
module CriticalEdges {
  import opened Graphs
  import opened IdomTree
  import opened Lists
  import opened Ssa
  import opened SsaValid
  import opened GraphEdits
  import opened GraphSurgery
  import opened Functions
  import opened SplitUses
  import opened Stuttering

  type Edges = seq<(BlockId, BlockId)>

  function Times(edges: Edges, a: BlockId, x: BlockId): nat {
    multiset(edges)[(a, x)]
  }

  /** Leaves a branching block for a block entered from several places. */
  predicate IsCritical(f: Func, a: BlockId, x: BlockId) {
    a < f.Size() && x < f.Size() && |f.blocks[a].term.Successors()| >= 2 && |f.blocks[x].preds| >= 2
  }

  /** How often the critical edge `a -> x` is left to split. */
  ghost function Due(f: Func, a: BlockId, x: BlockId): nat {
    if IsCritical(f, a, x) then Count(f.blocks[a].term.Successors(), x) else 0
  }

  ghost predicate CollectsBelow(f: Func, critical: Edges, n: nat) {
    forall a: BlockId, x: BlockId :: Times(critical, a, x) == if a < n then Due(f, a, x) else 0
  }

  ghost predicate CollectsWithin(f: Func, critical: Edges, b: BlockId, n: nat) {
    b < f.Size() && n <= |f.blocks[b].term.Successors()| &&
    forall a: BlockId, x: BlockId :: Times(critical, a, x) ==
      if a < b then Due(f, a, x)
      else if a == b && IsCritical(f, a, x) then Count(f.blocks[b].term.Successors()[..n], x)
      else 0
  }

  lemma TimesSnoc(edges: Edges, a: BlockId, x: BlockId, b: BlockId, y: BlockId)
    ensures Times(edges + [(a, x)], b, y) == Times(edges, b, y) + if (a, x) == (b, y) then 1 else 0
  {
  }

  lemma TimesDrop(edges: Edges, i: nat, b: BlockId, y: BlockId)
    requires i < |edges|
    ensures Times(edges[i..], b, y) == Times(edges[i + 1..], b, y) + if edges[i] == (b, y) then 1 else 0
  {
    assert edges[i..] == [edges[i]] + edges[i + 1..];
  }

  lemma CountPrefix(s: seq<BlockId>, n: nat, x: BlockId)
    requires n < |s|
    ensures Count(s[..n + 1], x) == Count(s[..n], x) + Unit(s[n], x)
  {
    assert s[..n + 1] == s[..n] + [s[n]];
  }

  lemma CollectOne(f: Func, critical: Edges, b: BlockId, n: nat)
    requires CollectsWithin(f, critical, b, n) && n < |f.blocks[b].term.Successors()|
    ensures var x := f.blocks[b].term.Successors()[n];
            CollectsWithin(f, if IsCritical(f, b, x) then critical + [(b, x)] else critical, b, n + 1)
  {
    hide Count, Times, Due, IsCritical;
    var succs := f.blocks[b].term.Successors();
    var x := succs[n];
    var more := if IsCritical(f, b, x) then critical + [(b, x)] else critical;
    forall a: BlockId, y: BlockId
      ensures Times(more, a, y) ==
        if a < b then Due(f, a, y) else if a == b && IsCritical(f, a, y) then Count(succs[..n + 1], y) else 0
    {
      TimesSnoc(critical, b, x, a, y);
      CountPrefix(succs, n, y);
    }
  }

  lemma CollectStarts(f: Func, critical: Edges, b: BlockId)
    requires CollectsBelow(f, critical, b) && b < f.Size()
    ensures CollectsWithin(f, critical, b, 0)
  {
    assert f.blocks[b].term.Successors()[..0] == [];
    assert forall x: BlockId :: Count([], x) == 0;
    hide Times;
  }

  lemma CollectEnds(f: Func, critical: Edges, b: BlockId)
    requires b < f.Size() && CollectsWithin(f, critical, b, |f.blocks[b].term.Successors()|)
    ensures CollectsBelow(f, critical, b + 1)
  {
    var succs := f.blocks[b].term.Successors();
    assert succs[..|succs|] == succs;
    hide Times;
  }

  lemma CollectNothing(f: Func, critical: Edges, b: BlockId)
    requires CollectsBelow(f, critical, b) && b < f.Size() && |f.blocks[b].term.Successors()| < 2
    ensures CollectsBelow(f, critical, b + 1)
  {
    hide Times;
  }

  // ---- splitting one after the other ----

  /** The block an edge came from before it was split. */
  function Origin(f: Func, size: nat, p: BlockId): BlockId {
    if size <= p < f.Size() && |f.blocks[p].preds| == 1 then f.blocks[p].preds[0] else p
  }

  function Origins(f: Func, size: nat, preds: seq<BlockId>): (r: seq<BlockId>)
    ensures |r| == |preds| && forall i: nat :: i < |r| ==> r[i] == Origin(f, size, preds[i])
  {
    seq(|preds|, i requires 0 <= i < |preds| => Origin(f, size, preds[i]))
  }

  /** An old block after some splits: what it computes and where its edges come from are as they were. */
  ghost predicate OldBlock(f0: Func, f: Func, b: BlockId) {
    && b < f0.Size() <= f.Size()
    && f.blocks[b].phis == f0.blocks[b].phis && f.blocks[b].insts == f0.blocks[b].insts
    && |f.blocks[b].term.Successors()| == |f0.blocks[b].term.Successors()|
    && Origins(f, f0.Size(), f.blocks[b].preds) == f0.blocks[b].preds
  }

  /** A block put on an edge contains nothing but a jump. */
  ghost predicate NewBlock(f0: Func, f: Func, b: BlockId) {
    && f0.Size() <= b < f.Size()
    && f.blocks[b].phis == [] && f.blocks[b].insts == [] && f.blocks[b].term.Jump?
    && |f.blocks[b].preds| == 1 && f.blocks[b].preds[0] < f0.Size() && f.blocks[b].term.target < f0.Size()
  }

  /** The edges between old blocks: the critical ones as often as they are still due, the others as before. */
  ghost predicate EdgesLeft(f0: Func, f: Func, left: Edges) {
    f0.Size() <= f.Size() &&
    forall a: BlockId, x: BlockId :: a < f0.Size() && x < f0.Size() ==>
      Count(f.blocks[a].term.Successors(), x) == if IsCritical(f0, a, x) then Times(left, a, x)
                                                 else Count(f0.blocks[a].term.Successors(), x)
  }

  ghost predicate OnlyCritical(f0: Func, left: Edges) {
    forall i: nat :: i < |left| ==> IsCritical(f0, left[i].0, left[i].1)
  }

  ghost predicate Splitting(f0: Func, f: Func, left: Edges) {
    && WellFormed(f) && f.entry == f0.entry && f.sites == f0.sites && f0.Size() <= f.Size() && f0.entry < f0.Size()
    && (forall b: BlockId {:trigger OldBlock(f0, f, b)} :: b < f0.Size() ==> OldBlock(f0, f, b))
    && (forall b: BlockId {:trigger NewBlock(f0, f, b)} :: f0.Size() <= b < f.Size() ==> NewBlock(f0, f, b))
    && EdgesLeft(f0, f, left) && OnlyCritical(f0, left)
  }

  lemma SplittingStarts(f: Func, critical: Edges)
    requires WellFormed(f) && CollectsBelow(f, critical, f.Size())
    ensures Splitting(f, f, critical)
  {
    forall b: BlockId | b < f.Size() ensures OldBlock(f, f, b) {
      assert BlockWired(f, b);
      assert forall i: nat :: i < |f.blocks[b].preds| ==> f.blocks[b].preds[i] in f.blocks[b].preds;
      assert Origins(f, f.Size(), f.blocks[b].preds) == f.blocks[b].preds;
    }
    forall i: nat | i < |critical| ensures IsCritical(f, critical[i].0, critical[i].1) {
      assert critical[i] in multiset(critical);
      assert Times(critical, critical[i].0, critical[i].1) > 0;
    }
    hide WellFormed, Count, Times;
  }

  lemma NextIsThere(f0: Func, f: Func, left: Edges)
    requires Splitting(f0, f, left) && left != []
    ensures var from, to := left[0].0, left[0].1;
            && from < f0.Size() && to < f0.Size()
            && to in f.blocks[from].term.Successors() && from in f.blocks[to].preds
  {
    var from, to := left[0].0, left[0].1;
    assert left[0] in multiset(left);
    assert IsCritical(f0, from, to);
    assert Count(f.blocks[from].term.Successors(), to) == Times(left, from, to);
    WiredBothWays(f, from, to);
    hide WellFormed;
  }

  lemma WiredBothWays(f: Func, a: BlockId, x: BlockId)
    requires WellFormed(f) && a < f.Size() && x < f.Size()
    ensures Count(f.blocks[a].term.Successors(), x) == Count(f.blocks[x].preds, a)
  {
  }

  lemma SplitKeepsEdgesLeft(f0: Func, f: Func, left: Edges, from: BlockId, to: BlockId)
    requires EdgesLeft(f0, f, left) && OnlyCritical(f0, left) && left != [] && left[0] == (from, to)
    requires from < f0.Size() && to < f0.Size() && to in f.blocks[from].term.Successors()
    ensures EdgesLeft(f0, SplitOf(f, from, to), left[1..])
  {
    hide Count, Times;
    var f' := SplitOf(f, from, to);
    assert IsCritical(f0, from, to);
    hide IsCritical;
    forall a: BlockId, x: BlockId | a < f0.Size() && x < f0.Size()
      ensures Count(f'.blocks[a].term.Successors(), x) == if IsCritical(f0, a, x) then Times(left[1..], a, x)
                                                          else Count(f0.blocks[a].term.Successors(), x)
    {
      RetargetCount(f.blocks[from].term, to, f.Size(), x);
      assert left[0..] == left;
      TimesDrop(left, 0, a, x);
      assert Count(f.blocks[a].term.Successors(), x) == if IsCritical(f0, a, x) then Times(left, a, x)
                                                        else Count(f0.blocks[a].term.Successors(), x);
    }
  }

  lemma SplitKeepsOld(f0: Func, f: Func, from: BlockId, to: BlockId, b: BlockId)
    requires OldBlock(f0, f, b) && from < f0.Size() && to < f0.Size() && to in f.blocks[from].term.Successors() &&
             from in f.blocks[to].preds
    requires WellFormed(f) && forall c: BlockId {:trigger NewBlock(f0, f, c)} :: f0.Size() <= c < f.Size() ==>
               NewBlock(f0, f, c)
    ensures OldBlock(f0, SplitOf(f, from, to), b)
  {
    hide Count;
    var f' := SplitOf(f, from, to);
    RetargetCount(f.blocks[from].term, to, f.Size(), to);
    PredsInside(f, b);
    var preds, preds' := f.blocks[b].preds, f'.blocks[b].preds;
    forall i: nat | i < |preds|
      ensures |preds'| == |preds| && Origin(f', f0.Size(), preds'[i]) == Origin(f, f0.Size(), preds[i])
    {
      OriginKept(f0, f, from, to, preds[i]);
      assert f'.blocks[f.Size()] == SplitBlock(from, to);
    }
    assert Origins(f', f0.Size(), preds') == Origins(f, f0.Size(), preds);
    hide WellFormed;
  }

  lemma PredsInside(f: Func, b: BlockId)
    requires WellFormed(f) && b < f.Size()
    ensures forall i: nat :: i < |f.blocks[b].preds| ==> f.blocks[b].preds[i] < f.Size()
  {
    assert BlockWired(f, b);
    assert forall i: nat :: i < |f.blocks[b].preds| ==> f.blocks[b].preds[i] in f.blocks[b].preds;
  }

  lemma OriginKept(f0: Func, f: Func, from: BlockId, to: BlockId, p: BlockId)
    requires from < f0.Size() <= f.Size() && to < f0.Size() && p < f.Size()
    ensures Origin(SplitOf(f, from, to), f0.Size(), p) == Origin(f, f0.Size(), p)
  {
  }

  lemma SplitKeepsNew(f0: Func, f: Func, from: BlockId, to: BlockId, b: BlockId)
    requires from < f0.Size() <= f.Size() && to < f0.Size()
    requires f0.Size() <= b <= f.Size() && (b < f.Size() ==> NewBlock(f0, f, b))
    ensures NewBlock(f0, SplitOf(f, from, to), b)
  {
    assert SplitOf(f, from, to).blocks[b] == SplitAt(f, from, to, b);
  }

  lemma SplittingStep(f0: Func, f: Func, left: Edges)
    requires Splitting(f0, f, left) && left != []
    ensures left[0].0 < f.Size() && left[0].1 < f.Size() && Splitting(f0, SplitOf(f, left[0].0, left[0].1), left[1..])
  {
    NextIsThere(f0, f, left);
    var from, to := left[0].0, left[0].1;
    SplitWellFormed(f, from, to);
    SplitKeepsEdgesLeft(f0, f, left, from, to);
    var f' := SplitOf(f, from, to);
    hide WellFormed, OldBlock, NewBlock, EdgesLeft, SplitOf, OnlyCritical;
    SizeAfter(f, from, to);
    CriticalRest(f0, left);
    forall b: BlockId {:trigger OldBlock(f0, f', b)} | b < f0.Size() ensures OldBlock(f0, f', b) {
      assert OldBlock(f0, f, b);
      SplitKeepsOld(f0, f, from, to, b);
    }
    forall b: BlockId {:trigger NewBlock(f0, f', b)} | f0.Size() <= b < f'.Size() ensures NewBlock(f0, f', b) {
      assert b < f.Size() ==> NewBlock(f0, f, b);
      SplitKeepsNew(f0, f, from, to, b);
    }
  }

  lemma CriticalRest(f0: Func, left: Edges)
    requires OnlyCritical(f0, left) && left != []
    ensures OnlyCritical(f0, left[1..])
  {
    forall i: nat | i < |left[1..]| ensures IsCritical(f0, left[1..][i].0, left[1..][i].1) {
      var next := i + 1;
      assert left[1..][i] == left[next];
    }
  }

  lemma SizeAfter(f: Func, from: BlockId, to: BlockId)
    requires from < f.Size() && to < f.Size()
    ensures var r := SplitOf(f, from, to); r.Size() == f.Size() + 1 && r.entry == f.entry && r.sites == f.sites
  {
  }

  /** With nothing left to split there is no critical edge. */
  lemma SplittingEnds(f0: Func, f: Func)
    requires Splitting(f0, f, [])
    ensures CriticalFree(f)
  {
    forall b: nat, c: nat | b < f.Size() && c < f.Size() && f.Adjacency().Edge(b, c)
      ensures |f.blocks[b].term.Successors()| < 2 || |f.blocks[c].preds| < 2
    {
      if b >= f0.Size() {
        assert NewBlock(f0, f, b);
      } else if c >= f0.Size() {
        assert NewBlock(f0, f, c);
      } else {
        assert OldBlock(f0, f, b) && OldBlock(f0, f, c);
        CountIn(f.blocks[b].term.Successors(), c);
        assert Count(f.blocks[b].term.Successors(), c) > 0;
        assert Times([], b, c) == 0;
        assert !IsCritical(f0, b, c);
      }
    }
    hide WellFormed, Count, Times;
  }

  // ---- reachability ----

  lemma SplitEdgeThere(f: Func, from: BlockId, to: BlockId, a: BlockId, s: BlockId)
    requires WellFormed(f) && from < f.Size() && to in f.blocks[from].term.Successors() && to < f.Size()
    requires a < f.Size() && s in f.blocks[a].term.Successors()
    ensures s < f.Size()
    ensures var g := SplitOf(f, from, to).Adjacency(); g.Edge(a, s) || (g.Edge(a, f.Size()) && g.Edge(f.Size(), s))
  {
    var f' := SplitOf(f, from, to);
    assert f'.blocks[f.Size()].term == Jump(to);
    SplitPhisKept(f, from, to, a);
    SizeAfter(f, from, to);
    RetargetedEdge(f.blocks[a].term, to, f.Size(), s);
    hide SplitOf, WellFormed, Retarget, Entering;
  }

  lemma RetargetedEdge(term: Terminator, from: BlockId, to: BlockId, s: BlockId)
    requires s in term.Successors()
    ensures s in Retarget(term, from, to).Successors() || (s == from && to in Retarget(term, from, to).Successors())
  {
  }

  lemma {:induction false} SplitPath(f: Func, from: BlockId, to: BlockId, path: seq<BlockId>, b: BlockId)
    requires WellFormed(f) && from < f.Size() && to in f.blocks[from].term.Successors() && to < f.Size()
    requires f.Adjacency().PathTo(path, b)
    ensures SplitOf(f, from, to).Adjacency().Reachable(b)
    decreases |path|
  {
    var g := SplitOf(f, from, to).Adjacency();
    if |path| == 1 {
      assert g.PathTo([b], b);
    } else {
      var k := |path| - 2;
      PathPrefix(f.Adjacency(), path, b, k);
      SplitPath(f, from, to, path[..k + 1], path[k]);
      assert f.Adjacency().Edge(path[k], path[k + 1]);
      SplitEdgeThere(f, from, to, path[k], b);
      hide WellFormed, Graph.Reachable, SplitOf;
      if g.Edge(path[k], b) {
        ReachableStep(g, path[k], b);
      } else {
        ReachableStep(g, path[k], f.Size());
        ReachableStep(g, f.Size(), b);
      }
    }
  }

  lemma SplitAllReachable(f: Func, from: BlockId, to: BlockId)
    requires WellFormed(f) && from < f.Size() && to in f.blocks[from].term.Successors() && to < f.Size()
    requires f.Adjacency().AllReachable()
    ensures SplitOf(f, from, to).Adjacency().AllReachable()
  {
    var f' := SplitOf(f, from, to);
    var g := f'.Adjacency();
    forall b: nat | b < f.Size() ensures g.Reachable(b) {
      assert f.Adjacency().Reachable(b);
      var path :| f.Adjacency().PathTo(path, b);
      SplitPath(f, from, to, path, b);
    }
    hide WellFormed, Graph.Reachable, SplitOf;
    SizeAfter(f, from, to);
    SplitEntered(f, from, to);
    ReachableStep(g, from, f.Size());
  }

  lemma SplitEntered(f: Func, from: BlockId, to: BlockId)
    requires from < f.Size() && to in f.blocks[from].term.Successors() && to < f.Size()
    ensures SplitOf(f, from, to).Adjacency().Edge(from, f.Size())
  {
    assert SplitOf(f, from, to).blocks[from] == SplitAt(f, from, to, from);
  }

  // ---- runs ----

  lemma SplitPhisKept(f: Func, from: BlockId, to: BlockId, x: BlockId)
    requires from < f.Size() && to < f.Size() && x < f.Size()
    ensures var f' := SplitOf(f, from, to);
            && f'.blocks[x].phis == f.blocks[x].phis && f'.blocks[x].insts == f.blocks[x].insts
            && f'.blocks[x].term == (if x == from then Retarget(f.blocks[x].term, to, f.Size()) else f.blocks[x].term)
            && f'.blocks[x].preds ==
              (if x == to then Entering(f.blocks[x].preds, from, f.Size()) else f.blocks[x].preds)
  {
    assert SplitOf(f, from, to).blocks[x] == SplitAt(f, from, to, x);
    hide SplitOf;
  }

  function Entering(preds: seq<BlockId>, from: BlockId, split: BlockId): seq<BlockId> {
    var i := Position(preds, from);
    if i < |preds| then preds[i := split] else preds
  }

  lemma TargetInside(f: Func, b: BlockId, st: State)
    requires WellFormed(f) && b < f.Size() && !f.blocks[b].term.Return?
    ensures Target(f.blocks[b].term, st) < f.Size() && b in f.blocks[Target(f.blocks[b].term, st)].preds
  {
    var x := Target(f.blocks[b].term, st);
    assert x in f.blocks[b].term.Successors();
    CountIn(f.blocks[b].term.Successors(), x);
    WiredBothWays(f, b, x);
    CountIn(f.blocks[x].preds, b);
    hide Count;
  }

  lemma SplitTarget(f: Func, from: BlockId, to: BlockId, b: BlockId, st: State)
    requires from < f.Size() && to < f.Size() && b < f.Size() && !f.blocks[b].term.Return?
    ensures var f' := SplitOf(f, from, to);
            && !f'.blocks[b].term.Return?
            && (|| Target(f'.blocks[b].term, st) == Target(f.blocks[b].term, st)
                || (b == from && Target(f.blocks[b].term, st) == to && Target(f'.blocks[b].term, st) == f.Size()))
  {
    SplitPhisKept(f, from, to, b);
    hide SplitOf;
  }

  /** Replacing one entry by a new block: the new block is where the old entry was, and every other one is where
      an entry of the same block was. */
  lemma EntryMoved(preds: seq<BlockId>, from: BlockId, split: BlockId, p: BlockId)
    requires from in preds && forall i: nat :: i < |preds| ==> preds[i] < split
    requires p in Entering(preds, from, split)
    ensures var j := Position(Entering(preds, from, split), p);
            j < |preds| && preds[j] == (if p == split then from else p) && (p == split ==> j == Position(preds, from))
  {
  }

  lemma AgreeAt(block: Block, k: nat, i: nat, j: nat)
    requires ParallelAgree(block) && k < |block.phis| && |block.phis[k].args| == |block.preds|
    requires i < |block.preds| && j < |block.preds| && block.preds[i] == block.preds[j]
    ensures block.phis[k].args[i] == block.phis[k].args[j]
  {
  }

  lemma ArrivesAt(phi: Phi, preds: seq<BlockId>, p: BlockId)
    requires p in preds && |phi.args| == |preds|
    ensures Position(preds, p) < |preds| && preds[Position(preds, p)] == p &&
            Arrival(phi, preds, p) == phi.args[Position(preds, p)]
  {
  }

  /** The new predecessor entry brings what the old one brought, the others what they did. */
  lemma SplitArrivals(f: Func, from: BlockId, to: BlockId, p: BlockId)
    requires WellFormed(f) && from < f.Size() && to < f.Size() && from in f.blocks[to].preds
    requires ParallelAgree(f.blocks[to]) && p in Entering(f.blocks[to].preds, from, f.Size())
    ensures SameArrivals(f.blocks[to], if p == f.Size() then from else p, SplitOf(f, from, to).blocks[to], p)
  {
    SplitPhisKept(f, from, to, to);
    PredsInside(f, to);
    AritiesAt(f, to);
    hide SplitOf, WellFormed, Arrival, Position, Entering, ParallelAgree;
    var block := f.blocks[to];
    var p0 := if p == f.Size() then from else p;
    var preds' := Entering(block.preds, from, f.Size());
    EntryMoved(block.preds, from, f.Size(), p);
    var j := Position(preds', p);
    forall k: nat | k < |block.phis|
      ensures Arrival(block.phis[k], block.preds, p0) == Arrival(block.phis[k], preds', p)
    {
      EnteringLength(block.preds, from, f.Size());
      assert block.preds[j] in block.preds;
      ArrivesAt(block.phis[k], block.preds, p0);
      ArrivesAt(block.phis[k], preds', p);
      AgreeAt(block, k, j, Position(block.preds, p0));
    }
  }

  lemma EnteringLength(preds: seq<BlockId>, from: BlockId, split: BlockId)
    ensures |Entering(preds, from, split)| == |preds|
    ensures from in preds ==> split in Entering(preds, from, split)
  {
    if from in preds {
      assert Entering(preds, from, split)[Position(preds, from)] == split;
    }
  }

  /** Through the new block: its jump, then the phis of `to`. */
  lemma ThroughSplit(m: Machine, private: set<SlotId>, f: Func, from: BlockId, to: BlockId, st: State)
    requires WellFormed(f) && from < f.Size() && to < f.Size() && from in f.blocks[to].preds &&
             ParallelAgree(f.blocks[to])
    ensures var f' := SplitOf(f, from, to);
            && f.Size() < f'.Size() && Cross(f'.blocks[f.Size()], from, st) == st
            && Next(m, private, f', At(f.Size(), st)) == At(to, Cross(f.blocks[to], from, st))
  {
    var f' := SplitOf(f, from, to);
    assert f'.blocks[f.Size()] == SplitBlock(from, to);
    hide SplitOf;
    EnteringLength(f.blocks[to].preds, from, f.Size());
    SplitArrivals(f, from, to, f.Size());
    CrossAlike(f.blocks[to], from, f'.blocks[to], f.Size(), st);
    hide WellFormed;
  }

  lemma AcrossOther(m: Machine, private: set<SlotId>, f: Func, from: BlockId, to: BlockId, b: BlockId, x: BlockId,
                    st: State)
    requires WellFormed(f) && from < f.Size() && to < f.Size() && from in f.blocks[to].preds && AllParallelAgree(f)
    requires x < f.Size() && b < f.Size() && b in SplitOf(f, from, to).blocks[x].preds
    ensures Cross(SplitOf(f, from, to).blocks[x], b, st) == Cross(f.blocks[x], b, st)
  {
    SplitPhisKept(f, from, to, x);
    hide SplitOf, WellFormed, ParallelAgree;
    if x == to {
      SplitArrivals(f, from, to, b);
      CrossAlike(f.blocks[x], b, SplitOf(f, from, to).blocks[x], b, st);
    }
  }

  lemma LeaveSplit(m: Machine, private: set<SlotId>, f: Func, from: BlockId, to: BlockId, b: BlockId, st: State)
    requires WellFormed(f) && from < f.Size() && to in f.blocks[from].term.Successors() && to < f.Size() &&
             from in f.blocks[to].preds
    requires AllParallelAgree(f) && b < f.Size() && !f.blocks[b].term.Return?
    ensures var f' := SplitOf(f, from, to);
            && b < f'.Size()
            && (Leave(f', b, st) == Leave(f, b, st) || Next(m, private, f', Leave(f', b, st)) == Leave(f, b, st))
            && Leave(f, b, st).At? && Leave(f, b, st).block < f.Size()
  {
    var f' := SplitOf(f, from, to);
    SplitWellFormed(f, from, to);
    SizeAfter(f, from, to);
    SplitTarget(f, from, to, b, st);
    TargetInside(f, b, st);
    TargetInside(f', b, st);
    var x, x' := Target(f.blocks[b].term, st), Target(f'.blocks[b].term, st);
    hide WellFormed, SplitOf, Target, Leave, Next, Cross, AllParallelAgree;
    LeaveTo(f, b, st, x);
    LeaveTo(f', b, st, x');
    if x' == f.Size() {
      AgreesAt(f, to);
      ThroughSplit(m, private, f, from, to, st);
    } else {
      AcrossOther(m, private, f, from, to, b, x, st);
    }
  }

  lemma AgreesAt(f: Func, b: BlockId)
    requires AllParallelAgree(f) && b < f.Size()
    ensures ParallelAgree(f.blocks[b])
  {
  }

  /** A run of the split function takes the new block's jump where the old one took the edge. */
  lemma SplitStep(m: Machine, private: set<SlotId>, f: Func, from: BlockId, to: BlockId, b: BlockId, st: State)
    requires WellFormed(f) && from < f.Size() && to in f.blocks[from].term.Successors() && to < f.Size() &&
             from in f.blocks[to].preds
    requires AllParallelAgree(f) && b < f.Size()
    ensures Catches(m, private, f, SplitOf(f, from, to), At(b, st))
    ensures StaysAlive(f, {}, Next(m, private, f, At(b, st)))
  {
    var f' := SplitOf(f, from, to);
    var st' := ExecAll(m, private, f.blocks[b].insts, st);
    SplitPhisKept(f, from, to, b);
    SizeAfter(f, from, to);
    hide SplitOf, ExecAll, WellFormed, Retarget, Entering, AllParallelAgree, Next;
    NextLeaves(m, private, f, b, st);
    NextLeaves(m, private, f', b, st);
    if f.blocks[b].term.Return? {
      SplitReturns(f, from, to, b);
    } else {
      hide Leave;
      LeaveSplit(m, private, f, from, to, b, st');
    }
  }

  lemma SplitReturns(f: Func, from: BlockId, to: BlockId, b: BlockId)
    requires from < f.Size() && to < f.Size() && b < f.Size() && f.blocks[b].term.Return?
    ensures SplitOf(f, from, to).blocks[b].term == f.blocks[b].term
  {
    SplitPhisKept(f, from, to, b);
    hide SplitOf;
  }

  lemma SplitFollows(m: Machine, private: set<SlotId>, f: Func, from: BlockId, to: BlockId)
    requires WellFormed(f) && from < f.Size() && to in f.blocks[from].term.Successors() && to < f.Size()
    requires AllParallelAgree(f)
    ensures Follows(m, private, f, SplitOf(f, from, to))
  {
    var f' := SplitOf(f, from, to);
    SizeAfter(f, from, to);
    ListedAsPred(f, from, to);
    hide WellFormed, SplitOf, Catches, Next;
    EntryKnown(f);
    forall b: BlockId, st: State {:trigger At(b, st)} | Alive(f, {}, b)
      ensures Catches(m, private, f, f', At(b, st)) && StaysAlive(f, {}, Next(m, private, f, At(b, st)))
    {
      SplitStep(m, private, f, from, to, b, st);
    }
    FollowsBySteps(m, private, f, f', {});
  }

  // ---- and its run shows nothing else ----

  /** The split function stands where the other does, or in the new block just before. */
  ghost predicate Halfway(m: Machine, private: set<SlotId>, f': Func, s: Status, s': Status) {
    s' == s || (SameShown(s, s') && Next(m, private, f', s') == s)
  }

  lemma LeaveTrace(f: Func, b: BlockId, st: State)
    requires b < f.Size() && Leave(f, b, st).At?
    ensures Leave(f, b, st).st.trace == st.trace
  {
  }

  lemma SplitHalfway(m: Machine, private: set<SlotId>, f: Func, from: BlockId, to: BlockId, b: BlockId, st: State)
    requires WellFormed(f) && from < f.Size() && to in f.blocks[from].term.Successors() && to < f.Size() &&
             from in f.blocks[to].preds
    requires AllParallelAgree(f) && b < f.Size()
    ensures Halfway(m, private, SplitOf(f, from, to), Next(m, private, f, At(b, st)),
                    Next(m, private, SplitOf(f, from, to), At(b, st)))
    ensures StaysAlive(f, {}, Next(m, private, f, At(b, st)))
  {
    var f' := SplitOf(f, from, to);
    var st' := ExecAll(m, private, f.blocks[b].insts, st);
    SplitPhisKept(f, from, to, b);
    SizeAfter(f, from, to);
    hide SplitOf, ExecAll, WellFormed, Retarget, Entering, AllParallelAgree, Next;
    NextLeaves(m, private, f, b, st);
    NextLeaves(m, private, f', b, st);
    if f.blocks[b].term.Return? {
      SplitReturns(f, from, to, b);
    } else {
      SplitLeaves(f, from, to, b, st');
      hide Leave;
      LeaveSplit(m, private, f, from, to, b, st');
      LeaveTrace(f, b, st');
      LeaveTrace(f', b, st');
    }
  }

  lemma SplitLeaves(f: Func, from: BlockId, to: BlockId, b: BlockId, st: State)
    requires WellFormed(f) && from < f.Size() && to in f.blocks[from].term.Successors() && to < f.Size()
    requires b < f.Size() && !f.blocks[b].term.Return?
    ensures b < SplitOf(f, from, to).Size() && Leave(SplitOf(f, from, to), b, st).At?
  {
    var f' := SplitOf(f, from, to);
    SplitWellFormed(f, from, to);
    SizeAfter(f, from, to);
    SplitTarget(f, from, to, b, st);
    hide SplitOf, Target, WellFormed, Cross;
    TargetInside(f', b, st);
    LeaveTo(f', b, st, Target(f'.blocks[b].term, st));
  }

  lemma TrailStep(m: Machine, private: set<SlotId>, f: Func, from: BlockId, to: BlockId, s: Status, s': Status)
    returns (moves: bool)
    requires WellFormed(f) && from < f.Size() && to in f.blocks[from].term.Successors() && to < f.Size() &&
             from in f.blocks[to].preds
    requires AllParallelAgree(f) && Halfway(m, private, SplitOf(f, from, to), s, s') && StaysAlive(f, {}, s)
    ensures Halfway(m, private, SplitOf(f, from, to), if moves then Next(m, private, f, s) else s,
                    Next(m, private, SplitOf(f, from, to), s'))
    ensures StaysAlive(f, {}, if moves then Next(m, private, f, s) else s)
  {
    hide WellFormed, SplitOf, Next, AllParallelAgree, SameShown;
    moves := s' == s && s.At?;
    if moves {
      assert s == At(s.block, s.st);
      SplitHalfway(m, private, f, from, to, s.block, s.st);
    } else if s' == s {
      StopsAt(m, private, f, SplitOf(f, from, to), s);
    }
  }

  lemma TrailStarts(m: Machine, private: set<SlotId>, f: Func, from: BlockId, to: BlockId)
    requires WellFormed(f) && from < f.Size() && to < f.Size()
    ensures Halfway(m, private, SplitOf(f, from, to), Run(m, private, f, 0), Run(m, private, SplitOf(f, from, to), 0))
    ensures StaysAlive(f, {}, Run(m, private, f, 0))
  {
    EntryKnown(f);
    hide WellFormed, Next;
  }

  lemma {:induction false} SplitTrails(m: Machine, private: set<SlotId>, f: Func, from: BlockId, to: BlockId, n: nat)
    returns (j: nat)
    requires WellFormed(f) && from < f.Size() && to in f.blocks[from].term.Successors() && to < f.Size() &&
             from in f.blocks[to].preds
    requires AllParallelAgree(f)
    ensures Halfway(m, private, SplitOf(f, from, to), Run(m, private, f, j), Run(m, private, SplitOf(f, from, to), n))
    ensures StaysAlive(f, {}, Run(m, private, f, j))
    decreases n
  {
    hide *;
    if n == 0 {
      j := 0;
      TrailStarts(m, private, f, from, to);
    } else {
      var i := SplitTrails(m, private, f, from, to, n - 1);
      var s, s' := Run(m, private, f, i), Run(m, private, SplitOf(f, from, to), n - 1);
      var moves := TrailStep(m, private, f, from, to, s, s');
      RunStep(m, private, SplitOf(f, from, to), n);
      if moves {
        j := i + 1;
        RunStep(m, private, f, j);
      } else {
        j := i;
      }
    }
  }

  /** What the second function has shown after any number of blocks the first has shown at some point. */
  ghost predicate Trails(m: Machine, private: set<SlotId>, f: Func, f': Func, n: nat) {
    exists j: nat :: SameShown(Run(m, private, f, j), Run(m, private, f', n))
  }

  ghost predicate TrailsAlways(f: Func, f': Func) {
    forall m: Machine, private: set<SlotId>, n: nat {:trigger Trails(m, private, f, f', n)} ::
      Trails(m, private, f, f', n)
  }

  lemma SplitTrailsAlways(f: Func, from: BlockId, to: BlockId)
    requires WellFormed(f) && from < f.Size() && to in f.blocks[from].term.Successors() && to < f.Size()
    requires AllParallelAgree(f)
    ensures TrailsAlways(f, SplitOf(f, from, to))
  {
    ListedAsPred(f, from, to);
    hide WellFormed, SplitOf, Next, AllParallelAgree, Run;
    forall m: Machine, private: set<SlotId>, n: nat ensures Trails(m, private, f, SplitOf(f, from, to), n) {
      var j := SplitTrails(m, private, f, from, to, n);
      assert SameShown(Run(m, private, f, j), Run(m, private, SplitOf(f, from, to), n));
    }
  }

  lemma TrailsInTurn(f: Func, f1: Func, f2: Func)
    requires TrailsAlways(f, f1) && TrailsAlways(f1, f2)
    ensures TrailsAlways(f, f2)
  {
    hide Run;
    forall m: Machine, private: set<SlotId>, n: nat ensures Trails(m, private, f, f2, n) {
      assert Trails(m, private, f1, f2, n);
      var i: nat :| SameShown(Run(m, private, f1, i), Run(m, private, f2, n));
      assert Trails(m, private, f, f1, i);
      var j: nat :| SameShown(Run(m, private, f, j), Run(m, private, f1, i));
    }
  }

  lemma TrailsItself(f: Func)
    ensures TrailsAlways(f, f)
  {
    hide Run;
    forall m: Machine, private: set<SlotId>, n: nat ensures Trails(m, private, f, f, n) {
      assert SameShown(Run(m, private, f, n), Run(m, private, f, n));
    }
  }

  lemma EntryKnown(f: Func)
    requires WellFormed(f)
    ensures f.entry < f.Size()
  {
  }

  lemma ListedAsPred(f: Func, a: BlockId, x: BlockId)
    requires WellFormed(f) && a < f.Size() && x < f.Size() && x in f.blocks[a].term.Successors()
    ensures a in f.blocks[x].preds
  {
    CountIn(f.blocks[a].term.Successors(), x);
    WiredBothWays(f, a, x);
    CountIn(f.blocks[x].preds, a);
    hide Count;
  }

  lemma SplitAgrees(f: Func, from: BlockId, to: BlockId)
    requires WellFormed(f) && from < f.Size() && to < f.Size() && AllParallelAgree(f)
    ensures AllParallelAgree(SplitOf(f, from, to))
  {
    var f' := SplitOf(f, from, to);
    SizeAfter(f, from, to);
    assert f'.blocks[f.Size()] == SplitBlock(from, to);
    hide SplitOf;
    forall b: BlockId | b < f'.Size() ensures ParallelAgree(f'.blocks[b]) {
      if b < f.Size() {
        SplitPhisKept(f, from, to, b);
        PredsInside(f, b);
        EnteringEqual(f.blocks[b], from, f.Size());
      }
    }
    hide WellFormed;
  }

  lemma EnteringEqual(block: Block, from: BlockId, split: BlockId)
    requires ParallelAgree(block) && forall i: nat :: i < |block.preds| ==> block.preds[i] < split
    ensures ParallelAgree(block.(preds := Entering(block.preds, from, split)))
  {
    hide Position;
  }

  // ---- the pass ----

  ghost predicate FollowsAlways(f0: Func, f: Func) {
    forall m: Machine, private: set<SlotId> :: Follows(m, private, f0, f)
  }

  /** A way from `f0` by splits: everything still reachable, and followed in every run. */
  ghost predicate SplitSoFar(f0: Func, f: Func) {
    && (f0.Adjacency().AllReachable() ==> f.Adjacency().AllReachable())
    && (AllParallelAgree(f0) ==> AllParallelAgree(f) && FollowsAlways(f0, f) && TrailsAlways(f0, f))
    && (ValidSsa(f0) ==> ValidSsa(f))
    && f.sites == f0.sites
  }

  lemma SoFarStarts(f: Func)
    ensures SplitSoFar(f, f)
  {
    hide Graph.AllReachable, Follows, ValidSsa, TrailsAlways;
    TrailsItself(f);
    forall m: Machine, private: set<SlotId> ensures Follows(m, private, f, f) {
      FollowsItself(m, private, f);
    }
  }

  /** Splitting an edge of valid SSA leaves valid SSA. */
  lemma SplitIsValid(f: Func, from: BlockId, to: BlockId)
    requires ValidSsa(f) && WellFormed(f) && from < f.Size() && to in f.blocks[from].term.Successors() && to < f.Size()
    ensures ValidSsa(SplitOf(f, from, to))
  {
    var f' := SplitOf(f, from, to);
    assert f.Adjacency().Edge(from, to);
    EntryStaysFirst(f, from, to);
    hide SplitOf, WellFormed, Wired, UsesOk, SingleDefs, Graph.AllReachable, Graph.Valid;
    SplitAllReachable(f, from, to);
    SplitWellFormed(f, from, to);
    WiredParts(f');
    SplitSingle(f, from, to);
    SplitUsesOk(f, from, to);
  }

  lemma EntryStaysFirst(f: Func, from: BlockId, to: BlockId)
    requires f.Adjacency().Valid() && f.Adjacency().Edge(from, to) && f.blocks[f.entry].preds == []
    ensures SplitOf(f, from, to).blocks[f.entry].preds == []
  {
    assert from in f.Adjacency().preds[to];
    assert f.entry < f.Size();
    assert SplitOf(f, from, to).blocks[f.entry] == SplitAt(f, from, to, f.entry);
    hide SplitOf;
  }

  lemma WiredParts(f: Func)
    requires WellFormed(f)
    ensures f.Adjacency().Valid()
    ensures forall b: nat, k: nat :: b < f.Size() && k < |f.blocks[b].phis| ==>
              |f.blocks[b].phis[k].args| == |f.blocks[b].preds|
  {
    WiredIsValid(f);
    WiredArgs(f);
  }

  lemma SoFarStep(f0: Func, f: Func, from: BlockId, to: BlockId)
    requires SplitSoFar(f0, f) && WellFormed(f) && from < f.Size() && to in f.blocks[from].term.Successors() &&
             to < f.Size()
    ensures SplitSoFar(f0, SplitOf(f, from, to))
  {
    var f' := SplitOf(f, from, to);
    hide WellFormed, SplitOf, Follows, Graph.AllReachable, AllParallelAgree, ValidSsa, TrailsAlways;
    if ValidSsa(f0) {
      SplitIsValid(f, from, to);
    }
    if f0.Adjacency().AllReachable() {
      SplitAllReachable(f, from, to);
    }
    if AllParallelAgree(f0) {
      SplitAgrees(f, from, to);
      SplitTrailsAlways(f, from, to);
      TrailsInTurn(f0, f, f');
      forall m: Machine, private: set<SlotId> ensures Follows(m, private, f0, f') {
        SplitFollows(m, private, f, from, to);
        FollowsInTurn(m, private, f0, f, f');
      }
    }
  }

  /** The critical edges, each as often as it occurs. */
  method CollectCritical(blocks: seq<Block>, ghost f: Func) returns (critical: Edges)
    requires f.blocks == blocks && WellFormed(f)
    ensures CollectsBelow(f, critical, f.Size())
  {
    hide WellFormed, CollectsBelow, CollectsWithin;
    critical := [];
    CollectNone(f);
    for block := 0 to |blocks|
      invariant CollectsBelow(f, critical, block)
    {
      var successors := blocks[block].term.Successors();
      if |successors| < 2 {
        CollectNothing(f, critical, block);
        continue;
      }
      CollectStarts(f, critical, block);
      for n := 0 to |successors|
        invariant CollectsWithin(f, critical, block, n)
      {
        SuccessorKnown(f, block, n);
        CollectOne(f, critical, block, n);
        if |blocks[successors[n]].preds| > 1 {
          critical := critical + [(block, successors[n])];
        }
      }
      CollectEnds(f, critical, block);
    }
  }

  lemma CollectNone(f: Func)
    ensures CollectsBelow(f, [], 0)
  {
  }

  lemma SuccessorKnown(f: Func, b: BlockId, n: nat)
    requires WellFormed(f) && b < f.Size() && n < |f.blocks[b].term.Successors()|
    ensures f.blocks[b].term.Successors()[n] < f.Size()
  {
    assert f.blocks[b].term.Successors()[n] in f.blocks[b].term.Successors();
  }

  /** What is promised of the function without critical edges: the old blocks compute what they did and list the
      same predecessors in the same order, up to the blocks put in between; the others only jump. */
  ghost predicate WithoutCritical(f0: Func, f: Func) {
    && WellFormed(f) && CriticalFree(f) && f.entry == f0.entry && f0.Size() <= f.Size()
    && (forall b: BlockId {:trigger OldBlock(f0, f, b)} :: b < f0.Size() ==> OldBlock(f0, f, b))
    && (forall b: BlockId {:trigger NewBlock(f0, f, b)} :: f0.Size() <= b < f.Size() ==> NewBlock(f0, f, b))
    && (f0.Adjacency().AllReachable() ==> f.Adjacency().AllReachable())
    && (ValidSsa(f0) ==> ValidSsa(f)) && f.sites == f0.sites
  }

  /** Splits the critical edges and no others: the old blocks keep their number and their predecessors' order, and every
      run is followed by one through the new jump blocks. */
  method SplitCriticalEdges(fn: Function)
    requires fn.Valid()
    modifies fn
    ensures WithoutCritical(old(fn.View()), fn.View()) && EdgesLeft(old(fn.View()), fn.View(), [])
    ensures AllParallelAgree(old(fn.View())) ==>
              FollowsAlways(old(fn.View()), fn.View()) && TrailsAlways(old(fn.View()), fn.View())
  {
    hide WellFormed, CollectsBelow, Splitting, SplitSoFar, SplitOf, WithoutCritical, AllParallelAgree, FollowsAlways,
         EdgesLeft,
         TrailsAlways;
    ghost var f0 := fn.View();
    var critical := CollectCritical(fn.blocks, f0);
    SplittingStarts(f0, critical);
    SoFarStarts(f0);
    for i := 0 to |critical|
      invariant Splitting(f0, fn.View(), critical[i..])
      invariant fn.Valid()
      invariant SplitSoFar(f0, fn.View())
    {
      assert critical[i..][0] == critical[i] && critical[i..][1..] == critical[i + 1..];
      NextIsThere(f0, fn.View(), critical[i..]);
      SplittingSize(f0, fn.View(), critical[i..]);
      SplittingStep(f0, fn.View(), critical[i..]);
      SoFarStep(f0, fn.View(), critical[i].0, critical[i].1);
      var _ := fn.SplitEdge(critical[i].0, critical[i].1);
    }
    assert critical[|critical|..] == [];
    SplittingDone(f0, fn.View());
  }

  lemma SplittingDone(f0: Func, f: Func)
    requires Splitting(f0, f, []) && SplitSoFar(f0, f)
    ensures WithoutCritical(f0, f) && EdgesLeft(f0, f, [])
    ensures AllParallelAgree(f0) ==> FollowsAlways(f0, f) && TrailsAlways(f0, f)
  {
    SplittingEnds(f0, f);
    hide CriticalFree, WellFormed, OldBlock, NewBlock, EdgesLeft, Graph.AllReachable, AllParallelAgree, FollowsAlways,
         ValidSsa, TrailsAlways;
  }

  lemma SplittingSize(f0: Func, f: Func, left: Edges)
    requires Splitting(f0, f, left)
    ensures f0.Size() <= f.Size()
  {
  }
}
