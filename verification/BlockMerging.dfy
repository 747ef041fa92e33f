/** Straight lines made into single blocks: each merge keeps every run, and afterwards nothing can be merged. */
module BlockMerging {
  import opened Graphs
  import opened IdomTree
  import opened Lists
  import opened Ssa
  import opened SsaValid
  import opened GraphEdits
  import opened GraphSurgery
  import opened Functions
  import opened Stuttering
  import opened Renumbering
  import opened Heads
  import opened MergedUses
  import opened RetainedUses

  // ---- one merge keeps every run ----

  lemma RenamedPosition(preds: seq<BlockId>, from: BlockId, to: BlockId, p: BlockId)
    requires from != to && p != from && (p == to ==> to !in preds)
    ensures Position(Renamed(preds, from, to), p) == Position(preds, if p == to then from else p)
  {
    var renamed := Renamed(preds, from, to);
    var q := if p == to then from else p;
    var i, j := Position(renamed, p), Position(preds, q);
    assert forall k: nat :: k < |preds| ==> preds[k] in preds;
    assert forall k: nat :: k < |preds| ==> (renamed[k] == p <==> preds[k] == q);
  }

  /** In the merged function a block hands on what it did before, under the name of the absorbing block. */
  lemma MergedCross(f: Func, first: BlockId, second: BlockId, x: BlockId, p: BlockId, st: State)
    requires first < f.Size() && second < f.Size() && first != second && x < f.Size() && x != second && p != second
    requires p == first ==> first !in f.blocks[x].preds
    ensures Cross(MergeOf(f, first, second).blocks[x], p, st) ==
              Cross(f.blocks[x], if p == first then second else p, st)
  {
    var block, block' := f.blocks[x], MergeOf(f, first, second).blocks[x];
    var q := if p == first then second else p;
    assert block' == MergedAt(f, first, second, x);
    hide MergeOf;
    RenamedPosition(block.preds, second, first, p);
    hide Position, Renamed;
    forall k: nat | k < |block.phis|
      ensures Arrival(block'.phis[k], block'.preds, p) == Arrival(block.phis[k], block.preds, q)
    {
    }
    CrossAlike(block', p, block, q, st);
  }

  lemma EntersOnly(f: Func, first: BlockId, second: BlockId, a: BlockId, x: BlockId)
    requires Wired(f) && Mergeable(f, first, second) && a < f.Size() && x in f.blocks[a].term.Successors()
    ensures x < f.Size() && (x == second ==> a == first) && (a == second ==> x != second && first !in f.blocks[x].preds)
  {
    var count := Count(f.blocks[a].term.Successors(), x);
    CountIn(f.blocks[a].term.Successors(), x);
    assert count == Count(f.blocks[x].preds, a);
    CountIn(f.blocks[x].preds, a);
    assert Count(f.blocks[first].term.Successors(), x) == Count(f.blocks[x].preds, first);
    CountIn(f.blocks[x].preds, first);
    CountIn(f.blocks[first].term.Successors(), x);
    hide Count, BlockWired;
  }

  lemma {:induction false} ExecAppended(m: Machine, private: set<SlotId>, a: seq<Inst>, b: seq<Inst>, st: State)
    ensures ExecAll(m, private, a + b, st) == ExecAll(m, private, b, ExecAll(m, private, a, st))
    decreases |b|
  {
    if b == [] {
      assert a + b == a;
    } else {
      var n := |b| - 1;
      assert (a + b)[..|a + b| - 1] == a + b[..n];
      ExecAppended(m, private, a, b[..n], st);
    }
    hide Exec;
  }

  /** Where the terminator of `q`, which is in block `p` of the merged function, goes. */
  lemma MergedTarget(f: Func, first: BlockId, second: BlockId, p: BlockId, q: BlockId, st: State)
    requires Wired(f) && Mergeable(f, first, second) && p < f.Size() && p != second &&
             q == (if p == first then second else p)
    requires !f.blocks[q].term.Return?
    ensures var x := Target(f.blocks[q].term, st); x < f.Size() && x != second &&
                                                   (p == first ==> first !in f.blocks[x].preds)
  {
    hide Wired;
    var x := Target(f.blocks[q].term, st);
    TargetOf(f.blocks[q].term, st);
    MergeableBlocks(f, first, second);
    hide Mergeable;
    EntersOnly(f, first, second, q, x);
  }

  lemma TargetOf(term: Terminator, st: State)
    requires !term.Return?
    ensures Target(term, st) in term.Successors()
  {
  }

  lemma MergeableBlocks(f: Func, first: BlockId, second: BlockId)
    requires Mergeable(f, first, second)
    ensures first < f.Size() && second < f.Size() && first != second
  {
  }

  /** Leaving a block of the merged function, where `q` is the block the terminator was in. */
  lemma MergedLeave(f: Func, first: BlockId, second: BlockId, p: BlockId, q: BlockId, st: State)
    requires Wired(f) && Mergeable(f, first, second)
    requires first < f.Size() && second < f.Size() && first != second && p < f.Size() && p != second &&
             q == (if p == first then second else p)
    ensures Leave(MergeOf(f, first, second), p, st) == Leave(f, q, st)
    ensures StaysAlive(MergeOf(f, first, second), {second}, Leave(f, q, st))
  {
    hide Wired, Cross, MergedAt, MergeOf, Mergeable, Target;
    var f' := MergeOf(f, first, second);
    MergedTerm(f, first, second, p);
    var term := f.blocks[q].term;
    if !term.Return? {
      hide Leave;
      var x := Target(term, st);
      MergedTarget(f, first, second, p, q, st);
      MergedCross(f, first, second, x, p, st);
      LeaveTo(f, q, st, x);
      LeaveTo(f', p, st, x);
    }
  }

  lemma MergedTerm(f: Func, first: BlockId, second: BlockId, p: BlockId)
    requires first < f.Size() && second < f.Size() && first != second && p < f.Size() && p != second
    ensures var f' := MergeOf(f, first, second);
            && f'.Size() == f.Size() && f'.blocks[p].term == f.blocks[if p == first then second else p].term
  {
    assert MergeOf(f, first, second).blocks[p] == MergedAt(f, first, second, p);
    hide MergeOf;
  }

  lemma MergedStep(m: Machine, private: set<SlotId>, f: Func, first: BlockId, second: BlockId, b: BlockId, st: State)
    requires Wired(f) && Mergeable(f, first, second) && b < f.Size() && b != second
    ensures Catches(m, private, MergeOf(f, first, second), f, At(b, st))
    ensures StaysAlive(MergeOf(f, first, second), {second}, Next(m, private, MergeOf(f, first, second), At(b, st)))
  {
    var f' := MergeOf(f, first, second);
    assert f'.blocks[b] == MergedAt(f, first, second, b);
    var st' := ExecAll(m, private, f'.blocks[b].insts, st);
    MergedLeave(f, first, second, b, if b == first then second else b, st');
    if b == first {
      ExecAppended(m, private, f.blocks[first].insts, f.blocks[second].insts, st);
      var st1 := ExecAll(m, private, f.blocks[first].insts, st);
      IntoSecond(f, first, second, st1);
    }
    hide MergeOf, Wired, Leave, ExecAll, MergedAt, StaysAlive;
  }

  lemma IntoSecond(f: Func, first: BlockId, second: BlockId, st: State)
    requires Mergeable(f, first, second)
    ensures Leave(f, first, st) == At(second, st)
  {
  }

  lemma MergeFollows(m: Machine, private: set<SlotId>, f: Func, first: BlockId, second: BlockId)
    requires Wired(f) && Mergeable(f, first, second) && f.blocks[f.entry].preds == []
    ensures Follows(m, private, MergeOf(f, first, second), f)
  {
    var f' := MergeOf(f, first, second);
    assert Alive(f', {second}, f'.entry);
    hide Wired, MergeOf, Catches, Next, StaysAlive;
    forall b: BlockId, st: State {:trigger At(b, st)} | Alive(f', {second}, b)
      ensures Catches(m, private, f', f, At(b, st)) && StaysAlive(f', {second}, Next(m, private, f', At(b, st)))
    {
      MergedStep(m, private, f, first, second, b, st);
    }
    FollowsBySteps(m, private, f', f, {second});
  }

  // ---- what a merge leaves alone ----

  /** A block nothing enters, which does nothing. */
  ghost predicate Absorbed(f: Func, b: BlockId) {
    b < f.Size() && f.blocks[b].preds == [] && f.blocks[b].phis == [] && f.blocks[b].insts == [] &&
    f.blocks[b].term == Return(None)
  }

  ghost predicate ReachedOrAbsorbed(f: Func) {
    forall b: BlockId {:trigger Absorbed(f, b)} :: b < f.Size() && !Absorbed(f, b) ==> f.Adjacency().Reachable(b)
  }

  lemma MergedEdge(f: Func, first: BlockId, second: BlockId, a: BlockId, x: BlockId)
    requires Wired(f) && Mergeable(f, first, second) && f.Adjacency().Edge(a, x) && x != second
    ensures MergeOf(f, first, second).Adjacency().Edge(if a == second then first else a, x)
  {
    EntersOnly(f, first, second, a, x);
    var f' := MergeOf(f, first, second);
    var a' := if a == second then first else a;
    assert f'.blocks[a'] == MergedAt(f, first, second, a');
    hide MergeOf, Wired;
  }

  lemma {:induction false} MergedPath(f: Func, first: BlockId, second: BlockId, path: seq<BlockId>, b: BlockId)
    requires Wired(f) && Mergeable(f, first, second) && f.Adjacency().PathTo(path, b) && f.entry != second
    ensures MergeOf(f, first, second).Adjacency().Reachable(if b == second then first else b)
    decreases |path|
  {
    var g' := MergeOf(f, first, second).Adjacency();
    if |path| == 1 {
      assert g'.PathTo([b], b);
    } else {
      var k := |path| - 2;
      PathPrefix(f.Adjacency(), path, b, k);
      assert f.Adjacency().Edge(path[k], path[k + 1]);
      MergedPath(f, first, second, path[..k + 1], path[k]);
      EntersOnly(f, first, second, path[k], b);
      hide Wired, MergeOf, Graph.Reachable;
      if b != second {
        MergedEdge(f, first, second, path[k], b);
        ReachableStep(g', if path[k] == second then first else path[k], b);
      }
    }
  }

  lemma MergeKeepsReached(f: Func, first: BlockId, second: BlockId)
    requires Wired(f) && Mergeable(f, first, second) && ReachedOrAbsorbed(f) && f.entry != second
    ensures ReachedOrAbsorbed(MergeOf(f, first, second))
  {
    var f' := MergeOf(f, first, second);
    assert f'.blocks[second] == MergedAt(f, first, second, second);
    assert Absorbed(f', second);
    forall b: BlockId {:trigger Absorbed(f', b)} | b < f'.Size() && !Absorbed(f', b)
      ensures f'.Adjacency().Reachable(b)
    {
      assert f'.blocks[b] == MergedAt(f, first, second, b);
      if b != second {
        assert b == first ==> !Absorbed(f, b);
        assert Absorbed(f, b) ==> Renamed([], second, first) == [];
        assert f.Adjacency().Reachable(b);
        var path :| f.Adjacency().PathTo(path, b);
        MergedPath(f, first, second, path, b);
      }
      hide MergeOf;
    }
  }

  lemma MergeKeepsCritical(f: Func, first: BlockId, second: BlockId)
    requires Wired(f) && Mergeable(f, first, second) && CriticalFree(f)
    requires first < f.Size() && second < f.Size()
    ensures CriticalFree(MergeOf(f, first, second))
  {
    hide Wired, MergeOf, MergedAt, Mergeable, Graph.Edge;
    var f' := MergeOf(f, first, second);
    forall b: nat, c: nat | b < f'.Size() && c < f'.Size() && f'.Adjacency().Edge(b, c)
      ensures |f'.blocks[b].term.Successors()| < 2 || |f'.blocks[c].preds| < 2
    {
      MergedEdgeBack(f, first, second, b, c);
    }
  }

  ghost predicate NothingToMerge(f: Func) {
    forall a: BlockId, b: BlockId {:trigger Mergeable(f, a, b)} :: !Mergeable(f, a, b)
  }

  // ---- the pass ----

  function Jumps(blocks: seq<Block>): nat
    decreases |blocks|
  {
    if blocks == [] then 0
    else Jumps(blocks[..|blocks| - 1]) + if blocks[|blocks| - 1].term.Jump? then 1 else 0
  }

  lemma {:induction false} JumpsUpdate(blocks: seq<Block>, i: nat, block: Block)
    requires i < |blocks|
    ensures Jumps(blocks[i := block]) ==
              Jumps(blocks) - (if blocks[i].term.Jump? then 1 else 0) + if block.term.Jump? then 1 else 0
    decreases |blocks|
  {
    var n := |blocks| - 1;
    if i == n {
      assert blocks[i := block][..n] == blocks[..n];
    } else {
      JumpsUpdate(blocks[..n], i, block);
      assert blocks[i := block][..n] == blocks[..n][i := block];
    }
  }

  lemma {:induction false} JumpsAlike(a: seq<Block>, b: seq<Block>)
    requires |a| == |b| && forall i: nat :: i < |a| ==> (a[i].term.Jump? <==> b[i].term.Jump?)
    ensures Jumps(a) == Jumps(b)
    decreases |a|
  {
    if a != [] {
      JumpsAlike(a[..|a| - 1], b[..|b| - 1]);
    }
  }

  lemma MergeLosesJump(f: Func, first: BlockId, second: BlockId)
    requires Mergeable(f, first, second)
    ensures Jumps(MergeOf(f, first, second).blocks) < Jumps(f.blocks)
  {
    var f' := MergeOf(f, first, second);
    var once := f.blocks[second := f'.blocks[second]];
    var twice := once[first := f'.blocks[first]];
    JumpsUpdate(f.blocks, second, f'.blocks[second]);
    JumpsUpdate(once, first, f'.blocks[first]);
    JumpsAlike(f'.blocks, twice);
  }

  lemma JumpTargetKnown(f: Func, b: BlockId)
    requires Wired(f) && b < f.Size() && f.blocks[b].term.Jump?
    ensures f.blocks[b].term.target < f.Size()
  {
    assert f.blocks[b].term.target in f.blocks[b].term.Successors();
  }

  /** The mergeable pair whose first block comes first, and nothing exactly when no pair is mergeable. */
  method NextMerge(blocks: seq<Block>, ghost f: Func) returns (pair: Option<(BlockId, BlockId)>)
    requires f.blocks == blocks && Wired(f)
    ensures pair.Some? ==> Mergeable(f, pair.value.0, pair.value.1)
    ensures forall a: BlockId, b: BlockId {:trigger Mergeable(f, a, b)} :: pair.Some? ==> a < pair.value.0 ==>
              !Mergeable(f, a, b)
    ensures pair.None? ==> NothingToMerge(f)
  {
    hide Wired;
    for block := 0 to |blocks|
      invariant forall a: BlockId, b: BlockId {:trigger Mergeable(f, a, b)} :: a < block ==> !Mergeable(f, a, b)
    {
      var term := blocks[block].term;
      if term.Jump? {
        var successor := term.target;
        JumpTargetKnown(f, block);
        if successor != block && blocks[successor].preds == [block] && blocks[successor].phis == [] {
          return Some((block, successor));
        }
      }
    }
    pair := None;
  }

  /** On the way from `f0`, before the absorbed blocks are deleted. */
  ghost predicate MergedSoFar(f0: Func, f: Func) {
    && f.entry == f0.entry && f.entry < f.Size() == f0.Size()
    && f.blocks[f.entry].preds == []
    && (CriticalFree(f0) ==> CriticalFree(f))
    && (PhisJoin(f0) ==> PhisJoin(f))
    && (f0.Adjacency().AllReachable() ==> ReachedOrAbsorbed(f))
    && (ValidSsa(f0) ==> SingleDefs(f) && UsesOk(f))
    && NoNewHeads(f0, f)
    && FollowedAlways(f0, f)
  }

  ghost predicate FollowedAlways(f0: Func, f: Func) {
    forall m: Machine, private: set<SlotId> :: Follows(m, private, f, f0)
  }

  lemma MergingStarts(f: Func)
    requires WellFormed(f) && f.blocks[f.entry].preds == []
    ensures MergedSoFar(f, f)
  {
    hide Follows;
    forall m: Machine, private: set<SlotId> ensures Follows(m, private, f, f) {
      FollowsItself(m, private, f);
    }
  }

  lemma MergeKeepsJoins(f: Func, first: BlockId, second: BlockId)
    requires Mergeable(f, first, second)
    ensures PhisJoin(f) ==> PhisJoin(MergeOf(f, first, second))
  {
    forall b: nat | b < f.Size()
      ensures MergeOf(f, first, second).blocks[b] == MergedAt(f, first, second, b)
    {
    }
    hide MergeOf;
  }

  lemma MergeKeepsHeads(f: Func, first: BlockId, second: BlockId)
    requires Mergeable(f, first, second)
    ensures NoNewHeads(f, MergeOf(f, first, second))
  {
    var f' := MergeOf(f, first, second);
    forall b: BlockId | b < f'.Size() ensures HeadsFrom(f, f'.blocks[b].insts) {
      assert f'.blocks[b] == MergedAt(f, first, second, b);
      OwnHeads(f, b);
      OwnHeads(f, second);
      hide MergeOf, HeadsFrom, NoNewHeads;
      if b == second {
        NoInstsNoHeads(f);
      } else if b == first {
        AppendedHeads(f, f.blocks[first].insts, f.blocks[second].insts);
      }
    }
    BlocksFrom(f, f');
  }

  lemma NoInstsNoHeads(f: Func)
    ensures HeadsFrom(f, [])
  {
  }

  lemma RetainKeepsHeads(f: Func, order: seq<BlockId>, keep: seq<bool>)
    requires Wired(f) && KeptInOrder(f, order, keep)
    ensures NoNewHeads(f, RetainOf(f, order, keep))
  {
    var f' := RetainOf(f, order, keep);
    RetainedSize(f, order, keep);
    hide RetainOf, Wired, HeadsFrom, NoNewHeads;
    forall b: BlockId | b < f'.Size() ensures HeadsFrom(f, f'.blocks[b].insts) {
      InOrder(f, order, keep, b);
      RetainedShape(f, order, keep, b);
      OwnHeads(f, order[b]);
    }
    BlocksFrom(f, f');
  }

  lemma ValidReaches(f: Func)
    requires ValidSsa(f)
    ensures f.Adjacency().AllReachable()
  {
  }

  lemma MergeKeepsUses(f: Func, first: BlockId, second: BlockId)
    requires Wired(f) && Mergeable(f, first, second) && ReachedOrAbsorbed(f) && f.entry != second
    requires SingleDefs(f) && UsesOk(f)
    ensures SingleDefs(MergeOf(f, first, second)) && UsesOk(MergeOf(f, first, second))
  {
    WiredIsValid(f);
    assert !Absorbed(f, first);
    assert f.Adjacency().Reachable(first);
    hide Wired, MergeOf, Graph.Valid, Graph.Reachable, SingleDefs, UsesOk;
    MergedSingle(f, first, second);
    MergedUsesOk(f, first, second);
  }

  lemma MergingStep(f0: Func, f: Func, first: BlockId, second: BlockId)
    requires MergedSoFar(f0, f) && Wired(f) && Mergeable(f, first, second)
    ensures MergedSoFar(f0, MergeOf(f, first, second))
  {
    var f' := MergeOf(f, first, second);
    assert f'.blocks[f.entry] == MergedAt(f, first, second, f.entry);
    assert Renamed([], second, first) == [];
    assert f.entry != second;
    hide Follows, MergeOf, Wired, CriticalFree, ReachedOrAbsorbed, Graph.AllReachable, Mergeable, PhisJoin, ValidSsa,
         SingleDefs, UsesOk, NoNewHeads;
    if CriticalFree(f0) {
      MergeKeepsCritical(f, first, second);
    }
    MergeKeepsJoins(f, first, second);
    MergeKeepsHeads(f, first, second);
    HeadsInTurn(f0, f, f');
    if f0.Adjacency().AllReachable() {
      MergeKeepsReached(f, first, second);
    }
    if ValidSsa(f0) {
      ValidReaches(f0);
      MergeKeepsUses(f, first, second);
    }
    forall m: Machine, private: set<SlotId> ensures Follows(m, private, f', f0) {
      MergeFollows(m, private, f, first, second);
      FollowsInTurn(m, private, f', f, f0);
    }
  }

  /** What merging promises of a function without an edge into its entry. */
  ghost predicate Merged(f0: Func, f: Func) {
    && WellFormed(f) && f.blocks[f.entry].preds == []
    && RunsAlike(f0, f)
    && (CriticalFree(f0) ==> CriticalFree(f))
    && (f0.Adjacency().AllReachable() ==> f.Adjacency().AllReachable() && NothingToMerge(f))
    && (f0.Adjacency().AllReachable() && PhisJoin(f0) ==> PhisJoin(f))
    && (ValidSsa(f0) ==> ValidSsa(f))
    && NoNewHeads(f0, f)
  }

  /** Merges until no block is left that can be, then deletes the blocks absorbed.  Reports a merge exactly when
      the function had one to make, and otherwise leaves it untouched. */
  method MergeAll(fn: Function) returns (merged: bool)
    requires fn.Valid() && fn.View().blocks[fn.entry].preds == []
    modifies fn
    ensures fn.Valid() && Merged(old(fn.View()), fn.View())
    ensures merged <==> !NothingToMerge(old(fn.View()))
    ensures if merged then |fn.blocks| < |old(fn.blocks)| else fn.View() == old(fn.View())
  {
    hide Wired, SitesExact, MergedSoFar, MergeOf, Mergeable, NothingToMerge, Merged, RunsAlike, KeptInOrder,
         KeepClosed, Jumps, RetainOf, Graph.Reachable, Graph.AllReachable, SomeAbsorbed;
    ghost var f0 := fn.View();
    merged := false;
    MergingStarts(f0);
    var pair := NextMerge(fn.blocks, fn.View());
    while pair.Some?
      invariant fn.Valid() && MergedSoFar(f0, fn.View())
      invariant pair.Some? ==> Mergeable(fn.View(), pair.value.0, pair.value.1)
      invariant pair.None? ==> NothingToMerge(fn.View())
      invariant !merged ==> fn.View() == f0
      invariant merged ==> !NothingToMerge(f0) && SomeAbsorbed(fn.View())
      decreases Jumps(fn.blocks)
    {
      var (first, second) := pair.value;
      if !merged {
        SomethingToMerge(f0, first, second);
      }
      MergingStep(f0, fn.View(), first, second);
      MergeLosesJump(fn.View(), first, second);
      MergeAbsorbs(f0, fn.View(), first, second);
      fn.MergeBlocks(first, second);
      merged := true;
      pair := NextMerge(fn.blocks, fn.View());
    }
    if merged {
      ghost var f := fn.View();
      ghost var deleted, order, marks;
      deleted, order, marks := fn.RetainReachable();
      MergingEnds(f0, f, fn.View(), deleted, order, marks);
      AbsorbedAreDeleted(f0, f, order, marks);
    } else {
      MergedItself(f0);
    }
  }

  ghost predicate SomeAbsorbed(f: Func) {
    exists b: BlockId :: Absorbed(f, b) && b != f.entry
  }

  lemma MergeAbsorbs(f0: Func, f: Func, first: BlockId, second: BlockId)
    requires MergedSoFar(f0, f) && Mergeable(f, first, second)
    ensures SomeAbsorbed(MergeOf(f, first, second))
  {
    assert MergeOf(f, first, second).blocks[second] == MergedAt(f, first, second, second);
    assert Absorbed(MergeOf(f, first, second), second) && second != f.entry;
  }

  lemma {:induction false} OrderClimbs(order: seq<BlockId>, i: nat)
    requires (forall i: nat, j: nat :: i < j < |order| ==> order[i] < order[j]) && i < |order|
    ensures i <= order[i]
    decreases i
  {
    if i > 0 {
      OrderClimbs(order, i - 1);
    }
  }

  lemma {:induction false} OrderBounded(order: seq<BlockId>, i: nat, n: nat)
    requires (forall i: nat, j: nat :: i < j < |order| ==> order[i] < order[j]) && i < |order| == n
    requires forall i: nat :: i < |order| ==> order[i] < n
    ensures order[i] <= i
    decreases n - i
  {
    if i < n - 1 {
      OrderBounded(order, i + 1, n);
    }
  }

  /** A strictly rising list of numbers below `n` that misses one has fewer than `n`. */
  lemma MissingOne(order: seq<BlockId>, n: nat, b: nat)
    requires forall i: nat, j: nat :: i < j < |order| ==> order[i] < order[j]
    requires (forall i: nat :: i < |order| ==> order[i] < n) && b < n && b !in order
    ensures |order| < n
  {
    if |order| > n {
      OrderClimbs(order, n);
    } else if |order| == n {
      OrderClimbs(order, b);
      OrderBounded(order, b, n);
    }
  }

  lemma LastEdge(g: Graph, path: seq<BlockId>, b: BlockId)
    requires g.PathTo(path, b) && b != g.entry
    ensures |path| >= 2 && g.Edge(path[|path| - 2], b)
  {
    assert g.Edge(path[|path| - 2], path[|path| - 2 + 1]);
  }

  /** An absorbed block is out of reach, so something is deleted in the end. */
  lemma AbsorbedAreDeleted(f0: Func, f: Func, order: seq<BlockId>, marks: seq<bool>)
    requires Wired(f) && MergedSoFar(f0, f) && SomeAbsorbed(f) && KeptInOrder(f, order, marks)
    requires forall b: BlockId {:trigger Kept(marks, b)} :: Kept(marks, b) <==> f.Adjacency().Reachable(b)
    ensures !f.Adjacency().AllReachable() && |order| < f0.Size()
  {
    var g := f.Adjacency();
    WiredIsValid(f);
    var b: BlockId :| Absorbed(f, b) && b != f.entry;
    assert g.preds[b] == [];
    forall path ensures !g.PathTo(path, b) {
      if g.PathTo(path, b) {
        LastEdge(g, path, b);
      }
    }
    assert !g.Reachable(b) && !Kept(marks, b);
    hide Wired, Func.Adjacency, Graph.Reachable;
    forall i: nat | i < |order| ensures order[i] < f.Size() {
      InOrder(f, order, marks, i);
    }
    MissingOne(order, f.Size(), b);
  }

  lemma SomethingToMerge(f: Func, first: BlockId, second: BlockId)
    requires Mergeable(f, first, second)
    ensures !NothingToMerge(f)
  {
  }

  lemma MergedItself(f: Func)
    requires WellFormed(f) && f.blocks[f.entry].preds == [] && NothingToMerge(f)
    ensures Merged(f, f)
  {
    hide Wired, SitesExact, Follows, CriticalFree, NothingToMerge, RunsAlike, Graph.AllReachable, PhisJoin, ValidSsa;
    forall m: Machine, private: set<SlotId> ensures Follows(m, private, f, f) {
      FollowsItself(m, private, f);
    }
    FollowedIsAlike(f, f);
  }

  /** A block that is left keeps all its predecessors when the others are absorbed ones. */
  lemma AllPredsKept(f: Func, order: seq<BlockId>, keep: seq<bool>, i: nat)
    requires Wired(f) && KeptInOrder(f, order, keep) && i < |order| && ReachedOrAbsorbed(f)
    requires forall b: BlockId {:trigger Kept(keep, b)} :: f.Adjacency().Reachable(b) ==> Kept(keep, b)
    ensures order[i] < f.Size() && RetainOf(f, order, keep).blocks[i].preds == Remap(order, f.blocks[order[i]].preds)
    ensures forall p: BlockId :: p in f.blocks[order[i]].preds ==> p in order
  {
    InOrder(f, order, keep, i);
    var block := f.blocks[order[i]];
    RetainedPreds(f, order, keep, order[i]);
    forall k: nat | k < |block.preds| ensures Kept(keep, block.preds[k]) {
      PredReached(f, order[i], k);
    }
    hide Wired, ReachedOrAbsorbed, Survivors, Kept, Remap, DropUnreached, RemapTerm, Graph.Reachable;
    AllSurvive(Columns(block), keep);
    var dropped := DropUnreached(block, keep, |block.preds|);
    SameColumnsSamePreds(dropped, block);
    PredsKept(f, order, keep, dropped.preds);
  }

  lemma SameColumnsSamePreds(a: Block, b: Block)
    requires Columns(a) == Columns(b)
    ensures a.preds == b.preds
  {
    forall i: nat | i < |a.preds| ensures a.preds[i] == b.preds[i] {
      assert Columns(a)[i].0 == Columns(b)[i].0;
    }
  }

  lemma PredReached(f: Func, b: BlockId, k: nat)
    requires Wired(f) && b < f.Size() && k < |f.blocks[b].preds| && ReachedOrAbsorbed(f)
    ensures f.Adjacency().Reachable(f.blocks[b].preds[k])
  {
    var p := f.blocks[b].preds[k];
    assert p in f.blocks[b].preds;
    assert BlockWired(f, b);
    assert Count(f.blocks[p].term.Successors(), b) == Count(f.blocks[b].preds, p);
    CountIn(f.blocks[b].preds, p);
    CountIn(f.blocks[p].term.Successors(), b);
    hide Count;
    assert b in f.blocks[p].term.Successors();
    assert !Absorbed(f, p);
  }

  lemma RemapSingle(order: seq<BlockId>, preds: seq<BlockId>, i: nat)
    requires Remap(order, preds) == [i] && i < |order| && forall p: BlockId :: p in preds ==> p in order
    ensures preds == [order[i]]
  {
    assert preds[0] in preds;
    assert Remap(order, preds)[0] == i;
    IndexOf(order, preds[0]);
  }

  lemma RetainedNothing(f: Func, order: seq<BlockId>, keep: seq<bool>)
    requires Wired(f) && KeptInOrder(f, order, keep) && KeepClosed(f, keep) && ReachedOrAbsorbed(f) && NothingToMerge(f)
    requires forall b: BlockId {:trigger Kept(keep, b)} :: f.Adjacency().Reachable(b) ==> Kept(keep, b)
    ensures NothingToMerge(RetainOf(f, order, keep))
  {
    var f' := RetainOf(f, order, keep);
    RetainedSize(f, order, keep);
    forall i: BlockId, j: BlockId {:trigger Mergeable(f', i, j)} ensures !Mergeable(f', i, j) {
      if Mergeable(f', i, j) {
        MergeableBefore(f, order, keep, i, j);
      }
    }
  }

  lemma MergeableBefore(f: Func, order: seq<BlockId>, keep: seq<bool>, i: BlockId, j: BlockId)
    requires Wired(f) && KeptInOrder(f, order, keep) && KeepClosed(f, keep) && ReachedOrAbsorbed(f)
    requires forall b: BlockId {:trigger Kept(keep, b)} :: f.Adjacency().Reachable(b) ==> Kept(keep, b)
    requires Mergeable(RetainOf(f, order, keep), i, j)
    ensures i < |order| && j < |order| && Mergeable(f, order[i], order[j])
  {
    var f' := RetainOf(f, order, keep);
    RetainedSize(f, order, keep);
    hide RetainOf, Wired, KeptInOrder, KeepClosed, ReachedOrAbsorbed, Graph.Reachable, Remap, RetainedAt;
    assert i < |order| && j < |order|;
    InOrder(f, order, keep, i);
    InOrder(f, order, keep, j);
    RetainedPredsFewer(f, order, keep, i);
    RetainedPredsFewer(f, order, keep, j);
    AllPredsKept(f, order, keep, j);
    RemapSingle(order, f.blocks[order[j]].preds, i);
    SuccsKept(f, order, keep, order[i]);
    JumpBack(order, f.blocks[order[i]].term, j);
  }

  lemma JumpBack(order: seq<BlockId>, term: Terminator, j: nat)
    requires RemapTerm(order, term) == Jump(j) && j < |order| && forall s: BlockId :: s in term.Successors() ==>
               s in order
    ensures term == Jump(order[j])
  {
    assert term.Jump? && term.target in term.Successors();
    IndexOf(order, term.target);
  }

  lemma RetainedEntry(f: Func, order: seq<BlockId>, keep: seq<bool>)
    requires Wired(f) && KeptInOrder(f, order, keep) && KeepClosed(f, keep) && f.entry < f.Size() &&
             f.blocks[f.entry].preds == []
    ensures var f' := RetainOf(f, order, keep); f'.entry < f'.Size() && f'.blocks[f'.entry].preds == []
  {
    EntryKept(f, order, keep);
    IndexOf(order, f.entry);
    RetainedSize(f, order, keep);
    RetainedPredsFewer(f, order, keep, NewIndex(order, f.entry));
    hide RetainOf, Wired, KeptInOrder, KeepClosed, NewIndex;
  }

  lemma AbsorbedTrimmed(f: Func, order: seq<BlockId>, keep: seq<bool>)
    requires Wired(f) && KeptInOrder(f, order, keep) && KeepClosed(f, keep) && ReachedOrAbsorbed(f)
    requires forall b: BlockId {:trigger Kept(keep, b)} :: Kept(keep, b) <==> f.Adjacency().Reachable(b)
    ensures Trimmed(f, order, keep)
  {
    forall i: nat | i < |order| ensures EntersFromKept(f, order, keep, i) {
      InOrder(f, order, keep, i);
      forall k: nat | k < |f.blocks[order[i]].preds| ensures Kept(keep, f.blocks[order[i]].preds[k]) {
        PredReached(f, order[i], k);
      }
      hide Wired, KeptInOrder, KeepClosed, ReachedOrAbsorbed, Graph.Reachable;
    }
    hide Wired, KeptInOrder, KeepClosed, ReachedOrAbsorbed, Graph.Reachable, EntersFromKept;
  }

  lemma RetainedJoins(f: Func, order: seq<BlockId>, keep: seq<bool>)
    requires Trimmed(f, order, keep) && PhisJoin(f)
    ensures PhisJoin(RetainOf(f, order, keep))
  {
    RetainedSize(f, order, keep);
    forall b: nat | b < |order| && RetainOf(f, order, keep).blocks[b].phis != []
      ensures |RetainOf(f, order, keep).blocks[b].preds| >= 2
    {
      RetainedIs(f, order, keep, b);
    }
    hide RetainOf, Trimmed;
  }

  lemma NothingDeletedValid(f: Func)
    requires Wired(f) && f.Adjacency().AllReachable() && f.blocks[f.entry].preds == []
    requires SingleDefs(f) && UsesOk(f)
    ensures ValidSsa(f)
  {
    WiredIsValid(f);
    WiredArgs(f);
    hide Wired, Graph.Valid, Graph.AllReachable, SingleDefs, UsesOk;
  }

  /** What deleting the absorbed blocks keeps beside the runs. */
  lemma TrimmingKeeps(f0: Func, f: Func, order: seq<BlockId>, marks: seq<bool>)
    requires Wired(f) && MergedSoFar(f0, f) && NothingToMerge(f)
    requires KeptInOrder(f, order, marks) && KeepClosed(f, marks) && f0.Adjacency().AllReachable()
    requires forall b: BlockId {:trigger Kept(marks, b)} :: Kept(marks, b) <==> f.Adjacency().Reachable(b)
    ensures var f' := RetainOf(f, order, marks);
            NothingToMerge(f') && (PhisJoin(f0) ==> PhisJoin(f')) && (ValidSsa(f0) ==> ValidSsa(f'))
  {
    hide Wired, KeptInOrder, KeepClosed, RetainOf, ReachedOrAbsorbed, NothingToMerge, CriticalFree, Follows,
         Graph.Reachable, Graph.AllReachable, PhisJoin, ValidSsa, SingleDefs, UsesOk, Trimmed, FollowedAlways;
    RetainedNothing(f, order, marks);
    AbsorbedTrimmed(f, order, marks);
    if PhisJoin(f0) {
      RetainedJoins(f, order, marks);
    }
    if ValidSsa(f0) {
      RetainedIsValid(f, order, marks);
    }
  }

  /** Deleting the absorbed blocks. */
  lemma MergingEnds(f0: Func, f: Func, f': Func, deleted: bool, order: seq<BlockId>, marks: seq<bool>)
    requires WellFormed(f) && WellFormed(f') && MergedSoFar(f0, f) && NothingToMerge(f)
    requires KeptInOrder(f, order, marks) && KeepClosed(f, marks)
    requires forall b: BlockId {:trigger Kept(marks, b)} :: Kept(marks, b) <==> f.Adjacency().Reachable(b)
    requires deleted <==> !f.Adjacency().AllReachable()
    requires f' == if deleted then RetainOf(f, order, marks) else f
    ensures Merged(f0, f')
  {
    hide Wired, SitesExact, KeptInOrder, KeepClosed, RetainOf, ReachedOrAbsorbed, NothingToMerge, CriticalFree,
         Follows, RunsAlike, Graph.Reachable, Graph.AllReachable, PhisJoin, ValidSsa, SingleDefs, UsesOk, NoNewHeads;
    if ValidSsa(f0) {
      ValidReaches(f0);
    }
    if deleted {
      RetainKeepsHeads(f, order, marks);
      HeadsInTurn(f0, f, f');
      RetainedRunsAlike(f0, f, order, marks);
      RetainedEntry(f, order, marks);
      if CriticalFree(f0) {
        RetainedCriticalFree(f, order, marks);
      }
      RetainedAllReachable(f, order, marks);
      if f0.Adjacency().AllReachable() {
        TrimmingKeeps(f0, f, order, marks);
      }
    } else {
      FollowedIsAlike(f0, f);
      if ValidSsa(f0) {
        NothingDeletedValid(f);
      }
    }
  }

  const CALL := Call("f", [])
  const LOOPING := Func([Block([], [Inst(Some(0), CALL)], Branch(Value(0), 1, 2), [1]),
                         Block([], [], Jump(0), [0]),
                         Block([], [], Return(None), [0])], [AtInst], 0)
  const QUIET := Machine((op, args) => 0, n => 0, 0, events => 0)

  lemma LoopingCounts(a: BlockId, x: BlockId)
    requires a < 3 && x < 3
    ensures Count(LOOPING.blocks[a].term.Successors(), x) == Count(LOOPING.blocks[x].preds, a)
  {
    hide Count;
    CountDisplay(0, 0, x);
    CountDisplay(1, 2, x);
    CountDisplay(1, 1, a);
    CountDisplay(0, 0, a);
  }

  lemma LoopingIsWellFormed()
    ensures WellFormed(LOOPING)
  {
    hide Count;
    forall a: BlockId, x: BlockId | a < 3 && x < 3
      ensures Count(LOOPING.blocks[a].term.Successors(), x) == Count(LOOPING.blocks[x].preds, a)
    {
      LoopingCounts(a, x);
    }
    assert forall a: BlockId, s: BlockId :: a < 3 && s in LOOPING.blocks[a].term.Successors() ==> s < 3;
    assert AllBlocksWired(LOOPING);
  }

  lemma LoopingIsReachable()
    ensures LOOPING.Adjacency().AllReachable()
  {
    var g := LOOPING.Adjacency();
    assert g.PathTo([0], 0);
    assert g.Edge(0, 1) && g.Edge(0, 2);
    ReachableStep(g, 0, 1);
    ReachableStep(g, 0, 2);
    hide Graph.Reachable, Graph.Edge;
  }

  lemma CallOnce(st: State)
    ensures ExecAll(QUIET, {}, [Inst(Some(0), CALL)], st) ==
              State(st.vals[0 := 0], st.mem, st.trace + [Event(CALL, [])])
  {
    var insts := [Inst(Some(0), CALL)];
    assert insts[..0] == [];
    assert ExecAll(QUIET, {}, insts, st) == Exec(QUIET, {}, insts[0], ExecAll(QUIET, {}, insts[..0], st));
    assert st.ReadAll([]) == [] && CALL.Head() == CALL;
  }

  /** An entry that something jumps to may be absorbed, and then the function does nothing: this is why nothing
      may lead into the entry. */
  lemma EntryMustNotBeEntered()
    ensures WellFormed(LOOPING) && LOOPING.Adjacency().AllReachable() && Mergeable(LOOPING, 1, 0) && LOOPING.entry == 0
    ensures Run(QUIET, {}, MergeOf(LOOPING, 1, 0), 1) == Done(None, [])
    ensures Run(QUIET, {}, LOOPING, 1) == At(2, State(map[0 := 0], map[], [Event(CALL, [])]))
  {
    LoopingIsWellFormed();
    LoopingIsReachable();
    var start := State(map[], map[], []);
    RunStep(QUIET, {}, LOOPING, 1);
    RunStart(QUIET, {}, LOOPING);
    CallOnce(start);
    var f' := MergeOf(LOOPING, 1, 0);
    RunStep(QUIET, {}, f', 1);
    RunStart(QUIET, {}, f');
    assert f'.blocks[0] == MergedAt(LOOPING, 1, 0, 0);
    hide Run, MergeOf, WellFormed, Graph.AllReachable;
  }
}
