/** A function object: its block arena and value table, edited in place. */
module Functions {
  import opened IdomTree
  import opened Ssa
  import opened Rewrites
  import opened Graphs
  import opened Lists
  import opened GraphEdits
  import opened GraphSurgery
  import opened Reachables
  import opened Wiring

  // ---- what the edits do, on values ----

  function SubPhi(sub: Substitution, phi: Phi): Phi {
    phi.(args := SubAll(sub, phi.args))
  }

  function SubInst(sub: Substitution, inst: Inst): (r: Inst)
    ensures r.dest == inst.dest
  {
    inst.(op := SubOp(sub, inst.op))
  }

  function SubPhis(sub: Substitution, phis: seq<Phi>): (r: seq<Phi>)
    ensures |r| == |phis| && forall k: nat :: k < |phis| ==> r[k] == SubPhi(sub, phis[k])
  {
    seq(|phis|, k requires 0 <= k < |phis| => SubPhi(sub, phis[k]))
  }

  function SubInsts(sub: Substitution, insts: seq<Inst>): (r: seq<Inst>)
    ensures |r| == |insts| && forall i: nat :: i < |insts| ==> r[i] == SubInst(sub, insts[i])
  {
    seq(|insts|, i requires 0 <= i < |insts| => SubInst(sub, insts[i]))
  }

  function SubBlock(sub: Substitution, block: Block): Block {
    block.(phis := SubPhis(sub, block.phis), insts := SubInsts(sub, block.insts), term := SubTerm(sub, block.term))
  }

  function SubBlocks(sub: Substitution, blocks: seq<Block>): seq<Block> {
    seq(|blocks|, b requires 0 <= b < |blocks| => SubBlock(sub, blocks[b]))
  }

  /** The phis of a block without those that define a value in `drop`. */
  function KeptPhis(phis: seq<Phi>, drop: set<ValueId>): seq<Phi> {
    ErasePhis(Dead(drop, {}), phis)
  }

  /** The phi sites of block `b` after its phi list became `phis`: dropped values are gone, the
      survivors are where they now are. */
  ghost predicate Resited(before: seq<Site>, after: seq<Site>, b: BlockId, was: seq<Phi>, phis: seq<Phi>,
                          drop: set<ValueId>) {
    && |after| == |before|
    && (forall k: nat :: k < |phis| && phis[k].dest < |after| ==> after[phis[k].dest] == AtPhi(b, k))
    && (forall k: nat :: k < |was| && was[k].dest in drop && was[k].dest < |after| ==> after[was[k].dest] == Removed)
    && (forall v: ValueId :: v < |after| && !Writes(was, v) ==> after[v] == before[v])
  }

  class Function {
    var blocks: seq<Block>
    var sites: seq<Site>
    var entry: BlockId

    ghost function View(): Func
      reads this
    {
      Func(blocks, sites, entry)
    }

    /** Edges agree on both sides, every phi has one argument per predecessor, and the recorded phi sites are right. */
    ghost predicate Valid()
      reads this
    {
      WellFormed(View())
    }

    constructor (view: Func)
      ensures View() == view
    {
      blocks, sites, entry := view.blocks, view.sites, view.entry;
    }

    /** Afterwards instructions, phis and terminators read through `replacement`; definitions and edges stay. */
    method SubstituteOperands(replacement: Substitution)
      modifies this
      ensures View() == old(View()).(blocks := SubBlocks(replacement, old(blocks)))
      ensures old(Valid()) ==> Valid()
    {
      ghost var before := blocks;
      for block := 0 to |blocks|
        invariant |blocks| == |before| && sites == old(sites) && entry == old(entry)
        invariant forall b :: 0 <= b < |blocks| ==>
                    blocks[b] == if b < block then SubBlock(replacement, before[b]) else before[b]
      {
        var substituted := SubstituteBlock(replacement, blocks[block]);
        blocks := blocks[block := substituted];
      }
      assert blocks == SubBlocks(replacement, before);
      if old(Valid()) {
        SubKeepsWellFormed(replacement, old(View()));
      }
    }

    /** Drop the phis of `block` defining a value in `drop`, and correct the recorded sites. */
    method RetainPhis(block: BlockId, drop: set<ValueId>)
      requires block < |blocks| && DistinctDests(blocks[block].phis)
      modifies this
      ensures entry == old(entry)
      ensures blocks == old(blocks)[block := old(blocks[block]).(phis := KeptPhis(old(blocks[block]).phis, drop))]
      ensures Resited(old(sites), sites, block, old(blocks[block]).phis, blocks[block].phis, drop)
      ensures old(Valid()) ==> Valid()
    {
      var kept, dropped := SplitPhis(blocks[block].phis, drop);
      KeptAreOld(blocks[block].phis, drop);
      sites := Resite(sites, block, blocks[block].phis, kept, dropped, drop);
      blocks := blocks[block := blocks[block].(phis := kept)];
      if old(Valid()) {
        RetainKeepsWellFormed(old(View()), View(), block, drop);
      }
    }

    /** Remove from `block` the instructions that define a value in `dead`. */
    method Remove(block: BlockId, dead: set<ValueId>)
      requires block < |blocks|
      modifies this
      ensures View() == old(View()).(blocks := old(blocks)[block := old(blocks[block]).(
                          insts := EraseInsts(Dead(dead, {}), old(blocks[block]).insts))])
      ensures old(Valid()) ==> Valid()
    {
      var kept := FilterInsts(blocks[block].insts, dead);
      blocks := blocks[block := blocks[block].(insts := kept)];
      if old(Valid()) {
        InstsKeepWellFormed(old(View()), View(), block);
      }
    }

    /** Add a phi for `slot` to `block`, its arguments reading its own result for now. */
    method AddPhi(block: BlockId, slot: SlotId) returns (dest: ValueId)
      requires block < |blocks|
      modifies this
      ensures dest == |old(sites)|
      ensures View() == WithPhi(old(View()), block, slot)
      ensures old(Valid()) ==> Valid()
    {
      var position := |blocks[block].phis|;
      sites := sites + [AtPhi(block, position)];
      dest := |sites| - 1;
      var arity := |blocks[block].preds|;
      blocks := blocks[block :=
                       blocks[block].(phis := blocks[block].phis + [Phi(dest, seq(arity, _ => Value(dest)), slot)])];
      if old(Valid()) {
        WithPhiWellFormed(old(View()), block, slot);
      }
    }

    /** Insert an instruction; the value it defines, if any, is new. */
    method Insert(block: BlockId, position: nat, op: Op) returns (dest: Option<ValueId>)
      requires block < |blocks| && position <= |blocks[block].insts|
      modifies this
      ensures dest == if op.DefinesValue() then Some(|old(sites)|) else None
      ensures View() == WithInst(old(View()), block, position, op)
      ensures old(Valid()) ==> Valid()
    {
      if op.DefinesValue() {
        sites := sites + [AtInst];
        dest := Some(|sites| - 1);
      } else {
        dest := None;
      }
      var insts := blocks[block].insts;
      blocks := blocks[block := blocks[block].(insts := insts[..position] + [Inst(dest, op)] + insts[position..])];
      if old(Valid()) {
        InstsKeepWellFormed(old(View()), View(), block);
      }
    }

    // ---- edges ----

    /** Takes the first entry of `from` out of `to`'s predecessors, and the same column out of every phi there. */
    method RemoveEdge(from: BlockId, to: BlockId)
      requires to < |blocks| && from in blocks[to].preds && Arity(blocks[to])
      modifies this
      ensures sites == old(sites) && entry == old(entry)
      ensures blocks == old(blocks)[to := DropColumn(old(blocks[to]), Position(old(blocks[to]).preds, from))]
    {
      var position := Position(blocks[to].preds, from);
      var target := blocks[to];
      var phis := RemoveArgs(target.phis, position);
      blocks := blocks[to := target.(preds := Without(target.preds, position), phis := phis)];
    }

    /** Afterwards the block ends in `term`; a block it no longer leads to as often loses columns, one it leads to more
        often, which may not have phis, gains predecessors, and every other block is as it was. */
    method SetTerminator(block: BlockId, term: Terminator)
      requires Valid() && block < |blocks|
      requires forall s: BlockId :: s in term.Successors() ==> s < |blocks|
      requires forall s: BlockId ::
                 s < |blocks| && Count(term.Successors(), s) > Count(blocks[block].term.Successors(), s) ==>
                   blocks[s].phis == []
      modifies this
      ensures Valid()
      ensures sites == old(sites) && entry == old(entry) && |blocks| == |old(blocks)|
      ensures forall b: BlockId :: b < |blocks| ==>
                EdgesMoved(old(blocks[b]), blocks[b], block, if b == block then term else old(blocks[b]).term)
    {
      hide Wired, WiredAs, EdgesMoved, DropColumn, Count, SitesExact;
      ghost var before := blocks;
      var was := blocks[block].term.Successors();
      var added: seq<BlockId> := term.Successors();
      ghost var out: seq<BlockId> := was;
      ghost var kept: seq<BlockId> := [];
      WiredIsWiredAs(View(), block);
      AllStill(blocks, block);
      MatchStarts(was, added);
      for i := 0 to |was|
        invariant sites == old(sites) && entry == old(entry)
        invariant WiredAs(View(), block, out) && AllMoved(before, blocks, block)
        invariant Matched(was, term.Successors(), i, added, out, kept)
      {
        var successor := was[i];
        var position := Position(added, successor);
        if position < |added| {
          kept := MatchOne(was, term.Successors(), i, added, out, kept, position);
          added := Without(added, position);
        } else {
          ghost var out' := MissOne(was, term.Successors(), i, added, out, kept);
          DropEdgeWired(View(), block, out, out', successor);
          WiredArity(View(), block, out, successor);
          DropMoves(before, blocks, block, successor);
          RemoveEdge(block, successor);
          out := out';
        }
      }
      MatchEnds(was, term.Successors(), added, out, kept);
      NewTargets(before, blocks, was, term.Successors(), block, added);
      out := AddEdges(block, added, before, out);
      TermWired(View(), block, out, term);
      TermMoves(before, blocks, block, term);
      blocks := blocks[block := blocks[block].(term := term)];
      forall b: BlockId | b < |blocks| ensures KeepsEdges(before[b], blocks[b], block) {
        MovedKeeps(before[b], blocks[b], block, if b == block then term else before[b].term);
      }
      MovedKeepsSites(old(View()), View(), block);
    }

    /** Enter `block` as a predecessor of each of `added`, blocks without phis. */
    method AddEdges(block: BlockId, added: seq<BlockId>, ghost before: seq<Block>, ghost out: seq<BlockId>)
      returns (ghost out': seq<BlockId>)
      requires WiredAs(View(), block, out) && AllMoved(before, blocks, block)
      requires forall s: BlockId :: s in added ==> s < |blocks| && blocks[s].phis == []
      modifies this
      ensures sites == old(sites) && entry == old(entry)
      ensures WiredAs(View(), block, out') && AllMoved(before, blocks, block)
      ensures multiset(out') == multiset(out) + multiset(added)
    {
      hide WiredAs, EdgesMoved;
      out' := out;
      for i := 0 to |added|
        invariant sites == old(sites) && entry == old(entry) && |blocks| == |old(blocks)|
        invariant forall s: BlockId :: s < |blocks| ==> blocks[s].phis == old(blocks[s].phis)
        invariant WiredAs(View(), block, out') && AllMoved(before, blocks, block)
        invariant out' == out + added[..i]
      {
        var successor := added[i];
        assert successor in added;
        AddEdgeWired(View(), block, out', successor);
        AddMoves(before, blocks, block, successor);
        blocks := blocks[successor := WithPred(blocks[successor], block)];
        out' := out' + [successor];
        assert added[..i + 1] == added[..i] + [successor];
      }
      assert added[..|added|] == added;
    }

    /** Afterwards `from` leads to a new block that only jumps to `to` and stands where `from` stood among its
        predecessors. */
    method SplitEdge(from: BlockId, to: BlockId) returns (split: BlockId)
      requires from < |blocks| && to < |blocks| && from in blocks[to].preds
      modifies this
      ensures split == |old(blocks)|
      ensures View() == SplitOf(old(View()), from, to)
      ensures old(Valid()) && to in old(blocks[from]).term.Successors() ==> Valid()
    {
      split := |blocks|;
      blocks := blocks + [Block([], [], Return(None), [])];
      var preds := EnterFrom(blocks[to].preds, from, split);
      blocks := blocks[to := blocks[to].(preds := preds)];
      blocks := blocks[split := blocks[split].(term := Jump(to), preds := [from])];
      blocks := blocks[from := blocks[from].(term := Retarget(blocks[from].term, to, split))];
      assert blocks == SplitOf(old(View()), from, to).blocks;
      if old(Valid()) && to in old(blocks[from]).term.Successors() {
        SplitWellFormed(old(View()), from, to);
      }
    }

    /** Afterwards `first` does what both did and leaves as `second` left; `second` is an empty block nothing enters. */
    method MergeBlocks(first: BlockId, second: BlockId)
      requires Valid() && Mergeable(View(), first, second)
      modifies this
      ensures Valid() && View() == MergeOf(old(View()), first, second)
    {
      hide Wired, SitesExact;
      ghost var f := View();
      var body := blocks[second].insts;
      blocks := blocks[second := blocks[second].(insts := [])];
      blocks := blocks[first := blocks[first].(insts := blocks[first].insts + body)];
      var inherited := blocks[second].term;
      blocks := blocks[second := blocks[second].(term := Return(None))];
      var successors := inherited.Successors();
      ghost var before := blocks;
      for n := 0 to |successors|
        invariant |blocks| == |before| && sites == old(sites) && entry == old(entry)
        invariant forall x: BlockId :: x < |blocks| ==>
          blocks[x] == if x in successors[..n] then before[x].(preds := Renamed(before[x].preds, second, first))
                       else before[x]
      {
        assert successors[..n + 1] == successors[..n] + [successors[n]];
        InheritedKnown(f, second, n);
        RenameAgain(before[successors[n]].preds, second, first);
        var preds := ReplacePreds(blocks[successors[n]].preds, second, first);
        blocks := blocks[successors[n] := blocks[successors[n]].(preds := preds)];
      }
      assert successors[..|successors|] == successors;
      blocks := blocks[second := blocks[second].(preds := [])];
      blocks := blocks[first := blocks[first].(term := inherited)];
      forall x: BlockId | x < |blocks| ensures blocks[x] == MergedAt(f, first, second, x) {
        if x !in successors {
          NotEntered(f, second, first, x);
        }
      }
      assert blocks == MergeOf(f, first, second).blocks;
      MergeWellFormed(f, first, second);
    }

    /** Keeps exactly the reachable blocks, in `order`, under new numbers, and reports a deletion exactly when some
        block was unreachable. */
    method RetainReachable() returns (deleted: bool, ghost order: seq<BlockId>, ghost marks: seq<bool>)
      requires Valid()
      modifies this
      ensures Valid()
      ensures deleted <==> !old(View()).Adjacency().AllReachable()
      ensures KeptInOrder(old(View()), order, marks) && KeepClosed(old(View()), marks)
      ensures forall b: BlockId {:trigger Kept(marks, b)} :: Kept(marks, b) <==> old(View()).Adjacency().Reachable(b)
      ensures View() == if deleted then RetainOf(old(View()), order, marks) else old(View())
    {
      hide Wired, KeptInOrder, KeepClosed, DropUnreached, Numbers, SitesExact, Graph.Reachable, Graph.AllReachable;
      ghost var f := View();
      var reachable := MarkReachable(blocks, entry, f);
      marks := reachable;
      order := Marked(marks, |marks|);
      MarkedIsKept(f, marks);
      AllMarkedIsReachable(f, marks);
      var all := AllMarked(reachable);
      if all {
        return false, order, marks;
      }
      var renumbered := Renumber(reachable);
      var dropped := DropAllGone(blocks, reachable, f);
      var kept := Compact(dropped, reachable);
      OrderInRange(f, order, marks);
      blocks := RemapKept(kept, renumbered, f, order, marks);
      sites := RemapAllSites(sites, renumbered, order, f);
      NumberedEntry(f, renumbered, order, marks);
      entry := renumbered[entry].value;
      RetainWellFormed(f, order, marks);
      deleted := true;
    }
  }

  lemma OrderInRange(f: Func, order: seq<BlockId>, marks: seq<bool>)
    requires KeptInOrder(f, order, marks)
    ensures forall i: nat :: i < |order| ==> order[i] < f.Size() && marks[order[i]]
  {
    forall i: nat | i < |order| ensures order[i] < f.Size() && marks[order[i]] {
      InOrder(f, order, marks, i);
    }
  }

  lemma NumberedEntry(f: Func, renumbered: seq<Option<BlockId>>, order: seq<BlockId>, marks: seq<bool>)
    requires Wired(f) && KeptInOrder(f, order, marks) && KeepClosed(f, marks) && Numbers(renumbered, order) &&
             |renumbered| == f.Size()
    ensures f.entry < |renumbered| && renumbered[f.entry] == Some(NewIndex(order, f.entry))
  {
    assert f.entry in order;
  }

  lemma MovedKeeps(before: Block, after: Block, from: BlockId, term: Terminator)
    requires EdgesMoved(before, after, from, term)
    ensures KeepsEdges(before, after, from)
  {
  }

  // ---- the other edits keep a function well formed ----

  lemma SubKeepsWellFormed(sub: Substitution, f: Func)
    requires WellFormed(f)
    ensures WellFormed(f.(blocks := SubBlocks(sub, f.blocks)))
  {
    var f' := f.(blocks := SubBlocks(sub, f.blocks));
    hide WellFormed, SubBlock, SameShape;
    forall b: BlockId | b < f.Size() ensures SameShape(f.blocks[b], f'.blocks[b]) {
      SubShape(sub, f.blocks[b]);
    }
    ShapeKeepsWellFormed(f, f');
  }

  lemma SubShape(sub: Substitution, block: Block)
    ensures SameShape(block, SubBlock(sub, block))
  {
    SubTermShape(sub, block.term);
    hide SubTerm;
  }

  lemma SubTermShape(sub: Substitution, term: Terminator)
    ensures SubTerm(sub, term).Successors() == term.Successors()
  {
  }

  lemma InstsKeepWellFormed(f: Func, f': Func, b: BlockId)
    requires WellFormed(f) && b < f.Size() == f'.Size() && f'.entry == f.entry
    requires f'.blocks == f.blocks[b := f.blocks[b].(insts := f'.blocks[b].insts)]
    requires f'.sites == f.sites || f'.sites == f.sites + [AtInst]
    ensures WellFormed(f')
  {
    hide WellFormed;
    ShapeKeepsWellFormed(f, f');
  }

  lemma WithPhiBlocks(f: Func, b: BlockId, slot: SlotId, a: BlockId)
    requires b < f.Size() && a < f.Size()
    ensures var f' := WithPhi(f, b, slot);
            && f'.Size() == f.Size() && f'.entry == f.entry && f'.sites == f.sites + [AtPhi(b, |f.blocks[b].phis|)]
            && f'.blocks[a].preds == f.blocks[a].preds && f'.blocks[a].term == f.blocks[a].term
            && (a != b ==> f'.blocks[a].phis == f.blocks[a].phis)
            && (a == b ==> |f'.blocks[a].phis| == |f.blocks[a].phis| + 1 &&
                           f'.blocks[a].phis[..|f.blocks[a].phis|] == f.blocks[a].phis
                           && f'.blocks[a].phis[|f.blocks[a].phis|].dest == |f.sites|
                           && |f'.blocks[a].phis[|f.blocks[a].phis|].args| == |f.blocks[a].preds|)
  {
  }

  lemma WithPhiWired(f: Func, b: BlockId, slot: SlotId, a: BlockId)
    requires Wired(f) && b < f.Size() && a < f.Size()
    ensures var f' := WithPhi(f, b, slot);
            AllWired(f'.blocks[a].phis, f'.sites, a, |f.blocks[a].preds|)
  {
    WiredPhis(f, a);
    WithPhiBlocks(f, b, slot, a);
    hide WithPhi, Wired;
    var f' := WithPhi(f, b, slot);
    forall k: nat | k < |f'.blocks[a].phis|
      ensures OneWired(f'.blocks[a].phis[k], f'.sites, a, k, |f.blocks[a].preds|)
    {
      if k < |f.blocks[a].phis| {
        assert f'.blocks[a].phis[k] == f.blocks[a].phis[k];
        assert OneWired(f.blocks[a].phis[k], f.sites, a, k, |f.blocks[a].preds|);
      }
    }
  }

  lemma WithPhiWellFormed(f: Func, b: BlockId, slot: SlotId)
    requires WellFormed(f) && b < f.Size()
    ensures WellFormed(WithPhi(f, b, slot))
  {
    hide Wired, WithPhi, AllWired;
    var f' := WithPhi(f, b, slot);
    WithPhiBlocks(f, b, slot, b);
    forall a: BlockId | a < f.Size()
      ensures && f'.blocks[a].preds == f.blocks[a].preds &&
              f'.blocks[a].term.Successors() == f.blocks[a].term.Successors()
              && AllWired(f'.blocks[a].phis, f'.sites, a, |f.blocks[a].preds|)
    {
      WithPhiBlocks(f, b, slot, a);
      WithPhiWired(f, b, slot, a);
    }
    PhisKeepWired(f, f');
    forall v: ValueId | v < |f'.sites| && f'.sites[v].AtPhi?
      ensures SiteExact(f', v, f'.sites[v].block, f'.sites[v].position)
    {
      if v < |f.sites| {
        assert SiteExact(f, v, f.sites[v].block, f.sites[v].position);
        WithPhiBlocks(f, b, slot, f.sites[v].block);
        var phis := f.blocks[f.sites[v].block].phis;
        assert f'.blocks[f.sites[v].block].phis[..|phis|] == phis;
      }
    }
  }

  /** Keeping some phis, in order and with their sites corrected. */
  lemma RetainKeepsWellFormed(f: Func, f': Func, b: BlockId, drop: set<ValueId>)
    requires WellFormed(f) && b < f.Size() && f'.entry == f.entry
    requires f'.blocks == f.blocks[b := f.blocks[b].(phis := KeptPhis(f.blocks[b].phis, drop))]
    requires Resited(f.sites, f'.sites, b, f.blocks[b].phis, f'.blocks[b].phis, drop)
    ensures WellFormed(f')
  {
    var phis := f.blocks[b].phis;
    WiredDistinct(f, b);
    KeptAreOld(phis, drop);
    KeptComeFrom(phis, drop);
    forall a: BlockId | a < f.Size()
      ensures AllWired(f'.blocks[a].phis, f'.sites, a, |f.blocks[a].preds|)
    {
      RetainedWired(f, f', b, drop, a);
    }
    hide Wired, KeptPhis;
    PhisKeepWired(f, f');
    forall v: ValueId | v < |f'.sites| && f'.sites[v].AtPhi?
      ensures SiteExact(f', v, f'.sites[v].block, f'.sites[v].position)
    {
      RetainedSite(f, f', b, drop, v);
    }
  }

  lemma {:induction false} KeptComeFrom(phis: seq<Phi>, drop: set<ValueId>)
    ensures forall k: nat :: k < |KeptPhis(phis, drop)| ==>
              KeptPhis(phis, drop)[k] in phis && KeptPhis(phis, drop)[k].dest !in drop
    decreases |phis|
  {
    if phis != [] {
      var rest := phis[..|phis| - 1];
      KeptComeFrom(rest, drop);
      assert forall phi :: phi in rest ==> phi in phis;
      assert KeptPhis(phis, drop) == KeptPhis(rest, drop) ||
             KeptPhis(phis, drop) == KeptPhis(rest, drop) + [phis[|phis| - 1]];
    }
  }

  lemma RetainedWired(f: Func, f': Func, b: BlockId, drop: set<ValueId>, a: BlockId)
    requires Wired(f) && b < f.Size() && a < f.Size()
    requires f'.blocks == f.blocks[b := f.blocks[b].(phis := KeptPhis(f.blocks[b].phis, drop))]
    requires Resited(f.sites, f'.sites, b, f.blocks[b].phis, f'.blocks[b].phis, drop)
    ensures AllWired(f'.blocks[a].phis, f'.sites, a, |f.blocks[a].preds|)
  {
    var phis := f.blocks[b].phis;
    WiredPhis(f, a);
    WiredPhis(f, b);
    KeptComeFrom(phis, drop);
    hide Wired, KeptPhis;
    forall k: nat | k < |f'.blocks[a].phis|
      ensures OneWired(f'.blocks[a].phis[k], f'.sites, a, k, |f.blocks[a].preds|)
    {
      if a == b {
        var kept := f'.blocks[b].phis;
        var j := PhiIndex(phis, kept[k]);
        assert OneWired(phis[j], f.sites, b, j, |f.blocks[b].preds|);
      } else {
        assert OneWired(f.blocks[a].phis[k], f.sites, a, k, |f.blocks[a].preds|);
        var v := f.blocks[a].phis[k].dest;
        forall j: nat | j < |phis| ensures phis[j].dest != v {
          assert OneWired(phis[j], f.sites, b, j, |f.blocks[b].preds|);
        }
      }
    }
  }

  lemma PhiIndex(phis: seq<Phi>, phi: Phi) returns (j: nat)
    requires phi in phis
    ensures j < |phis| && phis[j] == phi
  {
    j :| j < |phis| && phis[j] == phi;
  }

  lemma RetainedSite(f: Func, f': Func, b: BlockId, drop: set<ValueId>, v: ValueId)
    requires SitesExact(f) && b < f.Size() && v < |f'.sites| && f'.sites[v].AtPhi?
    requires f'.blocks == f.blocks[b := f.blocks[b].(phis := KeptPhis(f.blocks[b].phis, drop))]
    requires Resited(f.sites, f'.sites, b, f.blocks[b].phis, f'.blocks[b].phis, drop)
    requires forall w: ValueId :: Writes(f'.blocks[b].phis, w) <==> Writes(f.blocks[b].phis, w) && w !in drop
    ensures SiteExact(f', v, f'.sites[v].block, f'.sites[v].position)
  {
    var phis, kept := f.blocks[b].phis, f'.blocks[b].phis;
    hide KeptPhis;
    if Writes(kept, v) {
      var k: nat :| k < |kept| && kept[k].dest == v;
    } else {
      NotDropped(f.sites, f'.sites, b, phis, kept, drop, v);
      assert SiteExact(f, v, f.sites[v].block, f.sites[v].position);
      NotThatBlock(f, v, f.sites[v].block, f.sites[v].position, b);
    }
  }

  lemma NotDropped(before: seq<Site>, after: seq<Site>, b: BlockId, was: seq<Phi>, phis: seq<Phi>, drop: set<ValueId>,
                   v: ValueId)
    requires Resited(before, after, b, was, phis, drop) && v < |after| && after[v].AtPhi? && !Writes(phis, v)
    requires Writes(phis, v) <==> Writes(was, v) && v !in drop
    ensures !Writes(was, v) && after[v] == before[v]
  {
  }

  lemma NotThatBlock(f: Func, v: ValueId, c: BlockId, k: nat, b: BlockId)
    requires SiteExact(f, v, c, k) && b < f.Size() && !Writes(f.blocks[b].phis, v)
    ensures c != b
  {
  }

  method SubstituteBlock(replacement: Substitution, block: Block) returns (r: Block)
    ensures r == SubBlock(replacement, block)
  {
    var phis := [];
    for k := 0 to |block.phis|
      invariant |phis| == k && forall j :: 0 <= j < k ==> phis[j] == SubPhi(replacement, block.phis[j])
    {
      phis := phis + [SubPhi(replacement, block.phis[k])];
    }
    var insts := [];
    for i := 0 to |block.insts|
      invariant |insts| == i && forall j :: 0 <= j < i ==> insts[j] == SubInst(replacement, block.insts[j])
    {
      insts := insts + [SubInst(replacement, block.insts[i])];
    }
    r := block.(phis := phis, insts := insts, term := SubTerm(replacement, block.term));
    assert phis == SubBlock(replacement, block).phis && insts == SubBlock(replacement, block).insts;
  }

  method FilterInsts(insts: seq<Inst>, dead: set<ValueId>) returns (kept: seq<Inst>)
    ensures kept == EraseInsts(Dead(dead, {}), insts)
  {
    kept := [];
    for i := 0 to |insts|
      invariant kept == EraseInsts(Dead(dead, {}), insts[..i])
    {
      assert insts[..i + 1][..i] == insts[..i];
      if !(insts[i].dest.Some? && insts[i].dest.value in dead) {
        kept := kept + [insts[i]];
      }
    }
    assert insts[..|insts|] == insts;
  }

  method SplitPhis(phis: seq<Phi>, drop: set<ValueId>) returns (kept: seq<Phi>, dropped: seq<ValueId>)
    ensures kept == KeptPhis(phis, drop)
    ensures forall v: ValueId :: v in dropped <==> v in drop && Writes(phis, v)
  {
    kept, dropped := [], [];
    for k := 0 to |phis|
      invariant kept == KeptPhis(phis[..k], drop)
      invariant forall v: ValueId :: v in dropped <==> v in drop && Writes(phis[..k], v)
    {
      assert phis[..k + 1][..k] == phis[..k];
      assert phis[..k + 1][k] == phis[k];
      WritesStep(phis, k);
      if phis[k].dest in drop {
        dropped := dropped + [phis[k].dest];
      } else {
        kept := kept + [phis[k]];
      }
    }
    assert phis[..|phis|] == phis;
  }

  /** Mark the dropped values removed, then renumber the surviving phis. */
  method Resite(before: seq<Site>, block: BlockId, ghost was: seq<Phi>, kept: seq<Phi>, dropped: seq<ValueId>,
                ghost drop: set<ValueId>) returns (sites: seq<Site>)
    requires DistinctDests(kept)
    requires forall v: ValueId :: v in dropped <==> v in drop && Writes(was, v)
    requires forall v: ValueId :: Writes(kept, v) <==> Writes(was, v) && v !in drop
    ensures Resited(before, sites, block, was, kept, drop)
  {
    sites := before;
    for k := 0 to |dropped|
      invariant |sites| == |before|
      invariant forall v: ValueId :: v < |sites| ==> sites[v] == if v in dropped[..k] then Removed else before[v]
    {
      if dropped[k] < |sites| {
        sites := sites[dropped[k] := Removed];
      }
    }
    assert dropped[..|dropped|] == dropped;
    ghost var cleared := sites;
    for position := 0 to |kept|
      invariant |sites| == |before|
      invariant forall k: nat :: k < position && kept[k].dest < |sites| ==> sites[kept[k].dest] == AtPhi(block, k)
      invariant forall v: ValueId :: v < |sites| && !Writes(kept, v) ==> sites[v] == cleared[v]
    {
      assert Writes(kept, kept[position].dest);
      if kept[position].dest < |sites| {
        sites := sites[kept[position].dest := AtPhi(block, position)];
      }
    }
    forall k: nat | k < |was| && was[k].dest in drop
      ensures was[k].dest in dropped && !Writes(kept, was[k].dest)
    {
      assert Writes(was, was[k].dest);
    }
  }

  function WithPhi(f: Func, b: BlockId, slot: SlotId): Func
    requires b < f.Size()
  {
    var dest := |f.sites|;
    var block := f.blocks[b];
    f.(sites := f.sites + [AtPhi(b, |block.phis|)],
       blocks := f.blocks[b := block.(phis := block.phis + [Phi(dest, seq(|block.preds|, _ => Value(dest)), slot)])])
  }

  function WithInst(f: Func, b: BlockId, position: nat, op: Op): Func
    requires b < f.Size() && position <= |f.blocks[b].insts|
  {
    var dest := if op.DefinesValue() then Some(|f.sites|) else None;
    var insts := f.blocks[b].insts;
    f.(sites := if op.DefinesValue() then f.sites + [AtInst] else f.sites,
       blocks := f.blocks[b := f.blocks[b].(insts := insts[..position] + [Inst(dest, op)] + insts[position..])])
  }

  lemma WritesStep(phis: seq<Phi>, k: nat)
    requires k < |phis|
    ensures forall v: ValueId :: Writes(phis[..k + 1], v) <==> Writes(phis[..k], v) || phis[k].dest == v
  {
    forall v: ValueId
      ensures Writes(phis[..k + 1], v) <==> Writes(phis[..k], v) || phis[k].dest == v
    {
      if Writes(phis[..k], v) {
        var j: nat :| j < k && phis[..k][j].dest == v;
        assert phis[..k + 1][j].dest == v;
      }
      if phis[k].dest == v {
        assert phis[..k + 1][k].dest == v;
      }
      if Writes(phis[..k + 1], v) && phis[k].dest != v {
        var j: nat :| j < k + 1 && phis[..k + 1][j].dest == v;
        assert phis[..k][j].dest == v;
      }
    }
  }

  /** The kept phis are distinct old phis not dropped, and every such phi is kept. */
  lemma {:induction false} KeptAreOld(phis: seq<Phi>, drop: set<ValueId>)
    requires DistinctDests(phis)
    ensures DistinctDests(KeptPhis(phis, drop))
    ensures forall v: ValueId :: Writes(KeptPhis(phis, drop), v) <==> Writes(phis, v) && v !in drop
    decreases |phis|
  {
    if phis != [] {
      var n := |phis| - 1;
      var rest := phis[..n];
      assert phis[..n + 1] == phis;
      KeptAreOld(rest, drop);
      WritesStep(phis, n);
      var kept := KeptPhis(rest, drop);
      assert !Writes(rest, phis[n].dest) by {
        forall j: nat | j < |rest| ensures rest[j].dest != phis[n].dest {
          assert rest[j] == phis[j];
        }
      }
      if phis[n].dest in drop {
        assert kept + [] == kept;
      } else {
        var all := kept + [phis[n]];
        assert all[..|kept|] == kept && all[..|kept| + 1] == all;
        WritesStep(all, |kept|);
        assert KeptPhis(phis, drop) == all;
        forall i: nat, j: nat | i < j < |all| ensures all[i].dest != all[j].dest {
          assert all[i] == kept[i];
          if j == |kept| {
            assert !Writes(kept, phis[n].dest);
            assert kept[i].dest != phis[n].dest;
          } else {
            assert all[j] == kept[j];
          }
        }
        forall v: ValueId
          ensures Writes(all, v) <==> Writes(phis, v) && v !in drop
        {
          assert Writes(all, v) <==> Writes(kept, v) || phis[n].dest == v;
          assert Writes(phis, v) <==> Writes(rest, v) || phis[n].dest == v;
        }
      }
    }
  }
}
