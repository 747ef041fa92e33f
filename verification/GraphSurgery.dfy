/** Splitting an edge, merging two blocks, and deleting unreachable ones: what each makes of a function,
    and that it stays wired. */
module GraphSurgery {
  import opened Graphs
  import opened IdomTree
  import opened Lists
  import opened Ssa
  import opened GraphEdits

  // ---- splitting an edge ----

  /** The terminator with its first target `from` replaced by `to`. */
  function Retarget(term: Terminator, from: BlockId, to: BlockId): Terminator {
    match term
    case Jump(target) => if target == from then Jump(to) else term
    case Branch(cond, thenBlock, elseBlock) =>
      if thenBlock == from then Branch(cond, to, elseBlock)
      else if elseBlock == from then Branch(cond, thenBlock, to)
      else term
    case Return(_) => term
  }

  function Unit(y: BlockId, x: BlockId): nat {
    if y == x then 1 else 0
  }

  lemma CountDisplay(y: BlockId, z: BlockId, x: BlockId)
    ensures Count([], x) == 0
    ensures Count([y], x) == Unit(y, x)
    ensures Count([y, z], x) == Unit(y, x) + Unit(z, x)
  {
    assert multiset([y, z])[x] == Unit(y, x) + Unit(z, x);
  }

  lemma CountUpdate(s: seq<BlockId>, i: nat, y: BlockId, x: BlockId)
    requires i < |s|
    ensures Count(s[i := y], x) == Count(s, x) - Unit(s[i], x) + Unit(y, x)
  {
    assert s[i] in multiset(s);
  }

  lemma RetargetCount(term: Terminator, from: BlockId, to: BlockId, x: BlockId)
    requires from in term.Successors()
    ensures Count(Retarget(term, from, to).Successors(), x) == Count(term.Successors(), x) - Unit(from, x) + Unit(to, x)
    ensures |Retarget(term, from, to).Successors()| == |term.Successors()|
  {
    hide Count;
    match term
    case Jump(target) =>
      CountDisplay(target, target, x);
      CountDisplay(to, to, x);
    case Branch(_, thenBlock, elseBlock) =>
      CountDisplay(thenBlock, elseBlock, x);
      CountDisplay(to, elseBlock, x);
      CountDisplay(thenBlock, to, x);
    case Return(_) =>
  }

  function SplitBlock(from: BlockId, to: BlockId): Block {
    Block([], [], Jump(to), [from])
  }

  /** `to` with the new block's entry in the place of its first one from `from`. */
  function Entered(block: Block, from: BlockId, split: BlockId): Block {
    var i := Position(block.preds, from);
    if i < |block.preds| then block.(preds := block.preds[i := split]) else block
  }

  function Rerouted(block: Block, to: BlockId, split: BlockId): Block {
    block.(term := Retarget(block.term, to, split))
  }

  /** The edge goes through a block of its own, which takes the edge's place among the predecessors of `to`. */
  function SplitOf(f: Func, from: BlockId, to: BlockId): (r: Func)
    requires from < f.Size() && to < f.Size()
    ensures r.Size() == f.Size() + 1 && r.entry == f.entry && r.sites == f.sites
    ensures forall x: nat {:trigger r.blocks[x]} :: x < r.Size() ==> r.blocks[x] == SplitAt(f, from, to, x)
  {
    var split := f.Size();
    var entered := (f.blocks + [SplitBlock(from, to)])[to := Entered(f.blocks[to], from, split)];
    f.(blocks := entered[from := Rerouted(entered[from], to, split)])
  }

  function SplitAt(f: Func, from: BlockId, to: BlockId, x: BlockId): Block
    requires from < f.Size() && to < f.Size() && x <= f.Size()
  {
    if x == f.Size() then SplitBlock(from, to)
    else
      var entered := if x == to then Entered(f.blocks[x], from, f.Size()) else f.blocks[x];
      if x == from then Rerouted(entered, to, f.Size()) else entered
  }

  lemma EnteredCount(block: Block, from: BlockId, split: BlockId, x: BlockId)
    requires from in block.preds
    ensures Count(Entered(block, from, split).preds, x) == Count(block.preds, x) - Unit(from, x) + Unit(split, x)
  {
    CountUpdate(block.preds, Position(block.preds, from), split, x);
    hide Count;
  }

  lemma EnteredPreds(block: Block, from: BlockId, split: BlockId)
    requires from in block.preds
    ensures |Entered(block, from, split).preds| == |block.preds|
    ensures forall p: BlockId :: p in Entered(block, from, split).preds ==> p in block.preds || p == split
  {
  }

  lemma EnteredPhis(block: Block, from: BlockId, split: BlockId)
    ensures var r := Entered(block, from, split);
            r.phis == block.phis && r.insts == block.insts && r.term == block.term
  {
  }

  lemma SplitWired(f: Func, from: BlockId, to: BlockId)
    requires Wired(f) && from < f.Size() && to in f.blocks[from].term.Successors()
    ensures to < f.Size() && Wired(SplitOf(f, from, to))
  {
    assert to < f.Size();
    assert Count(f.blocks[from].term.Successors(), to) == Count(f.blocks[to].preds, from);
    var f' := SplitOf(f, from, to);
    forall a: BlockId | a < f'.Size() ensures BlockWired(f', a) {
      SplitBlockWired(f, from, to, a);
    }
    forall a: BlockId, s: BlockId | a < f'.Size() && s in f'.blocks[a].term.Successors() ensures s < f'.Size() {
      SplitSuccs(f, from, to, a, s);
    }
    forall a: BlockId, x: BlockId | a < f'.Size() && x < f'.Size()
      ensures Count(f'.blocks[a].term.Successors(), x) == Count(f'.blocks[x].preds, a)
    {
      SplitCounts(f, from, to, a, x);
    }
    hide SplitOf, BlockWired, Count;
  }

  lemma SplitBlockWired(f: Func, from: BlockId, to: BlockId, a: BlockId)
    requires Wired(f) && from < f.Size() && to < f.Size() && from in f.blocks[to].preds && a <= f.Size()
    ensures BlockWired(SplitOf(f, from, to), a)
  {
    hide SplitOf, Count, Entered, Position;
    var f' := SplitOf(f, from, to);
    EnteredPreds(f.blocks[to], from, f.Size());
    EnteredPhis(f.blocks[to], from, f.Size());
    assert f'.blocks[a] == SplitAt(f, from, to, a);
    if a < f.Size() {
      assert BlockWired(f, a);
      forall k: nat | k < |f'.blocks[a].phis| ensures PhiWired(f', a, k) {
        assert PhiWired(f, a, k);
      }
      assert forall p: BlockId :: p in f'.blocks[a].preds ==> p in f.blocks[a].preds || p == f.Size();
    }
  }

  lemma CountIn(s: seq<BlockId>, x: BlockId)
    ensures Count(s, x) > 0 <==> x in s
  {
  }

  lemma SplitSuccs(f: Func, from: BlockId, to: BlockId, a: BlockId, s: BlockId)
    requires Wired(f) && from < f.Size() && to < f.Size() && to in f.blocks[from].term.Successors() && a <= f.Size()
    requires s in SplitAt(f, from, to, a).term.Successors()
    ensures s <= f.Size()
  {
    hide Count;
    if a == f.Size() {
    } else {
      RetargetCount(f.blocks[from].term, to, f.Size(), s);
      CountIn(SplitAt(f, from, to, a).term.Successors(), s);
      CountIn(f.blocks[a].term.Successors(), s);
    }
  }

  /** How often the split function's terminators lead from `a` to `x`. */
  lemma SplitOut(f: Func, from: BlockId, to: BlockId, a: BlockId, x: BlockId)
    requires Wired(f) && from < f.Size() && to < f.Size() && to in f.blocks[from].term.Successors() && a <= f.Size()
    ensures var was := if a < f.Size() then Count(f.blocks[a].term.Successors(), x) else Unit(to, x);
            Count(SplitAt(f, from, to, a).term.Successors(), x)
            == if a == from then was - Unit(to, x) + Unit(f.Size(), x) else was
    ensures a < f.Size() && x == f.Size() ==> Count(f.blocks[a].term.Successors(), x) == 0
  {
    hide Count, BlockWired;
    if a < f.Size() {
      RetargetCount(f.blocks[from].term, to, f.Size(), x);
      if x == f.Size() {
        NotThere(f.blocks[a].term.Successors(), x);
      }
    } else {
      CountDisplay(to, to, x);
    }
  }

  /** How often `x` lists `a` as a predecessor in the split function. */
  lemma SplitIn(f: Func, from: BlockId, to: BlockId, x: BlockId, a: BlockId)
    requires Wired(f) && from < f.Size() && to < f.Size() && from in f.blocks[to].preds && x <= f.Size()
    ensures var was := if x < f.Size() then Count(f.blocks[x].preds, a) else Unit(from, a);
            Count(SplitAt(f, from, to, x).preds, a)
            == if x == to then was - Unit(from, a) + Unit(f.Size(), a) else was
    ensures x < f.Size() && a == f.Size() ==> Count(f.blocks[x].preds, a) == 0
  {
    hide Count;
    if x < f.Size() {
      EnteredCount(f.blocks[to], from, f.Size(), a);
      assert BlockWired(f, x);
      if a == f.Size() {
        NotThere(f.blocks[x].preds, a);
      }
    } else {
      CountDisplay(from, from, a);
    }
  }

  lemma SplitCounts(f: Func, from: BlockId, to: BlockId, a: BlockId, x: BlockId)
    requires Wired(f) && from < f.Size() && to < f.Size() && to in f.blocks[from].term.Successors() &&
             from in f.blocks[to].preds
    requires a <= f.Size() && x <= f.Size()
    ensures Count(SplitAt(f, from, to, a).term.Successors(), x) == Count(SplitAt(f, from, to, x).preds, a)
  {
    hide Count, SplitAt;
    SplitOut(f, from, to, a, x);
    SplitIn(f, from, to, x, a);
    if a < f.Size() && x < f.Size() {
      assert Count(f.blocks[a].term.Successors(), x) == Count(f.blocks[x].preds, a);
    }
    hide Wired;
  }

  lemma NotThere(s: seq<BlockId>, x: BlockId)
    requires forall y: BlockId :: y in s ==> y < x
    ensures Count(s, x) == 0
  {
    assert x !in s;
  }

  // ---- merging two blocks ----

  function Renamed(preds: seq<BlockId>, from: BlockId, to: BlockId): (r: seq<BlockId>)
    ensures |r| == |preds| && forall i: nat :: i < |r| ==> r[i] == if preds[i] == from then to else preds[i]
  {
    seq(|preds|, i requires 0 <= i < |preds| => if preds[i] == from then to else preds[i])
  }

  /** `first` jumps to another block, `second`, whose only predecessor entry is `first` and which has no phis. */
  ghost predicate Mergeable(f: Func, first: BlockId, second: BlockId) {
    && first < f.Size() && second < f.Size() && first != second
    && f.blocks[first].term == Jump(second)
    && f.blocks[second].preds == [first] && f.blocks[second].phis == []
  }

  function MergedAt(f: Func, first: BlockId, second: BlockId, x: BlockId): Block
    requires first < f.Size() && second < f.Size() && x < f.Size()
  {
    var block := f.blocks[x];
    if x == second then block.(insts := [], term := Return(None), preds := [])
    else if x == first then
      block.(insts := block.insts + f.blocks[second].insts, term := f.blocks[second].term, preds :=
             Renamed(block.preds, second, first))
    else block.(preds := Renamed(block.preds, second, first))
  }

  /** `second` absorbed into `first`, its edges and their places taken over. */
  function MergeOf(f: Func, first: BlockId, second: BlockId): (r: Func)
    requires first < f.Size() && second < f.Size()
    ensures r.Size() == f.Size() && r.entry == f.entry && r.sites == f.sites
    ensures forall x: nat {:trigger r.blocks[x]} :: x < r.Size() ==> r.blocks[x] == MergedAt(f, first, second, x)
  {
    f.(blocks := seq(f.Size(), x requires 0 <= x < f.Size() => MergedAt(f, first, second, x)))
  }

  lemma {:induction false} RenamedCount(preds: seq<BlockId>, from: BlockId, to: BlockId, x: BlockId)
    requires from != to
    ensures Count(Renamed(preds, from, to), x) ==
            if x == from then 0 else if x == to then Count(preds, to) + Count(preds, from) else Count(preds, x)
    decreases |preds|
  {
    if preds != [] {
      var n := |preds| - 1;
      RenamedCount(preds[..n], from, to, x);
      assert preds == preds[..n] + [preds[n]];
      assert Renamed(preds, from, to) == Renamed(preds[..n], from, to) + [if preds[n] == from then to else preds[n]];
    }
  }

  lemma MergeWired(f: Func, first: BlockId, second: BlockId)
    requires Wired(f) && Mergeable(f, first, second)
    ensures Wired(MergeOf(f, first, second))
  {
    hide MergeOf, BlockWired, Count, MergedAt;
    var f' := MergeOf(f, first, second);
    forall a: BlockId | a < f'.Size() ensures BlockWired(f', a) {
      MergeBlockWired(f, first, second, a);
    }
    forall a: BlockId, s: BlockId | a < f'.Size() && s in f'.blocks[a].term.Successors() ensures s < f'.Size() {
      MergedSuccs(f, first, second, a, s);
    }
    forall a: BlockId, x: BlockId | a < f'.Size() && x < f'.Size()
      ensures Count(f'.blocks[a].term.Successors(), x) == Count(f'.blocks[x].preds, a)
    {
      MergeCounts(f, first, second, a, x);
    }
  }

  lemma MergedSuccs(f: Func, first: BlockId, second: BlockId, a: BlockId, s: BlockId)
    requires Wired(f) && Mergeable(f, first, second) && a < f.Size() &&
             s in MergedAt(f, first, second, a).term.Successors()
    ensures s < f.Size()
  {
    hide Count, BlockWired;
  }

  lemma MergeBlockWired(f: Func, first: BlockId, second: BlockId, a: BlockId)
    requires Wired(f) && Mergeable(f, first, second) && a < f.Size()
    ensures BlockWired(MergeOf(f, first, second), a)
  {
    var f' := MergeOf(f, first, second);
    assert f'.blocks[a] == MergedAt(f, first, second, a);
    assert BlockWired(f, a);
    forall k: nat | k < |f'.blocks[a].phis| ensures PhiWired(f', a, k) {
      assert PhiWired(f, a, k);
    }
    forall p: BlockId | p in f'.blocks[a].preds ensures p < f'.Size() {
      assert p in f.blocks[a].preds || p == first;
    }
    hide MergeOf;
  }

  lemma MergeOut(f: Func, first: BlockId, second: BlockId, a: BlockId, x: BlockId)
    requires Mergeable(f, first, second) && a < f.Size()
    ensures Count(MergedAt(f, first, second, a).term.Successors(), x)
            == if a == second then 0 else if a == first then Count(f.blocks[second].term.Successors(), x)
               else Count(f.blocks[a].term.Successors(), x)
  {
    hide Count;
    CountDisplay(0, 0, x);
  }

  lemma MergeIn(f: Func, first: BlockId, second: BlockId, x: BlockId, a: BlockId)
    requires Mergeable(f, first, second) && x < f.Size()
    ensures Count(MergedAt(f, first, second, x).preds, a)
            == if x == second || a == second then 0
               else if a == first then Count(f.blocks[x].preds, first) + Count(f.blocks[x].preds, second)
               else Count(f.blocks[x].preds, a)
  {
    hide Count;
    CountDisplay(0, 0, a);
    RenamedCount(f.blocks[x].preds, second, first, a);
  }

  lemma MergeCounts(f: Func, first: BlockId, second: BlockId, a: BlockId, x: BlockId)
    requires Wired(f) && Mergeable(f, first, second) && a < f.Size() && x < f.Size()
    ensures Count(MergedAt(f, first, second, a).term.Successors(), x) == Count(MergedAt(f, first, second, x).preds, a)
  {
    hide Count, MergedAt;
    MergeOut(f, first, second, a, x);
    MergeIn(f, first, second, x, a);
    assert Count(f.blocks[a].term.Successors(), x) == Count(f.blocks[x].preds, a);
    assert Count(f.blocks[first].term.Successors(), x) == Count(f.blocks[x].preds, first);
    assert Count(f.blocks[second].term.Successors(), x) == Count(f.blocks[x].preds, second);
    CountDisplay(first, first, a);
    CountDisplay(first, first, second);
    CountDisplay(second, second, x);
    hide Wired;
  }

  // ---- deleting unreachable blocks ----

  /** The list of kept blocks, in their old order. */
  ghost predicate KeptInOrder(f: Func, order: seq<BlockId>, keep: seq<bool>) {
    && |keep| == f.Size()
    && (forall i: nat, j: nat :: i < j < |order| ==> order[i] < order[j])
    && (forall b: BlockId :: b in order <==> b < f.Size() && keep[b])
  }

  function NewIndex(order: seq<BlockId>, b: BlockId): (i: nat)
    ensures i <= |order| && (i < |order| ==> order[i] == b) && (i < |order| <==> b in order)
  {
    Position(order, b)
  }

  function Remap(order: seq<BlockId>, bs: seq<BlockId>): (r: seq<BlockId>)
    ensures |r| == |bs| && forall i: nat :: i < |r| ==> r[i] == NewIndex(order, bs[i])
  {
    seq(|bs|, i requires 0 <= i < |bs| => NewIndex(order, bs[i]))
  }

  function RemapTerm(order: seq<BlockId>, term: Terminator): Terminator {
    match term
    case Jump(target) => Jump(NewIndex(order, target))
    case Branch(cond, thenBlock, elseBlock) => Branch(cond, NewIndex(order, thenBlock), NewIndex(order, elseBlock))
    case Return(_) => term
  }

  function RemapSite(order: seq<BlockId>, site: Site): Site {
    if !site.AtPhi? then site
    else if site.block in order then AtPhi(NewIndex(order, site.block), site.position)
    else Removed
  }

  function RemapSites(order: seq<BlockId>, sites: seq<Site>): (r: seq<Site>)
    ensures |r| == |sites| && forall v: nat :: v < |r| ==> r[v] == RemapSite(order, sites[v])
  {
    seq(|sites|, v requires 0 <= v < |sites| => RemapSite(order, sites[v]))
  }

  predicate Kept(keep: seq<bool>, b: BlockId) {
    b < |keep| && keep[b]
  }

  /** The block without the edges from blocks that are deleted, looking at positions below `n`, from the last. */
  function DropUnreached(block: Block, keep: seq<bool>, n: nat): Block
    requires n <= |block.preds|
    decreases n
  {
    if n == 0 then block
    else if Kept(keep, block.preds[n - 1]) then DropUnreached(block, keep, n - 1)
    else
      var dropped := DropColumn(block, n - 1);
      DropUnreached(dropped, keep, n - 1)
  }

  function Survivors(columns: seq<(BlockId, seq<Operand>)>, keep: seq<bool>): seq<(BlockId, seq<Operand>)>
    decreases |columns|
  {
    if columns == [] then []
    else
      var last := columns[|columns| - 1];
      Survivors(columns[..|columns| - 1], keep) + (if Kept(keep, last.0) then [last] else [])
  }

  ghost predicate Arity(block: Block) {
    forall k: nat :: k < |block.phis| ==> |block.phis[k].args| == |block.preds|
  }

  lemma DropShape(block: Block, i: nat)
    requires i < |block.preds| && Arity(block)
    ensures var r := DropColumn(block, i);
            && Arity(r) && r.insts == block.insts && r.term == block.term && |r.phis| == |block.phis|
            && |r.preds| == |block.preds| - 1
            && forall k: nat :: k < |r.phis| ==>
              r.phis[k].dest == block.phis[k].dest && r.phis[k].slot == block.phis[k].slot
  {
  }

  lemma {:induction false} DropUnreachedShape(block: Block, keep: seq<bool>, n: nat)
    requires n <= |block.preds| && Arity(block)
    ensures var r := DropUnreached(block, keep, n);
            && Arity(r) && r.insts == block.insts && r.term == block.term && |r.phis| == |block.phis|
            && forall k: nat :: k < |r.phis| ==>
              r.phis[k].dest == block.phis[k].dest && r.phis[k].slot == block.phis[k].slot
    decreases n
  {
    hide Arity, DropColumn;
    if n > 0 {
      if Kept(keep, block.preds[n - 1]) {
        DropUnreachedShape(block, keep, n - 1);
      } else {
        DropShape(block, n - 1);
        DropUnreachedShape(DropColumn(block, n - 1), keep, n - 1);
      }
    }
  }

  lemma SurvivorsSnoc(columns: seq<(BlockId, seq<Operand>)>, last: (BlockId, seq<Operand>), keep: seq<bool>)
    ensures Survivors(columns + [last], keep) == Survivors(columns, keep) + (if Kept(keep, last.0) then [last] else [])
  {
    assert (columns + [last])[..|columns|] == columns;
  }

  /** Dropping leaves exactly the columns of the kept predecessors, in order. */
  lemma {:induction false} DropColumns(block: Block, keep: seq<bool>, n: nat)
    requires n <= |block.preds| && Arity(block)
    ensures Columns(DropUnreached(block, keep, n)) == Survivors(Columns(block)[..n], keep) + Columns(block)[n..]
    decreases n
  {
    hide Columns, Survivors, DropColumn;
    var columns := Columns(block);
    if n == 0 {
      assert columns[..0] == [];
      SurvivorsNone(keep);
    } else {
      var i := n - 1;
      assert columns[..n] == columns[..i] + [columns[i]];
      SurvivorsSnoc(columns[..i], columns[i], keep);
      if Kept(keep, block.preds[i]) {
        DropColumns(block, keep, i);
        assert columns[i..] == [columns[i]] + columns[n..];
      } else {
        var dropped := DropColumn(block, i);
        DropShape(block, i);
        ColumnsDropped(block, i);
        hide Arity;
        DropColumns(dropped, keep, i);
        assert Columns(dropped)[..i] == columns[..i] && Columns(dropped)[i..] == columns[n..];
      }
    }
  }

  lemma SurvivorsNone(keep: seq<bool>)
    ensures Survivors([], keep) == []
  {
  }

  lemma ColumnsDropped(block: Block, i: nat)
    requires i < |block.preds| && Arity(block)
    ensures Columns(DropColumn(block, i)) == Columns(block)[..i] + Columns(block)[i + 1..]
  {
    ColumnsDrop(block, i);
  }

  function RetainedBlock(block: Block, order: seq<BlockId>, keep: seq<bool>): Block {
    var dropped := DropUnreached(block, keep, |block.preds|);
    dropped.(preds := Remap(order, dropped.preds), term := RemapTerm(order, dropped.term))
  }

  /** Block `i` of what is kept. */
  function RetainedAt(f: Func, order: seq<BlockId>, keep: seq<bool>, i: nat): Block
    requires i < |order|
  {
    if order[i] < f.Size() then RetainedBlock(f.blocks[order[i]], order, keep) else Block([], [], Return(None), [])
  }

  /** The kept blocks, renumbered, without the edges from the others. */
  function RetainOf(f: Func, order: seq<BlockId>, keep: seq<bool>): (r: Func)
    ensures r.Size() == |order| && r.entry == NewIndex(order, f.entry) && r.sites == RemapSites(order, f.sites)
    ensures forall i: nat {:trigger r.blocks[i]} :: i < |order| ==> r.blocks[i] == RetainedAt(f, order, keep, i)
  {
    Func(seq(|order|, i requires 0 <= i < |order| => RetainedAt(f, order, keep, i)),
         RemapSites(order, f.sites), NewIndex(order, f.entry))
  }

  /** Nothing kept leads to anything that is not. */
  ghost predicate KeepClosed(f: Func, keep: seq<bool>) {
    && Kept(keep, f.entry)
    && forall b: BlockId, s: BlockId :: b < f.Size() && Kept(keep, b) && s in f.blocks[b].term.Successors() ==>
      Kept(keep, s)
  }

  lemma NewIndexOf(order: seq<BlockId>, i: nat)
    requires i < |order| && forall i: nat, j: nat :: i < j < |order| ==> order[i] < order[j]
    ensures NewIndex(order, order[i]) == i
  {
    var j := NewIndex(order, order[i]);
    assert order[i] in order;
  }

  lemma {:induction false} RemapCount(order: seq<BlockId>, bs: seq<BlockId>, i: nat)
    requires i < |order| && (forall i: nat, j: nat :: i < j < |order| ==> order[i] < order[j])
    requires forall b: BlockId :: b in bs ==> b in order
    ensures Count(Remap(order, bs), i) == Count(bs, order[i])
    decreases |bs|
  {
    if bs != [] {
      var n := |bs| - 1;
      assert bs == bs[..n] + [bs[n]];
      assert bs[n] in bs;
      RemapCount(order, bs[..n], i);
      assert Remap(order, bs) == Remap(order, bs[..n]) + [NewIndex(order, bs[n])];
      NewIndexOf(order, i);
    }
  }

  function Preds(columns: seq<(BlockId, seq<Operand>)>): (r: seq<BlockId>)
    ensures |r| == |columns| && forall i: nat :: i < |r| ==> r[i] == columns[i].0
  {
    seq(|columns|, i requires 0 <= i < |columns| => columns[i].0)
  }

  lemma {:induction false} SurvivorCount(columns: seq<(BlockId, seq<Operand>)>, keep: seq<bool>, b: BlockId)
    ensures Count(Preds(Survivors(columns, keep)), b) == if Kept(keep, b) then Count(Preds(columns), b) else 0
    ensures forall p: BlockId :: p in Preds(Survivors(columns, keep)) ==> Kept(keep, p) && p in Preds(columns)
    decreases |columns|
  {
    if columns != [] {
      var n := |columns| - 1;
      SurvivorCount(columns[..n], keep, b);
      assert Preds(columns) == Preds(columns[..n]) + [columns[n].0];
      var rest := Survivors(columns[..n], keep);
      if Kept(keep, columns[n].0) {
        assert Preds(rest + [columns[n]]) == Preds(rest) + [columns[n].0];
      } else {
        assert rest + [] == rest;
      }
    }
  }

  /** The predecessors a block keeps. */
  lemma RetainedPreds(f: Func, order: seq<BlockId>, keep: seq<bool>, b: BlockId)
    requires Wired(f) && b < f.Size()
    ensures var dropped := DropUnreached(f.blocks[b], keep, |f.blocks[b].preds|);
            && Columns(dropped) == Survivors(Columns(f.blocks[b]), keep)
            && (forall a: BlockId ::
                  Count(dropped.preds, a) == if Kept(keep, a) then Count(f.blocks[b].preds, a) else 0)
            && (forall p: BlockId :: p in dropped.preds ==> Kept(keep, p) && p in f.blocks[b].preds)
            && dropped.term == f.blocks[b].term && dropped.insts == f.blocks[b].insts && Arity(dropped)
  {
    var block := f.blocks[b];
    AritiesAt(f, b);
    DropColumns(block, keep, |block.preds|);
    DropUnreachedShape(block, keep, |block.preds|);
    var columns := Columns(block);
    assert columns[..|block.preds|] == columns && columns[|block.preds|..] == [];
    var dropped := DropUnreached(block, keep, |block.preds|);
    assert Survivors(columns, keep) + [] == Survivors(columns, keep);
    assert dropped.preds == Preds(Survivors(columns, keep));
    assert block.preds == Preds(columns);
    forall a: BlockId ensures Count(dropped.preds, a) == if Kept(keep, a) then Count(block.preds, a) else 0 {
      SurvivorCount(columns, keep, a);
    }
    SurvivorCount(columns, keep, 0);
    hide Wired, DropUnreached, Columns, Survivors, Preds, Count;
  }

  lemma RemapSuccessors(order: seq<BlockId>, term: Terminator)
    ensures RemapTerm(order, term).Successors() == Remap(order, term.Successors())
  {
  }

  lemma RetainWired(f: Func, order: seq<BlockId>, keep: seq<bool>)
    requires Wired(f) && KeptInOrder(f, order, keep) && KeepClosed(f, keep)
    ensures Wired(RetainOf(f, order, keep))
  {
    var f' := RetainOf(f, order, keep);
    assert f.entry in order;
    forall a: BlockId | a < f'.Size() ensures BlockWired(f', a) {
      RetainBlockWired(f, order, keep, a);
    }
    forall a: BlockId, s: BlockId | a < f'.Size() && s in f'.blocks[a].term.Successors() ensures s < f'.Size() {
      RetainSuccs(f, order, keep, a, s);
    }
    forall a: BlockId, x: BlockId | a < f'.Size() && x < f'.Size()
      ensures Count(f'.blocks[a].term.Successors(), x) == Count(f'.blocks[x].preds, a)
    {
      RetainCounts(f, order, keep, a, x);
    }
    hide RetainOf, BlockWired, Count, KeptInOrder, KeepClosed;
  }

  /** Where the kept blocks lead. */
  lemma SuccsKept(f: Func, order: seq<BlockId>, keep: seq<bool>, b: BlockId)
    requires Wired(f) && KeptInOrder(f, order, keep) && KeepClosed(f, keep) && b in order
    ensures forall s: BlockId :: s in f.blocks[b].term.Successors() ==> s in order
  {
    hide Count, BlockWired;
    assert Kept(keep, b);
    forall s: BlockId | s in f.blocks[b].term.Successors() ensures s in order {
      assert Kept(keep, s);
    }
  }

  lemma PredsKept(f: Func, order: seq<BlockId>, keep: seq<bool>, preds: seq<BlockId>)
    requires KeptInOrder(f, order, keep) && forall p: BlockId :: p in preds ==> Kept(keep, p)
    ensures forall p: BlockId :: p in preds ==> p in order
  {
    forall p: BlockId | p in preds ensures p in order {
      assert Kept(keep, p);
    }
  }

  lemma RemapIn(order: seq<BlockId>, bs: seq<BlockId>, s: BlockId)
    requires s in Remap(order, bs) && forall b: BlockId :: b in bs ==> b in order
    ensures s < |order|
  {
    var i: nat :| i < |bs| && Remap(order, bs)[i] == s;
    assert bs[i] in bs;
  }

  lemma RetainSuccs(f: Func, order: seq<BlockId>, keep: seq<bool>, a: BlockId, s: BlockId)
    requires Wired(f) && KeptInOrder(f, order, keep) && KeepClosed(f, keep) && a < |order|
    requires s in RetainOf(f, order, keep).blocks[a].term.Successors()
    ensures s < |order|
  {
    hide Wired, KeptInOrder, KeepClosed, DropUnreached, Remap, RemapTerm, NewIndex;
    InOrder(f, order, keep, a);
    RetainedPreds(f, order, keep, order[a]);
    RemapSuccessors(order, f.blocks[order[a]].term);
    SuccsKept(f, order, keep, order[a]);
    RemapIn(order, f.blocks[order[a]].term.Successors(), s);
  }

  lemma InOrder(f: Func, order: seq<BlockId>, keep: seq<bool>, i: nat)
    requires KeptInOrder(f, order, keep) && i < |order|
    ensures order[i] in order && order[i] < f.Size() && Kept(keep, order[i])
    ensures forall i: nat, j: nat :: i < j < |order| ==> order[i] < order[j]
  {
    assert order[i] in order;
  }

  lemma RetainCounts(f: Func, order: seq<BlockId>, keep: seq<bool>, a: BlockId, x: BlockId)
    requires Wired(f) && KeptInOrder(f, order, keep) && KeepClosed(f, keep) && a < |order| && x < |order|
    ensures var f' := RetainOf(f, order, keep);
            Count(f'.blocks[a].term.Successors(), x) == Count(f'.blocks[x].preds, a)
  {
    InOrder(f, order, keep, a);
    InOrder(f, order, keep, x);
    var b, y := order[a], order[x];
    assert Count(f.blocks[b].term.Successors(), y) == Count(f.blocks[y].preds, b);
    hide Wired, KeptInOrder, KeepClosed, DropUnreached, Count, Remap, RemapTerm, NewIndex;
    RetainedPreds(f, order, keep, b);
    RetainedPreds(f, order, keep, y);
    RemapSuccessors(order, f.blocks[b].term);
    var dropped := DropUnreached(f.blocks[y], keep, |f.blocks[y].preds|);
    SuccsKept(f, order, keep, b);
    PredsKept(f, order, keep, dropped.preds);
    RemapCount(order, f.blocks[b].term.Successors(), x);
    RemapCount(order, dropped.preds, a);
  }

  /** The phis of a kept block: as many arguments as predecessors, and the old results. */
  lemma RetainedPhis(f: Func, order: seq<BlockId>, keep: seq<bool>, b: BlockId)
    requires Wired(f) && b < f.Size()
    ensures var dropped := DropUnreached(f.blocks[b], keep, |f.blocks[b].preds|);
            && Arity(dropped) && |dropped.phis| == |f.blocks[b].phis|
            && forall k: nat :: k < |dropped.phis| ==>
                 && dropped.phis[k].dest == f.blocks[b].phis[k].dest
                 && dropped.phis[k].dest < |f.sites| && f.sites[dropped.phis[k].dest] == AtPhi(b, k)
  {
    var block := f.blocks[b];
    AritiesAt(f, b);
    hide DropUnreached, Columns, Survivors;
    assert BlockWired(f, b);
    DropColumns(block, keep, |block.preds|);
    DropUnreachedShape(block, keep, |block.preds|);
    var dropped := DropUnreached(block, keep, |block.preds|);
    forall k: nat | k < |dropped.phis|
      ensures dropped.phis[k].dest < |f.sites| && f.sites[dropped.phis[k].dest] == AtPhi(b, k)
    {
      assert PhiWired(f, b, k);
    }
    hide Wired;
  }

  lemma RetainBlockWired(f: Func, order: seq<BlockId>, keep: seq<bool>, a: BlockId)
    requires Wired(f) && KeptInOrder(f, order, keep) && a < |order|
    ensures BlockWired(RetainOf(f, order, keep), a)
  {
    hide Wired, DropUnreached, Columns, Survivors, KeptInOrder, Count, Position, NewIndex, RemapTerm;
    var f' := RetainOf(f, order, keep);
    InOrder(f, order, keep, a);
    var b := order[a];
    RetainedPreds(f, order, keep, b);
    RetainedPhis(f, order, keep, b);
    var dropped := DropUnreached(f.blocks[b], keep, |f.blocks[b].preds|);
    PredsKept(f, order, keep, dropped.preds);
    NewIndexOf(order, a);
    forall k: nat | k < |f'.blocks[a].phis| ensures PhiWired(f', a, k) {
    }
    forall p: BlockId | p in f'.blocks[a].preds ensures p < f'.Size() {
      RemapIn(order, dropped.preds, p);
    }
  }

  // ---- recorded sites ----

  ghost predicate SameResults(a: seq<Phi>, b: seq<Phi>) {
    |a| == |b| && forall k: nat :: k < |a| ==> a[k].dest == b[k].dest
  }

  /** Edits that leave every block's phis in place leave the sites exact. */
  lemma ResultsKeepSites(f: Func, f': Func)
    requires SitesExact(f) && f'.sites == f.sites && f.Size() <= f'.Size()
    requires forall b: BlockId :: b < f.Size() ==> SameResults(f.blocks[b].phis, f'.blocks[b].phis)
    ensures SitesExact(f')
  {
    forall v: ValueId | v < |f'.sites| && f'.sites[v].AtPhi?
      ensures SiteExact(f', v, f'.sites[v].block, f'.sites[v].position)
    {
      assert SiteExact(f, v, f.sites[v].block, f.sites[v].position);
    }
  }

  lemma SplitWellFormed(f: Func, from: BlockId, to: BlockId)
    requires WellFormed(f) && from < f.Size() && to in f.blocks[from].term.Successors()
    ensures to < f.Size() && WellFormed(SplitOf(f, from, to))
  {
    SplitWired(f, from, to);
    hide Wired, SitesExact;
    forall b: BlockId | b < f.Size() ensures SameResults(f.blocks[b].phis, SplitOf(f, from, to).blocks[b].phis) {
      EnteredPhis(f.blocks[b], from, f.Size());
    }
    ResultsKeepSites(f, SplitOf(f, from, to));
  }

  lemma MergeWellFormed(f: Func, first: BlockId, second: BlockId)
    requires WellFormed(f) && Mergeable(f, first, second)
    ensures WellFormed(MergeOf(f, first, second))
  {
    MergeWired(f, first, second);
    hide Wired, SitesExact;
    forall b: BlockId | b < f.Size() ensures SameResults(f.blocks[b].phis, MergeOf(f, first, second).blocks[b].phis) {
    }
    ResultsKeepSites(f, MergeOf(f, first, second));
  }

  lemma RetainWellFormed(f: Func, order: seq<BlockId>, keep: seq<bool>)
    requires WellFormed(f) && KeptInOrder(f, order, keep) && KeepClosed(f, keep)
    ensures WellFormed(RetainOf(f, order, keep))
  {
    RetainWired(f, order, keep);
    var f' := RetainOf(f, order, keep);
    hide DropUnreached, KeepClosed;
    forall v: ValueId | v < |f'.sites| && f'.sites[v].AtPhi?
      ensures SiteExact(f', v, f'.sites[v].block, f'.sites[v].position)
    {
      var site := f.sites[v];
      assert SiteExact(f, v, site.block, site.position);
      RetainedPhis(f, order, keep, site.block);
    }
    hide Wired;
  }

  // ---- the graph that is left ----

  lemma RetainedEdge(f: Func, order: seq<BlockId>, keep: seq<bool>, i: nat, s: BlockId)
    requires Wired(f) && KeptInOrder(f, order, keep) && KeepClosed(f, keep) && i < |order|
    requires order[i] < f.Size() && s in f.blocks[order[i]].term.Successors()
    ensures s in order && RetainOf(f, order, keep).Adjacency().Edge(i, NewIndex(order, s))
  {
    hide Wired, KeptInOrder, KeepClosed, DropUnreached, NewIndex, RemapTerm;
    InOrder(f, order, keep, i);
    RetainedPreds(f, order, keep, order[i]);
    RemapSuccessors(order, f.blocks[order[i]].term);
    SuccsKept(f, order, keep, order[i]);
    var succs := f.blocks[order[i]].term.Successors();
    var k := Position(succs, s);
    assert Remap(order, succs)[k] == NewIndex(order, s);
  }

  /** What the entry reached it still reaches, under its new number. */
  lemma {:induction false} RetainedPath(f: Func, order: seq<BlockId>, keep: seq<bool>, path: seq<BlockId>, b: BlockId)
    requires Wired(f) && KeptInOrder(f, order, keep) && KeepClosed(f, keep) && f.Adjacency().PathTo(path, b)
    ensures b in order && RetainOf(f, order, keep).Adjacency().Reachable(NewIndex(order, b))
    decreases |path|
  {
    var f' := RetainOf(f, order, keep);
    if |path| == 1 {
      assert f.entry in order;
      assert f'.Adjacency().PathTo([NewIndex(order, b)], NewIndex(order, b));
    } else {
      var k := |path| - 2;
      PathPrefix(f.Adjacency(), path, b, k);
      RetainedPath(f, order, keep, path[..k + 1], path[k]);
      assert f.Adjacency().Edge(path[k], path[k + 1]);
      hide Wired, KeptInOrder, KeepClosed, Graph.Reachable, RetainOf;
      var i := NewIndex(order, path[k]);
      RetainedEdge(f, order, keep, i, b);
      ReachableStep(f'.Adjacency(), i, NewIndex(order, b));
    }
  }

  /** When exactly the reachable blocks are kept, every block that is left is reachable. */
  lemma RetainedAllReachable(f: Func, order: seq<BlockId>, keep: seq<bool>)
    requires Wired(f) && KeptInOrder(f, order, keep) && KeepClosed(f, keep)
    requires forall b: BlockId {:trigger Kept(keep, b)} :: Kept(keep, b) ==> f.Adjacency().Reachable(b)
    ensures RetainOf(f, order, keep).Adjacency().AllReachable()
  {
    var g' := RetainOf(f, order, keep).Adjacency();
    forall i: nat | i < |order| ensures g'.Reachable(i) {
      InOrder(f, order, keep, i);
      assert f.Adjacency().Reachable(order[i]);
      var path :| f.Adjacency().PathTo(path, order[i]);
      RetainedPath(f, order, keep, path, order[i]);
      NewIndexOf(order, i);
    }
    hide RetainOf;
  }
}
