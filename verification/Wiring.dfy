/** The bookkeeping of `set_terminator` and `merge_blocks`: matching old edges against new ones. */
module Wiring {
  import opened IdomTree
  import opened Lists
  import opened Ssa
  import opened GraphEdits
  import opened GraphSurgery

  /** What a change of `from`'s edges may do to a block. */
  ghost predicate EdgesMoved(before: Block, after: Block, from: BlockId, term: Terminator) {
    KeepsEdges(before, after, from) && after.insts == before.insts && after.term == term
  }

  ghost predicate AllMoved(before: seq<Block>, after: seq<Block>, from: BlockId) {
    |after| == |before| && forall b: BlockId {:trigger after[b]} :: b < |after| ==>
      EdgesMoved(before[b], after[b], from, before[b].term)
  }

  lemma AllStill(blocks: seq<Block>, from: BlockId)
    ensures AllMoved(blocks, blocks, from)
  {
    forall b: BlockId | b < |blocks| ensures EdgesMoved(blocks[b], blocks[b], from, blocks[b].term) {
      KeepsItself(blocks[b], from);
    }
  }

  lemma MovedInTurn(a: Block, b: Block, c: Block, from: BlockId, term: Terminator)
    requires EdgesMoved(a, b, from, term) && KeepsEdges(b, c, from) && c.insts == b.insts && c.term == b.term
    ensures EdgesMoved(a, c, from, term)
  {
    KeepsInTurn(a, b, c, from);
  }

  lemma OneMoves(before: seq<Block>, after: seq<Block>, from: BlockId, to: BlockId, block: Block)
    requires AllMoved(before, after, from) && to < |after|
    requires KeepsEdges(after[to], block, from) && block.insts == after[to].insts && block.term == after[to].term
    ensures AllMoved(before, after[to := block], from)
  {
    hide EdgesMoved, KeepsEdges;
    assert EdgesMoved(before[to], after[to], from, before[to].term);
    MovedInTurn(before[to], after[to], block, from, before[to].term);
  }

  lemma DropMoves(before: seq<Block>, after: seq<Block>, from: BlockId, to: BlockId)
    requires AllMoved(before, after, from) && to < |after| && Arity(after[to]) && from in after[to].preds
    ensures AllMoved(before, after[to := DropColumn(after[to], Position(after[to].preds, from))], from)
  {
    hide EdgesMoved, KeepsEdges, Arity, DropColumn;
    var i := Position(after[to].preds, from);
    DropShape(after[to], i);
    DropKept(after[to], i);
    OneMoves(before, after, from, to, DropColumn(after[to], i));
  }

  lemma DropKept(block: Block, i: nat)
    requires Arity(block) && i < |block.preds|
    ensures KeepsEdges(block, DropColumn(block, i), block.preds[i])
  {
    DropKeeps(block, i);
  }

  lemma AddMoves(before: seq<Block>, after: seq<Block>, from: BlockId, to: BlockId)
    requires AllMoved(before, after, from) && to < |after| && after[to].phis == []
    ensures AllMoved(before, after[to := WithPred(after[to], from)], from)
  {
    hide EdgesMoved, KeepsEdges;
    AddKeeps(after[to], from);
    OneMoves(before, after, from, to, WithPred(after[to], from));
  }

  lemma TermMoves(before: seq<Block>, after: seq<Block>, from: BlockId, term: Terminator)
    requires AllMoved(before, after, from) && from < |after|
    ensures var after' := after[from := after[from].(term := term)];
            forall b: BlockId :: b < |after| ==>
              EdgesMoved(before[b], after'[b], from, if b == from then term else before[b].term)
  {
    var after' := after[from := after[from].(term := term)];
    hide KeepsEdges;
    forall b: BlockId | b < |after|
      ensures EdgesMoved(before[b], after'[b], from, if b == from then term else before[b].term)
    {
      assert EdgesMoved(before[b], after[b], from, before[b].term);
      SameEdges(before[b], after[b], from, after'[b]);
    }
  }

  lemma SameEdges(before: Block, after: Block, from: BlockId, after': Block)
    requires KeepsEdges(before, after, from) && after'.phis == after.phis && after'.preds == after.preds
    ensures KeepsEdges(before, after', from)
  {
    assert Columns(after') == Columns(after);
  }

  lemma WiredArity(f: Func, b: BlockId, out: seq<BlockId>, to: BlockId)
    requires WiredAs(f, b, out) && to < f.Size()
    ensures Arity(f.blocks[to])
  {
    AritiesAt(f, to);
  }

  // ---- matching the old successors against the new ----

  /** After `i` old successors: the new ones are those matched and those left in `added`, the edges are those
      matched and those still to look at, and what is left in `added` was matched as often as it was seen. */
  ghost predicate Matched(was: seq<BlockId>, next: seq<BlockId>, i: nat, added: seq<BlockId>, out: seq<BlockId>,
                          kept: seq<BlockId>) {
    && i <= |was|
    && (forall x: BlockId :: Count(next, x) == Count(kept, x) + Count(added, x))
    && (forall x: BlockId :: Count(out, x) == Count(kept, x) + Count(was[i..], x))
    && (forall x: BlockId :: Count(added, x) > 0 ==> Count(out, x) == Count(was, x))
  }

  lemma MatchStarts(was: seq<BlockId>, next: seq<BlockId>)
    ensures Matched(was, next, 0, next, was, [])
  {
    assert was[0..] == was;
  }

  lemma CountSplit(was: seq<BlockId>, i: nat, x: BlockId)
    requires i < |was|
    ensures Count(was[i..], x) == Unit(was[i], x) + Count(was[i + 1..], x)
  {
    assert was[i..] == [was[i]] + was[i + 1..];
  }

  lemma CountSnoc(s: seq<BlockId>, y: BlockId, x: BlockId)
    ensures Count(s + [y], x) == Count(s, x) + Unit(y, x)
  {
  }

  lemma CountWithout(s: seq<BlockId>, i: nat, x: BlockId)
    requires i < |s|
    ensures Count(Without(s, i), x) == Count(s, x) - Unit(s[i], x)
  {
    assert s == s[..i] + [s[i]] + s[i + 1..];
    assert multiset(s) == multiset(s[..i]) + multiset{s[i]} + multiset(s[i + 1..]);
  }

  lemma MatchOne(was: seq<BlockId>, next: seq<BlockId>, i: nat, added: seq<BlockId>, out: seq<BlockId>,
                 kept: seq<BlockId>, position: nat)
    returns (kept': seq<BlockId>)
    requires Matched(was, next, i, added, out, kept) && i < |was| && position < |added| && added[position] == was[i]
    ensures Matched(was, next, i + 1, Without(added, position), out, kept')
  {
    hide Count;
    kept' := kept + [was[i]];
    forall x: BlockId
      ensures Count(kept', x) == Count(kept, x) + Unit(was[i], x) &&
              Count(was[i..], x) == Unit(was[i], x) + Count(was[i + 1..], x)
      ensures Count(Without(added, position), x) == Count(added, x) - Unit(was[i], x)
    {
      CountSplit(was, i, x);
      CountSnoc(kept, was[i], x);
      CountWithout(added, position, x);
    }
  }

  lemma MissOne(was: seq<BlockId>, next: seq<BlockId>, i: nat, added: seq<BlockId>, out: seq<BlockId>,
                kept: seq<BlockId>)
    returns (out': seq<BlockId>)
    requires Matched(was, next, i, added, out, kept) && i < |was| && was[i] !in added
    ensures was[i] in out && multiset(out') == multiset(out) - multiset{was[i]}
    ensures Matched(was, next, i + 1, added, out', kept)
  {
    CountSplit(was, i, was[i]);
    CountIn(out, was[i]);
    CountIn(added, was[i]);
    var j := Position(out, was[i]);
    out' := Without(out, j);
    WithoutMultiset(out, j);
    hide Count;
    forall x: BlockId
      ensures Count(was[i..], x) == Unit(was[i], x) + Count(was[i + 1..], x)
      ensures Count(out', x) == Count(out, x) - Unit(was[i], x)
    {
      CountSplit(was, i, x);
      CountWithout(out, j, x);
    }
  }

  lemma MatchEnds(was: seq<BlockId>, next: seq<BlockId>, added: seq<BlockId>, out: seq<BlockId>, kept: seq<BlockId>)
    requires Matched(was, next, |was|, added, out, kept)
    ensures multiset(out) + multiset(added) == multiset(next)
    ensures forall s: BlockId :: s in added ==> Count(next, s) > Count(was, s)
  {
    assert was[|was|..] == [];
    forall x: BlockId ensures (multiset(out) + multiset(added))[x] == multiset(next)[x] {
      assert Count(next, x) == Count(kept, x) + Count(added, x);
      assert Count(out, x) == Count(kept, x) + Count([], x);
    }
    forall s: BlockId | s in added ensures Count(next, s) > Count(was, s) {
      CountIn(added, s);
      assert Count(out, s) == Count(was, s);
      assert Count(next, s) == Count(kept, s) + Count(added, s);
      assert Count(out, s) == Count(kept, s) + Count([], s);
    }
  }

  lemma NewTargets(before: seq<Block>, after: seq<Block>, was: seq<BlockId>, next: seq<BlockId>, from: BlockId,
                   added: seq<BlockId>)
    requires AllMoved(before, after, from)
    requires forall s: BlockId :: s in added ==> Count(next, s) > Count(was, s)
    requires forall s: BlockId :: s in next ==> s < |before|
    requires forall s: BlockId :: s < |before| && Count(next, s) > Count(was, s) ==> before[s].phis == []
    ensures forall s: BlockId :: s in added ==> s < |after| && after[s].phis == []
  {
    forall s: BlockId | s in added ensures s < |after| && after[s].phis == [] {
      CountIn(next, s);
      assert EdgesMoved(before[s], after[s], from, before[s].term);
    }
  }

  method RemoveArgs(phis: seq<Phi>, position: nat) returns (r: seq<Phi>)
    requires forall k: nat :: k < |phis| ==> position < |phis[k].args|
    ensures r == DropArgs(phis, position)
  {
    r := phis;
    for k := 0 to |phis|
      invariant |r| == |phis|
      invariant forall j: nat :: j < |phis| ==>
        r[j] == if j < k then phis[j].(args := Without(phis[j].args, position)) else phis[j]
    {
      r := r[k := phis[k].(args := Without(phis[k].args, position))];
    }
  }

  /** The first entry `from` of `preds` replaced by `split`. */
  method EnterFrom(preds: seq<BlockId>, from: BlockId, split: BlockId) returns (r: seq<BlockId>)
    requires from in preds
    ensures r == preds[Position(preds, from) := split]
  {
    r := preds;
    var i := 0;
    while i < |preds|
      invariant i <= |preds| && r == preds && forall k :: 0 <= k < i ==> preds[k] != from
    {
      if preds[i] == from {
        r := r[i := split];
        break;
      }
      i := i + 1;
    }
  }

  // ---- inheriting the absorbed block's edges ----

  method ReplacePreds(preds: seq<BlockId>, from: BlockId, to: BlockId) returns (r: seq<BlockId>)
    ensures r == Renamed(preds, from, to)
  {
    r := preds;
    for i := 0 to |preds|
      invariant |r| == |preds|
      invariant forall k: nat :: k < |preds| ==> r[k] == if k < i && preds[k] == from then to else preds[k]
    {
      if preds[i] == from {
        r := r[i := to];
      }
    }
  }

  lemma RenameAgain(preds: seq<BlockId>, from: BlockId, to: BlockId)
    requires from != to
    ensures Renamed(Renamed(preds, from, to), from, to) == Renamed(preds, from, to)
  {
  }

  lemma InheritedKnown(f: Func, b: BlockId, n: nat)
    requires Wired(f) && b < f.Size() && n < |f.blocks[b].term.Successors()|
    ensures f.blocks[b].term.Successors()[n] < f.Size()
  {
    assert f.blocks[b].term.Successors()[n] in f.blocks[b].term.Successors();
  }

  /** A block not entered from `second` has nothing to rename. */
  lemma NotEntered(f: Func, second: BlockId, first: BlockId, x: BlockId)
    requires Wired(f) && second < f.Size() && x < f.Size() && x !in f.blocks[second].term.Successors()
    ensures Renamed(f.blocks[x].preds, second, first) == f.blocks[x].preds
  {
    assert Count(f.blocks[second].term.Successors(), x) == Count(f.blocks[x].preds, second);
    CountIn(f.blocks[second].term.Successors(), x);
    CountIn(f.blocks[x].preds, second);
    hide Count;
    forall i: nat | i < |f.blocks[x].preds| ensures f.blocks[x].preds[i] != second {
      assert f.blocks[x].preds[i] in f.blocks[x].preds;
    }
  }

  // ---- edits that leave the edges alone ----

  ghost predicate SameShape(a: Block, b: Block) {
    && a.preds == b.preds && a.term.Successors() == b.term.Successors() && |a.phis| == |b.phis|
    && forall k: nat :: k < |a.phis| ==> a.phis[k].dest == b.phis[k].dest && |a.phis[k].args| == |b.phis[k].args|
  }

  ghost predicate OneWired(phi: Phi, sites: seq<Site>, b: BlockId, k: nat, arity: nat) {
    |phi.args| == arity && phi.dest < |sites| && sites[phi.dest] == AtPhi(b, k)
  }

  ghost predicate AllWired(phis: seq<Phi>, sites: seq<Site>, b: BlockId, arity: nat) {
    forall k: nat :: k < |phis| ==> OneWired(phis[k], sites, b, k, arity)
  }

  /** Phis of a block may change as long as each has its arguments and its site. */
  lemma PhisKeepWired(f: Func, f': Func)
    requires Wired(f) && f'.Size() == f.Size() && f'.entry == f.entry
    requires forall b: BlockId :: b < f.Size() ==>
      && f'.blocks[b].preds == f.blocks[b].preds && f'.blocks[b].term.Successors() == f.blocks[b].term.Successors()
      && AllWired(f'.blocks[b].phis, f'.sites, b, |f.blocks[b].preds|)
    ensures Wired(f')
  {
    hide Count;
    forall b: BlockId | b < f'.Size() ensures BlockWired(f', b) {
      assert BlockWired(f, b);
      forall k: nat | k < |f'.blocks[b].phis| ensures PhiWired(f', b, k) {
        assert OneWired(f'.blocks[b].phis[k], f'.sites, b, k, |f.blocks[b].preds|);
      }
    }
    hide BlockWired;
  }

  lemma WiredPhis(f: Func, b: BlockId)
    requires Wired(f) && b < f.Size()
    ensures AllWired(f.blocks[b].phis, f.sites, b, |f.blocks[b].preds|)
  {
    assert BlockWired(f, b);
    forall k: nat | k < |f.blocks[b].phis| ensures OneWired(f.blocks[b].phis[k], f.sites, b, k, |f.blocks[b].preds|) {
      assert PhiWired(f, b, k);
    }
  }

  lemma ShapeKeepsWellFormed(f: Func, f': Func)
    requires WellFormed(f) && f'.Size() == f.Size() && f'.entry == f.entry
    requires forall b: BlockId :: b < f.Size() ==> SameShape(f.blocks[b], f'.blocks[b])
    requires |f.sites| <= |f'.sites| && forall v: ValueId :: v < |f'.sites| ==>
               f'.sites[v] == if v < |f.sites| then f.sites[v] else AtInst
    ensures WellFormed(f')
  {
    forall b: BlockId | b < f.Size()
      ensures AllWired(f'.blocks[b].phis, f'.sites, b, |f.blocks[b].preds|)
    {
      WiredPhis(f, b);
      assert SameShape(f.blocks[b], f'.blocks[b]);
      forall k: nat | k < |f'.blocks[b].phis|
        ensures OneWired(f'.blocks[b].phis[k], f'.sites, b, k, |f.blocks[b].preds|)
      {
        assert OneWired(f.blocks[b].phis[k], f.sites, b, k, |f.blocks[b].preds|);
      }
    }
    hide Wired;
    PhisKeepWired(f, f');
    forall v: ValueId | v < |f'.sites| && f'.sites[v].AtPhi?
      ensures SiteExact(f', v, f'.sites[v].block, f'.sites[v].position)
    {
      assert SiteExact(f, v, f.sites[v].block, f.sites[v].position);
      assert SameShape(f.blocks[f.sites[v].block], f'.blocks[f.sites[v].block]);
    }
  }

  /** The phis of a wired block define different values. */
  lemma WiredDistinct(f: Func, b: BlockId)
    requires Wired(f) && b < f.Size()
    ensures DistinctDests(f.blocks[b].phis)
  {
    WiredPhis(f, b);
    var phis := f.blocks[b].phis;
    forall i: nat, j: nat | i < j < |phis| ensures phis[i].dest != phis[j].dest {
      assert OneWired(phis[i], f.sites, b, i, |f.blocks[b].preds|);
      assert OneWired(phis[j], f.sites, b, j, |f.blocks[b].preds|);
    }
  }

  lemma MovedKeepsSites(f: Func, f': Func, from: BlockId)
    requires SitesExact(f) && f'.sites == f.sites && f'.Size() == f.Size()
    requires forall b: BlockId :: b < f.Size() ==> KeepsEdges(f.blocks[b], f'.blocks[b], from)
    ensures SitesExact(f')
  {
    forall b: BlockId | b < f.Size() ensures SameResults(f.blocks[b].phis, f'.blocks[b].phis) {
      assert KeepsEdges(f.blocks[b], f'.blocks[b], from);
    }
    ResultsKeepSites(f, f');
  }
}
