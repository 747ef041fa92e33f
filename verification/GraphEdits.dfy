/** What the edits of a function's graph do, on values, and that each keeps it wired: predecessor and
    successor lists agreeing as multisets, one phi argument per predecessor, phi sites recorded. */
module GraphEdits {
  import opened Graphs
  import opened IdomTree
  import opened Lists
  import opened Ssa

  function Count(s: seq<BlockId>, x: BlockId): nat {
    multiset(s)[x]
  }

  ghost predicate PhiWired(f: Func, b: BlockId, k: nat)
    requires b < f.Size() && k < |f.blocks[b].phis|
  {
    var phi := f.blocks[b].phis[k];
    |phi.args| == |f.blocks[b].preds| && phi.dest < |f.sites| && f.sites[phi.dest] == AtPhi(b, k)
  }

  ghost predicate BlockWired(f: Func, b: BlockId)
    requires b < f.Size()
  {
    && (forall p: BlockId :: p in f.blocks[b].preds ==> p < f.Size())
    && (forall k: nat :: k < |f.blocks[b].phis| ==> PhiWired(f, b, k))
  }

  /** `succs` with the successors of `b` taken to be `out`. */
  function Succs(f: Func, b: BlockId, out: seq<BlockId>, a: BlockId): seq<BlockId>
    requires a < f.Size()
  {
    if a == b then out else f.blocks[a].term.Successors()
  }

  ghost predicate AllBlocksWired(f: Func) {
    forall a: BlockId :: a < f.Size() ==> BlockWired(f, a)
  }

  /** As many edges into `x` from `a` on both sides, and none out of range. */
  ghost predicate EdgesAgree(f: Func, b: BlockId, out: seq<BlockId>) {
    && (forall a: BlockId, s: BlockId :: a < f.Size() && s in Succs(f, b, out, a) ==> s < f.Size())
    && (forall a: BlockId, x: BlockId :: a < f.Size() && x < f.Size() ==>
          Count(Succs(f, b, out, a), x) == Count(f.blocks[x].preds, a))
  }

  /** Wired, taking the successors of `b` to be `out`. */
  ghost predicate WiredAs(f: Func, b: BlockId, out: seq<BlockId>) {
    f.entry < f.Size() && b < f.Size() && AllBlocksWired(f) && EdgesAgree(f, b, out)
  }

  /** Predecessor lists and terminators list the same edges, as often; every phi has one argument per
      predecessor and its site recorded. */
  ghost predicate Wired(f: Func) {
    && f.entry < f.Size() && AllBlocksWired(f)
    && (forall a: BlockId, s: BlockId :: a < f.Size() && s in f.blocks[a].term.Successors() ==> s < f.Size())
    && (forall a: BlockId, x: BlockId :: a < f.Size() && x < f.Size() ==>
          Count(f.blocks[a].term.Successors(), x) == Count(f.blocks[x].preds, a))
  }

  /** Every value recorded as a phi's is that phi's. */
  ghost predicate SitesExact(f: Func) {
    forall v: ValueId :: v < |f.sites| && f.sites[v].AtPhi? ==> SiteExact(f, v, f.sites[v].block, f.sites[v].position)
  }

  ghost predicate SiteExact(f: Func, v: ValueId, b: BlockId, k: nat) {
    b < f.Size() && k < |f.blocks[b].phis| && f.blocks[b].phis[k].dest == v
  }

  ghost predicate WellFormed(f: Func) {
    Wired(f) && SitesExact(f)
  }

  lemma WiredIsWiredAs(f: Func, b: BlockId)
    requires b < f.Size()
    ensures Wired(f) <==> WiredAs(f, b, f.blocks[b].term.Successors())
  {
    assert forall a: BlockId :: a < f.Size() ==>
             Succs(f, b, f.blocks[b].term.Successors(), a) == f.blocks[a].term.Successors();
    hide BlockWired, Count;
  }

  /** A wired function has a valid graph. */
  lemma WiredIsValid(f: Func)
    requires Wired(f)
    ensures f.Adjacency().Valid()
  {
    var g := f.Adjacency();
    forall b, k | 0 <= b < g.Size() && 0 <= k < |g.succs[b]| ensures g.succs[b][k] < g.Size() {
      assert g.succs[b][k] in f.blocks[b].term.Successors();
    }
    forall b, k | 0 <= b < g.Size() && 0 <= k < |g.preds[b]| ensures g.preds[b][k] < g.Size() {
      assert g.preds[b][k] in f.blocks[b].preds;
      assert BlockWired(f, b);
    }
    forall a, b | 0 <= a < g.Size() && 0 <= b < g.Size() ensures b in g.succs[a] <==> a in g.preds[b] {
      assert Count(f.blocks[a].term.Successors(), b) == Count(f.blocks[b].preds, a);
    }
  }

  lemma WiredArgs(f: Func)
    requires Wired(f)
    ensures forall b: nat, k: nat :: b < f.Size() && k < |f.blocks[b].phis| ==>
              |f.blocks[b].phis[k].args| == |f.blocks[b].preds|
  {
    forall b: nat, k: nat | b < f.Size() && k < |f.blocks[b].phis|
      ensures |f.blocks[b].phis[k].args| == |f.blocks[b].preds|
    {
      assert BlockWired(f, b) && PhiWired(f, b, k);
    }
  }

  // ---- one edge ----

  /** Column `i` taken out: the predecessor there, and the argument there of every phi. */
  function DropColumn(block: Block, i: nat): Block
    requires i < |block.preds|
  {
    block.(preds := Without(block.preds, i), phis := DropArgs(block.phis, i))
  }

  function DropArgs(phis: seq<Phi>, i: nat): (r: seq<Phi>)
    ensures |r| == |phis|
    ensures forall k: nat :: k < |phis| ==>
              r[k] == if i < |phis[k].args| then phis[k].(args := Without(phis[k].args, i)) else phis[k]
  {
    seq(|phis|, k requires 0 <= k < |phis| =>
      if i < |phis[k].args| then phis[k].(args := Without(phis[k].args, i)) else phis[k])
  }

  /** What arrives along each edge: the predecessor, and its argument in every phi. */
  function Columns(block: Block): (r: seq<(BlockId, seq<Operand>)>)
    ensures |r| == |block.preds|
    ensures forall i: nat :: i < |r| ==> r[i] == (block.preds[i], Column(block.phis, i))
  {
    seq(|block.preds|, i requires 0 <= i < |block.preds| => (block.preds[i], Column(block.phis, i)))
  }

  function Column(phis: seq<Phi>, i: nat): (r: seq<Operand>)
    ensures |r| == |phis|
    ensures forall k: nat :: k < |phis| ==> r[k] == if i < |phis[k].args| then phis[k].args[i] else Value(phis[k].dest)
  {
    seq(|phis|, k requires 0 <= k < |phis| => if i < |phis[k].args| then phis[k].args[i] else Value(phis[k].dest))
  }

  function NotFrom(columns: seq<(BlockId, seq<Operand>)>, from: BlockId): seq<(BlockId, seq<Operand>)>
    decreases |columns|
  {
    if columns == [] then []
    else
      var last := columns[|columns| - 1];
      NotFrom(columns[..|columns| - 1], from) + (if last.0 == from then [] else [last])
  }

  /** Edges from blocks other than `from` keep their arguments, in order; those from `from` that are left
      keep theirs. */
  ghost predicate KeepsEdges(before: Block, after: Block, from: BlockId) {
    && NotFrom(Columns(after), from) == NotFrom(Columns(before), from)
    && (before.phis != [] ==> multiset(Columns(after)) <= multiset(Columns(before)))
    && |after.phis| == |before.phis|
    && forall k: nat :: k < |before.phis| ==>
      after.phis[k].dest == before.phis[k].dest && after.phis[k].slot == before.phis[k].slot
  }

  lemma KeepsItself(block: Block, from: BlockId)
    ensures KeepsEdges(block, block, from)
  {
  }

  lemma KeepsInTurn(a: Block, b: Block, c: Block, from: BlockId)
    requires KeepsEdges(a, b, from) && KeepsEdges(b, c, from)
    ensures KeepsEdges(a, c, from)
  {
  }

  lemma ColumnsDrop(block: Block, i: nat)
    requires i < |block.preds| && forall k: nat :: k < |block.phis| ==> |block.phis[k].args| == |block.preds|
    ensures Columns(DropColumn(block, i)) == Without(Columns(block), i)
  {
    var dropped := DropColumn(block, i);
    forall j: nat | j < |dropped.preds|
      ensures Columns(dropped)[j] == Without(Columns(block), i)[j]
    {
      var was := if j < i then j else j + 1;
      assert dropped.preds[j] == block.preds[was];
      assert Column(dropped.phis, j) == Column(block.phis, was);
    }
  }

  lemma {:induction false} NotFromWithout(columns: seq<(BlockId, seq<Operand>)>, i: nat, from: BlockId)
    requires i < |columns| && columns[i].0 == from
    ensures NotFrom(Without(columns, i), from) == NotFrom(columns, from)
    decreases |columns|
  {
    var n := |columns| - 1;
    if i == n {
      assert Without(columns, i) == columns[..n];
      assert NotFrom(columns[..n], from) + [] == NotFrom(columns[..n], from);
    } else {
      NotFromWithout(columns[..n], i, from);
      var less := Without(columns, i);
      assert less[..|less| - 1] == Without(columns[..n], i);
    }
  }

  lemma WithoutMultiset<T>(s: seq<T>, i: nat)
    requires i < |s|
    ensures multiset(Without(s, i)) == multiset(s) - multiset{s[i]}
  {
    assert s == s[..i] + [s[i]] + s[i + 1..];
    assert multiset(s) == multiset(s[..i]) + multiset{s[i]} + multiset(s[i + 1..]);
  }

  lemma DropKeeps(block: Block, i: nat)
    requires i < |block.preds| && forall k: nat :: k < |block.phis| ==> |block.phis[k].args| == |block.preds|
    ensures KeepsEdges(block, DropColumn(block, i), block.preds[i])
    ensures multiset(DropColumn(block, i).preds) == multiset(block.preds) - multiset{block.preds[i]}
  {
    ColumnsDrop(block, i);
    NotFromWithout(Columns(block), i, block.preds[i]);
    WithoutMultiset(Columns(block), i);
    WithoutMultiset(block.preds, i);
  }

  /** One edge fewer: the successors of `b` lose one `to`, and `to` loses the matching column. */
  lemma DropEdgeWired(f: Func, b: BlockId, out: seq<BlockId>, out': seq<BlockId>, to: BlockId)
    requires WiredAs(f, b, out) && to in out && multiset(out') == multiset(out) - multiset{to}
    ensures to < f.Size() && b in f.blocks[to].preds
    ensures var i := Position(f.blocks[to].preds, b);
            && WiredAs(f.(blocks := f.blocks[to := DropColumn(f.blocks[to], i)]), b, out')
            && KeepsEdges(f.blocks[to], DropColumn(f.blocks[to], i), b)
  {
    var i := DropIndex(f, b, out, to);
    AritiesAt(f, to);
    DropKeeps(f.blocks[to], i);
    hide DropColumn, BlockWired, EdgesAgree, KeepsEdges, Succs;
    var block' := DropColumn(f.blocks[to], i);
    var f' := f.(blocks := f.blocks[to := block']);
    forall a: BlockId | a < f'.Size() ensures BlockWired(f', a) {
      DropBlockWired(f, to, i, a);
    }
    DropTerm(f.blocks[to], i);
    DropEdgesAgree(f, f', b, out, out', to, block');
  }

  lemma DropTerm(block: Block, i: nat)
    requires i < |block.preds|
    ensures DropColumn(block, i).term == block.term && DropColumn(block, i).insts == block.insts
  {
  }

  lemma AritiesAt(f: Func, b: BlockId)
    requires AllBlocksWired(f) && b < f.Size()
    ensures forall k: nat :: k < |f.blocks[b].phis| ==> |f.blocks[b].phis[k].args| == |f.blocks[b].preds|
  {
    assert BlockWired(f, b);
    forall k: nat | k < |f.blocks[b].phis| ensures |f.blocks[b].phis[k].args| == |f.blocks[b].preds| {
      assert PhiWired(f, b, k);
    }
  }

  lemma DropEdgesAgree(f: Func, f': Func, b: BlockId, out: seq<BlockId>, out': seq<BlockId>, to: BlockId, block': Block)
    requires EdgesAgree(f, b, out) && b < f.Size() && to < f.Size() && to in out &&
             multiset(out') == multiset(out) - multiset{to}
    requires f' == f.(blocks := f.blocks[to := block']) && block'.term == f.blocks[to].term
    requires multiset(block'.preds) == multiset(f.blocks[to].preds) - multiset{b}
    ensures EdgesAgree(f', b, out')
  {
    forall a: BlockId, s: BlockId | a < f'.Size() && s in Succs(f', b, out', a) ensures s < f'.Size() {
      FewerIn(out, out', s, to);
      SameTerm(f, f', b, out, out', a);
    }
    forall a: BlockId, x: BlockId | a < f'.Size() && x < f'.Size()
      ensures Count(Succs(f', b, out', a), x) == Count(f'.blocks[x].preds, a)
    {
      SameTerm(f, f', b, out, out', a);
      assert Count(Succs(f, b, out, a), x) == Count(f.blocks[x].preds, a);
      assert Count(Succs(f, b, out, b), to) == Count(f.blocks[to].preds, b);
      FewerCount(out, out', x, to);
      FewerCount(f.blocks[to].preds, block'.preds, a, b);
    }
    hide Count, Succs;
  }

  lemma FewerIn(s: seq<BlockId>, less: seq<BlockId>, x: BlockId, gone: BlockId)
    requires multiset(less) == multiset(s) - multiset{gone}
    ensures x in less ==> x in s
  {
    assert x in less ==> x in multiset(less);
  }

  lemma FewerCount(s: seq<BlockId>, less: seq<BlockId>, x: BlockId, gone: BlockId)
    requires multiset(less) == multiset(s) - multiset{gone}
    ensures Count(less, x) == if x == gone && Count(s, x) > 0 then Count(s, x) - 1 else Count(s, x)
  {
  }

  lemma SameTerm(f: Func, f': Func, b: BlockId, out: seq<BlockId>, out': seq<BlockId>, a: BlockId)
    requires a < f.Size() == f'.Size() && f'.blocks[a].term == f.blocks[a].term
    ensures Succs(f', b, out', a) == if a == b then out' else Succs(f, b, out, a)
    ensures a == b ==> Succs(f, b, out, a) == out
  {
  }

  lemma DropIndex(f: Func, b: BlockId, out: seq<BlockId>, to: BlockId) returns (i: nat)
    requires WiredAs(f, b, out) && to in out
    ensures to < f.Size() && i == Position(f.blocks[to].preds, b) < |f.blocks[to].preds|
    ensures f.blocks[to].preds[i] == b
  {
    assert to in Succs(f, b, out, b);
    assert Count(Succs(f, b, out, b), to) == Count(f.blocks[to].preds, b);
    i := Position(f.blocks[to].preds, b);
  }

  lemma DropBlockWired(f: Func, to: BlockId, i: nat, a: BlockId)
    requires to < f.Size() && a < f.Size() && i < |f.blocks[to].preds| && BlockWired(f, a) && BlockWired(f, to)
    ensures BlockWired(f.(blocks := f.blocks[to := DropColumn(f.blocks[to], i)]), a)
  {
    var f' := f.(blocks := f.blocks[to := DropColumn(f.blocks[to], i)]);
    forall k: nat | k < |f'.blocks[a].phis| ensures PhiWired(f', a, k) {
      assert PhiWired(f, a, k);
    }
    if a == to {
      assert forall p: BlockId :: p in Without(f.blocks[to].preds, i) ==> p in f.blocks[to].preds;
    }
  }

  function WithPred(block: Block, b: BlockId): Block {
    block.(preds := block.preds + [b])
  }

  /** One edge more, into a block with no phis to give an argument to. */
  lemma AddEdgeWired(f: Func, b: BlockId, out: seq<BlockId>, to: BlockId)
    requires WiredAs(f, b, out) && to < f.Size() && f.blocks[to].phis == []
    ensures WiredAs(f.(blocks := f.blocks[to := WithPred(f.blocks[to], b)]), b, out + [to])
    ensures KeepsEdges(f.blocks[to], WithPred(f.blocks[to], b), b)
  {
    var f' := f.(blocks := f.blocks[to := WithPred(f.blocks[to], b)]);
    AddKeeps(f.blocks[to], b);
    hide KeepsEdges, BlockWired, EdgesAgree;
    forall a: BlockId | a < f'.Size() ensures BlockWired(f', a) {
      AddBlockWired(f, b, to, a);
    }
    AddEdgesAgree(f, f', b, out, to);
  }

  lemma AddKeeps(block: Block, b: BlockId)
    requires block.phis == []
    ensures KeepsEdges(block, WithPred(block, b), b)
  {
    var block' := WithPred(block, b);
    assert Columns(block')[..|block.preds|] == Columns(block);
    assert NotFrom(Columns(block), b) + [] == NotFrom(Columns(block), b);
  }

  lemma AddEdgesAgree(f: Func, f': Func, b: BlockId, out: seq<BlockId>, to: BlockId)
    requires EdgesAgree(f, b, out) && b < f.Size() && to < f.Size()
    requires f' == f.(blocks := f.blocks[to := WithPred(f.blocks[to], b)])
    ensures EdgesAgree(f', b, out + [to])
  {
    var out' := out + [to];
    forall a: BlockId, s: BlockId | a < f'.Size() && s in Succs(f', b, out', a) ensures s < f'.Size() {
      assert s == to || s in Succs(f, b, out, a);
    }
    forall a: BlockId, x: BlockId | a < f'.Size() && x < f'.Size()
      ensures Count(Succs(f', b, out', a), x) == Count(f'.blocks[x].preds, a)
    {
      assert Count(Succs(f, b, out, a), x) == Count(f.blocks[x].preds, a);
    }
  }

  lemma AddBlockWired(f: Func, b: BlockId, to: BlockId, a: BlockId)
    requires to < f.Size() && a < f.Size() && b < f.Size() && BlockWired(f, a) && f.blocks[to].phis == []
    ensures BlockWired(f.(blocks := f.blocks[to := WithPred(f.blocks[to], b)]), a)
  {
    var f' := f.(blocks := f.blocks[to := WithPred(f.blocks[to], b)]);
    forall k: nat | k < |f'.blocks[a].phis| ensures PhiWired(f', a, k) {
      assert PhiWired(f, a, k);
    }
  }

  /** Recording the terminator whose successors the edges already are. */
  lemma TermWired(f: Func, b: BlockId, out: seq<BlockId>, term: Terminator)
    requires WiredAs(f, b, out) && multiset(out) == multiset(term.Successors())
    ensures Wired(f.(blocks := f.blocks[b := f.blocks[b].(term := term)]))
  {
    var f' := f.(blocks := f.blocks[b := f.blocks[b].(term := term)]);
    forall a: BlockId | a < f'.Size() ensures BlockWired(f', a) {
      assert BlockWired(f, a);
      forall k: nat | k < |f'.blocks[a].phis| ensures PhiWired(f', a, k) {
        assert PhiWired(f, a, k);
      }
    }
    forall a: BlockId, s: BlockId | a < f'.Size() && s in f'.blocks[a].term.Successors() ensures s < f'.Size() {
      assert a == b ==> s in multiset(out);
      assert s in Succs(f, b, out, a);
    }
    forall a: BlockId, x: BlockId | a < f'.Size() && x < f'.Size()
      ensures Count(f'.blocks[a].term.Successors(), x) == Count(f'.blocks[x].preds, a)
    {
      assert Count(Succs(f, b, out, a), x) == Count(f.blocks[x].preds, a);
    }
    hide BlockWired;
  }
}
