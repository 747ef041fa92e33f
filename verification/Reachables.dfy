/** Marking the blocks the entry reaches, and numbering the marked ones in order. */
module Reachables {
  import opened Graphs
  import opened IdomTree
  import opened Lists
  import opened Ssa
  import opened GraphEdits
  import opened GraphSurgery

  // ---- the search ----

  ghost predicate Scanned(f: Func, marks: seq<bool>, b: BlockId) {
    b < f.Size() && forall s: BlockId :: s in f.blocks[b].term.Successors() ==> Kept(marks, s)
  }

  /** Marked blocks are reachable, and lead to marked ones unless they wait on the stack or are `open`. */
  ghost predicate Searching(f: Func, marks: seq<bool>, stack: seq<BlockId>, open: set<BlockId>) {
    && |marks| == f.Size() && Kept(marks, f.entry)
    && (forall i: nat :: i < |stack| ==> Kept(marks, stack[i]))
    && (forall b: BlockId {:trigger Kept(marks, b)} :: Kept(marks, b) ==> f.Adjacency().Reachable(b))
    && (forall b: BlockId {:trigger Scanned(f, marks, b)} :: Kept(marks, b) && b !in stack && b !in open ==>
          Scanned(f, marks, b))
  }

  ghost predicate SomeScanned(f: Func, marks: seq<bool>, b: BlockId, n: nat) {
    b < f.Size() && n <= |f.blocks[b].term.Successors()|
    && forall k: nat :: k < n ==> Kept(marks, f.blocks[b].term.Successors()[k])
  }

  function Unmarked(marks: seq<bool>): (r: set<nat>) {
    set b: nat | b < |marks| && !marks[b]
  }

  lemma SearchStarts(f: Func)
    requires f.entry < f.Size()
    ensures Searching(f, seq(f.Size(), _ => false)[f.entry := true], [f.entry], {})
  {
    var marks := seq(f.Size(), _ => false)[f.entry := true];
    var path := [f.entry];
    assert f.Adjacency().PathTo(path, f.entry);
    assert forall b: BlockId :: Kept(marks, b) ==> b == f.entry;
    assert [f.entry][0] == f.entry;
  }

  lemma Pop(f: Func, marks: seq<bool>, stack: seq<BlockId>)
    requires Searching(f, marks, stack, {}) && stack != []
    ensures Searching(f, marks, stack[..|stack| - 1], {stack[|stack| - 1]})
    ensures Kept(marks, stack[|stack| - 1])
  {
    var b := stack[|stack| - 1];
    hide Scanned, Kept;
    assert stack == stack[..|stack| - 1] + [b];
  }

  lemma Skip(f: Func, marks: seq<bool>, b: BlockId, n: nat)
    requires SomeScanned(f, marks, b, n) && n < |f.blocks[b].term.Successors()| &&
             Kept(marks, f.blocks[b].term.Successors()[n])
    ensures SomeScanned(f, marks, b, n + 1)
  {
  }

  lemma MoreMarked(marks: seq<bool>, s: BlockId)
    requires s < |marks|
    ensures forall b: BlockId {:trigger Kept(marks[s := true], b)} :: Kept(marks[s := true], b) <==>
              Kept(marks, b) || b == s
    ensures forall b: BlockId {:trigger Kept(marks, b)} :: Kept(marks, b) ==> Kept(marks[s := true], b)
  {
  }

  lemma Mark(f: Func, marks: seq<bool>, stack: seq<BlockId>, b: BlockId, n: nat)
    requires Wired(f) && Searching(f, marks, stack, {b}) && SomeScanned(f, marks, b, n) && Kept(marks, b)
    requires n < |f.blocks[b].term.Successors()|
    ensures var s := f.blocks[b].term.Successors()[n];
            && s < f.Size()
            && Searching(f, marks[s := true], stack + [s], {b}) && SomeScanned(f, marks[s := true], b, n + 1)
            && Kept(marks[s := true], b)
  {
    var s := f.blocks[b].term.Successors()[n];
    Leads(f, b, n);
    MoreMarked(marks, s);
    hide Kept, Wired;
    var marks' := marks[s := true];
    StillScanned(f, marks, b, n);
    hide SomeScanned;
    ReachableStep(f.Adjacency(), b, s);
    hide Graph.Reachable, Graph.Edge;
    forall c: BlockId {:trigger Scanned(f, marks', c)} | Kept(marks', c) && c !in stack + [s] && c !in {b}
      ensures Scanned(f, marks', c)
    {
      assert s in stack + [s];
      assert Kept(marks, c) && Scanned(f, marks, c);
    }
  }

  lemma StillScanned(f: Func, marks: seq<bool>, b: BlockId, n: nat)
    requires SomeScanned(f, marks, b, n) && n < |f.blocks[b].term.Successors()| &&
             f.blocks[b].term.Successors()[n] < |marks|
    ensures SomeScanned(f, marks[f.blocks[b].term.Successors()[n] := true], b, n + 1)
  {
  }

  lemma Leads(f: Func, b: BlockId, n: nat)
    requires Wired(f) && b < f.Size() && n < |f.blocks[b].term.Successors()|
    ensures var s := f.blocks[b].term.Successors()[n]; s < f.Size() && f.Adjacency().Edge(b, s)
  {
    assert f.blocks[b].term.Successors()[n] in f.blocks[b].term.Successors();
  }

  lemma Close(f: Func, marks: seq<bool>, stack: seq<BlockId>, b: BlockId)
    requires Searching(f, marks, stack, {b}) && b < f.Size() &&
             SomeScanned(f, marks, b, |f.blocks[b].term.Successors()|)
    ensures Searching(f, marks, stack, {})
  {
    assert Scanned(f, marks, b);
    hide Kept, Scanned;
  }

  lemma MarkShrinks(marks: seq<bool>, s: BlockId)
    requires s < |marks| && !marks[s]
    ensures Unmarked(marks[s := true]) < Unmarked(marks) && |Unmarked(marks[s := true])| < |Unmarked(marks)|
  {
    assert Unmarked(marks[s := true]) == Unmarked(marks) - {s};
    assert s in Unmarked(marks);
  }

  lemma {:induction false} AlongPath(f: Func, marks: seq<bool>, path: seq<BlockId>, b: BlockId)
    requires Searching(f, marks, [], {}) && f.Adjacency().PathTo(path, b)
    ensures Kept(marks, b)
    decreases |path|
  {
    if |path| > 1 {
      var k := |path| - 2;
      assert f.Adjacency().Edge(path[k], path[k + 1]);
      PathPrefix(f.Adjacency(), path, b, k);
      AlongPath(f, marks, path[..k + 1], path[k]);
      assert Scanned(f, marks, path[k]);
    }
  }

  /** With nothing left to visit, exactly the reachable blocks are marked, and they are closed. */
  lemma SearchEnds(f: Func, marks: seq<bool>)
    requires Searching(f, marks, [], {})
    ensures KeepClosed(f, marks)
    ensures forall b: BlockId {:trigger Kept(marks, b)} :: Kept(marks, b) <==> f.Adjacency().Reachable(b)
  {
    forall b: BlockId | f.Adjacency().Reachable(b) ensures Kept(marks, b) {
      var path :| f.Adjacency().PathTo(path, b);
      AlongPath(f, marks, path, b);
    }
    forall b: BlockId, s: BlockId | b < f.Size() && Kept(marks, b) && s in f.blocks[b].term.Successors()
      ensures Kept(marks, s)
    {
      assert Scanned(f, marks, b);
    }
  }

  method MarkReachable(blocks: seq<Block>, entry: BlockId, ghost f: Func) returns (marks: seq<bool>)
    requires f.blocks == blocks && f.entry == entry && Wired(f)
    ensures |marks| == |blocks| && KeepClosed(f, marks)
    ensures forall b: BlockId {:trigger Kept(marks, b)} :: Kept(marks, b) <==> f.Adjacency().Reachable(b)
  {
    hide Wired, Searching, SomeScanned, Unmarked, KeepClosed;
    EntryIn(f);
    marks := seq(|blocks|, _ => false)[entry := true];
    var stack := [entry];
    SearchStarts(f);
    while stack != []
      invariant |marks| == |blocks| && Searching(f, marks, stack, {})
      decreases |Unmarked(marks)|, |stack|
    {
      Pop(f, marks, stack);
      var block := stack[|stack| - 1];
      stack := stack[..|stack| - 1];
      var successors := blocks[block].term.Successors();
      ghost var unmarked := |Unmarked(marks)|;
      ghost var height := |stack|;
      NoneScanned(f, marks, block);
      for n := 0 to |successors|
        invariant |marks| == |blocks| && Searching(f, marks, stack, {block}) && Kept(marks, block)
        invariant SomeScanned(f, marks, block, n)
        invariant |Unmarked(marks)| < unmarked || (|Unmarked(marks)| == unmarked && |stack| == height)
      {
        var successor := successors[n];
        Leads(f, block, n);
        if !marks[successor] {
          MarkShrinks(marks, successor);
          Mark(f, marks, stack, block, n);
          marks := marks[successor := true];
          stack := stack + [successor];
        } else {
          Skip(f, marks, block, n);
        }
      }
      Close(f, marks, stack, block);
    }
    SearchEnds(f, marks);
  }

  lemma EntryIn(f: Func)
    requires Wired(f)
    ensures f.entry < f.Size()
  {
  }

  lemma NoneScanned(f: Func, marks: seq<bool>, b: BlockId)
    requires b < f.Size()
    ensures SomeScanned(f, marks, b, 0)
  {
  }

  // ---- the new numbers ----

  /** The marked blocks below `n`, in order. */
  function Marked(marks: seq<bool>, n: nat): (r: seq<BlockId>)
    requires n <= |marks|
    ensures |r| <= n
    decreases n
  {
    if n == 0 then [] else if marks[n - 1] then Marked(marks, n - 1) + [n - 1] else Marked(marks, n - 1)
  }

  lemma {:induction false} MarkedInOrder(marks: seq<bool>, n: nat)
    requires n <= |marks|
    ensures forall i: nat, j: nat :: i < j < |Marked(marks, n)| ==> Marked(marks, n)[i] < Marked(marks, n)[j]
    ensures forall b: BlockId :: b in Marked(marks, n) <==> b < n && marks[b]
    decreases n
  {
    if n > 0 {
      MarkedInOrder(marks, n - 1);
      var rest := Marked(marks, n - 1);
      forall i: nat | i < |rest| ensures rest[i] < n - 1 {
        assert rest[i] in rest;
      }
    }
  }

  lemma MarkedIsKept(f: Func, marks: seq<bool>)
    requires |marks| == f.Size()
    ensures KeptInOrder(f, Marked(marks, |marks|), marks)
  {
    MarkedInOrder(marks, |marks|);
  }

  ghost predicate Numbers(renumbered: seq<Option<BlockId>>, order: seq<BlockId>) {
    forall b: BlockId :: b < |renumbered| ==>
      renumbered[b] == if b in order then Some(NewIndex(order, b)) else None
  }

  /** A marked block gets the number of marked blocks before it. */
  method Renumber(marks: seq<bool>) returns (renumbered: seq<Option<BlockId>>)
    ensures |renumbered| == |marks| && Numbers(renumbered, Marked(marks, |marks|))
  {
    renumbered := seq(|marks|, _ => None);
    var next := 0;
    for index := 0 to |marks|
      invariant |renumbered| == |marks| && next == |Marked(marks, index)|
      invariant forall b: BlockId :: b < |marks| ==>
        renumbered[b] == if b < index && marks[b] then Some(|Marked(marks, b)|) else None
    {
      if marks[index] {
        renumbered := renumbered[index := Some(next)];
        next := next + 1;
      }
    }
    forall b: BlockId | b < |marks|
      ensures renumbered[b] == if b in Marked(marks, |marks|) then Some(NewIndex(Marked(marks, |marks|), b)) else None
    {
      MarkedInOrder(marks, |marks|);
      if marks[b] {
        MarkedAt(marks, b, |marks|);
        NewIndexOf(Marked(marks, |marks|), |Marked(marks, b)|);
      }
    }
  }

  lemma {:induction false} MarkedAt(marks: seq<bool>, b: BlockId, n: nat)
    requires b < n <= |marks| && marks[b]
    ensures |Marked(marks, b)| < |Marked(marks, n)| && Marked(marks, n)[|Marked(marks, b)|] == b
    decreases n
  {
    if b < n - 1 {
      MarkedAt(marks, b, n - 1);
    }
  }

  // ---- deleting ----

  /** What is left of each block's predecessors and phi columns is exactly what came from marked blocks. */
  method DropGone(block: Block, marks: seq<bool>) returns (r: Block)
    requires Arity(block) && forall p: BlockId :: p in block.preds ==> p < |marks|
    ensures r == DropUnreached(block, marks, |block.preds|)
  {
    hide Arity, DropColumn;
    r := block;
    var position: nat := |block.preds|;
    while position > 0
      invariant position <= |r.preds| && Arity(r)
      invariant forall p: BlockId :: p in r.preds ==> p < |marks|
      invariant DropUnreached(r, marks, position) == DropUnreached(block, marks, |block.preds|)
      decreases position
    {
      position := position - 1;
      assert r.preds[position] in r.preds;
      if !marks[r.preds[position]] {
        DropShape(r, position);
        DropPreds(r, position);
        r := DropColumn(r, position);
      }
    }
  }

  lemma DropPreds(block: Block, i: nat)
    requires i < |block.preds|
    ensures forall p: BlockId :: p in DropColumn(block, i).preds ==> p in block.preds
  {
  }

  method DropAllGone(blocks: seq<Block>, marks: seq<bool>, ghost f: Func) returns (r: seq<Block>)
    requires f.blocks == blocks && Wired(f) && |marks| == |blocks|
    ensures |r| == |blocks|
    ensures forall b: BlockId :: b < |r| ==>
              r[b] == if marks[b] then DropUnreached(blocks[b], marks, |blocks[b].preds|) else blocks[b]
  {
    r := blocks;
    hide DropUnreached;
    for index := 0 to |blocks|
      invariant |r| == |blocks|
      invariant forall b: BlockId :: b < |r| ==>
        r[b] == if b < index && marks[b] then DropUnreached(blocks[b], marks, |blocks[b].preds|) else blocks[b]
    {
      if marks[index] {
        AritiesAt(f, index);
        assert BlockWired(f, index);
        var dropped := DropGone(blocks[index], marks);
        r := r[index := dropped];
      }
    }
  }

  method Compact(blocks: seq<Block>, marks: seq<bool>) returns (kept: seq<Block>)
    requires |marks| == |blocks|
    ensures |kept| == |Marked(marks, |marks|)|
    ensures forall i: nat :: i < |kept| ==>
              Marked(marks, |marks|)[i] < |blocks| && kept[i] == blocks[Marked(marks, |marks|)[i]]
  {
    kept := [];
    for index := 0 to |blocks|
      invariant |kept| == |Marked(marks, index)|
      invariant forall i: nat :: i < |kept| ==>
                  Marked(marks, index)[i] < |blocks| && kept[i] == blocks[Marked(marks, index)[i]]
    {
      if marks[index] {
        kept := kept + [blocks[index]];
      }
    }
  }

  method RemapBlocks(bs: seq<BlockId>, renumbered: seq<Option<BlockId>>, ghost order: seq<BlockId>)
    returns (r: seq<BlockId>)
    requires Numbers(renumbered, order) && forall b: BlockId :: b in bs ==> b in order && b < |renumbered|
    ensures r == Remap(order, bs)
  {
    r := bs;
    for i := 0 to |bs|
      invariant |r| == |bs|
      invariant forall j: nat :: j < |bs| ==> r[j] == if j < i then NewIndex(order, bs[j]) else bs[j]
    {
      assert bs[i] in bs;
      r := r[i := renumbered[bs[i]].value];
    }
  }

  method RemapTerminator(term: Terminator, renumbered: seq<Option<BlockId>>, ghost order: seq<BlockId>)
    returns (r: Terminator)
    requires Numbers(renumbered, order) && forall b: BlockId :: b in term.Successors() ==>
               b in order && b < |renumbered|
    ensures r == RemapTerm(order, term)
  {
    match term
    case Jump(target) =>
      assert target in term.Successors();
      r := Jump(renumbered[target].value);
    case Branch(cond, thenBlock, elseBlock) =>
      assert thenBlock in term.Successors() && elseBlock in term.Successors();
      r := Branch(cond, renumbered[thenBlock].value, renumbered[elseBlock].value);
    case Return(_) =>
      r := term;
  }

  method RemapAllSites(sites: seq<Site>, renumbered: seq<Option<BlockId>>, ghost order: seq<BlockId>, ghost f: Func)
    returns (r: seq<Site>)
    requires Numbers(renumbered, order) && SitesExact(f) && f.sites == sites && |renumbered| == f.Size()
    ensures r == RemapSites(order, sites)
  {
    r := sites;
    for v := 0 to |sites|
      invariant |r| == |sites|
      invariant forall w: ValueId :: w < |sites| ==> r[w] == if w < v then RemapSite(order, sites[w]) else sites[w]
    {
      if sites[v].AtPhi? {
        assert SiteExact(f, v, sites[v].block, sites[v].position);
        var block := renumbered[sites[v].block];
        r := r[v := if block.Some? then AtPhi(block.value, sites[v].position) else Removed];
      }
    }
  }

  /** The kept blocks, renumbered. */
  method RemapKept(kept: seq<Block>, renumbered: seq<Option<BlockId>>, ghost f: Func, ghost order: seq<BlockId>,
                   ghost marks: seq<bool>)
    returns (r: seq<Block>)
    requires Wired(f) && KeptInOrder(f, order, marks) && KeepClosed(f, marks) && Numbers(renumbered, order) &&
             |renumbered| == f.Size()
    requires |kept| == |order|
    requires forall i: nat :: i < |order| ==>
               order[i] < f.Size() && kept[i] == DropUnreached(f.blocks[order[i]], marks, |f.blocks[order[i]].preds|)
    ensures r == RetainOf(f, order, marks).blocks
  {
    hide Wired, KeptInOrder, KeepClosed, DropUnreached, Numbers;
    r := kept;
    for i := 0 to |kept|
      invariant |r| == |kept|
      invariant forall j: nat :: j < |kept| ==> r[j] == if j < i then RetainedAt(f, order, marks, j) else kept[j]
    {
      InOrder(f, order, marks, i);
      RetainedPreds(f, order, marks, order[i]);
      PredsKept(f, order, marks, kept[i].preds);
      SuccsKept(f, order, marks, order[i]);
      InRange(f, order, marks);
      var preds := RemapBlocks(kept[i].preds, renumbered, order);
      var term := RemapTerminator(kept[i].term, renumbered, order);
      r := r[i := kept[i].(preds := preds, term := term)];
    }
  }

  lemma InRange(f: Func, order: seq<BlockId>, marks: seq<bool>)
    requires KeptInOrder(f, order, marks)
    ensures forall b: BlockId :: b in order ==> b < f.Size()
  {
  }

  method AllMarked(marks: seq<bool>) returns (all: bool)
    ensures all <==> forall b: BlockId :: b < |marks| ==> marks[b]
  {
    all := true;
    for b := 0 to |marks|
      invariant all <==> forall c: BlockId :: c < b ==> marks[c]
    {
      all := all && marks[b];
    }
  }

  lemma AllMarkedIsReachable(f: Func, marks: seq<bool>)
    requires |marks| == f.Size() && forall b: BlockId {:trigger Kept(marks, b)} :: Kept(marks, b) <==>
               f.Adjacency().Reachable(b)
    ensures f.Adjacency().AllReachable() <==> forall b: BlockId :: b < |marks| ==> marks[b]
  {
    forall b: BlockId | b < |marks| ensures marks[b] <==> f.Adjacency().Reachable(b) {
      assert Kept(marks, b) <==> marks[b];
    }
  }
}
