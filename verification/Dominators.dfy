/** Building the dominator tree in place. */
module Dominators {
  import opened Graphs
  import opened Postorder
  import opened IdomTree
  import opened DomFixpoint
  import opened Lists
  import opened Stamps

  /** The nearest block above both `a` and `b`, found by climbing from whichever has the larger
      number; with it, every common dominator of the two dominates the answer. */
  method Intersect(g: Graph, a0: nat, b0: nat, immediate: Idoms, orderNumber: seq<nat>, ghost parent: map<nat, nat>)
    returns (r: nat)
    requires Numbered(g, orderNumber, parent)
    requires var t := Tree(immediate, orderNumber, g.entry);
             t.Valid() && KeepsDominators(g, t) && t.Has(a0) && t.Has(b0)
    ensures var t := Tree(immediate, orderNumber, g.entry);
            && t.Has(r) && t.Anc(r, a0) && t.Anc(r, b0)
            && forall x: nat :: t.Anc(x, a0) && t.Anc(x, b0) ==> t.Anc(x, r)
    ensures forall d: nat :: g.Dom(d, a0) && g.Dom(d, b0) ==> g.Dom(d, r)
  {
    ghost var t := Tree(immediate, orderNumber, g.entry);
    var a, b := a0, b0;
    while a != b
      invariant Climbing(g, t, a0, b0, a, b)
      decreases t.Num(a) + t.Num(b)
    {
      while orderNumber[a] > orderNumber[b]
        invariant Climbing(g, t, a0, b0, a, b)
        decreases t.Num(a)
      {
        ClimbOnce(g, t, parent, a0, b0, a, b);
        a := immediate[a].value;
      }
      while orderNumber[b] > orderNumber[a]
        invariant Climbing(g, t, a0, b0, a, b)
        decreases t.Num(b)
      {
        ClimbOnce(g, t, parent, b0, a0, b, a);
        b := immediate[b].value;
      }
    }
    r := a;
  }

  ghost predicate Climbing(g: Graph, t: Tree, a0: nat, b0: nat, a: nat, b: nat) {
    && t.Has(a) && t.Has(b) && t.Anc(a, a0) && t.Anc(b, b0)
    && (forall x: nat :: t.Anc(x, a0) && t.Anc(x, b0) ==> t.Anc(x, a) && t.Anc(x, b))
    && (forall d: nat :: g.Dom(d, a0) && g.Dom(d, b0) ==> g.Dom(d, a) && g.Dom(d, b))
  }

  /** One step up from the block with the larger number loses no common ancestor or dominator. */
  lemma ClimbOnce(g: Graph, t: Tree, parent: map<nat, nat>, a0: nat, b0: nat, a: nat, b: nat)
    requires Numbered(g, t.num, parent) && t.Valid() && t.entry == g.entry && KeepsDominators(g, t)
    requires Climbing(g, t, a0, b0, a, b) && t.Has(a0) && t.Num(a) > t.Num(b)
    ensures t.Rises(a) && Climbing(g, t, a0, b0, t.Up(a), b) && Climbing(g, t, b0, a0, b, t.Up(a))
  {
    assert a != t.entry && t.Rises(a);
    AncTransitive(t, t.Up(a), a, a0);
    forall x: nat | t.Anc(x, a0) && t.Anc(x, b0)
      ensures t.Anc(x, t.Up(a))
    {
      AncIsRecorded(t, x, b);
    }
    forall d: nat | g.Dom(d, a0) && g.Dom(d, b0)
      ensures g.Dom(d, t.Up(a))
    {
      DomComesFirst(g, t.num, parent, d, b);
      assert g.StrictDom(d, a);
    }
  }

  /** Fold `Intersect` over the predecessors of a block that have an estimate. */
  method MeetPredecessors(g: Graph, blocks: seq<nat>, immediate: Idoms, orderNumber: seq<nat>, ghost parent: map<nat,
                          nat>)
    returns (newIdom: Option<nat>)
    requires Numbered(g, orderNumber, parent)
    requires var t := Tree(immediate, orderNumber, g.entry); t.Valid() && KeepsDominators(g, t)
    requires forall p: nat :: p in blocks ==> p < |immediate|
    ensures newIdom.None? <==> NoneRecorded(Tree(immediate, orderNumber, g.entry), blocks)
    ensures newIdom.Some? ==> Meets(g, Tree(immediate, orderNumber, g.entry), blocks, newIdom.value)
  {
    ghost var t := Tree(immediate, orderNumber, g.entry);
    newIdom := None;
    for i := 0 to |blocks|
      invariant newIdom.None? <==> NoneRecorded(t, blocks[..i])
      invariant newIdom.Some? ==> Meets(g, t, blocks[..i], newIdom.value)
    {
      var predecessor := blocks[i];
      assert predecessor in blocks;
      assert blocks[..i + 1] == blocks[..i] + [predecessor];
      if immediate[predecessor].Some? {
        if newIdom.None? {
          newIdom := Some(predecessor);
          FirstMeets(g, t, blocks[..i], predecessor);
        } else {
          var current := newIdom.value;
          var r := Intersect(g, predecessor, current, immediate, orderNumber, parent);
          NextMeets(g, t, blocks[..i], predecessor, current, r);
          newIdom := Some(r);
        }
      } else {
        SkipMeets(g, t, blocks[..i], predecessor);
      }
    }
    assert blocks[..|blocks|] == blocks;
  }

  ghost predicate NoneRecorded(t: Tree, blocks: seq<nat>) {
    forall p: nat :: p in blocks ==> !t.Has(p)
  }

  lemma FirstMeets(g: Graph, t: Tree, blocks: seq<nat>, p: nat)
    requires t.Valid() && t.Has(p) && NoneRecorded(t, blocks)
    ensures !NoneRecorded(t, blocks + [p]) && Meets(g, t, blocks + [p], p)
  {
    assert p in blocks + [p];
  }

  lemma SkipMeets(g: Graph, t: Tree, blocks: seq<nat>, p: nat)
    requires !t.Has(p)
    ensures NoneRecorded(t, blocks + [p]) <==> NoneRecorded(t, blocks)
    ensures forall y: nat :: Meets(g, t, blocks, y) ==> Meets(g, t, blocks + [p], y)
  {
    forall x: nat
      ensures AboveAll(t, blocks + [p], x) <==> AboveAll(t, blocks, x)
    {
    }
  }

  lemma NextMeets(g: Graph, t: Tree, blocks: seq<nat>, p: nat, current: nat, r: nat)
    requires t.Valid() && t.Has(p) && Meets(g, t, blocks, current)
    requires t.Has(r) && t.Anc(r, p) && t.Anc(r, current)
    requires forall x: nat :: t.Anc(x, p) && t.Anc(x, current) ==> t.Anc(x, r)
    requires forall d: nat :: g.Dom(d, p) && g.Dom(d, current) ==> g.Dom(d, r)
    ensures !NoneRecorded(t, blocks + [p]) && Meets(g, t, blocks + [p], r)
  {
    assert p in blocks + [p];
    forall q: nat | q in blocks + [p] && t.Has(q)
      ensures t.Anc(r, q)
    {
      if q in blocks {
        AncTransitive(t, r, current, q);
      }
    }
    forall x: nat | t.Has(x) && AboveAll(t, blocks + [p], x)
      ensures t.Anc(x, r)
    {
      assert AboveAll(t, blocks, x);
    }
    forall d: nat | forall q: nat :: q in blocks + [p] ==> g.Dom(d, q)
      ensures g.Dom(d, r)
    {
      assert forall q: nat :: q in blocks ==> g.Dom(d, q);
    }
  }

  /** By block: its immediate dominator, its place in `order`, a reverse postorder, and its two stamps. */
  datatype DomTree = DomTree(immediate: seq<nat>, order: seq<nat>, orderNumber: seq<nat>,
                             enter: seq<nat>, exit: seq<nat>)
  {
    ghost function AsTree(g: Graph): Tree {
      Tree(Wrap(immediate), orderNumber, g.entry)
    }

    /** Ancestry in the arrays is dominance in `g`, and `order` lists its blocks in reverse postorder. */
    ghost predicate Describes(g: Graph) {
      && g.Valid()
      && IsDomTree(g, AsTree(g))
      && Enumerates(g, order) && |order| == g.Size() && |orderNumber| == g.Size()
      && (forall i :: 0 <= i < |order| ==> order[i] < |orderNumber| && orderNumber[order[i]] == i)
      && |enter| == |exit| == g.Size()
      && (forall a: nat, b: nat :: a < |enter| && b < |enter| ==> (Inside(enter, exit, a, b) <==> AsTree(g).Anc(a, b)))
    }

    /** Does `a` dominate `b`?  Two comparisons of preorder stamps. */
    predicate Dominates(a: nat, b: nat) {
      Inside(enter, exit, a, b)
    }

    function ImmediateDominator(b: nat): Option<nat>
      requires b < |immediate|
    {
      if immediate[b] != b then Some(immediate[b]) else None
    }
  }

  /** The stamps answer dominance: `a` dominates `b` exactly when every path to `b` runs through it. */
  lemma DominatesIsDominance(g: Graph, t: DomTree, a: nat, b: nat)
    requires t.Describes(g) && a < g.Size() && b < g.Size()
    ensures t.Dominates(a, b) <==> g.Dom(a, b)
  {
    assert t.AsTree(g).Anc(a, b) <==> g.Dom(a, b);
  }

  /** The immediate dominator is the strict dominator every other strict dominator dominates; only
      the entry has none. */
  lemma ImmediateIsNearest(g: Graph, t: DomTree, b: nat)
    requires t.Describes(g) && b < g.Size()
    ensures |t.immediate| == g.Size()
    ensures t.ImmediateDominator(b).None? <==> b == g.entry
    ensures t.ImmediateDominator(b).Some? ==>
              var i := t.ImmediateDominator(b).value;
              && i < g.Size() && g.StrictDom(i, b)
              && forall d: nat :: d < g.Size() && g.StrictDom(d, b) ==> g.Dom(d, i)
  {
    var tree := t.AsTree(g);
    if b != g.entry {
      assert tree.Rises(b);
      var i := tree.Up(b);
      assert tree.Anc(i, b);
      forall d: nat | d < g.Size() && g.StrictDom(d, b)
        ensures g.Dom(d, i)
      {
        assert tree.Anc(d, b);
      }
    }
  }

  /** Sweeps to the fixed point, whose tree relates two blocks exactly when one dominates the other. */
  method Build(g: Graph) returns (t: DomTree)
    requires g.Valid() && g.AllReachable()
    ensures t.Describes(g)
    ensures forall a: nat, b: nat :: a < g.Size() && b < g.Size() ==> (t.Dominates(a, b) <==> g.Dom(a, b))
  {
    var order, parent := ReversePostorder(g);
    var orderNumber := NumberBlocks(g, order, parent);
    var immediate := Sweep(g, order, orderNumber, parent);
    var unwrapped := Unwrap(immediate);
    assert Wrap(unwrapped) == immediate;
    ghost var tree := Tree(immediate, orderNumber, g.entry);
    ListIsAsLongAsGraph(g, order);
    var enter, exit := StampPreorder(unwrapped, order, g.entry, tree);
    t := DomTree(unwrapped, order, orderNumber, enter, exit);
    assert t.AsTree(g) == tree;
    forall a: nat, b: nat | a < g.Size() && b < g.Size()
      ensures t.Dominates(a, b) <==> g.Dom(a, b)
    {
      DominatesIsDominance(g, t, a, b);
    }
  }

  method NumberBlocks(g: Graph, order: seq<nat>, ghost parent: map<nat, nat>) returns (orderNumber: seq<nat>)
    requires g.Valid() && g.AllReachable() && Enumerates(g, order) && ParentsFirst(g, order, parent)
    ensures |order| == g.Size() && |orderNumber| == g.Size()
    ensures forall i :: 0 <= i < |order| ==> order[i] < |orderNumber| && orderNumber[order[i]] == i
    ensures Numbered(g, orderNumber, parent)
  {
    hide Numbered, ParentsFirst;
    orderNumber := seq(g.Size(), _ => 0);
    for position := 0 to |order|
      invariant |orderNumber| == g.Size()
      invariant forall i :: 0 <= i < position ==> order[i] < |orderNumber| && orderNumber[order[i]] == i
    {
      assert order[position] in order;
      orderNumber := orderNumber[order[position] := position];
    }
    ListIsAsLongAsGraph(g, order);
    PositionsNumber(g, order, orderNumber, parent);
  }

  lemma ListIsAsLongAsGraph(g: Graph, order: seq<nat>)
    requires g.Valid() && g.AllReachable() && Enumerates(g, order)
    ensures |order| == g.Size()
    ensures forall b: nat :: b in order <==> b < g.Size()
  {
    FullListLength(order, g.Size());
  }

  lemma PositionsNumber(g: Graph, order: seq<nat>, orderNumber: seq<nat>, parent: map<nat, nat>)
    requires g.Valid() && g.AllReachable() && Enumerates(g, order) && ParentsFirst(g, order, parent)
    requires |order| == g.Size() && |orderNumber| == g.Size()
    requires forall i :: 0 <= i < |order| ==> order[i] < |orderNumber| && orderNumber[order[i]] == i
    ensures Numbered(g, orderNumber, parent)
  {
    ListIsAsLongAsGraph(g, order);
    forall v: nat | v < |orderNumber|
      ensures orderNumber[v] < |order| && order[orderNumber[v]] == v
    {
      assert v in order;
      var i :| 0 <= i < |order| && order[i] == v;
    }
    forall v: nat | v < |orderNumber| && v != g.entry
      ensures HasEarlierParent(g, orderNumber, parent, v)
    {
      var i := orderNumber[v];
      assert HasParent(g, order[i], parent) && parent[order[i]] in order[..i];
      var k :| 0 <= k < i && order[k] == parent[v];
      assert orderNumber[order[k]] == k;
    }
  }

  /** The blocks the sweep has left settled so far. */
  ghost predicate SettledUpTo(g: Graph, t: Tree, j: nat) {
    forall v: nat :: v < g.Size() && v != g.entry && t.Num(v) < j ==> Settled(g, t, v)
  }

  /** The fixed point itself.  Each sweep that changes anything lowers the sum of the recorded
      dominators' numbers, and one that changes nothing is the last. */
  method Sweep(g: Graph, order: seq<nat>, orderNumber: seq<nat>, ghost parent: map<nat, nat>) returns (immediate: Idoms)
    requires Numbered(g, orderNumber, parent) && |order| == g.Size()
    requires forall i :: 0 <= i < |order| ==> order[i] < |orderNumber| && orderNumber[order[i]] == i
    ensures IsDomTree(g, Tree(immediate, orderNumber, g.entry))
    ensures |immediate| == g.Size() && forall v :: 0 <= v < |immediate| ==> immediate[v].Some?
  {
    hide Sweeping, IsDomTree, SettledUpTo, Meets, NoneRecorded, Weight;
    immediate := seq(g.Size(), _ => None);
    immediate := immediate[g.entry := Some(g.entry)];
    StartSweeping(g, Tree(immediate, orderNumber, g.entry), parent);

    var changed := true;
    while changed
      invariant |immediate| == g.Size()
      invariant Sweeping(g, Tree(immediate, orderNumber, g.entry), parent, 1)
      invariant !changed ==> IsDomTree(g, Tree(immediate, orderNumber, g.entry))
      decreases Weight(Tree(immediate, orderNumber, g.entry), g.Size()), if changed then 1 else 0
    {
      changed := false;
      NothingToSettle(g, Tree(immediate, orderNumber, g.entry), parent);
      ghost var before := Weight(Tree(immediate, orderNumber, g.entry), g.Size());
      for position := 1 to |order|
        invariant |immediate| == g.Size()
        invariant Sweeping(g, Tree(immediate, orderNumber, g.entry), parent, position)
        invariant !changed ==> SettledUpTo(g, Tree(immediate, orderNumber, g.entry), position)
        invariant !changed ==> Weight(Tree(immediate, orderNumber, g.entry), g.Size()) == before
        invariant changed ==> Weight(Tree(immediate, orderNumber, g.entry), g.Size()) < before
      {
        ghost var t := Tree(immediate, orderNumber, g.entry);
        var block := order[position];
        SweepContext(g, t, parent, order, position);
        var newIdom := MeetPredecessors(g, g.PredsOf(block), immediate, orderNumber, parent);
        SomePredecessorRecorded(g, t, parent, block);
        var y := newIdom.value;
        VisitStep(g, t, parent, block, y);
        assert t.Num(block) == position;
        assert t.Move(block, y) == Tree(immediate[block := newIdom], orderNumber, g.entry);
        if immediate[block] != newIdom {
          VisitLowersWeight(g, t, parent, block, y);
          immediate := immediate[block := newIdom];
          changed := true;
        } else {
          assert immediate[block := newIdom] == immediate;
          if !changed {
            UnchangedSettles(g, t, block, y);
          }
        }
      }
      ghost var swept := Tree(immediate, orderNumber, g.entry);
      NextSweep(g, swept, parent);
      if !changed {
        AllSettled(g, swept);
        FixpointIsDomTree(g, swept, parent);
      }
    }
    EveryBlockRecorded(g, Tree(immediate, orderNumber, g.entry));
  }

  /** What one visit needs to know about the sweep it is part of. */
  lemma SweepContext(g: Graph, t: Tree, parent: map<nat, nat>, order: seq<nat>, position: nat)
    requires Sweeping(g, t, parent, position) && 0 < position < |order| == g.Size()
    requires forall i :: 0 <= i < |order| ==> order[i] < |t.num| && t.num[order[i]] == i
    ensures |t.imm| == |t.num| == g.Size() && t.Valid() && KeepsDominators(g, t) && Numbered(g, t.num, parent)
    ensures order[position] != g.entry && t.Num(order[position]) == position
    ensures forall p: nat :: p in g.PredsOf(order[position]) ==> p < g.Size()
  {
  }

  lemma NothingToSettle(g: Graph, t: Tree, parent: map<nat, nat>)
    requires Sweeping(g, t, parent, 1)
    ensures SettledUpTo(g, t, 1)
  {
    assert forall v: nat :: v < |t.num| && t.Num(v) == t.Num(g.entry) ==> v == g.entry;
  }

  lemma AllSettled(g: Graph, t: Tree)
    requires SettledUpTo(g, t, g.Size()) && |t.num| == g.Size()
    requires forall v: nat :: v < |t.num| ==> t.num[v] < |t.num|
    ensures forall v: nat :: v < g.Size() && v != g.entry ==> Settled(g, t, v)
  {
  }

  lemma EveryBlockRecorded(g: Graph, t: Tree)
    requires IsDomTree(g, t)
    ensures forall v :: 0 <= v < |t.imm| ==> t.imm[v].Some?
  {
    forall v | 0 <= v < |t.imm| ensures t.imm[v].Some? {
      assert t.Has(v);
    }
  }

  lemma StartSweeping(g: Graph, t: Tree, parent: map<nat, nat>)
    requires Numbered(g, t.num, parent) && t.entry == g.entry
    requires |t.imm| == g.Size()
    requires forall v: nat :: v < |t.imm| ==> t.imm[v] == if v == g.entry then Some(v) else None
    ensures Sweeping(g, t, parent, 1)
  {
    forall d: nat | g.StrictDom(d, g.entry)
      ensures false
    {
      assert g.PathTo([g.entry], g.entry);
    }
  }

  /** Reverse postorder puts a predecessor of every block before it. */
  lemma SomePredecessorRecorded(g: Graph, t: Tree, parent: map<nat, nat>, b: nat)
    requires b < |t.num| && b != g.entry && Sweeping(g, t, parent, t.Num(b))
    ensures !NoneRecorded(t, g.PredsOf(b))
  {
    assert HasEarlierParent(g, t.num, parent, b);
    assert t.Has(ParentOf(parent, b));
  }

  lemma VisitLowersWeight(g: Graph, t: Tree, parent: map<nat, nat>, u: nat, y: nat)
    requires u < |t.num| && Sweeping(g, t, parent, t.Num(u)) && u != g.entry
    requires Meets(g, t, g.PredsOf(u), y) && t.imm[u] != Some(y)
    ensures Weight(t.Move(u, y), |t.num|) < Weight(t, |t.num|)
  {
    if t.Has(u) {
      ChangeLowers(g, t, parent, u, y);
    }
    WeightFalls(t, u, y, |t.num|);
  }

  lemma UnchangedSettles(g: Graph, t: Tree, u: nat, y: nat)
    requires t.Valid() && u < |t.num| && SettledUpTo(g, t, t.Num(u)) && |t.num| == g.Size()
    requires Meets(g, t, g.PredsOf(u), y) && t.Has(u) && t.Up(u) == y
    ensures SettledUpTo(g, t, t.Num(u) + 1)
  {
    forall v: nat | v < g.Size() && v != g.entry && t.Num(v) < t.Num(u) + 1
      ensures Settled(g, t, v)
    {
      assert t.Num(v) == t.Num(u) ==> v == u;
    }
  }

  method Unwrap(immediate: Idoms) returns (unwrapped: seq<nat>)
    requires forall v :: 0 <= v < |immediate| ==> immediate[v].Some?
    ensures |unwrapped| == |immediate|
    ensures forall v :: 0 <= v < |immediate| ==> immediate[v] == Some(unwrapped[v])
  {
    unwrapped := seq(|immediate|, v requires 0 <= v < |immediate| && immediate[v].Some? => immediate[v].value);
  }
}
