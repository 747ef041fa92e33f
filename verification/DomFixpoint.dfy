/** The Cooper-Harvey-Kennedy fixed point: what every sweep keeps, why it stops, and why the tree
    it stops at is the dominator tree on every reachable graph, irreducible ones included. */
module DomFixpoint {
  import opened Graphs
  import opened IdomTree

  /** `num` is a reverse-postorder numbering with `parent` the search tree it came from. */
  ghost predicate Numbered(g: Graph, num: seq<nat>, parent: map<nat, nat>) {
    && g.Valid()
    && |num| == g.Size()
    && num[g.entry] == 0
    && (forall v: nat :: v < |num| ==> num[v] < |num|)
    && (forall a: nat, b: nat :: a < b < |num| ==> num[a] != num[b])
    && forall v: nat :: v < |num| && v != g.entry ==> HasEarlierParent(g, num, parent, v)
  }

  ghost predicate HasEarlierParent(g: Graph, num: seq<nat>, parent: map<nat, nat>, v: nat) {
    && v < |num| && ParentOf(parent, v) < |num|
    && g.Edge(ParentOf(parent, v), v) && ParentOf(parent, v) in g.PredsOf(v)
    && num[ParentOf(parent, v)] < num[v]
  }

  ghost function ParentOf(parent: map<nat, nat>, v: nat): nat {
    if v in parent then parent[v] else v
  }

  /** The search tree gives every block a path along which the numbers grow. */
  lemma {:induction false} GrowingPath(g: Graph, num: seq<nat>, parent: map<nat, nat>, v: nat) returns (p: seq<nat>)
    requires Numbered(g, num, parent) && v < |num|
    ensures g.PathTo(p, v)
    ensures forall x :: x in p ==> x < |num| && num[x] <= num[v]
    decreases num[v]
  {
    if v == g.entry {
      p := [v];
    } else {
      assert HasEarlierParent(g, num, parent, v);
      var q := GrowingPath(g, num, parent, ParentOf(parent, v));
      ExtendPath(g, q, ParentOf(parent, v), v);
      p := q + [v];
    }
  }

  /** A dominator comes no later in reverse postorder than what it dominates. */
  lemma DomComesFirst(g: Graph, num: seq<nat>, parent: map<nat, nat>, d: nat, v: nat)
    requires Numbered(g, num, parent) && v < |num| && g.Dom(d, v)
    ensures d < |num| && num[d] <= num[v]
  {
    var p := GrowingPath(g, num, parent, v);
  }

  // ---- what the estimates always satisfy ----

  /** Every strict dominator of a block dominates what is recorded for it. */
  ghost predicate KeepsDominators(g: Graph, t: Tree) {
    forall d: nat, v: nat :: t.Has(v) && g.StrictDom(d, v) ==> g.Dom(d, t.Up(v))
  }

  /** `x` is above each of `blocks` that has been recorded. */
  ghost predicate AboveAll(t: Tree, blocks: seq<nat>, x: nat) {
    forall p: nat :: p in blocks && t.Has(p) ==> t.Anc(x, p)
  }

  /** Nothing above all the predecessors of `v` lies below what is recorded for `v`. */
  ghost predicate Tight(g: Graph, t: Tree, v: nat) {
    forall x: nat :: t.Has(x) && AboveAll(t, g.PredsOf(v), x) ==> t.Num(x) <= t.Num(t.Up(v))
  }

  /** For a block the current sweep has not reached: whatever its parent still has above it, high
      enough, its recorded dominator has too ... */
  ghost predicate ParentAgrees(t: Tree, q: nat, v: nat) {
    forall x: nat :: t.Num(x) <= t.Num(t.Up(v)) && t.Anc(x, q) ==> t.Anc(x, t.Up(v))
  }

  /** ... and the blocks above its recorded dominator that the sweep has yet to visit are above
      its parent as well. */
  ghost predicate UnsweptNested(t: Tree, q: nat, v: nat, j: nat) {
    forall w: nat :: j <= t.Num(w) && t.Anc(w, t.Up(v)) ==> t.Anc(w, q)
  }

  /** What holds of one block, with search-tree parent `q`, when the blocks numbered below `j`
      have been visited in this sweep. */
  ghost predicate BlockInv(g: Graph, t: Tree, q: nat, j: nat, v: nat) {
    && t.Has(q)
    && Tight(g, t, v)
    && (t.Num(v) < j ==> t.Anc(t.Up(v), q))
    && (j <= t.Num(v) ==> ParentAgrees(t, q, v) && UnsweptNested(t, q, v, j))
  }

  /** Blocks are first recorded in order of their numbers. */
  ghost predicate RecordedInOrder(t: Tree, j: nat) {
    && (forall u: nat, v: nat :: t.Has(v) && u < |t.num| && t.Num(u) < t.Num(v) ==> t.Has(u))
    && (forall v: nat :: v < |t.num| && t.Num(v) < j ==> t.Has(v))
  }

  /** The state of one sweep when the blocks numbered below `j` have been visited. */
  ghost predicate Sweeping(g: Graph, t: Tree, parent: map<nat, nat>, j: nat) {
    && t.entry == g.entry
    && Numbered(g, t.num, parent)
    && t.Valid()
    && KeepsDominators(g, t)
    && RecordedInOrder(t, j)
    && forall v: nat :: t.Has(v) && v != g.entry ==> BlockInv(g, t, ParentOf(parent, v), j, v)
  }

  /** What folding `intersect` over the recorded ones of `blocks` yields. */
  ghost predicate Meets(g: Graph, t: Tree, blocks: seq<nat>, y: nat) {
    && t.Has(y)
    && AboveAll(t, blocks, y)
    && (forall x: nat :: t.Has(x) && AboveAll(t, blocks, x) ==> t.Anc(x, y))
    && (forall d: nat :: (forall p: nat :: p in blocks ==> g.Dom(d, p)) ==> g.Dom(d, y))
  }

  // ---- one visit ----

  /** The new estimate is above the old one: recorded dominators only ever move to ancestors. */
  lemma MeetMovesUp(g: Graph, t: Tree, parent: map<nat, nat>, u: nat, y: nat)
    requires u < |t.num| && Sweeping(g, t, parent, t.Num(u)) && u != g.entry
    requires Meets(g, t, g.PredsOf(u), y)
    ensures t.MovesUp(u, y)
    ensures t.Has(ParentOf(parent, u)) && t.Num(ParentOf(parent, u)) < t.Num(u)
    ensures t.Anc(y, ParentOf(parent, u))
  {
    assert HasEarlierParent(g, t.num, parent, u);
    var q := ParentOf(parent, u);
    AncIsRecorded(t, y, q);
    if t.Has(u) {
      assert BlockInv(g, t, q, t.Num(u), u);
      assert AboveAll(t, g.PredsOf(u), y);
      assert t.Rises(u);
    } else {
      forall v: nat | t.Has(v) ensures t.Up(v) != u {
        assert v != t.entry ==> t.Rises(v);
      }
    }
  }

  lemma StillAboveAll(t: Tree, u: nat, y: nat, blocks: seq<nat>, x: nat)
    requires t.MovesUp(u, y) && AboveAll(t.Move(u, y), blocks, x)
    ensures AboveAll(t, blocks, x)
  {
    forall p: nat | p in blocks && t.Has(p)
      ensures t.Anc(x, p)
    {
      assert t.Move(u, y).Has(p);
      MoveShrinks(t, u, y, x, p);
    }
  }

  lemma NotBelowLater(t: Tree, u: nat, v: nat)
    requires t.Valid() && t.Has(v) && t.Num(v) < t.Num(u)
    ensures !t.Anc(u, v)
  {
    if t.Anc(u, v) {
      AncIsRecorded(t, u, v);
    }
  }

  /** The visited block itself. */
  lemma VisitSettles(g: Graph, t: Tree, q: nat, u: nat, y: nat)
    requires t.MovesUp(u, y) && Meets(g, t, g.PredsOf(u), y)
    requires t.Has(q) && q in g.PredsOf(u) && t.Num(q) < t.Num(u)
    ensures BlockInv(g, t.Move(u, y), q, t.Num(u) + 1, u)
  {
    var t' := t.Move(u, y);
    MovedTree(t, u, y);
    NotBelowLater(t, u, q);
    MoveSpares(t, u, y, y, q);
    forall x: nat | t'.Has(x) && AboveAll(t', g.PredsOf(u), x)
      ensures t.Num(x) <= t.Num(y)
    {
      StillAboveAll(t, u, y, g.PredsOf(u), x);
      AncIsRecorded(t, x, q);
      AncIsRecorded(t, x, y);
    }
  }

  lemma TightSurvives(g: Graph, t: Tree, u: nat, y: nat, q: nat, v: nat)
    requires t.MovesUp(u, y) && t.Has(v) && v != u
    requires Tight(g, t, v)
    requires q in g.PredsOf(v) && t.Has(q)
    ensures Tight(g, t.Move(u, y), v)
  {
    var t' := t.Move(u, y);
    MovedTree(t, u, y);
    forall x: nat | t'.Has(x) && AboveAll(t', g.PredsOf(v), x)
      ensures t'.Num(x) <= t'.Num(t'.Up(v))
    {
      StillAboveAll(t, u, y, g.PredsOf(v), x);
      AncIsRecorded(t, x, q);
    }
  }

  lemma AgreementSurvives(t: Tree, u: nat, y: nat, q: nat, v: nat)
    requires t.MovesUp(u, y) && t.Has(v) && v != u && t.Has(q) && t.Has(t.Up(v))
    requires ParentAgrees(t, q, v) && UnsweptNested(t, q, v, t.Num(u))
    ensures ParentAgrees(t.Move(u, y), q, v)
  {
    var t' := t.Move(u, y);
    var a := t.Up(v);
    MovedTree(t, u, y);
    forall x: nat | t'.Num(x) <= t'.Num(a) && t'.Anc(x, q)
      ensures t'.Anc(x, a)
    {
      MoveShrinks(t, u, y, x, q);
      if !t.Anc(u, a) {
        MoveSpares(t, u, y, x, a);
      } else if t.Num(u) <= t.Num(x) {
        MoveKeeps(t, u, y, x, a);
      } else {
        assert t.Anc(u, q);
        MoveKeeps(t, u, y, u, q);
        MoveKeeps(t, u, y, u, a);
        AncChain(t', x, u, q);
        AncTransitive(t', x, u, a);
      }
    }
  }

  lemma NestingSurvives(t: Tree, u: nat, y: nat, q: nat, v: nat)
    requires t.MovesUp(u, y) && t.Has(v) && v != u && t.Has(q) && t.Has(t.Up(v))
    requires UnsweptNested(t, q, v, t.Num(u))
    ensures UnsweptNested(t.Move(u, y), q, v, t.Num(u) + 1)
  {
    var t' := t.Move(u, y);
    MovedTree(t, u, y);
    forall w: nat | t.Num(u) + 1 <= t'.Num(w) && t'.Anc(w, t'.Up(v))
      ensures t'.Anc(w, q)
    {
      MoveShrinks(t, u, y, w, t.Up(v));
      MoveKeeps(t, u, y, w, q);
    }
  }

  /** Every other block: this is where sweeping in reverse postorder matters. */
  lemma VisitSpares(g: Graph, t: Tree, q: nat, u: nat, y: nat, v: nat)
    requires t.MovesUp(u, y) && t.Has(v) && v != u && t.Has(t.Up(v))
    requires q in g.PredsOf(v) && t.Num(q) < t.Num(v)
    requires BlockInv(g, t, q, t.Num(u), v)
    ensures BlockInv(g, t.Move(u, y), q, t.Num(u) + 1, v)
  {
    MovedTree(t, u, y);
    TightSurvives(g, t, u, y, q, v);
    if t.Num(v) < t.Num(u) {
      NotBelowLater(t, u, q);
      MoveSpares(t, u, y, t.Up(v), q);
    } else {
      AgreementSurvives(t, u, y, q, v);
      NestingSurvives(t, u, y, q, v);
    }
  }

  lemma VisitKeepsDominators(g: Graph, t: Tree, parent: map<nat, nat>, u: nat, y: nat)
    requires Numbered(g, t.num, parent) && u < |t.num| && |t.imm| == |t.num|
    requires KeepsDominators(g, t) && Meets(g, t, g.PredsOf(u), y)
    ensures KeepsDominators(g, t.Move(u, y))
  {
    var t' := t.Move(u, y);
    forall d: nat, v: nat | t'.Has(v) && g.StrictDom(d, v)
      ensures g.Dom(d, t'.Up(v))
    {
      if v == u {
        forall p: nat | p in g.PredsOf(u)
          ensures g.Dom(d, p)
        {
          var k :| 0 <= k < |g.preds[u]| && g.preds[u][k] == p;
          assert g.Edge(p, u);
          StrictDomReachesPreds(g, d, p, u);
        }
      } else {
        assert t.Has(v) && t'.Up(v) == t.Up(v);
      }
    }
  }

  lemma VisitKeepsBlocks(g: Graph, t: Tree, parent: map<nat, nat>, u: nat, y: nat, v: nat)
    requires u < |t.num| && Sweeping(g, t, parent, t.Num(u)) && u != g.entry
    requires Meets(g, t, g.PredsOf(u), y) && t.MovesUp(u, y)
    requires t.Has(ParentOf(parent, u)) && (t.Has(v) || v == u) && v != g.entry
    ensures BlockInv(g, t.Move(u, y), ParentOf(parent, v), t.Num(u) + 1, v)
  {
    hide Tight, ParentAgrees, UnsweptNested, KeepsDominators, Meets, AboveAll;
    if v == u {
      assert HasEarlierParent(g, t.num, parent, u);
      VisitSettles(g, t, ParentOf(parent, u), u, y);
    } else {
      assert t.Rises(v);
      assert BlockInv(g, t, ParentOf(parent, v), t.Num(u), v);
      assert HasEarlierParent(g, t.num, parent, v);
      VisitSpares(g, t, ParentOf(parent, v), u, y, v);
    }
  }

  /** One visit of the sweep keeps everything and moves on to the next number. */
  lemma VisitStep(g: Graph, t: Tree, parent: map<nat, nat>, u: nat, y: nat)
    requires u < |t.num| && Sweeping(g, t, parent, t.Num(u)) && u != g.entry
    requires Meets(g, t, g.PredsOf(u), y)
    ensures Sweeping(g, t.Move(u, y), parent, t.Num(u) + 1)
  {
    hide BlockInv, Meets, Numbered, RecordedInOrder;
    var t' := t.Move(u, y);
    MeetMovesUp(g, t, parent, u, y);
    MovedTree(t, u, y);
    VisitKeepsDominators(g, t, parent, u, y);
    forall v: nat | t'.Has(v) && v != g.entry
      ensures BlockInv(g, t', ParentOf(parent, v), t.Num(u) + 1, v)
    {
      VisitKeepsBlocks(g, t, parent, u, y, v);
    }
    VisitRecords(t, u, y);
    assert t'.num == t.num && t'.entry == t.entry;
    hide KeepsDominators;
  }

  lemma VisitRecords(t: Tree, u: nat, y: nat)
    requires t.MovesUp(u, y) && RecordedInOrder(t, t.Num(u))
    ensures RecordedInOrder(t.Move(u, y), t.Num(u) + 1)
  {
    var t' := t.Move(u, y);
    MovedTree(t, u, y);
    forall v: nat | v < |t'.num| && t'.Num(v) < t.Num(u) + 1
      ensures t'.Has(v)
    {
      assert t.Num(v) == t.Num(u) ==> v == u;
    }
  }

  /** A visit that changes a recorded dominator lowers its number. */
  lemma ChangeLowers(g: Graph, t: Tree, parent: map<nat, nat>, u: nat, y: nat)
    requires u < |t.num| && Sweeping(g, t, parent, t.Num(u)) && u != g.entry
    requires Meets(g, t, g.PredsOf(u), y) && t.Has(u) && y != t.Up(u)
    ensures t.Num(y) < t.Num(t.Up(u))
  {
    MeetMovesUp(g, t, parent, u, y);
    assert t.Rises(u);
    AncIsRecorded(t, y, t.Up(u));
  }

  /** A finished sweep is a state to start the next one from. */
  lemma NextSweep(g: Graph, t: Tree, parent: map<nat, nat>)
    requires Sweeping(g, t, parent, |t.num|)
    ensures Sweeping(g, t, parent, 1)
  {
    forall v: nat | t.Has(v) && v != g.entry
      ensures BlockInv(g, t, ParentOf(parent, v), 1, v)
    {
      var a, q := t.Up(v), ParentOf(parent, v);
      assert BlockInv(g, t, q, |t.num|, v);
      assert t.Rises(v);
      forall x: nat | t.Num(x) <= t.Num(a) && t.Anc(x, q)
        ensures t.Anc(x, a)
      {
        AncChain(t, x, a, q);
      }
      forall w: nat | 1 <= t.Num(w) && t.Anc(w, a)
        ensures t.Anc(w, q)
      {
        AncTransitive(t, w, a, q);
      }
    }
  }

  // ---- the tree the fixed point stops at ----

  /** What is recorded for `v` is above all its predecessors, as after an unchanged visit. */
  ghost predicate Settled(g: Graph, t: Tree, v: nat) {
    t.Has(v) && AboveAll(t, g.PredsOf(v), t.Up(v))
  }

  /** Every block is recorded, and being above in the tree is dominance. */
  ghost predicate IsDomTree(g: Graph, t: Tree) {
    && t.Valid() && t.entry == g.entry && |t.imm| == g.Size()
    && (forall v: nat :: v < g.Size() ==> t.Has(v))
    && (forall a: nat, b: nat :: a < g.Size() && b < g.Size() ==> (t.Anc(a, b) <==> g.Dom(a, b)))
  }

  lemma {:induction false} AncIsOnPath(g: Graph, t: Tree, a: nat, v: nat, p: seq<nat>)
    requires g.Valid() && t.Valid() && t.entry == g.entry && |t.imm| == g.Size()
    requires forall u: nat :: u < g.Size() && u != g.entry ==> Settled(g, t, u)
    requires v < g.Size() && t.Anc(a, v) && g.PathTo(p, v)
    ensures a in p
    decreases |p|
  {
    if a != v {
      var q := p[|p| - 2];
      assert g.Edge(p[|p| - 2], p[|p| - 2 + 1]);
      assert Settled(g, t, v);
      assert q in g.PredsOf(v);
      assert q != g.entry ==> Settled(g, t, q);
      AncTransitive(t, a, t.Up(v), q);
      PathPrefix(g, p, v, |p| - 2);
      AncIsOnPath(g, t, a, q, p[..|p| - 1]);
    }
  }

  lemma {:induction false} DomIsAnc(g: Graph, t: Tree, d: nat, v: nat)
    requires g.Valid() && t.Valid() && t.entry == g.entry && |t.imm| == g.Size()
    requires KeepsDominators(g, t)
    requires t.Has(v) && g.Dom(d, v)
    ensures t.Anc(d, v)
    decreases t.Num(v)
  {
    if d != v {
      if v == g.entry {
        assert g.PathTo([v], v);
        assert false;
      } else {
        assert t.Rises(v);
        assert g.StrictDom(d, v);
        DomIsAnc(g, t, d, t.Up(v));
      }
    }
  }

  /** A sweep that changed nothing leaves the dominator tree. */
  lemma FixpointIsDomTree(g: Graph, t: Tree, parent: map<nat, nat>)
    requires Sweeping(g, t, parent, |t.num|)
    requires forall v: nat :: v < g.Size() && v != g.entry ==> Settled(g, t, v)
    ensures IsDomTree(g, t)
  {
    forall a: nat, b: nat | a < g.Size() && b < g.Size()
      ensures t.Anc(a, b) <==> g.Dom(a, b)
    {
      if t.Anc(a, b) {
        forall p | g.PathTo(p, b) ensures a in p {
          AncIsOnPath(g, t, a, b, p);
        }
      }
      if g.Dom(a, b) {
        DomIsAnc(g, t, a, b);
      }
    }
  }

  // ---- termination ----

  /** The sum of the recorded dominators' numbers, an unknown one counting as much as there are blocks. */
  ghost function Weight(t: Tree, k: nat): nat {
    if k == 0 then 0
    else Weight(t, k - 1) + (if t.Has(k - 1) then t.Num(t.Up(k - 1)) else |t.num|)
  }

  lemma {:induction false} WeightFalls(t: Tree, u: nat, y: nat, k: nat)
    requires u < |t.imm| && t.Num(y) < |t.num|
    requires t.Has(u) ==> t.Num(y) < t.Num(t.Up(u))
    ensures Weight(t.Move(u, y), k) <= Weight(t, k)
    ensures u < k ==> Weight(t.Move(u, y), k) < Weight(t, k)
  {
    if k > 0 {
      WeightFalls(t, u, y, k - 1);
    }
  }
}
