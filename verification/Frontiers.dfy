/** Dominance frontiers by climbing from each predecessor, and phi placement by worklist. */
module Frontiers {
  import opened Graphs
  import opened IdomTree
  import opened DomFixpoint
  import opened Dominators

  /** The climb from `p` to just below `top` passes through `a`. */
  ghost predicate OnClimb(t: Tree, p: nat, top: nat, a: nat) {
    t.Anc(a, p) && !t.Anc(a, top)
  }

  /** Some predecessor of the join `b` climbs through `a`. */
  ghost predicate Climbed(g: Graph, t: Tree, b: nat, a: nat) {
    |g.PredsOf(b)| >= 2 && exists p: nat :: p in g.PredsOf(b) && OnClimb(t, p, t.Up(b), a)
  }

  /** What strictly dominates `b` is exactly what is above `b`'s immediate dominator. */
  lemma AboveImmediate(g: Graph, t: Tree, b: nat, a: nat)
    requires g.Valid() && IsDomTree(g, t) && b < g.Size() && b != g.entry && a < g.Size()
    ensures t.Has(t.Up(b)) && (t.Anc(a, t.Up(b)) <==> g.StrictDom(a, b))
  {
    assert t.Rises(b);
    assert t.Anc(a, b) <==> g.Dom(a, b);
    if t.Anc(b, t.Up(b)) {
      AncIsRecorded(t, b, t.Up(b));
    }
  }

  /** The immediate dominator is above every predecessor. */
  lemma ImmediateAbovePreds(g: Graph, t: Tree, b: nat, p: nat)
    requires g.Valid() && IsDomTree(g, t) && b < g.Size() && p in g.PredsOf(b)
    ensures p < g.Size() && t.Has(p) && t.Anc(t.Up(b), p)
  {
    var k :| 0 <= k < |g.preds[b]| && g.preds[b][k] == p;
    assert g.Edge(p, b);
    if b == g.entry {
      EntryIsAnc(t, p);
    } else {
      assert t.Rises(b);
      AboveImmediate(g, t, b, t.Up(b));
      StrictDomReachesPreds(g, t.Up(b), p, b);
      assert t.Anc(t.Up(b), p) <==> g.Dom(t.Up(b), p);
    }
  }

  lemma {:induction false} NotItsOwnOnlyPred(g: Graph, b: nat, p: seq<nat>)
    requires g.Valid() && b < g.Size() && b != g.entry && g.PathTo(p, b)
    requires g.PredsOf(b) == [b]
    ensures false
    decreases |p|
  {
    var q := p[|p| - 2];
    assert g.Edge(p[|p| - 2], p[|p| - 2 + 1]);
    assert q in g.PredsOf(b);
    PathPrefix(g, p, b, |p| - 2);
    NotItsOwnOnlyPred(g, b, p[..|p| - 1]);
  }

  /** A block with a single predecessor is in no frontier: that predecessor is its immediate dominator. */
  lemma SinglePredIsImmediate(g: Graph, t: Tree, b: nat, p: nat)
    requires g.Valid() && g.AllReachable() && IsDomTree(g, t) && b < g.Size() && b != g.entry
    requires g.PredsOf(b) == [p]
    ensures p == t.Up(b)
  {
    assert p in g.PredsOf(b);
    ImmediateAbovePreds(g, t, b, p);
    assert g.Reachable(b);
    var path :| g.PathTo(path, b);
    if p == b {
      NotItsOwnOnlyPred(g, b, path);
    }
    forall q | g.PathTo(q, b)
      ensures p in q
    {
      assert g.Edge(q[|q| - 2], q[|q| - 2 + 1]);
      assert q[|q| - 2] in g.PredsOf(b);
    }
    AboveImmediate(g, t, b, p);
    AncIsAntisymmetric(t, p, t.Up(b));
  }

  /** For every block but the entry, being climbed through is being in the frontier. */
  lemma ClimbedIsFrontier(g: Graph, t: Tree, b: nat, a: nat)
    requires g.Valid() && g.AllReachable() && IsDomTree(g, t)
    requires a < g.Size() && b < g.Size() && b != g.entry
    ensures Climbed(g, t, b, a) <==> g.InFrontier(a, b)
  {
    AboveImmediate(g, t, b, a);
    forall p: nat | p in g.PredsOf(b)
      ensures p < g.Size() && (t.Anc(a, p) <==> g.Dom(a, p))
    {
      ImmediateAbovePreds(g, t, b, p);
    }
    assert g.PredsOf(b) == g.preds[b];
    if g.InFrontier(a, b) {
      var p: nat :| p in g.preds[b] && g.Dom(a, p);
      assert OnClimb(t, p, t.Up(b), a);
      if |g.PredsOf(b)| < 2 {
        assert g.PredsOf(b) == [p];
        SinglePredIsImmediate(g, t, b, p);
      }
    }
  }

  /** Record `block` in the frontier of every block on the climb from `predecessor` to `idom`. */
  method Climb(g: Graph, tree: DomTree, frontiers: seq<set<nat>>, block: nat, predecessor: nat)
    returns (extended: seq<set<nat>>)
    requires tree.Describes(g) && |frontiers| == g.Size()
    requires block < g.Size() && predecessor in g.PredsOf(block)
    ensures |extended| == g.Size()
    ensures forall a: nat :: a < g.Size() ==>
              extended[a] == frontiers[a] +
                (if OnClimb(tree.AsTree(g), predecessor, tree.AsTree(g).Up(block), a) then {block} else {})
  {
    ghost var t := tree.AsTree(g);
    ImmediateAbovePreds(g, t, block, predecessor);
    var idom := tree.immediate[block];
    assert t.Has(block) && idom == t.Up(block);
    var runner := predecessor;
    extended := frontiers;
    while runner != idom
      invariant |extended| == g.Size()
      invariant t.Has(runner) && t.Anc(runner, predecessor) && t.Anc(idom, runner)
      invariant forall a: nat :: a < g.Size() ==>
                  extended[a] == frontiers[a] + (if OnClimb(t, predecessor, runner, a) then {block} else {})
      decreases t.Num(runner)
    {
      assert t.Rises(runner);
      ClimbPast(t, predecessor, runner);
      extended := extended[runner := extended[runner] + {block}];
      runner := tree.immediate[runner];
    }
  }

  lemma ClimbPast(t: Tree, p: nat, runner: nat)
    requires t.Valid() && t.Has(p) && t.Has(runner) && t.Anc(runner, p) && runner != t.entry && t.Rises(runner)
    ensures t.Anc(t.Up(runner), p)
    ensures forall a: nat :: OnClimb(t, p, t.Up(runner), a) <==> OnClimb(t, p, runner, a) || a == runner
  {
    AncTransitive(t, t.Up(runner), runner, p);
    if t.Anc(runner, t.Up(runner)) {
      AncIsRecorded(t, runner, t.Up(runner));
    }
  }

  /** What `DomTree.frontiers` computes. */
  ghost predicate AreClimbed(g: Graph, t: Tree, frontiers: seq<set<nat>>, upto: nat) {
    && |frontiers| == g.Size()
    && forall a: nat, b: nat :: a < g.Size() ==> (b in frontiers[a] <==> b < upto && Climbed(g, t, b, a))
  }

  /** For each block exactly the blocks where its dominance ends. */
  method ComputeFrontiers(g: Graph, tree: DomTree) returns (frontiers: seq<set<nat>>)
    requires tree.Describes(g) && g.AllReachable()
    ensures AreClimbed(g, tree.AsTree(g), frontiers, g.Size())
    ensures |frontiers| == g.Size()
    ensures forall a: nat, b: nat :: a < g.Size() && b < g.Size() && b != g.entry ==>
              (b in frontiers[a] <==> g.InFrontier(a, b))
    ensures forall a: nat, b: nat :: a < g.Size() && b in frontiers[a] ==> b < g.Size()
  {
    ghost var t := tree.AsTree(g);
    frontiers := seq(g.Size(), _ => {});
    for block := 0 to g.Size()
      invariant AreClimbed(g, t, frontiers, block)
    {
      var predecessors := g.PredsOf(block);
      if |predecessors| >= 2 {
        ghost var before := frontiers;
        for i := 0 to |predecessors|
          invariant |frontiers| == g.Size()
          invariant forall a: nat, b: nat :: a < g.Size() ==>
                      (b in frontiers[a] <==>
                         b in before[a] ||
                         (b == block && exists p: nat :: p in predecessors[..i] && OnClimb(t, p, t.Up(block), a)))
        {
          assert predecessors[..i + 1] == predecessors[..i] + [predecessors[i]];
          assert predecessors[i] in predecessors;
          frontiers := Climb(g, tree, frontiers, block, predecessors[i]);
        }
        assert predecessors[..|predecessors|] == predecessors;
      }
    }
    forall a: nat, b: nat | a < g.Size() && b < g.Size() && b != g.entry
      ensures b in frontiers[a] <==> g.InFrontier(a, b)
    {
      ClimbedIsFrontier(g, t, b, a);
    }
  }

  /** The computed frontiers are the dominance frontiers of every block exactly when nothing branches
      into the entry: an edge into the entry puts it in its own frontier, where no climb records it. */
  lemma FrontiersExactIff(g: Graph, t: Tree, frontiers: seq<set<nat>>)
    requires g.Valid() && g.AllReachable() && IsDomTree(g, t) && AreClimbed(g, t, frontiers, g.Size())
    ensures (forall a: nat, b: nat :: a < g.Size() && b < g.Size() ==> (b in frontiers[a] <==> g.InFrontier(a, b)))
            <==> g.preds[g.entry] == []
  {
    if g.preds[g.entry] == [] {
      forall a: nat, b: nat | a < g.Size() && b < g.Size()
        ensures b in frontiers[a] <==> g.InFrontier(a, b)
      {
        if b != g.entry {
          ClimbedIsFrontier(g, t, b, a);
        }
      }
    } else {
      var p := g.preds[g.entry][0];
      assert p in g.preds[g.entry];
      EntryDominates(g, p);
      assert g.InFrontier(g.entry, g.entry);
      if Climbed(g, t, g.entry, g.entry) {
        assert t.Anc(g.entry, t.Up(g.entry));
      }
    }
  }

  // ---- phi placement ----

  /** `s` holds the frontier of every block in `defs` and of every block in itself. */
  ghost predicate ClosedUnderFrontiers(frontiers: seq<set<nat>>, defs: set<nat>, s: set<nat>) {
    forall b: nat, f: nat :: b < |frontiers| && (b in defs || b in s) && f in frontiers[b] ==> f in s
  }

  /** The iterated dominance frontier: the least such set. */
  ghost predicate IteratedFrontier(frontiers: seq<set<nat>>, defs: set<nat>, s: set<nat>) {
    && ClosedUnderFrontiers(frontiers, defs, s)
    && forall other: set<nat> :: ClosedUnderFrontiers(frontiers, defs, other) ==> s <= other
  }

  /** Every set closed under the frontiers holds what was placed so far, and what is still queued
      is a definition or was placed. */
  ghost predicate OnlyWhatIsNeeded(frontiers: seq<set<nat>>, defs: set<nat>, needs: set<nat>) {
    forall other: set<nat> :: ClosedUnderFrontiers(frontiers, defs, other) ==> needs <= other
  }

  ghost predicate Inside(frontiers: seq<set<nat>>) {
    forall b: nat, f: nat :: b < |frontiers| && f in frontiers[b] ==> f < |frontiers|
  }

  /** One slot's phi blocks. */
  method PlaceSlot(frontiers: seq<set<nat>>, definedIn: set<nat>) returns (needsPhi: set<nat>)
    requires Inside(frontiers) && forall b: nat :: b in definedIn ==> b < |frontiers|
    ensures IteratedFrontier(frontiers, definedIn, needsPhi)
    ensures forall b: nat :: b in needsPhi ==> b < |frontiers|
  {
    needsPhi := {};
    var worklist: seq<nat> := ListOf(definedIn);
    ghost var blocks := set i: nat {:trigger InRange(frontiers, i)} | i < |frontiers| && InRange(frontiers, i);
    while |worklist| > 0
      invariant needsPhi <= blocks
      invariant forall b :: b in worklist ==> b < |frontiers| && (b in definedIn || b in needsPhi)
      invariant OnlyWhatIsNeeded(frontiers, definedIn, needsPhi)
      invariant Handled(frontiers, definedIn, needsPhi, worklist)
      decreases blocks - needsPhi, |worklist|
    {
      var block := worklist[|worklist| - 1];
      assert block in worklist;
      ghost var before := worklist;
      ghost var placed := needsPhi;
      worklist := worklist[..|worklist| - 1];
      assert worklist + [block] == before;
      assert forall b :: b in worklist ==> b in before;
      var todo: set<nat> := frontiers[block];
      while todo != {}
        invariant todo <= frontiers[block]
        invariant placed <= needsPhi <= blocks
        invariant needsPhi == placed ==> worklist == before[..|before| - 1]
        invariant forall b :: b in worklist ==> b < |frontiers| && (b in definedIn || b in needsPhi)
        invariant OnlyWhatIsNeeded(frontiers, definedIn, needsPhi)
        invariant forall f :: f in frontiers[block] && f !in todo ==> f in needsPhi
        invariant Handled(frontiers, definedIn, needsPhi, worklist + [block])
        decreases todo
      {
        var frontier :| frontier in todo;
        todo := todo - {frontier};
        if frontier !in needsPhi {
          assert InRange(frontiers, frontier);
          AddNeeded(frontiers, definedIn, needsPhi, block, frontier);
          needsPhi := needsPhi + {frontier};
          if frontier !in definedIn {
            worklist := worklist + [frontier];
          }
        }
      }
    }
  }

  /** Every definition and placed block that is not queued has had its frontier placed. */
  ghost predicate Handled(frontiers: seq<set<nat>>, defs: set<nat>, needs: set<nat>, queued: seq<nat>) {
    forall b: nat, f: nat ::
      b < |frontiers| && (b in defs || b in needs) && b !in queued && f in frontiers[b] ==> f in needs
  }

  ghost predicate InRange(frontiers: seq<set<nat>>, b: nat) {
    b < |frontiers|
  }

  lemma AddNeeded(frontiers: seq<set<nat>>, defs: set<nat>, needs: set<nat>, b: nat, f: nat)
    requires OnlyWhatIsNeeded(frontiers, defs, needs)
    requires b < |frontiers| && (b in defs || b in needs) && f in frontiers[b]
    ensures OnlyWhatIsNeeded(frontiers, defs, needs + {f})
  {
    forall other: set<nat> | ClosedUnderFrontiers(frontiers, defs, other)
      ensures needs + {f} <= other
    {
      assert needs <= other;
    }
  }

  method ListOf(s: set<nat>) returns (list: seq<nat>)
    ensures forall x :: x in list <==> x in s
  {
    list := [];
    var left := s;
    while left != {}
      invariant left <= s
      invariant forall x :: x in list <==> x in s && x !in left
      decreases left
    {
      var x :| x in left;
      left := left - {x};
      list := list + [x];
    }
  }

  /** For each slot the blocks storing to it, and the slots a load may find stored by another block. */
  datatype SlotUsage = SlotUsage(definitions: map<nat, set<nat>>, nonLocal: set<nat>)

  /** `placement` maps a non-local slot to the iterated frontier of the blocks defining it, unless that is empty,
      and no other slot to anything. */
  ghost predicate IsPlacement(frontiers: seq<set<nat>>, usage: SlotUsage, placement: map<nat, set<nat>>) {
    forall s: nat ::
      && (s in placement ==> s in usage.definitions && s in usage.nonLocal && placement[s] != {})
      && (s in usage.definitions && s in usage.nonLocal ==>
            IteratedFrontier(frontiers, usage.definitions[s], if s in placement then placement[s] else {}))
  }

  method PhiPlacement(frontiers: seq<set<nat>>, usage: SlotUsage) returns (placement: map<nat, set<nat>>)
    requires Inside(frontiers)
    requires forall s: nat, b: nat :: s in usage.definitions && b in usage.definitions[s] ==> b < |frontiers|
    ensures IsPlacement(frontiers, usage, placement)
    ensures forall s: nat, b: nat :: s in placement && b in placement[s] ==> b < |frontiers|
  {
    placement := map[];
    var left := usage.definitions.Keys;
    while left != {}
      invariant left <= usage.definitions.Keys
      invariant forall s: nat, b: nat :: s in placement && b in placement[s] ==> b < |frontiers|
      invariant forall s: nat :: s in placement ==>
                  s in usage.definitions && s in usage.nonLocal && placement[s] != {} && s !in left
      invariant forall s: nat :: s in usage.definitions && s in usage.nonLocal && s !in left ==>
                  IteratedFrontier(frontiers, usage.definitions[s], if s in placement then placement[s] else {})
      decreases left
    {
      var slot :| slot in left;
      left := left - {slot};
      if slot in usage.nonLocal {
        var needsPhi := PlaceSlot(frontiers, usage.definitions[slot]);
        if needsPhi != {} {
          placement := placement[slot := needsPhi];
        }
      }
    }
  }
}
