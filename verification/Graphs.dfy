/** Control-flow graphs as adjacency lists, and dominance defined by paths. */
module Graphs {

  /** A control-flow graph.  `preds[b]` and `succs[b]` list the incoming and outgoing edges of
      block `b`; parallel edges are repeated entries. */
  datatype Graph = Graph(entry: nat, preds: seq<seq<nat>>, succs: seq<seq<nat>>)
  {
    function Size(): nat { |succs| }

    /** The incoming edges of a block, none for a number that is not a block. */
    function PredsOf(b: nat): seq<nat> { if b < |preds| then preds[b] else [] }

    /** Both lists describe one edge set over the same blocks, and the entry is one of them. */
    ghost predicate Valid() {
      && |preds| == |succs|
      && entry < Size()
      && (forall b, k :: 0 <= b < Size() && 0 <= k < |succs[b]| ==> succs[b][k] < Size())
      && (forall b, k :: 0 <= b < Size() && 0 <= k < |preds[b]| ==> preds[b][k] < Size())
      && (forall a, b :: 0 <= a < Size() && 0 <= b < Size() ==> (b in succs[a] <==> a in preds[b]))
    }

    ghost predicate Edge(a: nat, b: nat) {
      a < Size() && b < Size() && b in succs[a]
    }

    /** A nonempty walk along edges. */
    ghost predicate IsPath(p: seq<nat>) {
      && |p| > 0
      && p[0] < Size()
      && forall i :: 0 <= i < |p| - 1 ==> Edge(p[i], p[i + 1])
    }

    ghost predicate PathTo(p: seq<nat>, b: nat) {
      IsPath(p) && p[0] == entry && p[|p| - 1] == b
    }

    ghost predicate Reachable(b: nat) {
      exists p :: PathTo(p, b)
    }

    ghost predicate AllReachable() {
      forall b :: 0 <= b < Size() ==> Reachable(b)
    }

    /** No way from the entry to `b` avoids `a`. */
    ghost predicate Dom(a: nat, b: nat) {
      forall p :: PathTo(p, b) ==> a in p
    }

    ghost predicate StrictDom(a: nat, b: nat) {
      a != b && Dom(a, b)
    }

    /** `b` is in the dominance frontier of `a`: `a` dominates a predecessor of `b` without
        strictly dominating `b`. */
    ghost predicate InFrontier(a: nat, b: nat) {
      && b < Size() && b < |preds|
      && !StrictDom(a, b)
      && exists p :: p in preds[b] && Dom(a, p)
    }
  }

  lemma ExtendPath(g: Graph, p: seq<nat>, a: nat, b: nat)
    requires g.PathTo(p, a) && g.Edge(a, b)
    ensures g.PathTo(p + [b], b)
  {
    var q := p + [b];
    forall i | 0 <= i < |q| - 1
      ensures g.Edge(q[i], q[i + 1])
    {
      if i < |p| - 1 {
        assert g.Edge(p[i], p[i + 1]);
      }
    }
  }

  lemma ReachableStep(g: Graph, a: nat, b: nat)
    requires g.Reachable(a) && g.Edge(a, b)
    ensures g.Reachable(b)
  {
    var p :| g.PathTo(p, a);
    ExtendPath(g, p, a, b);
  }

  /** A prefix of a path is a path to its own last block. */
  lemma PathPrefix(g: Graph, p: seq<nat>, b: nat, k: nat)
    requires g.PathTo(p, b) && k < |p|
    ensures g.PathTo(p[..k + 1], p[k])
  {
    var q := p[..k + 1];
    forall i | 0 <= i < |q| - 1
      ensures g.Edge(q[i], q[i + 1])
    {
      assert g.Edge(p[i], p[i + 1]);
    }
  }

  /** What strictly dominates a block dominates every predecessor of it. */
  lemma StrictDomReachesPreds(g: Graph, d: nat, p: nat, b: nat)
    requires g.Edge(p, b) && g.StrictDom(d, b)
    ensures g.Dom(d, p)
  {
    forall q | g.PathTo(q, p)
      ensures d in q
    {
      ExtendPath(g, q, p, b);
    }
  }

  lemma DomTransitive(g: Graph, a: nat, b: nat, c: nat)
    requires g.Dom(a, b) && g.Dom(b, c)
    ensures g.Dom(a, c)
  {
    forall p | g.PathTo(p, c)
      ensures a in p
    {
      assert b in p;
      var k :| 0 <= k < |p| && p[k] == b;
      PathPrefix(g, p, c, k);
      assert a in p[..k + 1];
    }
  }

  /** Two blocks dominating each other are the same block. */
  lemma DomAntisymmetric(g: Graph, a: nat, b: nat)
    requires g.Dom(a, b) && g.Dom(b, a) && g.Reachable(b)
    ensures a == b
  {
    if a != b {
      var p :| g.PathTo(p, b);
      DomAntisymmetricOn(g, a, b, p, b);
    }
  }

  /** No path ends in one of two distinct mutually dominating blocks. */
  lemma {:induction false} DomAntisymmetricOn(g: Graph, a: nat, b: nat, p: seq<nat>, last: nat)
    requires a != b && g.Dom(a, b) && g.Dom(b, a)
    requires g.PathTo(p, last) && (last == a || last == b)
    ensures false
    decreases |p|
  {
    var other := if last == a then b else a;
    assert other in p;
    var k :| 0 <= k < |p| && p[k] == other;
    PathPrefix(g, p, last, k);
    DomAntisymmetricOn(g, a, b, p[..k + 1], other);
  }

  lemma EntryDominates(g: Graph, b: nat)
    ensures g.Dom(g.entry, b)
  {
    forall p | g.PathTo(p, b) ensures g.entry in p {
      assert p[0] == g.entry;
    }
  }
}
