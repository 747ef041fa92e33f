/** Flattening a control-flow graph into one sequence of instructions. */
module Linear {
  import opened IdomTree
  import opened Lists
  import opened Vregs

  type LabelId = nat

  datatype BasicBlock = BasicBlock(instructions: seq<Instr>, successors: seq<LabelId>)

  datatype Cfg = Cfg(blocks: map<LabelId, BasicBlock>, entry: LabelId)
  {
    /** The instructions of a block; one that does not exist has none. */
    function Body(name: LabelId): seq<Instr> {
      if name in blocks then blocks[name].instructions else []
    }

    function Successors(name: LabelId): seq<LabelId> {
      if name in blocks then blocks[name].successors else []
    }
  }

  /** One block's half-open slice of the instructions. */
  datatype LinearBlock = LinearBlock(name: LabelId, start: nat, end: nat)

  datatype Linearized = Linearized(instructions: seq<Instr>, blocks: seq<LinearBlock>)

  function Labels(blocks: seq<LinearBlock>): (r: seq<LabelId>)
    ensures |r| == |blocks| && forall i: nat :: i < |r| ==> r[i] == blocks[i].name
  {
    seq(|blocks|, i requires 0 <= i < |blocks| => blocks[i].name)
  }

  // ---- the order of the blocks ----

  ghost predicate Reaches(cfg: Cfg, path: seq<LabelId>, name: LabelId) {
    && |path| > 0 && path[0] == cfg.entry && path[|path| - 1] == name
    && forall i: nat :: i + 1 < |path| ==> path[i + 1] in cfg.Successors(path[i])
  }

  ghost predicate Reachable(cfg: Cfg, name: LabelId) {
    exists path: seq<LabelId> :: Reaches(cfg, path, name)
  }

  lemma ReachOn(cfg: Cfg, a: LabelId, b: LabelId)
    requires Reachable(cfg, a) && b in cfg.Successors(a)
    ensures Reachable(cfg, b)
  {
    var path: seq<LabelId> :| Reaches(cfg, path, a);
    assert Reaches(cfg, path + [b], b);
  }

  lemma {:induction false} ClosedIsReachable(cfg: Cfg, visited: set<LabelId>, path: seq<LabelId>, k: nat)
    requires cfg.entry in visited
    requires forall a: LabelId, b: LabelId :: a in visited && b in cfg.Successors(a) ==> b in visited
    requires |path| > 0 && Reaches(cfg, path, path[|path| - 1]) && k < |path|
    ensures path[k] in visited
    decreases k
  {
    if k > 0 {
      ClosedIsReachable(cfg, visited, path, k - 1);
      assert path[k - 1 + 1] in cfg.Successors(path[k - 1]);
    }
  }

  /** All labels a walk can meet: the blocks and whatever they branch to. */
  ghost function Mentioned(cfg: Cfg): set<LabelId> {
    {cfg.entry} + cfg.blocks.Keys + (set l: LabelId, s: LabelId | l in cfg.blocks && s in cfg.blocks[l].successors :: s)
  }

  /** The walk has listed the labels visited, knows how to reach every one it holds, and still holds
      whatever a visited one branches to. */
  ghost predicate Walking(cfg: Cfg, order: seq<LabelId>, visited: set<LabelId>, stack: seq<LabelId>) {
    && Distinct(order) && (forall name: LabelId :: name in order <==> name in visited)
    && (forall name: LabelId :: name in visited || name in stack ==> Reachable(cfg, name) && name in Mentioned(cfg))
    && (if order == [] then stack == [cfg.entry] else order[0] == cfg.entry)
    && (forall a: LabelId, b: LabelId :: a in visited && b in cfg.Successors(a) ==> b in visited || b in stack)
  }

  lemma WalkStarts(cfg: Cfg)
    ensures Walking(cfg, [], {}, [cfg.entry])
  {
    assert Reaches(cfg, [cfg.entry], cfg.entry);
  }

  lemma SkipVisited(cfg: Cfg, order: seq<LabelId>, visited: set<LabelId>, stack: seq<LabelId>, name: LabelId)
    requires Walking(cfg, order, visited, stack + [name]) && name in visited
    ensures Walking(cfg, order, visited, stack)
  {
    assert forall l: LabelId :: l in stack + [name] <==> l in stack || l == name;
    hide Reachable, Mentioned, Distinct;
  }

  lemma VisitOne(cfg: Cfg, order: seq<LabelId>, visited: set<LabelId>, stack: seq<LabelId>, name: LabelId,
                 more: seq<LabelId>)
    requires Walking(cfg, order, visited, stack + [name]) && name !in visited
    requires forall b: LabelId :: b in more ==> b in stack || b in cfg.Successors(name)
    requires forall b: LabelId :: b in stack ==> b in more
    requires forall b: LabelId :: b in cfg.Successors(name) ==> b in visited + {name} || b in more
    ensures Walking(cfg, order + [name], visited + {name}, more)
    ensures name in Mentioned(cfg)
  {
    assert forall l: LabelId :: l in stack + [name] <==> l in stack || l == name;
    DistinctSnoc(order, name);
    SuccessorsKnown(cfg, name);
    if order == [] {
      assert (stack + [name])[|stack|] == name;
    }
    hide Reachable, Mentioned, Distinct;
  }

  lemma SuccessorsKnown(cfg: Cfg, name: LabelId)
    requires Reachable(cfg, name)
    ensures forall b: LabelId :: b in cfg.Successors(name) ==> Reachable(cfg, b) && b in Mentioned(cfg)
  {
    forall b: LabelId | b in cfg.Successors(name) ensures Reachable(cfg, b) && b in Mentioned(cfg) {
      ReachOn(cfg, name, b);
      assert name in cfg.blocks && b in cfg.blocks[name].successors;
    }
    hide Reachable;
  }

  lemma WalkEnds(cfg: Cfg, order: seq<LabelId>, visited: set<LabelId>)
    requires Walking(cfg, order, visited, [])
    ensures order != [] && order[0] == cfg.entry && Distinct(order)
    ensures forall name: LabelId :: name in order <==> Reachable(cfg, name)
    ensures forall name: LabelId :: name in order <==> name in visited
  {
    assert order[0] in order;
    forall name: LabelId | Reachable(cfg, name) ensures name in order {
      var path: seq<LabelId> :| Reaches(cfg, path, name);
      ClosedIsReachable(cfg, visited, path, |path| - 1);
    }
  }

  // ---- depth first ----

  /** The label at `j` is the first one not listed yet that the label at `d` branches to; nothing listed after that
      one branches to a label not listed yet. */
  ghost predicate Deepest(cfg: Cfg, order: seq<LabelId>, j: nat, d: nat, k: nat)
    requires j < |order|
  {
    && d < j && k < |cfg.Successors(order[d])| && cfg.Successors(order[d])[k] == order[j]
    && AllIn(cfg.Successors(order[d])[..k], order[..j])
    && (forall e: nat :: d < e < j ==> AllIn(cfg.Successors(order[e]), order[..j]))
  }

  ghost predicate AllIn(names: seq<LabelId>, order: seq<LabelId>) {
    forall l: nat :: l < |names| ==> names[l] in order
  }

  ghost predicate GoesDeepest(cfg: Cfg, order: seq<LabelId>, j: nat)
    requires j < |order|
  {
    exists d: nat, k: nat :: Deepest(cfg, order, j, d, k)
  }

  /** Each label after the entry is found by going as deep as possible, successors in their order. */
  ghost predicate DepthFirst(cfg: Cfg, order: seq<LabelId>) {
    && (order != [] ==> order[0] == cfg.entry)
    && forall j: nat :: 0 < j < |order| ==> GoesDeepest(cfg, order, j)
  }

  lemma NoneDeeper(cfg: Cfg, order: seq<LabelId>, order': seq<LabelId>, j: nat, d: nat, k: nat, d': nat, k': nat)
    requires j < |order| && j < |order'| && order[..j] == order'[..j] && order'[j] !in order'[..j]
    requires Deepest(cfg, order, j, d, k) && Deepest(cfg, order', j, d', k')
    ensures d' < d || (d' == d && k <= k')
  {
    hide Cfg.Successors;
    assert order'[d'] == order'[..j][d'] == order[..j][d'] == order[d'];
    var succs := cfg.Successors(order[d']);
    assert succs[k'] == order'[j];
  }

  /** The latest label that still branches to a new one, and which one, are fixed by what is listed. */
  lemma OneDeepest(cfg: Cfg, order: seq<LabelId>, order': seq<LabelId>, j: nat)
    requires Distinct(order) && Distinct(order') && j < |order| && j < |order'| && order[..j] == order'[..j]
    requires GoesDeepest(cfg, order, j) && GoesDeepest(cfg, order', j)
    ensures order[j] == order'[j]
  {
    var d: nat, k: nat :| Deepest(cfg, order, j, d, k);
    var d': nat, k': nat :| Deepest(cfg, order', j, d', k');
    NotBefore(order, j);
    NotBefore(order', j);
    assert order[d] == order[..j][d] && order'[d'] == order'[..j][d'];
    NoneDeeper(cfg, order, order', j, d, k, d', k');
    NoneDeeper(cfg, order', order, j, d', k', d, k);
    hide Distinct, AllIn, Cfg.Successors;
  }

  /** There is one depth-first preorder: two lists of it agree as far as both go. */
  lemma {:induction false} OneDepthFirst(cfg: Cfg, order: seq<LabelId>, order': seq<LabelId>, n: nat)
    requires Distinct(order) && Distinct(order') && DepthFirst(cfg, order) && DepthFirst(cfg, order')
    requires n <= |order| && n <= |order'|
    ensures order[..n] == order'[..n]
    decreases n
  {
    hide GoesDeepest, Distinct;
    if n > 0 {
      OneDepthFirst(cfg, order, order', n - 1);
      if n > 1 {
        OneDeepest(cfg, order, order', n - 1);
      }
      assert order[..n] == order[..n - 1] + [order[n - 1]] && order'[..n] == order'[..n - 1] + [order'[n - 1]];
    }
  }

  /** Which successor of which listed label put an entry on the stack. */
  datatype Origin = Origin(at: nat, k: nat)

  predicate Above(lower: Origin, upper: Origin) {
    lower.at < upper.at || (lower.at == upper.at && lower.k > upper.k)
  }

  ghost predicate CameFrom(cfg: Cfg, order: seq<LabelId>, o: Origin, name: LabelId) {
    o.at < |order| && o.k < |cfg.Successors(order[o.at])| && cfg.Successors(order[o.at])[o.k] == name
  }

  /** Every branch of a listed label to one not listed is on the stack, the latest label's on top, its first
      successor uppermost. */
  ghost predicate Stacked(cfg: Cfg, order: seq<LabelId>, stack: seq<LabelId>, origins: seq<Origin>) {
    && |origins| == |stack|
    && (forall i: nat :: i < |stack| ==> CameFrom(cfg, order, origins[i], stack[i]))
    && (forall i: nat, j: nat :: i < j < |origins| ==> Above(origins[i], origins[j]))
    && (forall e: nat, l: nat :: Waits(cfg, order, origins, e, l))
  }

  ghost predicate Waits(cfg: Cfg, order: seq<LabelId>, origins: seq<Origin>, e: nat, l: nat) {
    e < |order| && l < |cfg.Successors(order[e])| ==>
      cfg.Successors(order[e])[l] in order || Origin(e, l) in origins
  }

  lemma StackedSkip(cfg: Cfg, order: seq<LabelId>, stack: seq<LabelId>, origins: seq<Origin>, name: LabelId)
    requires Stacked(cfg, order, stack + [name], origins) && name in order
    ensures Stacked(cfg, order, stack, origins[..|stack|])
  {
    var n := |stack|;
    assert origins == origins[..n] + [origins[n]];
    assert (stack + [name])[n] == name;
    assert CameFrom(cfg, order, origins[n], name);
    forall i: nat | i < n ensures CameFrom(cfg, order, origins[..n][i], stack[i]) {
      assert (stack + [name])[i] == stack[i];
      assert CameFrom(cfg, order, origins[i], (stack + [name])[i]);
    }
    forall e: nat, l: nat ensures Waits(cfg, order, origins[..n], e, l) {
      assert Waits(cfg, order, origins, e, l);
    }
    hide Cfg.Successors;
  }

  /** A branch that would lie above the top of the stack leads to a label listed already. */
  lemma BelowTopListed(cfg: Cfg, order: seq<LabelId>, stack: seq<LabelId>, origins: seq<Origin>, e: nat, l: nat)
    requires Stacked(cfg, order, stack, origins) && stack != [] && e < |order| && l < |cfg.Successors(order[e])|
    requires Above(origins[|stack| - 1], Origin(e, l))
    ensures cfg.Successors(order[e])[l] in order
  {
    assert Waits(cfg, order, origins, e, l);
    assert Origin(e, l) !in origins;
    hide Cfg.Successors;
  }

  lemma PoppedIsDeepest(cfg: Cfg, order: seq<LabelId>, stack: seq<LabelId>, origins: seq<Origin>, name: LabelId)
    requires Stacked(cfg, order, stack + [name], origins) && name !in order
    ensures GoesDeepest(cfg, order + [name], |order|)
  {
    var n, all := |stack|, order + [name];
    var o := origins[n];
    assert (stack + [name])[n] == name;
    assert CameFrom(cfg, order, o, name);
    assert all[..|order|] == order && all[o.at] == order[o.at] && all[|order|] == name;
    hide Cfg.Successors, Stacked;
    forall l: nat | l < o.k ensures cfg.Successors(order[o.at])[l] in order {
      BelowTopListed(cfg, order, stack + [name], origins, o.at, l);
    }
    forall e: nat | o.at < e < |order| ensures AllIn(cfg.Successors(all[e]), all[..|order|]) {
      assert all[e] == order[e];
      forall l: nat | l < |cfg.Successors(order[e])| ensures cfg.Successors(order[e])[l] in order {
        BelowTopListed(cfg, order, stack + [name], origins, e, l);
      }
    }
    assert Deepest(cfg, all, |order|, o.at, o.k);
  }

  lemma NoOneWaits(cfg: Cfg, order: seq<LabelId>, stack: seq<LabelId>, origins: seq<Origin>, e: nat, l: nat)
    requires Stacked(cfg, order, stack, origins)
    ensures Waits(cfg, order, origins, e, l)
  {
  }

  function OriginsOf(at: nat, ks: seq<nat>): (r: seq<Origin>)
    ensures |r| == |ks| && forall i: nat :: i < |r| ==> r[i] == Origin(at, ks[i])
  {
    seq(|ks|, i requires 0 <= i < |ks| => Origin(at, ks[i]))
  }

  /** The chosen successors, in the order chosen. */
  function Chosen(successors: seq<LabelId>, ks: seq<nat>): (r: seq<LabelId>)
    requires forall i: nat :: i < |ks| ==> ks[i] < |successors|
    ensures |r| == |ks| && forall i: nat :: i < |r| ==> r[i] == successors[ks[i]]
  {
    seq(|ks|, i requires 0 <= i < |ks| => successors[ks[i]])
  }

  /** The successors not visited, the last one first. */
  ghost predicate PushedLastFirst(visited: set<LabelId>, successors: seq<LabelId>, ks: seq<nat>) {
    && (forall i: nat :: i < |ks| ==> ks[i] < |successors|)
    && (forall i: nat, j: nat :: i < j < |ks| ==> ks[i] > ks[j])
    && (forall k: nat :: k < |successors| ==> (successors[k] in visited || k in ks))
  }

  lemma DeeperStays(cfg: Cfg, order: seq<LabelId>, name: LabelId)
    requires DepthFirst(cfg, order) && order != [] && GoesDeepest(cfg, order + [name], |order|)
    ensures DepthFirst(cfg, order + [name])
  {
    var all := order + [name];
    forall j: nat | 0 < j < |all| ensures GoesDeepest(cfg, all, j) {
      if j < |order| {
        assert GoesDeepest(cfg, order, j);
        StillDeepest(cfg, order, name, j);
      }
    }
    hide GoesDeepest;
  }

  lemma StillDeepest(cfg: Cfg, order: seq<LabelId>, name: LabelId, j: nat)
    requires j < |order| && GoesDeepest(cfg, order, j)
    ensures GoesDeepest(cfg, order + [name], j)
  {
    hide AllIn, Cfg.Successors;
    var all := order + [name];
    var d: nat, k: nat :| Deepest(cfg, order, j, d, k);
    assert all[..j] == order[..j];
    assert forall e: nat :: e <= j ==> all[e] == order[e];
    assert Deepest(cfg, all, j, d, k);
  }

  lemma StackedVisit(cfg: Cfg, order: seq<LabelId>, stack: seq<LabelId>, origins: seq<Origin>, name: LabelId,
                     visited: set<LabelId>, ks: seq<nat>)
    requires Stacked(cfg, order, stack + [name], origins)
    requires forall l: LabelId :: l in visited <==> l in order + [name]
    requires PushedLastFirst(visited, cfg.Successors(name), ks)
    ensures Stacked(cfg, order + [name], stack + Chosen(cfg.Successors(name), ks),
                    origins[..|stack|] + OriginsOf(|order|, ks))
  {
    var n, all, succs := |stack|, order + [name], cfg.Successors(name);
    var origins', stack' := origins[..n] + OriginsOf(|order|, ks), stack + Chosen(succs, ks);
    assert (stack + [name])[n] == name;
    forall i: nat | i < n ensures CameFrom(cfg, all, origins[i], stack[i]) && origins[i].at < |order| {
      assert (stack + [name])[i] == stack[i];
      assert CameFrom(cfg, order, origins[i], (stack + [name])[i]);
    }
    forall i: nat | i < |stack'| ensures CameFrom(cfg, all, origins'[i], stack'[i]) {
      if i >= n {
        assert stack'[i] == succs[ks[i - n]];
      }
    }
    hide CameFrom, Cfg.Successors;
    forall i: nat, j: nat | i < j < |origins'| ensures Above(origins'[i], origins'[j]) {
      if j < n {
        assert Above(origins[i], origins[j]);
      }
    }
    hide Above;
    forall e: nat, l: nat ensures Waits(cfg, all, origins', e, l) {
      if e == |order| {
        NewWaits(cfg, order, origins[..n], name, visited, ks, l);
      } else {
        NoOneWaits(cfg, order, stack + [name], origins, e, l);
        OldWaits(cfg, order, origins, OriginsOf(|order|, ks), stack, name, e, l);
      }
    }
    hide Waits, Cfg.Successors, PushedLastFirst;
  }

  lemma NewWaits(cfg: Cfg, order: seq<LabelId>, origins: seq<Origin>, name: LabelId, visited: set<LabelId>,
                 ks: seq<nat>, l: nat)
    requires forall l: LabelId :: l in visited <==> l in order + [name]
    requires PushedLastFirst(visited, cfg.Successors(name), ks)
    ensures Waits(cfg, order + [name], origins + OriginsOf(|order|, ks), |order|, l)
  {
    hide Cfg.Successors;
    var all, succs := order + [name], cfg.Successors(name);
    assert all[|order|] == name;
    if l < |succs| && succs[l] !in all {
      assert succs[l] !in visited && l in ks;
      var i: nat :| i < |ks| && ks[i] == l;
      assert (origins + OriginsOf(|order|, ks))[|origins| + i] == Origin(|order|, l);
    }
  }

  lemma OldWaits(cfg: Cfg, order: seq<LabelId>, origins: seq<Origin>, more: seq<Origin>, stack: seq<LabelId>,
                 name: LabelId, e: nat, l: nat)
    requires Stacked(cfg, order, stack + [name], origins) && Waits(cfg, order, origins, e, l) && e != |order|
    ensures Waits(cfg, order + [name], origins[..|stack|] + more, e, l)
  {
    hide Cfg.Successors;
    var n := |stack|;
    if e < |order| {
      assert (order + [name])[e] == order[e] && (stack + [name])[n] == name;
      assert CameFrom(cfg, order, origins[n], (stack + [name])[n]);
      hide Stacked;
      if l < |cfg.Successors(order[e])| && cfg.Successors(order[e])[l] !in order {
        var i: nat :| i < |origins| && origins[i] == Origin(e, l);
        if i != n {
          assert (origins[..n] + more)[i] == Origin(e, l);
        }
      }
    }
  }

  lemma StackedEntry(cfg: Cfg, visited: set<LabelId>, ks: seq<nat>)
    requires visited == {cfg.entry} && PushedLastFirst(visited, cfg.Successors(cfg.entry), ks)
    ensures Stacked(cfg, [cfg.entry], [] + Chosen(cfg.Successors(cfg.entry), ks), OriginsOf(0, ks))
    ensures DepthFirst(cfg, [cfg.entry])
  {
    var origins, chosen := OriginsOf(0, ks), [] + Chosen(cfg.Successors(cfg.entry), ks);
    forall i: nat | i < |ks|
      ensures CameFrom(cfg, [cfg.entry], origins[i], chosen[i])
      ensures forall j: nat :: i < j < |ks| ==> Above(origins[i], origins[j])
    {
      assert chosen[i] == cfg.Successors(cfg.entry)[ks[i]];
    }
    hide CameFrom, Above;
    forall e: nat, l: nat ensures Waits(cfg, [cfg.entry], origins, e, l) {
      if e == 0 {
        NewWaits(cfg, [], [], cfg.entry, visited, ks, l);
        assert [] + [cfg.entry] == [cfg.entry] && [] + origins == origins;
      }
    }
    hide Cfg.Successors, Waits, PushedLastFirst;
  }

  /** The walk lists labels depth first: before the first one the stack holds the entry. */
  ghost predicate InDepth(cfg: Cfg, order: seq<LabelId>, stack: seq<LabelId>, origins: seq<Origin>) {
    DepthFirst(cfg, order) && (order != [] ==> Stacked(cfg, order, stack, origins))
  }

  lemma InDepthVisit(cfg: Cfg, order: seq<LabelId>, visited: set<LabelId>, stack: seq<LabelId>, origins: seq<Origin>,
                     name: LabelId, ks: seq<nat>) returns (origins': seq<Origin>)
    requires Walking(cfg, order, visited, stack + [name]) && InDepth(cfg, order, stack + [name], origins)
    requires name !in visited && PushedLastFirst(visited + {name}, cfg.Successors(name), ks)
    ensures InDepth(cfg, order + [name], stack + Chosen(cfg.Successors(name), ks), origins')
  {
    WalkKnows(cfg, order, visited, stack, name);
    hide Walking, Stacked, DepthFirst, PushedLastFirst;
    if order == [] {
      origins' := OriginsOf(0, ks);
      StackedEntry(cfg, visited + {name}, ks);
      assert [] + [name] == [name];
    } else {
      origins' := origins[..|stack|] + OriginsOf(|order|, ks) by {
        hide *;
        StackedSize(cfg, order, stack + [name], origins);
      }
      PoppedIsDeepest(cfg, order, stack, origins, name);
      DeeperStays(cfg, order, name);
      StackedVisit(cfg, order, stack, origins, name, visited + {name}, ks);
    }
  }

  lemma StackedSize(cfg: Cfg, order: seq<LabelId>, stack: seq<LabelId>, origins: seq<Origin>)
    requires Stacked(cfg, order, stack, origins)
    ensures |origins| == |stack|
  {
  }

  lemma WalkKnows(cfg: Cfg, order: seq<LabelId>, visited: set<LabelId>, stack: seq<LabelId>, name: LabelId)
    requires Walking(cfg, order, visited, stack + [name])
    ensures forall l: LabelId :: l in order <==> l in visited
    ensures order == [] ==> name == cfg.entry && stack == []
  {
    if order == [] {
      assert |stack + [name]| == 1 && (stack + [name])[0] == cfg.entry;
      assert (stack + [name])[|stack|] == name;
    }
  }

  lemma InDepthSkip(cfg: Cfg, order: seq<LabelId>, visited: set<LabelId>, stack: seq<LabelId>, origins: seq<Origin>,
                    name: LabelId) returns (origins': seq<Origin>)
    requires Walking(cfg, order, visited, stack + [name]) && InDepth(cfg, order, stack + [name], origins)
    requires name in visited
    ensures InDepth(cfg, order, stack, origins')
  {
    WalkKnows(cfg, order, visited, stack, name);
    hide Walking, Stacked, DepthFirst;
    origins' := [];
    if order != [] {
      StackedSize(cfg, order, stack + [name], origins);
      origins' := origins[..|stack|];
      StackedSkip(cfg, order, stack, origins, name);
    }
  }

  /** Lists every block and every reachable label once: the reachable ones depth first, starting with the entry, then
      the rest. */
  method DepthFirstOrder(cfg: Cfg) returns (order: seq<LabelId>, ghost reached: nat)
    ensures Distinct(order) && 0 < reached <= |order| && order[0] == cfg.entry
    ensures forall name: LabelId :: name in order[..reached] <==> Reachable(cfg, name)
    ensures forall name: LabelId :: name in order <==> Reachable(cfg, name) || name in cfg.blocks
    ensures DepthFirst(cfg, order[..reached])
  {
    hide Walking, Reachable, Mentioned, Distinct, InDepth, PushedLastFirst;
    order := [];
    var visited: set<LabelId> := {};
    var stack: seq<LabelId> := [cfg.entry];
    ghost var origins: seq<Origin> := [];
    WalkStarts(cfg);
    assert InDepth(cfg, order, stack, origins) by {
      NothingListed(cfg);
    }
    while |stack| > 0
      invariant Walking(cfg, order, visited, stack) && InDepth(cfg, order, stack, origins)
      decreases Mentioned(cfg) - visited, |stack|
    {
      var name := stack[|stack| - 1];
      ghost var before := stack;
      stack := stack[..|stack| - 1];
      assert before == stack + [name];
      if name in visited {
        origins := InDepthSkip(cfg, order, visited, stack, origins, name);
        SkipVisited(cfg, order, visited, stack, name);
      } else {
        var more;
        ghost var ks;
        more, ks := PushSuccessors(visited + {name}, stack, cfg.Successors(name));
        origins := InDepthVisit(cfg, order, visited, stack, origins, name, ks);
        PushedCovers(visited + {name}, stack, cfg.Successors(name), ks);
        VisitOne(cfg, order, visited, stack, name, more);
        visited := visited + {name};
        order := order + [name];
        stack := more;
      }
    }
    WalkEnds(cfg, order, visited);
    EndsInDepth(cfg, order, stack, origins);
    reached := |order|;
    order := AppendUnreached(cfg, order, visited);
    assert order[..reached][0] == cfg.entry;
  }

  lemma NothingListed(cfg: Cfg)
    ensures InDepth(cfg, [], [cfg.entry], [])
  {
  }

  lemma EndsInDepth(cfg: Cfg, order: seq<LabelId>, stack: seq<LabelId>, origins: seq<Origin>)
    requires InDepth(cfg, order, stack, origins)
    ensures DepthFirst(cfg, order)
  {
    hide DepthFirst, Stacked;
  }

  lemma PushedCovers(visited: set<LabelId>, base: seq<LabelId>, successors: seq<LabelId>, ks: seq<nat>)
    requires PushedLastFirst(visited, successors, ks)
    ensures var stack := base + Chosen(successors, ks);
            && (forall b: LabelId :: b in stack ==> b in base || b in successors)
            && (forall b: LabelId :: b in base ==> b in stack)
            && (forall b: LabelId :: b in successors ==> b in visited || b in stack)
  {
    var chosen := Chosen(successors, ks);
    forall b: LabelId | b in successors ensures b in visited || b in chosen {
      var k: nat :| k < |successors| && successors[k] == b;
      if b !in visited {
        assert k in ks;
        var i: nat :| i < |ks| && ks[i] == k;
        assert chosen[i] == b;
      }
    }
  }

  /** Push the successors not visited yet, the first one last. */
  method PushSuccessors(visited: set<LabelId>, base: seq<LabelId>, successors: seq<LabelId>)
    returns (stack: seq<LabelId>, ghost ks: seq<nat>)
    ensures PushedLastFirst(visited, successors, ks) && stack == base + Chosen(successors, ks)
  {
    stack := base;
    ks := [];
    var k := |successors|;
    while k > 0
      invariant 0 <= k <= |successors|
      invariant forall i: nat :: i < |ks| ==> k <= ks[i] < |successors|
      invariant forall i: nat, j: nat :: i < j < |ks| ==> ks[i] > ks[j]
      invariant forall i: nat :: k <= i < |successors| ==> successors[i] in visited || i in ks
      invariant stack == base + Chosen(successors, ks)
    {
      k := k - 1;
      if successors[k] !in visited {
        assert Chosen(successors, ks + [k]) == Chosen(successors, ks) + [successors[k]];
        stack := stack + [successors[k]];
        ks := ks + [k];
        assert ks[|ks| - 1] == k;
      }
    }
  }

  /** The blocks the walk did not meet go at the end. */
  method AppendUnreached(cfg: Cfg, walked: seq<LabelId>, visited: set<LabelId>) returns (order: seq<LabelId>)
    requires Distinct(walked) && forall name: LabelId :: name in walked <==> name in visited
    ensures |walked| <= |order| && order[..|walked|] == walked && Distinct(order)
    ensures forall name: LabelId :: name in order <==> name in visited || name in cfg.blocks
  {
    order := walked;
    var rest := cfg.blocks.Keys - visited;
    while rest != {}
      invariant rest <= cfg.blocks.Keys && |walked| <= |order| && order[..|walked|] == walked
      invariant Distinct(order)
      invariant forall name: LabelId :: name in order <==> name in visited || (name in cfg.blocks && name !in rest)
      invariant forall name: LabelId :: name in rest ==> name !in visited
      decreases rest
    {
      var name :| name in rest;
      rest := rest - {name};
      DistinctSnoc(order, name);
      order := order + [name];
    }
  }

  // ---- laying the blocks out ----

  /** The block's slice of the instructions is its body. */
  ghost predicate Holds(cfg: Cfg, instructions: seq<Instr>, block: LinearBlock) {
    block.start <= block.end <= |instructions| && instructions[block.start..block.end] == cfg.Body(block.name)
  }

  /** Blocks with instructions lie one after another from `0` to `end`. */
  ghost predicate Tiles(blocks: seq<LinearBlock>, end: nat) {
    && (forall i: nat :: i < |blocks| ==> blocks[i].start < blocks[i].end)
    && (forall i: nat, j: nat :: j == i + 1 && j < |blocks| ==> blocks[i].end == blocks[j].start)
    && (if blocks == [] then end == 0 else blocks[0].start == 0 && blocks[|blocks| - 1].end == end)
  }

  /** What runs first is the entry, unless it has no code. */
  ghost predicate EntryFirst(cfg: Cfg, linear: Linearized) {
    cfg.Body(cfg.entry) != [] ==> linear.blocks != [] && linear.blocks[0].name == cfg.entry
  }

  /** Each label of the control-flow graph has one block, holding its body; the blocks with instructions
      come first, the entry foremost, and cover every index, the empty ones last. */
  ghost predicate IsLinear(cfg: Cfg, linear: Linearized, full: nat) {
    && EntryFirst(cfg, linear)
    && full <= |linear.blocks| && Distinct(Labels(linear.blocks))
    && (forall name: LabelId :: name in Labels(linear.blocks) <==> Reachable(cfg, name) || name in cfg.blocks)
    && AllHold(cfg, linear.instructions, linear.blocks)
    && Tiles(linear.blocks[..full], |linear.instructions|) && AllEmpty(linear.blocks[full..])
  }

  lemma HoldsLonger(cfg: Cfg, instructions: seq<Instr>, more: seq<Instr>, block: LinearBlock)
    requires Holds(cfg, instructions, block)
    ensures Holds(cfg, instructions + more, block)
  {
    assert (instructions + more)[block.start..block.end] == instructions[block.start..block.end];
  }

  ghost predicate AllHold(cfg: Cfg, instructions: seq<Instr>, blocks: seq<LinearBlock>) {
    forall i: nat :: i < |blocks| ==> Holds(cfg, instructions, blocks[i])
  }

  ghost predicate AllEmpty(blocks: seq<LinearBlock>) {
    forall i: nat :: i < |blocks| ==> blocks[i].start == blocks[i].end
  }

  /** The blocks are those of the labels in `order`, one each. */
  ghost predicate OneEach(blocks: seq<LinearBlock>, order: seq<LabelId>) {
    && Distinct(Labels(blocks))
    && (forall l: LabelId :: l in Labels(blocks) <==> l in order)
  }

  ghost predicate LaidOut(cfg: Cfg, order: seq<LabelId>, instructions: seq<Instr>, blocks: seq<LinearBlock>,
                          empty: seq<LinearBlock>) {
    && OneEach(blocks + empty, order)
    && AllHold(cfg, instructions, blocks) && AllHold(cfg, instructions, empty)
    && AllEmpty(empty) && Tiles(blocks, |instructions|)
  }

  function BlockAt(cfg: Cfg, name: LabelId, start: nat): LinearBlock {
    LinearBlock(name, start, start + |cfg.Body(name)|)
  }

  lemma AllHoldLonger(cfg: Cfg, instructions: seq<Instr>, more: seq<Instr>, blocks: seq<LinearBlock>)
    requires AllHold(cfg, instructions, blocks)
    ensures AllHold(cfg, instructions + more, blocks)
  {
    forall i: nat | i < |blocks| ensures Holds(cfg, instructions + more, blocks[i]) {
      HoldsLonger(cfg, instructions, more, blocks[i]);
    }
    hide Holds;
  }

  lemma OneMoreHolds(cfg: Cfg, instructions: seq<Instr>, name: LabelId, blocks: seq<LinearBlock>)
    requires AllHold(cfg, instructions, blocks)
    ensures AllHold(cfg, instructions + cfg.Body(name), blocks + [BlockAt(cfg, name, |instructions|)])
  {
    var block := BlockAt(cfg, name, |instructions|);
    AllHoldLonger(cfg, instructions, cfg.Body(name), blocks);
    assert (instructions + cfg.Body(name))[block.start..block.end] == cfg.Body(name);
  }

  lemma LayOutEmpty(cfg: Cfg, order: seq<LabelId>, name: LabelId, instructions: seq<Instr>, blocks: seq<LinearBlock>,
                    empty: seq<LinearBlock>)
    requires LaidOut(cfg, order, instructions, blocks, empty) && name !in order && cfg.Body(name) == []
    ensures LaidOut(cfg, order + [name], instructions + cfg.Body(name), blocks,
                    empty + [BlockAt(cfg, name, |instructions|)])
  {
    assert instructions + [] == instructions;
    OneMoreHolds(cfg, instructions, name, empty);
    OneMoreAtEnd(blocks, empty, BlockAt(cfg, name, |instructions|), order);
    hide AllHold, Tiles, OneEach;
  }

  lemma LayOutFull(cfg: Cfg, order: seq<LabelId>, name: LabelId, instructions: seq<Instr>, blocks: seq<LinearBlock>,
                   empty: seq<LinearBlock>)
    requires LaidOut(cfg, order, instructions, blocks, empty) && name !in order && cfg.Body(name) != []
    ensures LaidOut(cfg, order + [name], instructions + cfg.Body(name), blocks + [BlockAt(cfg, name, |instructions|)],
                    empty)
  {
    var block := BlockAt(cfg, name, |instructions|);
    AllHoldLonger(cfg, instructions, cfg.Body(name), empty);
    OneMoreHolds(cfg, instructions, name, blocks);
    OneMoreInside(blocks, empty, block, order);
    TilesOn(blocks, |instructions|, block);
    hide AllHold, Tiles, OneEach;
  }

  lemma TilesOn(blocks: seq<LinearBlock>, end: nat, block: LinearBlock)
    requires Tiles(blocks, end) && block.start == end < block.end
    ensures Tiles(blocks + [block], block.end)
  {
  }

  lemma OneMoreAtEnd(blocks: seq<LinearBlock>, empty: seq<LinearBlock>, block: LinearBlock, order: seq<LabelId>)
    requires OneEach(blocks + empty, order) && block.name !in order
    ensures OneEach(blocks + (empty + [block]), order + [block.name])
  {
    var was := Labels(blocks + empty);
    assert Labels(blocks + (empty + [block])) == was + [block.name];
    DistinctSnoc(was, block.name);
  }

  lemma DistinctInside(was: seq<LabelId>, n: nat, l: LabelId)
    requires n <= |was| && Distinct(was) && l !in was
    ensures Distinct(was[..n] + [l] + was[n..])
    ensures forall x: LabelId :: x in was[..n] + [l] + was[n..] <==> x in was || x == l
  {
    var inside := was[..n] + [l] + was[n..];
    assert was[..n] + was[n..] == was;
    forall x: LabelId ensures x in inside <==> x in was || x == l {
      assert x in was <==> x in was[..n] || x in was[n..];
    }
    forall i, j | 0 <= i < j < |inside| ensures inside[i] != inside[j] {
      assert inside[i] == if i < n then was[i] else if i == n then l else was[i - 1];
      assert inside[j] == if j < n then was[j] else if j == n then l else was[j - 1];
    }
  }

  lemma OneMoreInside(blocks: seq<LinearBlock>, empty: seq<LinearBlock>, block: LinearBlock, order: seq<LabelId>)
    requires OneEach(blocks + empty, order) && block.name !in order
    ensures OneEach((blocks + [block]) + empty, order + [block.name])
  {
    var was := Labels(blocks + empty);
    var n := |blocks|;
    DistinctInside(was, n, block.name);
    assert Labels((blocks + [block]) + empty) == was[..n] + [block.name] + was[n..];
    hide Distinct;
  }

  /** The labels that have instructions, in order. */
  ghost function WithCode(cfg: Cfg, order: seq<LabelId>): seq<LabelId>
    decreases |order|
  {
    if order == [] then []
    else
      var last := order[|order| - 1];
      WithCode(cfg, order[..|order| - 1]) + if cfg.Body(last) != [] then [last] else []
  }

  ghost function WithoutCode(cfg: Cfg, order: seq<LabelId>): seq<LabelId>
    decreases |order|
  {
    if order == [] then []
    else
      var last := order[|order| - 1];
      WithoutCode(cfg, order[..|order| - 1]) + if cfg.Body(last) == [] then [last] else []
  }

  lemma {:induction false} FirstWithCode(cfg: Cfg, order: seq<LabelId>)
    requires order != [] && cfg.Body(order[0]) != []
    ensures WithCode(cfg, order) != [] && WithCode(cfg, order)[0] == order[0]
    decreases |order|
  {
    hide Cfg.Body;
    if |order| > 1 {
      FirstWithCode(cfg, order[..|order| - 1]);
    } else {
      assert order[..0] == [] && WithCode(cfg, []) == [];
    }
  }

  lemma OneMoreListed(cfg: Cfg, order: seq<LabelId>, name: LabelId, blocks: seq<LinearBlock>,
                      empty: seq<LinearBlock>, block: LinearBlock)
    requires Labels(blocks) == WithCode(cfg, order) && Labels(empty) == WithoutCode(cfg, order) && block.name == name
    ensures if cfg.Body(name) == []
            then Labels(blocks) == WithCode(cfg, order + [name])
                 && Labels(empty + [block]) == WithoutCode(cfg, order + [name])
            else Labels(blocks + [block]) == WithCode(cfg, order + [name])
                 && Labels(empty) == WithoutCode(cfg, order + [name])
  {
    assert (order + [name])[..|order|] == order;
    assert Labels(blocks + [block]) == Labels(blocks) + [name];
    assert Labels(empty + [block]) == Labels(empty) + [name];
    hide Cfg.Body;
  }

  /** Flatten a control-flow graph: the labels with code depth first from the entry, then the others with code, then
      those without. */
  method LinearizeCfg(cfg: Cfg) returns (linear: Linearized, ghost full: nat, ghost order: seq<LabelId>,
                                         ghost reached: nat)
    ensures IsLinear(cfg, linear, full)
    ensures |linear.blocks| > 0
    ensures 0 < reached <= |order| && Distinct(order) && DepthFirst(cfg, order[..reached])
    ensures forall name: LabelId :: name in order[..reached] <==> Reachable(cfg, name)
    ensures forall name: LabelId :: name in order <==> Reachable(cfg, name) || name in cfg.blocks
    ensures Labels(linear.blocks) == WithCode(cfg, order) + WithoutCode(cfg, order)
    ensures full == |WithCode(cfg, order)|
  {
    hide IsLinear, LaidOut, Distinct, DepthFirst, WithCode, WithoutCode, Cfg.Body, Reachable;
    var visitOrder;
    visitOrder, reached := DepthFirstOrder(cfg);
    order := visitOrder;
    var instructions: seq<Instr> := [];
    var blocks: seq<LinearBlock> := [];
    var empty: seq<LinearBlock> := [];
    NothingLaidOut(cfg);
    assert order[..0] == [];
    for i := 0 to |visitOrder|
      invariant LaidOut(cfg, order[..i], instructions, blocks, empty)
      invariant Labels(blocks) == WithCode(cfg, order[..i]) && Labels(empty) == WithoutCode(cfg, order[..i])
    {
      var name := visitOrder[i];
      assert order[..i + 1] == order[..i] + [name];
      NotBefore(order, i);
      var body := cfg.Body(name);
      var block := LinearBlock(name, |instructions|, |instructions| + |body|);
      assert block == BlockAt(cfg, name, |instructions|);
      OneMoreListed(cfg, order[..i], name, blocks, empty, block);
      if block.start == block.end {
        LayOutEmpty(cfg, order[..i], name, instructions, blocks, empty);
        empty := empty + [block];
      } else {
        LayOutFull(cfg, order[..i], name, instructions, blocks, empty);
        blocks := blocks + [block];
      }
      instructions := instructions + body;
    }
    assert order[..|order|] == order;
    full := |blocks|;
    linear := Linearized(instructions, blocks + empty);
    assert Labels(blocks + empty) == Labels(blocks) + Labels(empty);
    LaidOutIsLinear(cfg, order, instructions, blocks, empty);
  }

  lemma LaidOutIsLinear(cfg: Cfg, order: seq<LabelId>, instructions: seq<Instr>, blocks: seq<LinearBlock>,
                        empty: seq<LinearBlock>)
    requires LaidOut(cfg, order, instructions, blocks, empty) && order != []
    requires forall name: LabelId :: name in order <==> Reachable(cfg, name) || name in cfg.blocks
    requires order[0] == cfg.entry && Labels(blocks) == WithCode(cfg, order)
    ensures IsLinear(cfg, Linearized(instructions, blocks + empty), |blocks|) && |blocks + empty| > 0
  {
    var all := blocks + empty;
    assert all[..|blocks|] == blocks && all[|blocks|..] == empty;
    LabelsReached(cfg, order, all);
    AllHoldTogether(cfg, instructions, blocks, empty);
    EntryComesFirst(cfg, order, instructions, blocks, empty);
    hide WithCode, Cfg.Body, EntryFirst, OneEach, AllHold, Tiles, AllEmpty, Reachable, Distinct, Labels;
  }

  lemma LabelsReached(cfg: Cfg, order: seq<LabelId>, all: seq<LinearBlock>)
    requires OneEach(all, order) && order != []
    requires forall name: LabelId :: name in order <==> Reachable(cfg, name) || name in cfg.blocks
    ensures Distinct(Labels(all)) && |all| > 0
    ensures forall name: LabelId :: name in Labels(all) <==> Reachable(cfg, name) || name in cfg.blocks
  {
    hide Reachable, Distinct;
    assert order[0] in Labels(all);
  }

  lemma EntryComesFirst(cfg: Cfg, order: seq<LabelId>, instructions: seq<Instr>, blocks: seq<LinearBlock>,
                        empty: seq<LinearBlock>)
    requires order != [] && order[0] == cfg.entry && Labels(blocks) == WithCode(cfg, order)
    ensures EntryFirst(cfg, Linearized(instructions, blocks + empty))
  {
    hide WithCode, Cfg.Body;
    if cfg.Body(cfg.entry) != [] {
      FirstWithCode(cfg, order);
      assert Labels(blocks)[0] == (blocks + empty)[0].name;
    }
  }

  lemma AllHoldTogether(cfg: Cfg, instructions: seq<Instr>, blocks: seq<LinearBlock>, empty: seq<LinearBlock>)
    requires AllHold(cfg, instructions, blocks) && AllHold(cfg, instructions, empty)
    ensures AllHold(cfg, instructions, blocks + empty)
  {
    hide Holds;
  }

  lemma NotBefore(order: seq<LabelId>, i: nat)
    requires Distinct(order) && i < |order|
    ensures order[i] !in order[..i]
  {
  }

  lemma NothingLaidOut(cfg: Cfg)
    ensures LaidOut(cfg, [], [], [], [])
    ensures Labels([]) == WithCode(cfg, []) && Labels([]) == WithoutCode(cfg, [])
  {
    assert Labels([] + []) == [];
  }
}
