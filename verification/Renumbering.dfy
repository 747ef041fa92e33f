/** Deleting unreachable blocks changes no run but for the numbers of the blocks. */
module Renumbering {
  import opened Graphs
  import opened IdomTree
  import opened Lists
  import opened Ssa
  import opened SsaValid
  import opened GraphEdits
  import opened GraphSurgery
  import opened Stuttering

  type ColumnList = seq<(BlockId, seq<Operand>)>

  /** What arrives along the first edge from `p`. */
  function FirstFrom(columns: ColumnList, p: BlockId): Option<seq<Operand>>
    decreases |columns|
  {
    if columns == [] then None
    else
      var last := columns[|columns| - 1];
      var earlier := FirstFrom(columns[..|columns| - 1], p);
      if earlier.Some? then earlier else if last.0 == p then Some(last.1) else None
  }

  lemma {:induction false} SurvivorsFirst(columns: ColumnList, keep: seq<bool>, p: BlockId)
    requires Kept(keep, p)
    ensures FirstFrom(Survivors(columns, keep), p) == FirstFrom(columns, p)
    decreases |columns|
  {
    if columns != [] {
      var n := |columns| - 1;
      SurvivorsFirst(columns[..n], keep, p);
      var rest := Survivors(columns[..n], keep);
      assert rest + [] == rest;
      assert (rest + [columns[n]])[..|rest|] == rest;
    }
  }

  lemma {:induction false} FirstIsAt(columns: ColumnList, p: BlockId, i: nat)
    requires i < |columns| && columns[i].0 == p && forall j: nat :: j < i ==> columns[j].0 != p
    ensures FirstFrom(columns, p) == Some(columns[i].1)
    decreases |columns|
  {
    var n := |columns| - 1;
    if i < n {
      FirstIsAt(columns[..n], p, i);
    } else {
      NoneFrom(columns[..n], p);
    }
  }

  lemma {:induction false} NoneFrom(columns: ColumnList, p: BlockId)
    requires forall j: nat :: j < |columns| ==> columns[j].0 != p
    ensures FirstFrom(columns, p) == None
    decreases |columns|
  {
    if columns != [] {
      NoneFrom(columns[..|columns| - 1], p);
    }
  }

  lemma ArrivalIsFirst(block: Block, p: BlockId, k: nat)
    requires p in block.preds && k < |block.phis| && Arity(block)
    ensures FirstFrom(Columns(block), p).Some? && |FirstFrom(Columns(block), p).value| == |block.phis|
    ensures Arrival(block.phis[k], block.preds, p) == FirstFrom(Columns(block), p).value[k]
  {
    var i := Position(block.preds, p);
    FirstIsAt(Columns(block), p, i);
  }

  lemma RemapPosition(order: seq<BlockId>, preds: seq<BlockId>, i: nat)
    requires i < |order| && (forall i: nat, j: nat :: i < j < |order| ==> order[i] < order[j]) && forall p: BlockId ::
               p in preds ==> p in order
    ensures Position(Remap(order, preds), i) == Position(preds, order[i])
  {
    NewIndexOf(order, i);
    var remapped := Remap(order, preds);
    forall k: nat | k < |preds| ensures remapped[k] == i <==> preds[k] == order[i] {
      assert preds[k] in preds;
    }
    hide NewIndex, Remap;
  }

  lemma DroppedArrival(f: Func, order: seq<BlockId>, keep: seq<bool>, i: nat, y: BlockId, k: nat)
    requires Wired(f) && KeptInOrder(f, order, keep) && i < |order| && y < f.Size() && order[i] in f.blocks[y].preds &&
             k < |f.blocks[y].phis|
    ensures var dropped := DropUnreached(f.blocks[y], keep, |f.blocks[y].preds|);
            && k < |dropped.phis|
            && Arrival(dropped.phis[k], dropped.preds, order[i]) ==
              Arrival(f.blocks[y].phis[k], f.blocks[y].preds, order[i])
  {
    InOrder(f, order, keep, i);
    RetainedPreds(f, order, keep, y);
    RetainedPhis(f, order, keep, y);
    AritiesAt(f, y);
    hide Wired, DropUnreached, Columns, Survivors, Position, Arrival, KeptInOrder, FirstFrom;
    var block := f.blocks[y];
    var dropped := DropUnreached(block, keep, |block.preds|);
    SurvivorsFirst(Columns(block), keep, order[i]);
    CountIn(dropped.preds, order[i]);
    CountIn(block.preds, order[i]);
    hide Count;
    ArrivalIsFirst(block, order[i], k);
    ArrivalIsFirst(dropped, order[i], k);
  }

  lemma RetainedArrivals(f: Func, order: seq<BlockId>, keep: seq<bool>, i: nat, j: nat)
    requires Wired(f) && KeptInOrder(f, order, keep) && i < |order| && j < |order|
    requires order[j] < f.Size() && order[i] in f.blocks[order[j]].preds
    ensures SameArrivals(f.blocks[order[j]], order[i], RetainOf(f, order, keep).blocks[j], i)
  {
    var y := order[j];
    var block := f.blocks[y];
    InOrder(f, order, keep, j);
    RetainedPreds(f, order, keep, y);
    RetainedPhis(f, order, keep, y);
    var dropped := DropUnreached(block, keep, |block.preds|);
    PredsKept(f, order, keep, dropped.preds);
    RemapPosition(order, dropped.preds, i);
    var block' := RetainOf(f, order, keep).blocks[j];
    hide Wired, DropUnreached, Columns, Survivors, Position, Remap, KeptInOrder, NewIndex, RemapTerm;
    forall k: nat | k < |block.phis|
      ensures Arrival(block'.phis[k], block'.preds, i) == Arrival(block.phis[k], block.preds, order[i])
    {
      DroppedArrival(f, order, keep, i, y, k);
    }
  }

  // ---- runs ----

  /** The same values, memory and events; only the number of the block may differ. */
  ghost predicate SameOutcome(s: Status, s': Status) {
    if s.At? then s'.At? && s'.st == s.st else s' == s
  }

  /** `s'` is `s` with its block renumbered. */
  ghost predicate Renumbers(order: seq<BlockId>, s: Status, s': Status) {
    SameOutcome(s, s') && (s'.At? ==> s'.block < |order| && order[s'.block] == s.block)
  }

  lemma RetainedTarget(order: seq<BlockId>, term: Terminator, st: State)
    requires !term.Return?
    ensures !RemapTerm(order, term).Return? && Target(RemapTerm(order, term), st) == NewIndex(order, Target(term, st))
  {
  }

  lemma RetainedShape(f: Func, order: seq<BlockId>, keep: seq<bool>, i: nat)
    requires Wired(f) && KeptInOrder(f, order, keep) && i < |order|
    ensures order[i] < f.Size()
    ensures RetainOf(f, order, keep).blocks[i].insts == f.blocks[order[i]].insts
    ensures RetainOf(f, order, keep).blocks[i].term == RemapTerm(order, f.blocks[order[i]].term)
  {
    InOrder(f, order, keep, i);
    RetainedPreds(f, order, keep, order[i]);
    hide DropUnreached, KeptInOrder, Wired, Remap, RemapTerm;
  }

  lemma TargetListed(f: Func, b: BlockId, st: State)
    requires Wired(f) && b < f.Size() && !f.blocks[b].term.Return?
    ensures var x := Target(f.blocks[b].term, st); x in f.blocks[b].term.Successors() && x < f.Size() &&
                                                   b in f.blocks[x].preds
  {
    var x := Target(f.blocks[b].term, st);
    assert x in f.blocks[b].term.Successors();
    assert Count(f.blocks[b].term.Successors(), x) == Count(f.blocks[x].preds, b);
    CountIn(f.blocks[b].term.Successors(), x);
    CountIn(f.blocks[x].preds, b);
    hide Count, BlockWired;
  }

  lemma IndexOf(order: seq<BlockId>, b: BlockId)
    requires b in order
    ensures NewIndex(order, b) < |order| && order[NewIndex(order, b)] == b
  {
  }

  lemma RetainedLeave(f: Func, order: seq<BlockId>, keep: seq<bool>, i: nat, st: State)
    requires Wired(f) && KeptInOrder(f, order, keep) && KeepClosed(f, keep) && i < |order|
    ensures order[i] < f.Size() && Renumbers(order, Leave(f, order[i], st), Leave(RetainOf(f, order, keep), i, st))
  {
    InOrder(f, order, keep, i);
    RetainedShape(f, order, keep, i);
    var b := order[i];
    var term := f.blocks[b].term;
    hide Wired, KeptInOrder, KeepClosed, RetainedAt, NewIndex, Cross;
    if !term.Return? {
      var x := Target(term, st);
      TargetListed(f, b, st);
      SuccsKept(f, order, keep, b);
      RetainedTarget(order, term, st);
      var j := NewIndex(order, x);
      IndexOf(order, x);
      RetainedArrivals(f, order, keep, i, j);
      CrossAlike(f.blocks[x], b, RetainOf(f, order, keep).blocks[j], i, st);
      hide RetainOf, RemapTerm, Target, SameArrivals;
    }
  }

  lemma RetainedNext(m: Machine, private: set<SlotId>, f: Func, order: seq<BlockId>, keep: seq<bool>, s: Status,
                     s': Status)
    requires Wired(f) && KeptInOrder(f, order, keep) && KeepClosed(f, keep) && Renumbers(order, s, s')
    ensures Renumbers(order, Next(m, private, f, s), Next(m, private, RetainOf(f, order, keep), s'))
  {
    hide Wired, KeptInOrder, KeepClosed, Leave, RetainOf, ExecAll;
    if s.At? {
      var f' := RetainOf(f, order, keep);
      RetainedSize(f, order, keep);
      RetainedShape(f, order, keep, s'.block);
      RetainedLeave(f, order, keep, s'.block, ExecAll(m, private, f.blocks[s.block].insts, s.st));
      hide Renumbers, Next;
      NextLeaves(m, private, f, s.block, s.st);
      NextLeaves(m, private, f', s'.block, s.st);
    }
  }

  lemma RetainedStart(f: Func, order: seq<BlockId>, keep: seq<bool>, st: State)
    requires Wired(f) && KeptInOrder(f, order, keep) && KeepClosed(f, keep)
    ensures Renumbers(order, At(f.entry, st), At(RetainOf(f, order, keep).entry, st))
  {
    EntryKept(f, order, keep);
    IndexOf(order, f.entry);
    hide Wired, RetainOf, KeptInOrder, KeepClosed, NewIndex;
  }

  /** The run of what is kept is the old run with its blocks renumbered. */
  lemma {:induction false} RetainedRun(m: Machine, private: set<SlotId>, f: Func, order: seq<BlockId>, keep: seq<bool>,
                                       n: nat)
    requires Wired(f) && KeptInOrder(f, order, keep) && KeepClosed(f, keep)
    ensures Renumbers(order, Run(m, private, f, n), Run(m, private, RetainOf(f, order, keep), n))
    decreases n
  {
    hide *;
    var f' := RetainOf(f, order, keep);
    if n == 0 {
      RetainedStart(f, order, keep, State(map[], map[], []));
      RunStart(m, private, f);
      RunStart(m, private, f');
    } else {
      RetainedRun(m, private, f, order, keep, n - 1);
      RunStep(m, private, f, n);
      RunStep(m, private, f', n);
      RetainedNext(m, private, f, order, keep, Run(m, private, f, n - 1), Run(m, private, f', n - 1));
    }
  }

  lemma RetainedSize(f: Func, order: seq<BlockId>, keep: seq<bool>)
    ensures RetainOf(f, order, keep).Size() == |order| && RetainOf(f, order, keep).entry == NewIndex(order, f.entry)
  {
  }

  lemma EntryKept(f: Func, order: seq<BlockId>, keep: seq<bool>)
    requires Wired(f) && KeptInOrder(f, order, keep) && KeepClosed(f, keep)
    ensures f.entry in order && RetainOf(f, order, keep).entry == NewIndex(order, f.entry)
  {
  }

  /** What the second function reaches after `n` blocks the first reaches, too, in at least as many. */
  ghost predicate Reaches(m: Machine, private: set<SlotId>, f: Func, f': Func, n: nat) {
    exists n': nat :: n <= n' && SameOutcome(Run(m, private, f, n'), Run(m, private, f', n))
  }

  /** In every run on every machine. */
  ghost predicate RunsAlike(f: Func, f': Func) {
    forall m: Machine, private: set<SlotId>, n: nat {:trigger Reaches(m, private, f, f', n)} ::
      Reaches(m, private, f, f', n)
  }

  /** Functions running alike end alike, or neither ends. */
  lemma AlikeEnd(m: Machine, private: set<SlotId>, f: Func, f': Func, result: Option<Word>, trace: seq<Event>)
    requires RunsAlike(f, f')
    ensures Ends(m, private, f, result, trace) <==> Ends(m, private, f', result, trace)
  {
    if Ends(m, private, f', result, trace) {
      var n: nat :| Run(m, private, f', n) == Done(result, trace);
      assert Reaches(m, private, f, f', n);
      var i: nat :| n <= i && SameOutcome(Run(m, private, f, i), Run(m, private, f', n));
    }
    if Ends(m, private, f, result, trace) {
      var n: nat :| Run(m, private, f, n) == Done(result, trace);
      assert Reaches(m, private, f, f', n);
      var i: nat :| n <= i && SameOutcome(Run(m, private, f, i), Run(m, private, f', n));
      Settled(m, private, f, n, i);
    }
  }

  lemma FollowedAndRetained(m: Machine, private: set<SlotId>, f0: Func, f: Func, order: seq<BlockId>, keep: seq<bool>,
                            n: nat)
    requires Follows(m, private, f, f0) && Wired(f) && KeptInOrder(f, order, keep) && KeepClosed(f, keep)
    ensures Reaches(m, private, f0, RetainOf(f, order, keep), n)
  {
    RetainedRun(m, private, f, order, keep, n);
    hide Wired, KeptInOrder, KeepClosed, RetainOf, Run;
    assert CaughtUp(m, private, f, f0, n);
    var i: nat :| n <= i && Run(m, private, f0, i) == Run(m, private, f, n);
  }

  lemma FollowedIsAlike(f0: Func, f: Func)
    requires forall m: Machine, private: set<SlotId> :: Follows(m, private, f, f0)
    ensures RunsAlike(f0, f)
  {
    forall m: Machine, private: set<SlotId>, n: nat ensures Reaches(m, private, f0, f, n) {
      assert Follows(m, private, f, f0);
      assert CaughtUp(m, private, f, f0, n);
      var i: nat :| n <= i && Run(m, private, f0, i) == Run(m, private, f, n);
    }
  }

  lemma RetainedRunsAlike(f0: Func, f: Func, order: seq<BlockId>, keep: seq<bool>)
    requires Wired(f) && KeptInOrder(f, order, keep) && KeepClosed(f, keep)
    requires forall m: Machine, private: set<SlotId> :: Follows(m, private, f, f0)
    ensures RunsAlike(f0, RetainOf(f, order, keep))
  {
    hide Wired, KeptInOrder, KeepClosed, RetainOf, Follows, Reaches;
    forall m: Machine, private: set<SlotId>, n: nat ensures Reaches(m, private, f0, RetainOf(f, order, keep), n) {
      assert Follows(m, private, f, f0);
      FollowedAndRetained(m, private, f0, f, order, keep, n);
    }
  }

  // ---- what else is kept ----

  lemma RetainedPredsFewer(f: Func, order: seq<BlockId>, keep: seq<bool>, i: nat)
    requires Wired(f) && KeptInOrder(f, order, keep) && i < |order|
    ensures order[i] < f.Size() && |RetainOf(f, order, keep).blocks[i].preds| <= |f.blocks[order[i]].preds|
    ensures RetainOf(f, order, keep).blocks[i].term == RemapTerm(order, f.blocks[order[i]].term)
    ensures |RetainOf(f, order, keep).blocks[i].phis| == |f.blocks[order[i]].phis|
  {
    InOrder(f, order, keep, i);
    RetainedPreds(f, order, keep, order[i]);
    RetainedPhis(f, order, keep, order[i]);
    RetainedShape(f, order, keep, i);
    SurvivorsFewer(Columns(f.blocks[order[i]]), keep);
    hide Wired, KeptInOrder, DropUnreached, Survivors, Remap, RemapTerm;
  }

  lemma {:induction false} SurvivorsFewer(columns: ColumnList, keep: seq<bool>)
    ensures |Survivors(columns, keep)| <= |columns|
    decreases |columns|
  {
    if columns != [] {
      SurvivorsFewer(columns[..|columns| - 1], keep);
    }
  }

  lemma {:induction false} AllSurvive(columns: ColumnList, keep: seq<bool>)
    requires forall i: nat :: i < |columns| ==> Kept(keep, columns[i].0)
    ensures Survivors(columns, keep) == columns
    decreases |columns|
  {
    if columns != [] {
      AllSurvive(columns[..|columns| - 1], keep);
    }
  }

  lemma RetainedCriticalFree(f: Func, order: seq<BlockId>, keep: seq<bool>)
    requires Wired(f) && KeptInOrder(f, order, keep) && KeepClosed(f, keep) && CriticalFree(f)
    ensures CriticalFree(RetainOf(f, order, keep))
  {
    var f' := RetainOf(f, order, keep);
    RetainedSize(f, order, keep);
    forall b: nat, c: nat | b < f'.Size() && c < f'.Size() && f'.Adjacency().Edge(b, c)
      ensures |f'.blocks[b].term.Successors()| < 2 || |f'.blocks[c].preds| < 2
    {
      RetainedEdgeBack(f, order, keep, b, c);
      RetainedPredsFewer(f, order, keep, b);
      RetainedPredsFewer(f, order, keep, c);
      RemapSuccessors(order, f.blocks[order[b]].term);
      hide RetainOf, Wired, KeptInOrder, KeepClosed, RemapTerm, Remap;
    }
  }

  /** An edge that is left was there before. */
  lemma RetainedEdgeBack(f: Func, order: seq<BlockId>, keep: seq<bool>, b: nat, c: nat)
    requires Wired(f) && KeptInOrder(f, order, keep) && KeepClosed(f, keep) &&
             RetainOf(f, order, keep).Adjacency().Edge(b, c)
    ensures b < |order| && c < |order| && order[b] < f.Size() && f.Adjacency().Edge(order[b], order[c])
  {
    RetainedSize(f, order, keep);
    InOrder(f, order, keep, b);
    InOrder(f, order, keep, c);
    RetainedShape(f, order, keep, b);
    RemapSuccessors(order, f.blocks[order[b]].term);
    SuccsKept(f, order, keep, order[b]);
    RemapBack(order, f.blocks[order[b]].term.Successors(), c);
    hide RetainOf, Wired, KeptInOrder, KeepClosed, RemapTerm, Remap;
  }

  lemma RemapBack(order: seq<BlockId>, bs: seq<BlockId>, c: nat)
    requires c in Remap(order, bs) && forall b: BlockId :: b in bs ==> b in order
    ensures c < |order| && order[c] in bs
  {
    var i: nat :| i < |bs| && Remap(order, bs)[i] == c;
    assert bs[i] in bs;
    IndexOf(order, bs[i]);
  }
}
