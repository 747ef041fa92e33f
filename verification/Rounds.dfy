/** Rounds of copy propagation and block merging until neither changes anything. */
module Rounds {
  import opened IdomTree
  import opened Graphs
  import opened Ssa
  import opened Rewrites
  import opened SsaValid
  import opened GraphEdits
  import opened Heads
  import opened Wiring
  import opened Functions
  import opened CopyProp
  import opened SecondRun
  import opened PromotedShape
  import opened Stuttering
  import opened Renumbering
  import opened BlockMerging

  // ---- what the outside world sees of a run ----

  /** What `f'` has shown after `n` blocks `f` shows as well, after no fewer. */
  ghost predicate Shows(m: Machine, private: set<SlotId>, f: Func, f': Func, n: nat) {
    exists n': nat :: n <= n' && SameShown(Run(m, private, f, n'), Run(m, private, f', n))
  }

  /** On every machine and after every number of blocks, as long as `slots` are private. */
  ghost predicate KeepsShows(slots: set<SlotId>, f: Func, f': Func) {
    forall m: Machine, private: set<SlotId>, n: nat {:trigger Shows(m, private, f, f', n)} ::
      slots <= private ==> Shows(m, private, f, f', n)
  }

  lemma ShowsItself(slots: set<SlotId>, f: Func)
    ensures KeepsShows(slots, f, f)
  {
    forall m: Machine, private: set<SlotId>, n: nat ensures Shows(m, private, f, f, n) {
      assert SameShown(Run(m, private, f, n), Run(m, private, f, n));
    }
    hide Run;
  }

  lemma ShowsInTurn(slots: set<SlotId>, f: Func, f1: Func, f2: Func)
    requires KeepsShows(slots, f, f1) && KeepsShows(slots, f1, f2)
    ensures KeepsShows(slots, f, f2)
  {
    hide Run;
    forall m: Machine, private: set<SlotId>, n: nat | slots <= private ensures Shows(m, private, f, f2, n) {
      assert Shows(m, private, f1, f2, n);
      var i: nat :| n <= i && SameShown(Run(m, private, f1, i), Run(m, private, f2, n));
      assert Shows(m, private, f, f1, i);
      var j: nat :| i <= j && SameShown(Run(m, private, f, j), Run(m, private, f1, i));
    }
  }

  lemma FewerSlots(slots: set<SlotId>, more: set<SlotId>, f: Func, f': Func)
    requires KeepsShows(slots, f, f') && slots <= more
    ensures KeepsShows(more, f, f')
  {
    hide Shows;
  }

  /** Functions that show the same end alike, or neither ends. */
  lemma ShowsEnd(slots: set<SlotId>, f: Func, f': Func, m: Machine, private: set<SlotId>, result: Option<Word>,
                 trace: seq<Event>)
    requires KeepsShows(slots, f, f') && slots <= private
    ensures Ends(m, private, f, result, trace) <==> Ends(m, private, f', result, trace)
  {
    hide Run;
    if Ends(m, private, f', result, trace) {
      var n: nat :| Run(m, private, f', n) == Done(result, trace);
      assert Shows(m, private, f, f', n);
      var i: nat :| n <= i && SameShown(Run(m, private, f, i), Run(m, private, f', n));
    }
    if Ends(m, private, f, result, trace) {
      var n: nat :| Run(m, private, f, n) == Done(result, trace);
      assert Shows(m, private, f, f', n);
      var i: nat :| n <= i && SameShown(Run(m, private, f, i), Run(m, private, f', n));
      Settled(m, private, f, n, i);
    }
  }

  lemma AlikeShows(f: Func, f': Func)
    requires RunsAlike(f, f')
    ensures KeepsShows({}, f, f')
  {
    hide Run;
    forall m: Machine, private: set<SlotId>, n: nat ensures Shows(m, private, f, f', n) {
      assert Reaches(m, private, f, f', n);
      var i: nat :| n <= i && SameOutcome(Run(m, private, f, i), Run(m, private, f', n));
      assert SameShown(Run(m, private, f, i), Run(m, private, f', n));
    }
  }

  lemma SameButShows(m: Machine, private: set<SlotId>, dead: Dead, f: Func, f': Func, n: nat)
    requires SameBut(m, dead, Run(m, private, f, n), Run(m, private, f', n))
    ensures Shows(m, private, f, f', n)
  {
    hide Run;
    assert SameShown(Run(m, private, f, n), Run(m, private, f', n));
  }

  // ---- what one propagation keeps ----

  lemma PropagatedShape(f: Func, resolved: Copies, f': Func)
    requires f'.blocks == Propagated(f, resolved) && f'.entry == f.entry
    ensures f'.Adjacency() == f.Adjacency() && f'.Size() == f.Size()
    ensures PhisJoin(f) ==> PhisJoin(f')
    ensures CriticalFree(f) ==> CriticalFree(f')
  {
    assert |f'.blocks| == |f.blocks|;
    forall b: nat | b < f.Size()
      ensures f'.blocks[b].preds == f.blocks[b].preds
      ensures f'.blocks[b].term.Successors() == f.blocks[b].term.Successors()
      ensures f'.blocks[b].phis != [] ==> f.blocks[b].phis != []
    {
      PropagatedEdges(f, resolved, f', b);
    }
    hide Propagated;
    assert f'.Adjacency().preds == f.Adjacency().preds && f'.Adjacency().succs == f.Adjacency().succs;
    if CriticalFree(f) {
      hide Func.Adjacency, CriticalFree;
      SameGraphNoCritical(f, f');
    }
  }

  lemma PropagatedEdges(f: Func, resolved: Copies, f': Func, b: BlockId)
    requires f'.blocks == Propagated(f, resolved) && b < f.Size()
    ensures f'.Size() == f.Size() && f'.blocks[b].preds == f.blocks[b].preds
    ensures f'.blocks[b].term.Successors() == f.blocks[b].term.Successors()
    ensures f'.blocks[b].phis != [] ==> f.blocks[b].phis != []
  {
    PropagatedIs(f, resolved, f', b);
    assert Propagated(f, resolved)[b] == EraseBlock(Dead(resolved.Keys, {}), SubBlock(resolved, f.blocks[b]));
    SubTermShape(resolved, f.blocks[b].term);
    hide Propagated, SubTerm;
    if f'.blocks[b].phis != [] {
      var k := ErasedPhisFrom(Dead(resolved.Keys, {}), SubPhis(resolved, f.blocks[b].phis), 0);
    }
  }

  lemma PropagatedHeads(f: Func, resolved: Copies, f': Func)
    requires f'.blocks == Propagated(f, resolved)
    ensures NoNewHeads(f, f')
  {
    assert |f'.blocks| == |f.blocks|;
    forall b: BlockId | b < f'.Size() ensures HeadsFrom(f, f'.blocks[b].insts) {
      PropagatedIs(f, resolved, f', b);
      var insts := f.blocks[b].insts;
      OwnHeads(f, b);
      hide Propagated, HeadsFrom, EraseInsts, Op.Head;
      forall j: nat | j < |f'.blocks[b].insts|
        ensures exists i: nat :: i < |insts| && f'.blocks[b].insts[j].op.Head() == insts[i].op.Head()
      {
        var k := ErasedInstsFrom(Dead(resolved.Keys, {}), SubInsts(resolved, insts), j);
        SubKeepsHead(resolved, insts[k].op);
      }
      HeadsOf(f, insts, f'.blocks[b].insts);
    }
    hide Propagated, HeadsFrom;
    BlocksFrom(f, f');
  }

  /** One propagation: the same edges, fewer copies, the same shown. */
  lemma PropagationStep(f: Func, direct: Copies, resolved: Copies, f': Func)
    requires ValidSsa(f) && AreDirect(f, direct) && AreResolved(direct, resolved) && resolved != map[]
    requires f'.blocks == Propagated(f, resolved) && f'.entry == f.entry
    ensures f'.Size() == f.Size() && (PhisJoin(f) ==> PhisJoin(f')) && (CriticalFree(f) ==> CriticalFree(f'))
    ensures CopyCount(f'.blocks, f'.Size()) < CopyCount(f.blocks, f.Size())
    ensures KeepsShows({}, f, f') && NoNewHeads(f, f')
  {
    PropagatedShape(f, resolved, f');
    PropagatedHeads(f, resolved, f');
    PropagationShrinks(f, direct, resolved);
    hide *;
    forall m: Machine, private: set<SlotId>, n: nat ensures Shows(m, private, f, f', n) {
      PropagationKeepsRuns(m, private, f, direct, resolved, f', n);
      SameButShows(m, private, Dead(resolved.Keys, {}), f, f', n);
    }
    AllShow(f, f');
  }

  lemma AllShow(f: Func, f': Func)
    requires forall m: Machine, private: set<SlotId>, n: nat :: Shows(m, private, f, f', n)
    ensures KeepsShows({}, f, f')
  {
    hide Shows;
  }

  // ---- the rounds ----

  /** What any number of rounds keeps. */
  ghost predicate RoundsKeep(f: Func, f': Func) {
    && ValidSsa(f') && WellFormed(f')
    && (PhisJoin(f) ==> PhisJoin(f')) && (CriticalFree(f) ==> CriticalFree(f'))
    && KeepsShows({}, f, f') && NoNewHeads(f, f')
  }

  lemma RoundsStart(f: Func)
    requires ValidSsa(f) && WellFormed(f)
    ensures RoundsKeep(f, f)
  {
    ShowsItself({}, f);
    hide ValidSsa, WellFormed, PhisJoin, CriticalFree, KeepsShows;
  }

  lemma RoundsPropagate(f0: Func, f: Func, direct: Copies, resolved: Copies, f': Func)
    requires RoundsKeep(f0, f) && AreDirect(f, direct) && AreResolved(direct, resolved) && resolved != map[]
    requires f'.blocks == Propagated(f, resolved) && f'.entry == f.entry && ValidSsa(f') && WellFormed(f')
    ensures RoundsKeep(f0, f') && f'.Size() == f.Size()
    ensures CopyCount(f'.blocks, f'.Size()) < CopyCount(f.blocks, f.Size())
  {
    hide AreDirect, AreResolved, ValidSsa, WellFormed, PhisJoin, CriticalFree, KeepsShows, Propagated, CopyCount,
         NoNewHeads;
    PropagationStep(f, direct, resolved, f');
    HeadsInTurn(f0, f, f');
    ShowsInTurn({}, f0, f, f');
  }

  lemma RoundsMerge(f0: Func, f: Func, f': Func)
    requires RoundsKeep(f0, f) && Merged(f, f')
    ensures RoundsKeep(f0, f')
  {
    ValidReaches(f);
    hide ValidSsa, WellFormed, PhisJoin, CriticalFree, KeepsShows, RunsAlike, Graph.AllReachable, NothingToMerge,
         NoNewHeads;
    AlikeShows(f, f');
    HeadsInTurn(f0, f, f');
    ShowsInTurn({}, f0, f, f');
  }

  lemma EntryIsFirst(f: Func)
    requires ValidSsa(f)
    ensures f.entry < f.Size() && f.blocks[f.entry].preds == []
  {
    assert f.entry < f.Adjacency().Size();
  }

  /** Repeats both passes until a round changes nothing.  It always stops, with no copy left and nothing to merge, and
      every run shows what it showed before. */
  method Optimize(fn: Function)
    requires ValidSsa(fn.View()) && fn.Valid()
    modifies fn
    ensures RoundsKeep(old(fn.View()), fn.View())
    ensures NoCopies(fn.View()) && NothingToMerge(fn.View())
  {
    hide ValidSsa, WellFormed, RoundsKeep, NoCopies, NothingToMerge, AreDirect, AreResolved, Propagated, Merged,
         CopyCount;
    ghost var f0 := fn.View();
    RoundsStart(f0);
    var changed := true;
    while changed
      invariant RoundsKeep(f0, fn.View()) && ValidSsa(fn.View()) && fn.Valid()
      invariant !changed ==> NoCopies(fn.View()) && NothingToMerge(fn.View())
      decreases |fn.blocks|, CopyCount(fn.blocks, |fn.blocks|), changed
    {
      ghost var f := fn.View();
      changed := Propagate(fn);
      if changed {
        ghost var direct: Copies, resolved: Copies :|
          AreDirect(f, direct) && AreResolved(direct, resolved) && resolved != map[]
          && fn.blocks == Propagated(f, resolved) && fn.entry == f.entry;
        RoundsPropagate(f0, f, direct, resolved, fn.View());
      }
      ghost var f1 := fn.View();
      EntryIsFirst(f1);
      var merged := MergeAll(fn);
      changed := changed || merged;
      RoundsMerge(f0, f1, fn.View());
      KeptParts(f0, fn.View());
    }
  }

  lemma KeptParts(f0: Func, f: Func)
    requires RoundsKeep(f0, f)
    ensures ValidSsa(f) && WellFormed(f)
  {
  }
}
