/** When linear scan uses the frame: only where more values are wanted at once than there are registers for them. */
module Contention {
  import opened IdomTree
  import opened Lists
  import opened Intervals
  import opened LinearScan

  // ---- what happens to one interval ----

  /** When interval `k` is placed every register it may use is busy, and `n` is the last to end of it and of those
      that could yield to it: `n` is `k` itself, or ends after it and yields. */
  ghost predicate Contended(file: RegisterFile, intervals: seq<LiveInterval>, calls: seq<CallSite>, asg: Assignments,
                            k: nat, n: nat) {
    && n <= k < |intervals| && AllBusy(file, intervals, calls, k, asg)
    && (forall m: nat :: CanYield(file, intervals, calls, k, asg, m) ==> intervals[m].end <= intervals[n].end)
    && (n < k ==> CanYield(file, intervals, calls, k, asg, n) && intervals[k].end < intervals[n].end)
  }

  lemma TakenIs(file: RegisterFile, intervals: seq<LiveInterval>, calls: seq<CallSite>, k: nat, a: Stage, b: Stage,
                i: nat)
    requires k < |intervals| && Takes(file, intervals, calls, k, a, b, i) && DistinctVregs(intervals)
    ensures HomeOf(b.asg, intervals, k).InRegister?
    ensures forall n: nat :: n < |intervals| && n != k ==> HomeOf(b.asg, intervals, n) == HomeOf(a.asg, intervals, n)
  {
    OthersKeep(intervals, a.asg, k, InRegister(file.allocatable[i]));
    hide HomeOf, Busy, DistinctVregs;
  }

  lemma YieldedIs(file: RegisterFile, intervals: seq<LiveInterval>, calls: seq<CallSite>, k: nat, a: Stage, b: Stage)
    requires k < |intervals| && Yields(file, intervals, calls, k, a, b) && DistinctVregs(intervals)
    ensures forall n: nat :: n < |intervals| && n != k ==> HomeOf(b.asg, intervals, n) == HomeOf(a.asg, intervals, n)
  {
    OthersKeep(intervals, a.asg, k, Spill(a.spills + 1));
    hide HomeOf, AllBusy, DistinctVregs;
  }

  /** Interval `n` is decided at `n`. */
  lemma FirstPlaced(file: RegisterFile, intervals: seq<LiveInterval>, calls: seq<CallSite>, stages: seq<Stage>, n: nat)
    requires IsScan(file, intervals, calls, stages) && DistinctVregs(intervals) && n < |intervals|
    requires HomeOf(stages[n + 1].asg, intervals, n).Spill?
    ensures Contended(file, intervals, calls, stages[n].asg, n, n)
  {
    var a, b := stages[n], stages[n + 1];
    assert DecidesAt(file, intervals, calls, stages, n);
    hide AllBusy, CanYield, Busy;
    if i: nat :| Takes(file, intervals, calls, n, a, b, i) {
      TakenIs(file, intervals, calls, n, a, b, i);
    } else if e: nat :| Evicts(file, intervals, calls, n, a, b, e) {
      EvictedIs(file, intervals, calls, n, a, b, e);
    }
  }

  lemma EvictedIs(file: RegisterFile, intervals: seq<LiveInterval>, calls: seq<CallSite>, k: nat, a: Stage, b: Stage,
                  e: nat)
    requires k < |intervals| && Evicts(file, intervals, calls, k, a, b, e) && DistinctVregs(intervals)
    ensures e < k && HomeOf(a.asg, intervals, e).InRegister?
    ensures HomeOf(b.asg, intervals, k) == HomeOf(a.asg, intervals, e)
    ensures forall n: nat :: n < |intervals| && n != k && n != e ==>
              HomeOf(b.asg, intervals, n) == HomeOf(a.asg, intervals, n)
  {
    var mid := a.asg[intervals[e].vreg := Spill(a.spills + 1)];
    OthersKeep(intervals, a.asg, e, Spill(a.spills + 1));
    OthersKeep(intervals, mid, k, HomeOf(a.asg, intervals, e));
    hide HomeOf, AllBusy, DistinctVregs;
  }

  /** An interval loses its register only by yielding it. */
  lemma LostByYielding(file: RegisterFile, intervals: seq<LiveInterval>, calls: seq<CallSite>, stages: seq<Stage>,
                       k: nat, n: nat)
    requires IsScan(file, intervals, calls, stages) && DistinctVregs(intervals) && n < k < |intervals|
    requires HomeOf(stages[k].asg, intervals, n).InRegister? && HomeOf(stages[k + 1].asg, intervals, n).Spill?
    ensures Contended(file, intervals, calls, stages[k].asg, k, n)
  {
    var a, b := stages[k], stages[k + 1];
    assert DecidesAt(file, intervals, calls, stages, k);
    hide AllBusy, CanYield, Busy;
    if i: nat :| Takes(file, intervals, calls, k, a, b, i) {
      TakenIs(file, intervals, calls, k, a, b, i);
    } else if e: nat :| Evicts(file, intervals, calls, k, a, b, e) {
      EvictedIs(file, intervals, calls, k, a, b, e);
    } else {
      YieldedIs(file, intervals, calls, k, a, b);
    }
  }

  /** An interval in the frame was contended: when it, or one that took its register and ends before it, was placed,
      every register that one may use was held by an interval not over yet, and it was the last of them to end. */
  lemma {:induction false} SpilledWhy(file: RegisterFile, intervals: seq<LiveInterval>, calls: seq<CallSite>,
                                      stages: seq<Stage>, n: nat, j: nat) returns (k: nat)
    requires IsScan(file, intervals, calls, stages) && DistinctVregs(intervals) && n < j <= |intervals|
    requires HomeOf(stages[j].asg, intervals, n).Spill?
    ensures k < j && Contended(file, intervals, calls, stages[k].asg, k, n)
    decreases j
  {
    hide IsScan, Contended, DistinctVregs, HomeOf;
    ScanSize(file, intervals, calls, stages);
    if j == n + 1 {
      k := n;
      FirstPlaced(file, intervals, calls, stages, n);
    } else if HomeOf(stages[j - 1].asg, intervals, n).Spill? {
      k := SpilledWhy(file, intervals, calls, stages, n, j - 1);
    } else {
      k := j - 1;
      LostByYielding(file, intervals, calls, stages, k, n);
    }
  }

  lemma ScanSize(file: RegisterFile, intervals: seq<LiveInterval>, calls: seq<CallSite>, stages: seq<Stage>)
    requires IsScan(file, intervals, calls, stages)
    ensures |stages| == |intervals| + 1
  {
  }

  // ---- how many values are wanted at once ----

  /** The intervals not over when interval `k` starts, `k` among them. */
  ghost function Wanted(intervals: seq<LiveInterval>, k: nat): set<nat>
    requires k < |intervals|
  {
    set n: nat | n < |intervals| && intervals[n].start <= intervals[k].start <= intervals[n].end
  }

  /** The registers interval `k` may use, by index. */
  ghost function RegistersFor(file: RegisterFile, intervals: seq<LiveInterval>, calls: seq<CallSite>, k: nat): set<nat>
    requires k < |intervals|
  {
    set i: nat | i < |file.allocatable| && Permitted(file, i, CrossesAny(intervals[k], calls))
  }

  lemma {:induction false} OneToOne(indices: set<nat>, ns: set<nat>, f: map<nat, nat>)
    requires indices <= f.Keys && (forall i: nat :: i in indices ==> f[i] in ns)
    requires forall i: nat, j: nat :: i in indices && j in indices && f[i] == f[j] ==> i == j
    ensures |indices| <= |ns|
    decreases |indices|
  {
    if indices != {} {
      var i :| i in indices;
      OneToOne(indices - {i}, ns - {f[i]}, f);
    }
  }

  ghost predicate HoldsNow(intervals: seq<LiveInterval>, asg: Assignments, k: nat, r: PhysReg, n: nat)
    requires k < |intervals|
  {
    n < k && HomeOf(asg, intervals, n) == InRegister(r) && intervals[k].start <= intervals[n].end
  }

  /** Where every register for `k` is busy, more values are wanted than there are registers for it. */
  lemma ContendedIsCrowded(file: RegisterFile, intervals: seq<LiveInterval>, calls: seq<CallSite>, asg: Assignments,
                           k: nat)
    requires Scannable(file, intervals, calls) && k < |intervals| && intervals[k].start <= intervals[k].end
    requires AllBusy(file, intervals, calls, k, asg)
    ensures |RegistersFor(file, intervals, calls, k)| < |Wanted(intervals, k)|
  {
    hide CrossesAny, RegistersFor, Wanted, AllBusy, HoldsNow, Scannable;
    var indices := RegistersFor(file, intervals, calls, k);
    forall i: nat | i in indices
      ensures i < |file.allocatable| && exists n: nat :: HoldsNow(intervals, asg, k, file.allocatable[i], n)
    {
      var n := SomeHolder(file, intervals, calls, asg, k, i);
    }
    assert Distinct(file.allocatable) by {
      RegistersDistinct(file, intervals, calls);
    }
    hide Distinct;
    var f := HolderMap(intervals, asg, k, file, indices);
    forall i: nat | i in indices ensures f[i] in Wanted(intervals, k) && f[i] != k {
      HolderWanted(file, intervals, calls, asg, k, file.allocatable[i], f[i]);
    }
    forall i: nat, j: nat | i in indices && j in indices && f[i] == f[j] ensures i == j {
      HoldsOne(file, intervals, calls, asg, k, i, j, f[i]);
    }
    ItselfWanted(intervals, k);
    OneToOne(indices, Wanted(intervals, k) - {k}, f);
  }

  lemma RegistersDistinct(file: RegisterFile, intervals: seq<LiveInterval>, calls: seq<CallSite>)
    requires Scannable(file, intervals, calls)
    ensures Distinct(file.allocatable)
  {
  }

  lemma SomeHolder(file: RegisterFile, intervals: seq<LiveInterval>, calls: seq<CallSite>, asg: Assignments, k: nat,
                   i: nat) returns (n: nat)
    requires k < |intervals| && AllBusy(file, intervals, calls, k, asg) && i in RegistersFor(file, intervals, calls, k)
    ensures i < |file.allocatable| && HoldsNow(intervals, asg, k, file.allocatable[i], n)
  {
    hide HomeOf, CrossesAny;
    assert Busy(intervals, asg, k, file.allocatable[i]);
    n :| n < k && HomeOf(asg, intervals, n) == InRegister(file.allocatable[i])
         && intervals[k].start <= intervals[n].end;
  }

  lemma HolderWanted(file: RegisterFile, intervals: seq<LiveInterval>, calls: seq<CallSite>, asg: Assignments, k: nat,
                     r: PhysReg, n: nat)
    requires Scannable(file, intervals, calls) && k < |intervals| && HoldsNow(intervals, asg, k, r, n)
    ensures n in Wanted(intervals, k) && n != k
  {
    hide HomeOf;
  }

  lemma HoldsOne(file: RegisterFile, intervals: seq<LiveInterval>, calls: seq<CallSite>, asg: Assignments, k: nat,
                 i: nat, j: nat, n: nat)
    requires Scannable(file, intervals, calls) && k < |intervals| && i < |file.allocatable| && j < |file.allocatable|
    requires HoldsNow(intervals, asg, k, file.allocatable[i], n) && HoldsNow(intervals, asg, k, file.allocatable[j], n)
    ensures i == j
  {
    hide HomeOf;
  }

  lemma ItselfWanted(intervals: seq<LiveInterval>, k: nat)
    requires k < |intervals| && intervals[k].start <= intervals[k].end
    ensures k in Wanted(intervals, k)
  {
  }

  ghost function HolderMap(intervals: seq<LiveInterval>, asg: Assignments, k: nat, file: RegisterFile,
                           indices: set<nat>): (f: map<nat, nat>)
    requires k < |intervals| && Distinct(file.allocatable)
    requires forall i: nat :: i in indices ==>
               i < |file.allocatable| && exists n: nat :: HoldsNow(intervals, asg, k, file.allocatable[i], n)
    ensures f.Keys == indices && forall i: nat :: i in indices ==>
              HoldsNow(intervals, asg, k, file.allocatable[i], f[i])
  {
    map i: nat | i in indices :: (var n: nat :| HoldsNow(intervals, asg, k, file.allocatable[i], n); n)
  }

  /** If no more values are ever wanted at once than there are registers for each of them, all get one and the frame
      is not used. */
  lemma FewNeedNoFrame(file: RegisterFile, intervals: seq<LiveInterval>, calls: seq<CallSite>, allocation: Allocation)
    requires Scannable(file, intervals, calls) && IsSafe(file, intervals, calls, allocation)
    requires ScanGives(file, intervals, calls, allocation)
    requires forall k: nat :: k < |intervals| ==> intervals[k].start <= intervals[k].end
    requires forall k: nat :: k < |intervals| ==>
               |Wanted(intervals, k)| <= |RegistersFor(file, intervals, calls, k)|
    ensures forall n: nat :: n < |intervals| ==> HomeOf(allocation.assignments, intervals, n).InRegister?
    ensures allocation.spillSlots == 0
  {
    var stages: seq<Stage> :| IsScan(file, intervals, calls, stages) &&
                              stages[|intervals|] == Stage(allocation.assignments, allocation.spillSlots);
    ScanSize(file, intervals, calls, stages);
    hide IsScan, HomeOf, Wanted, RegistersFor, CrossesAny, KeysAre, Disjoint, SurvivesCalls, UsesRegister, Contended;
    forall n: nat | n < |intervals| ensures HomeOf(allocation.assignments, intervals, n).InRegister? {
      if HomeOf(allocation.assignments, intervals, n).Spill? {
        var k := SpilledWhy(file, intervals, calls, stages, n, |intervals|);
        ContendedBusy(file, intervals, calls, stages[k].asg, k, n);
        ContendedIsCrowded(file, intervals, calls, stages[k].asg, k);
      }
    }
    if allocation.spillSlots >= 1 {
      var n := FirstSlotUsed(file, intervals, calls, allocation);
    }
  }

  lemma FirstSlotUsed(file: RegisterFile, intervals: seq<LiveInterval>, calls: seq<CallSite>, allocation: Allocation)
    returns (n: nat)
    requires IsSafe(file, intervals, calls, allocation) && allocation.spillSlots >= 1
    ensures n < |intervals| && HomeOf(allocation.assignments, intervals, n).Spill?
  {
    hide HomeOf, CrossesAny, KeysAre, Disjoint, SurvivesCalls, UsesRegister;
    assert UsesSlot(allocation.assignments, intervals, |intervals|, 1);
    n :| n < |intervals| && HomeOf(allocation.assignments, intervals, n) == Spill(1);
  }

  lemma ContendedBusy(file: RegisterFile, intervals: seq<LiveInterval>, calls: seq<CallSite>, asg: Assignments,
                      k: nat, n: nat)
    requires Contended(file, intervals, calls, asg, k, n)
    ensures k < |intervals| && AllBusy(file, intervals, calls, k, asg)
  {
  }

  ghost function Below(n: nat): (r: set<nat>)
    ensures |r| == n && forall i: nat :: i in r <==> i < n
    decreases n
  {
    if n == 0 then {} else Below(n - 1) + {n - 1}
  }

  /** An interval that crosses no call may use every register. */
  lemma WithoutCallsAllServe(file: RegisterFile, intervals: seq<LiveInterval>, calls: seq<CallSite>, k: nat)
    requires k < |intervals| && !CrossesAny(intervals[k], calls)
    ensures |RegistersFor(file, intervals, calls, k)| == |file.allocatable|
  {
    assert RegistersFor(file, intervals, calls, k) == Below(|file.allocatable|);
    hide CrossesAny;
  }
}
