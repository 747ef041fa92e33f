/** Linear-scan register allocation over live intervals. */
module LinearScan {
  import opened IdomTree
  import opened Lists
  import opened Vregs
  import opened Intervals

  type PhysReg = nat

  /** `allocatable` in the order they are tried; `preserved` holds those whose word survives a call. */
  datatype RegisterFile = RegisterFile(allocatable: seq<PhysReg>, calleeSaved: set<PhysReg>)

  datatype Assignment = InRegister(register: PhysReg) | Spill(slot: nat)

  type Assignments = map<VirtualReg, Assignment>

  datatype Allocation = Allocation(assignments: Assignments, spillSlots: nat, calleeSaved: seq<PhysReg>)

  /** An interval that holds a register: which one, until when, and the value. */
  datatype Active = Active(register: nat, end: nat, vreg: VirtualReg)

  // ---- what the assignment keeps ----

  function HomeOf(asg: Assignments, intervals: seq<LiveInterval>, n: nat): Assignment
    requires n < |intervals|
  {
    if intervals[n].vreg in asg then asg[intervals[n].vreg] else Spill(0)
  }

  ghost predicate CrossesAny(interval: LiveInterval, calls: seq<CallSite>) {
    exists c: CallSite :: c in calls && interval.CrossesCall(c)
  }

  ghost predicate Apart(a: LiveInterval, b: LiveInterval) {
    a.end < b.start || b.end < a.start
  }

  ghost predicate UsesRegister(asg: Assignments, intervals: seq<LiveInterval>, k: nat, r: PhysReg) {
    exists n: nat :: n < k && n < |intervals| && HomeOf(asg, intervals, n) == InRegister(r)
  }

  ghost predicate UsesSlot(asg: Assignments, intervals: seq<LiveInterval>, k: nat, slot: nat) {
    exists n: nat :: n < k && n < |intervals| && HomeOf(asg, intervals, n) == Spill(slot)
  }

  /** Intervals sharing a register do not overlap. */
  ghost predicate Disjoint(intervals: seq<LiveInterval>, k: nat, asg: Assignments)
    requires k <= |intervals|
  {
    forall a: nat, b: nat :: a < b < k && HomeOf(asg, intervals, b) == HomeOf(asg, intervals, a) ==>
      HomeOf(asg, intervals, a).Spill? || Apart(intervals[a], intervals[b])
  }

  /** What is held across a call is in a register the callee preserves, or in the frame. */
  ghost predicate SurvivesCalls(file: RegisterFile, intervals: seq<LiveInterval>, calls: seq<CallSite>, k: nat,
                                asg: Assignments)
    requires k <= |intervals|
  {
    forall n: nat :: n < k && HomeOf(asg, intervals, n).InRegister? ==>
      HomeOf(asg, intervals, n).register in file.allocatable
      && (CrossesAny(intervals[n], calls) ==> HomeOf(asg, intervals, n).register in file.calleeSaved)
  }

  /** Spill slots are numbered from 1 to `spills`, one value each. */
  ghost predicate SlotsNumbered(intervals: seq<LiveInterval>, k: nat, asg: Assignments, spills: nat)
    requires k <= |intervals|
  {
    && (forall n: nat :: n < k && HomeOf(asg, intervals, n).Spill? ==> 1 <= HomeOf(asg, intervals, n).slot <= spills)
    && (forall a: nat, b: nat :: a < b < k && HomeOf(asg, intervals, a).Spill? ==>
          HomeOf(asg, intervals, b) != HomeOf(asg, intervals, a))
    && (forall slot: nat :: 1 <= slot <= spills ==> UsesSlot(asg, intervals, k, slot))
  }

  ghost predicate UsedExactly(file: RegisterFile, intervals: seq<LiveInterval>, k: nat, asg: Assignments,
                              used: seq<bool>) {
    && |used| == |file.allocatable|
    && forall i: nat :: i < |used| ==>
         (used[i] <==> file.allocatable[i] in file.calleeSaved && UsesRegister(asg, intervals, k, file.allocatable[i]))
  }

  ghost predicate KeysAre(intervals: seq<LiveInterval>, k: nat, asg: Assignments)
    requires k <= |intervals|
  {
    && (forall n: nat :: n < k ==> intervals[n].vreg in asg)
    && (forall v: VirtualReg :: v in asg ==> exists n: nat :: n < k && intervals[n].vreg == v)
  }

  /** The first `k` intervals are placed as they have to be. */
  ghost predicate Placed(file: RegisterFile, intervals: seq<LiveInterval>, calls: seq<CallSite>, k: nat,
                         asg: Assignments, spills: nat, used: seq<bool>) {
    && k <= |intervals|
    && KeysAre(intervals, k, asg) && Disjoint(intervals, k, asg) && SurvivesCalls(file, intervals, calls, k, asg)
    && SlotsNumbered(intervals, k, asg, spills) && UsedExactly(file, intervals, k, asg, used)
  }

  /** Every earlier interval in register `r` has ended before interval `k` starts, except `but`. */
  ghost predicate FreeFor(intervals: seq<LiveInterval>, k: nat, asg: Assignments, r: PhysReg, but: nat)
    requires k < |intervals|
  {
    forall n: nat :: n < k && n != but && HomeOf(asg, intervals, n) == InRegister(r) ==>
      intervals[n].end < intervals[k].start
  }

  lemma OthersKeep(intervals: seq<LiveInterval>, asg: Assignments, k: nat, a: Assignment)
    requires DistinctVregs(intervals) && k < |intervals|
    ensures forall n: nat :: n < |intervals| && n != k ==>
              HomeOf(asg[intervals[k].vreg := a], intervals, n) == HomeOf(asg, intervals, n)
    ensures HomeOf(asg[intervals[k].vreg := a], intervals, k) == a
  {
    forall n: nat | n < |intervals| && n != k ensures intervals[n].vreg != intervals[k].vreg {
      if n < k {
        assert intervals[n].vreg != intervals[k].vreg;
      }
    }
  }

  lemma KeysGrow(intervals: seq<LiveInterval>, k: nat, asg: Assignments, a: Assignment)
    requires k < |intervals| && KeysAre(intervals, k, asg)
    ensures KeysAre(intervals, k + 1, asg[intervals[k].vreg := a])
  {
    var asg' := asg[intervals[k].vreg := a];
    forall v: VirtualReg | v in asg' ensures exists n: nat :: n < k + 1 && intervals[n].vreg == v {
      if v == intervals[k].vreg {
        assert intervals[k].vreg == v;
      } else {
        var n: nat :| n < k && intervals[n].vreg == v;
        assert n < k + 1;
      }
    }
  }

  lemma PlaceInRegister(file: RegisterFile, intervals: seq<LiveInterval>, calls: seq<CallSite>, k: nat,
                        asg: Assignments, spills: nat, used: seq<bool>, i: nat)
    requires Placed(file, intervals, calls, k, asg, spills, used) && k < |intervals| && DistinctVregs(intervals)
    requires i < |file.allocatable| && Distinct(file.allocatable)
    requires FreeFor(intervals, k, asg, file.allocatable[i], k)
    requires CrossesAny(intervals[k], calls) ==> file.allocatable[i] in file.calleeSaved
    ensures Placed(file, intervals, calls, k + 1, asg[intervals[k].vreg := InRegister(file.allocatable[i])], spills,
                   used[i := used[i] || file.allocatable[i] in file.calleeSaved])
  {
    hide KeysAre, DistinctVregs, UsedExactly, Distinct;
    var a := InRegister(file.allocatable[i]);
    var asg' := asg[intervals[k].vreg := a];
    OthersKeep(intervals, asg, k, a);
    hide HomeOf;
    KeysGrow(intervals, k, asg, a);
    UsesSame(intervals, asg, asg', k, a);
    UsedGrows(file, intervals, k, asg, asg', used, i);
  }

  lemma UsedGrows(file: RegisterFile, intervals: seq<LiveInterval>, k: nat, asg: Assignments, asg': Assignments,
                  used: seq<bool>, i: nat)
    requires UsedExactly(file, intervals, k, asg, used) && i < |file.allocatable| && Distinct(file.allocatable)
    requires forall r: PhysReg :: UsesRegister(asg', intervals, k + 1, r) <==>
               UsesRegister(asg, intervals, k, r) || r == file.allocatable[i]
    ensures UsedExactly(file, intervals, k + 1, asg', used[i := used[i] || file.allocatable[i] in file.calleeSaved])
  {
    hide UsesRegister;
  }

  /** What the first `k + 1` intervals use is what the first `k` used and the new one's home. */
  lemma UsesSame(intervals: seq<LiveInterval>, asg: Assignments, asg': Assignments, k: nat, a: Assignment)
    requires k < |intervals| && HomeOf(asg', intervals, k) == a
    requires forall n: nat :: n < |intervals| && n != k ==> HomeOf(asg', intervals, n) == HomeOf(asg, intervals, n)
    ensures forall r: PhysReg :: UsesRegister(asg', intervals, k + 1, r) <==>
              UsesRegister(asg, intervals, k, r) || a == InRegister(r)
    ensures forall s: nat :: UsesSlot(asg', intervals, k + 1, s) <==> UsesSlot(asg, intervals, k, s) || a == Spill(s)
  {
    forall r: PhysReg
      ensures UsesRegister(asg', intervals, k + 1, r) <==> UsesRegister(asg, intervals, k, r) || a == InRegister(r)
    {
      if UsesRegister(asg, intervals, k, r) {
        var n: nat :| n < k && n < |intervals| && HomeOf(asg, intervals, n) == InRegister(r);
        assert HomeOf(asg', intervals, n) == InRegister(r);
      }
      if UsesRegister(asg', intervals, k + 1, r) && a != InRegister(r) {
        var n: nat :| n < k + 1 && n < |intervals| && HomeOf(asg', intervals, n) == InRegister(r);
        assert HomeOf(asg, intervals, n) == InRegister(r);
      }
    }
    forall s: nat
      ensures UsesSlot(asg', intervals, k + 1, s) <==> UsesSlot(asg, intervals, k, s) || a == Spill(s)
    {
      if UsesSlot(asg, intervals, k, s) {
        var n: nat :| n < k && n < |intervals| && HomeOf(asg, intervals, n) == Spill(s);
        assert HomeOf(asg', intervals, n) == Spill(s);
      }
      if UsesSlot(asg', intervals, k + 1, s) && a != Spill(s) {
        var n: nat :| n < k + 1 && n < |intervals| && HomeOf(asg', intervals, n) == Spill(s);
        assert HomeOf(asg, intervals, n) == Spill(s);
      }
    }
    hide HomeOf;
  }

  lemma PlaceInSlot(file: RegisterFile, intervals: seq<LiveInterval>, calls: seq<CallSite>, k: nat,
                    asg: Assignments, spills: nat, used: seq<bool>)
    requires Placed(file, intervals, calls, k, asg, spills, used) && k < |intervals| && DistinctVregs(intervals)
    ensures Placed(file, intervals, calls, k + 1, asg[intervals[k].vreg := Spill(spills + 1)], spills + 1, used)
  {
    var a := Spill(spills + 1);
    OthersKeep(intervals, asg, k, a);
    KeysGrow(intervals, k, asg, a);
    UsesSame(intervals, asg, asg[intervals[k].vreg := a], k, a);
    hide HomeOf, UsesRegister, UsesSlot, CrossesAny, KeysAre, DistinctVregs;
  }

  /** Interval `e` gives up its register to interval `k` and goes to a new slot. */
  lemma PlaceByEvicting(file: RegisterFile, intervals: seq<LiveInterval>, calls: seq<CallSite>, k: nat,
                        asg: Assignments, spills: nat, used: seq<bool>, e: nat, r: PhysReg)
    requires Placed(file, intervals, calls, k, asg, spills, used) && k < |intervals| && DistinctVregs(intervals)
    requires e < k && HomeOf(asg, intervals, e) == InRegister(r)
    requires FreeFor(intervals, k, asg, r, e)
    requires CrossesAny(intervals[k], calls) ==> r in file.calleeSaved
    ensures Placed(file, intervals, calls, k + 1,
                   asg[intervals[e].vreg := Spill(spills + 1)][intervals[k].vreg := InRegister(r)], spills + 1, used)
  {
    var mid := asg[intervals[e].vreg := Spill(spills + 1)];
    var asg' := mid[intervals[k].vreg := InRegister(r)];
    OthersKeep(intervals, asg, e, Spill(spills + 1));
    OthersKeep(intervals, mid, k, InRegister(r));
    EvictKeys(intervals, k, asg, e, Spill(spills + 1), InRegister(r));
    UsesSame(intervals, mid, asg', k, InRegister(r));
    EvictUses(intervals, k, asg, mid, e, r, spills);
    assert UsesRegister(asg, intervals, k, r);
    hide HomeOf, UsesRegister, UsesSlot, CrossesAny, KeysAre, DistinctVregs;
    EvictedPlaced(file, intervals, calls, k, asg, asg', spills, used, e, r);
  }

  lemma EvictKeys(intervals: seq<LiveInterval>, k: nat, asg: Assignments, e: nat, s: Assignment, a: Assignment)
    requires e < k < |intervals| && KeysAre(intervals, k, asg)
    ensures KeysAre(intervals, k + 1, asg[intervals[e].vreg := s][intervals[k].vreg := a])
  {
    var mid := asg[intervals[e].vreg := s];
    forall v: VirtualReg | v in mid ensures exists n: nat :: n < k && intervals[n].vreg == v {
      if v == intervals[e].vreg {
        assert intervals[e].vreg == v;
      }
    }
    KeysGrow(intervals, k, mid, a);
  }

  lemma EvictUses(intervals: seq<LiveInterval>, k: nat, asg: Assignments, mid: Assignments, e: nat, r: PhysReg,
                  spills: nat)
    requires e < k < |intervals| && HomeOf(asg, intervals, e) == InRegister(r) &&
             HomeOf(mid, intervals, e) == Spill(spills + 1)
    requires forall n: nat :: n < |intervals| && n != e ==> HomeOf(mid, intervals, n) == HomeOf(asg, intervals, n)
    ensures forall q: PhysReg :: q != r ==> (UsesRegister(mid, intervals, k, q) <==> UsesRegister(asg, intervals, k, q))
    ensures forall s: nat :: UsesSlot(mid, intervals, k, s) <==> UsesSlot(asg, intervals, k, s) || s == spills + 1
  {
    forall q: PhysReg | q != r
      ensures UsesRegister(mid, intervals, k, q) <==> UsesRegister(asg, intervals, k, q)
    {
      if UsesRegister(asg, intervals, k, q) {
        var n: nat :| n < k && n < |intervals| && HomeOf(asg, intervals, n) == InRegister(q);
        assert HomeOf(mid, intervals, n) == InRegister(q);
      }
      if UsesRegister(mid, intervals, k, q) {
        var n: nat :| n < k && n < |intervals| && HomeOf(mid, intervals, n) == InRegister(q);
        assert HomeOf(asg, intervals, n) == InRegister(q);
      }
    }
    forall s: nat
      ensures UsesSlot(mid, intervals, k, s) <==> UsesSlot(asg, intervals, k, s) || s == spills + 1
    {
      if UsesSlot(asg, intervals, k, s) {
        var n: nat :| n < k && n < |intervals| && HomeOf(asg, intervals, n) == Spill(s);
        assert HomeOf(mid, intervals, n) == Spill(s);
      }
      if UsesSlot(mid, intervals, k, s) && s != spills + 1 {
        var n: nat :| n < k && n < |intervals| && HomeOf(mid, intervals, n) == Spill(s);
        assert HomeOf(asg, intervals, n) == Spill(s);
      }
      assert HomeOf(mid, intervals, e) == Spill(spills + 1);
    }
    hide HomeOf;
  }

  /** `asg'` is `asg` with interval `e` moved from register `r` to a new slot and `k` put in `r`. */
  ghost predicate Evicted(intervals: seq<LiveInterval>, k: nat, asg: Assignments, asg': Assignments, spills: nat,
                          e: nat, r: PhysReg) {
    && e < k < |intervals| && HomeOf(asg, intervals, e) == InRegister(r)
    && HomeOf(asg', intervals, e) == Spill(spills + 1) && HomeOf(asg', intervals, k) == InRegister(r)
    && forall n: nat :: n < k && n != e ==> HomeOf(asg', intervals, n) == HomeOf(asg, intervals, n)
  }

  lemma EvictedDisjoint(intervals: seq<LiveInterval>, k: nat, asg: Assignments, asg': Assignments, spills: nat, e: nat,
                        r: PhysReg)
    requires Evicted(intervals, k, asg, asg', spills, e, r) && Disjoint(intervals, k, asg) &&
             FreeFor(intervals, k, asg, r, e)
    ensures Disjoint(intervals, k + 1, asg')
  {
    hide HomeOf;
  }

  lemma EvictedSurvives(file: RegisterFile, intervals: seq<LiveInterval>, calls: seq<CallSite>, k: nat,
                        asg: Assignments,
                        asg': Assignments, spills: nat, e: nat, r: PhysReg)
    requires Evicted(intervals, k, asg, asg', spills, e, r) && SurvivesCalls(file, intervals, calls, k, asg)
    requires CrossesAny(intervals[k], calls) ==> r in file.calleeSaved
    ensures SurvivesCalls(file, intervals, calls, k + 1, asg')
  {
    assert HomeOf(asg, intervals, e).register in file.allocatable;
    hide HomeOf, CrossesAny;
  }

  lemma EvictedSlots(intervals: seq<LiveInterval>, k: nat, asg: Assignments, asg': Assignments, spills: nat, e: nat,
                     r: PhysReg)
    requires Evicted(intervals, k, asg, asg', spills, e, r) && SlotsNumbered(intervals, k, asg, spills)
    requires forall s: nat :: UsesSlot(asg', intervals, k + 1, s) <==> UsesSlot(asg, intervals, k, s) || s == spills + 1
    ensures SlotsNumbered(intervals, k + 1, asg', spills + 1)
  {
    hide HomeOf, UsesSlot;
    forall n: nat | n < k + 1 && HomeOf(asg', intervals, n).Spill?
      ensures 1 <= HomeOf(asg', intervals, n).slot <= spills + 1
      ensures n != e ==> HomeOf(asg', intervals, n).slot <= spills
    {
      if n < k && n != e {
        assert HomeOf(asg', intervals, n) == HomeOf(asg, intervals, n);
      }
    }
    forall a: nat, b: nat | a < b < k + 1 && HomeOf(asg', intervals, a).Spill?
      ensures HomeOf(asg', intervals, b) != HomeOf(asg', intervals, a)
    {
      if a != e && b != e && b < k {
        assert HomeOf(asg, intervals, b) != HomeOf(asg, intervals, a);
      }
    }
    var next := k + 1;
    forall slot: nat | 1 <= slot <= spills + 1 ensures UsesSlot(asg', intervals, next, slot) {
      assert UsesSlot(asg', intervals, k + 1, slot) <==> UsesSlot(asg, intervals, k, slot) || slot == spills + 1;
    }
  }

  lemma EvictedUsed(file: RegisterFile, intervals: seq<LiveInterval>, k: nat, asg: Assignments, asg': Assignments,
                    used: seq<bool>)
    requires UsedExactly(file, intervals, k, asg, used)
    requires forall q: PhysReg :: UsesRegister(asg', intervals, k + 1, q) <==> UsesRegister(asg, intervals, k, q)
    ensures UsedExactly(file, intervals, k + 1, asg', used)
  {
    hide UsesRegister;
  }

  lemma EvictedPlaced(file: RegisterFile, intervals: seq<LiveInterval>, calls: seq<CallSite>, k: nat,
                      asg: Assignments, asg': Assignments, spills: nat, used: seq<bool>, e: nat, r: PhysReg)
    requires Placed(file, intervals, calls, k, asg, spills, used) && Evicted(intervals, k, asg, asg', spills, e, r)
    requires FreeFor(intervals, k, asg, r, e)
    requires CrossesAny(intervals[k], calls) ==> r in file.calleeSaved
    requires KeysAre(intervals, k + 1, asg')
    requires forall q: PhysReg :: UsesRegister(asg', intervals, k + 1, q) <==> UsesRegister(asg, intervals, k, q)
    requires forall s: nat :: UsesSlot(asg', intervals, k + 1, s) <==> UsesSlot(asg, intervals, k, s) || s == spills + 1
    ensures Placed(file, intervals, calls, k + 1, asg', spills + 1, used)
  {
    EvictedDisjoint(intervals, k, asg, asg', spills, e, r);
    EvictedSurvives(file, intervals, calls, k, asg, asg', spills, e, r);
    EvictedSlots(intervals, k, asg, asg', spills, e, r);
    EvictedUsed(file, intervals, k, asg, asg', used);
    hide HomeOf, UsesRegister, UsesSlot, CrossesAny, KeysAre, Disjoint, SurvivesCalls, SlotsNumbered, UsedExactly;
  }

  // ---- the registers held ----

  function InsertAt<T>(s: seq<T>, p: nat, x: T): (r: seq<T>)
    requires p <= |s|
    ensures |r| == |s| + 1
    ensures forall i: nat {:trigger r[i]} :: i < |r| ==> r[i] == if i < p then s[i] else if i == p then x else s[i - 1]
  {
    s[..p] + [x] + s[p..]
  }

  /** `active[a]` is interval `who[a]`, in the register it holds. */
  ghost predicate Held(file: RegisterFile, intervals: seq<LiveInterval>, k: nat, asg: Assignments, held: Active,
                       n: nat) {
    && n < k <= |intervals| && held.vreg == intervals[n].vreg && held.end == intervals[n].end
    && held.register < |file.allocatable| && HomeOf(asg, intervals, n) == InRegister(file.allocatable[held.register])
  }

  ghost predicate HoldsRegister(active: seq<Active>, i: nat) {
    exists a: nat :: a < |active| && active[a].register == i
  }

  /** Who holds what: one holder per register, in order of their ends; the rest is available; every
      interval in a register holds it still or ended before `floor`. */
  ghost predicate Pool(file: RegisterFile, intervals: seq<LiveInterval>, k: nat, asg: Assignments,
                       active: seq<Active>, who: seq<nat>, available: seq<bool>, floor: nat) {
    && |who| == |active| && k <= |intervals| && |available| == |file.allocatable|
    && (forall a: nat :: a < |active| ==> Held(file, intervals, k, asg, active[a], who[a]))
    && (forall a: nat, b: nat :: a < b < |active| ==>
          active[a].end <= active[b].end && active[a].register != active[b].register)
    && (forall i: nat :: i < |available| ==> (available[i] <==> !HoldsRegister(active, i)))
    && (forall n: nat :: n < k && HomeOf(asg, intervals, n).InRegister? ==> n in who || intervals[n].end < floor)
  }

  lemma DropHolders(active: seq<Active>, p: nat, i: nat)
    requires p <= |active|
    requires forall a: nat, b: nat :: a < b < |active| ==> active[a].register != active[b].register
    ensures !HoldsRegister(active[p..], i) <==>
              !HoldsRegister(active, i) || exists a: nat :: a < p && active[a].register == i
  {
    if HoldsRegister(active, i) {
      var a: nat :| a < |active| && active[a].register == i;
      if a >= p {
        assert active[p..][a - p].register == i;
      } else if HoldsRegister(active[p..], i) {
        var b := TailHolder(active, p, i);
      }
    }
    if HoldsRegister(active[p..], i) {
      var b := TailHolder(active, p, i);
    }
  }

  lemma TailHolder(active: seq<Active>, p: nat, i: nat) returns (b: nat)
    requires p <= |active| && HoldsRegister(active[p..], i)
    ensures p <= b < |active| && active[b].register == i
  {
    var tail := active[p..];
    var c: nat :| c < |tail| && tail[c].register == i;
    b := p + c;
  }

  /** Dropping the first `p` holders, which have all ended, frees their registers. */
  lemma ExpirePool(file: RegisterFile, intervals: seq<LiveInterval>, k: nat, asg: Assignments, active: seq<Active>,
                   who: seq<nat>, available: seq<bool>, floor: nat, p: nat, available': seq<bool>, start: nat)
    requires Pool(file, intervals, k, asg, active, who, available, floor) && floor <= start
    requires p <= |active| && forall a: nat :: a < p ==> active[a].end < start
    requires |available'| == |available|
    requires forall i: nat :: i < |available| ==>
               (available'[i] <==> available[i] || exists a: nat :: a < p && active[a].register == i)
    ensures Pool(file, intervals, k, asg, active[p..], who[p..], available', start)
  {
    forall i: nat | i < |available'| ensures available'[i] <==> !HoldsRegister(active[p..], i) {
      DropHolders(active, p, i);
    }
    forall n: nat | n < k && HomeOf(asg, intervals, n).InRegister? ensures n in who[p..] || intervals[n].end < start {
      if n in who {
        var a: nat :| a < |who| && who[a] == n;
        assert Held(file, intervals, k, asg, active[a], who[a]);
        if a >= p {
          assert who[p..][a - p] == n;
        }
      }
    }
    hide HomeOf, HoldsRegister;
  }

  /** A register nobody holds was given up before `floor` by everybody who had it. */
  lemma AvailableIsFree(file: RegisterFile, intervals: seq<LiveInterval>, k: nat, asg: Assignments, active: seq<Active>,
                        who: seq<nat>, available: seq<bool>, i: nat)
    requires k < |intervals| && Pool(file, intervals, k, asg, active, who, available, intervals[k].start)
    requires i < |available| && available[i] && Distinct(file.allocatable)
    ensures FreeFor(intervals, k, asg, file.allocatable[i], k)
  {
    forall n: nat | n < k && HomeOf(asg, intervals, n) == InRegister(file.allocatable[i])
      ensures intervals[n].end < intervals[k].start
    {
      if n in who {
        HolderHolds(file, intervals, k, asg, active, who, n, i);
      }
    }
    hide HomeOf;
  }

  lemma HolderHolds(file: RegisterFile, intervals: seq<LiveInterval>, k: nat, asg: Assignments, active: seq<Active>,
                    who: seq<nat>,
                    n: nat, i: nat)
    requires |who| == |active| && forall a: nat :: a < |active| ==> Held(file, intervals, k, asg, active[a], who[a])
    requires n in who && n < k <= |intervals| && i < |file.allocatable| && Distinct(file.allocatable)
    requires HomeOf(asg, intervals, n) == InRegister(file.allocatable[i])
    ensures HoldsRegister(active, i)
  {
    var a: nat :| a < |who| && who[a] == n;
    assert Held(file, intervals, k, asg, active[a], who[a]);
    hide HomeOf;
  }

  /** Everybody who had an active holder's register, but that holder, gave it up before `floor`. */
  lemma OnlyHolder(file: RegisterFile, intervals: seq<LiveInterval>, k: nat, asg: Assignments, active: seq<Active>,
                   who: seq<nat>, available: seq<bool>, a: nat)
    requires k < |intervals| && Pool(file, intervals, k, asg, active, who, available, intervals[k].start)
    requires a < |active| && Distinct(file.allocatable)
    ensures Held(file, intervals, k, asg, active[a], who[a])
    ensures FreeFor(intervals, k, asg, file.allocatable[active[a].register], who[a])
  {
    assert Held(file, intervals, k, asg, active[a], who[a]);
    forall n: nat | n < k && n != who[a] && n in who
      ensures HomeOf(asg, intervals, n) != InRegister(file.allocatable[active[a].register])
    {
      var b: nat :| b < |who| && who[b] == n;
      assert Held(file, intervals, k, asg, active[b], who[b]);
      assert active[a].register != active[b].register;
    }
    hide HomeOf;
  }

  lemma HeldStays(file: RegisterFile, intervals: seq<LiveInterval>, k: nat, asg: Assignments, asg': Assignments,
                  held: Active, n: nat)
    requires Held(file, intervals, k, asg, held, n) && k < |intervals| &&
             HomeOf(asg', intervals, n) == HomeOf(asg, intervals, n)
    ensures Held(file, intervals, k + 1, asg', held, n)
  {
  }

  /** A new holder goes in at its place in the order of ends. */
  lemma InsertPool(file: RegisterFile, intervals: seq<LiveInterval>, k: nat, asg: Assignments, asg': Assignments,
                   active: seq<Active>, who: seq<nat>, available: seq<bool>, available': seq<bool>, floor: nat, p: nat,
                   held: Active)
    requires |who| == |active| && k < |intervals| && |available| == |file.allocatable| == |available'|
    requires forall a: nat :: a < |active| ==> Held(file, intervals, k, asg, active[a], who[a])
    requires forall a: nat :: a < |active| ==>
               who[a] < k && HomeOf(asg', intervals, who[a]) == HomeOf(asg, intervals, who[a])
    requires forall a: nat, b: nat :: a < b < |active| ==>
               active[a].end <= active[b].end && active[a].register != active[b].register
    requires !HoldsRegister(active, held.register) && Held(file, intervals, k + 1, asg', held, k)
    requires p <= |active| && (forall a: nat :: a < p ==> active[a].end <= held.end) &&
             (forall a: nat :: p <= a < |active| ==> held.end <= active[a].end)
    requires forall i: nat :: i < |available'| ==> (available'[i] <==> !HoldsRegister(active, i) && i != held.register)
    requires forall n: nat :: n < k && HomeOf(asg', intervals, n).InRegister? ==> n in who || intervals[n].end < floor
    ensures Pool(file, intervals, k + 1, asg', InsertAt(active, p, held), InsertAt(who, p, k), available', floor)
  {
    var active', who' := InsertAt(active, p, held), InsertAt(who, p, k);
    forall a: nat | a < |active'| ensures Held(file, intervals, k + 1, asg', active'[a], who'[a]) {
      if a != p {
        var was := if a < p then a else a - 1;
        HeldStays(file, intervals, k, asg, asg', active[was], who[was]);
      }
    }
    InsertHolders(active, p, held);
    InsertOrder(active, p, held);
    forall n: nat | n < k + 1 && HomeOf(asg', intervals, n).InRegister? ensures n in who' || intervals[n].end < floor {
      if n == k {
        assert who'[p] == k;
      } else if n in who {
        var a: nat :| a < |who| && who[a] == n;
        assert who'[if a < p then a else a + 1] == n;
      }
    }
    hide HomeOf, Held, HoldsRegister, InsertAt;
  }

  lemma InsertOrder(active: seq<Active>, p: nat, held: Active)
    requires p <= |active| && (forall a: nat :: a < p ==> active[a].end <= held.end) &&
             (forall a: nat :: p <= a < |active| ==> held.end <= active[a].end)
    requires forall a: nat, b: nat :: a < b < |active| ==>
               active[a].end <= active[b].end && active[a].register != active[b].register
    requires !HoldsRegister(active, held.register)
    ensures var active' := InsertAt(active, p, held);
            forall a: nat, b: nat :: a < b < |active'| ==>
              active'[a].end <= active'[b].end && active'[a].register != active'[b].register
  {
    assert forall a: nat :: a < |active| ==> active[a].register != held.register;
    var active' := InsertAt(active, p, held);
    forall a: nat, b: nat | a < b < |active'|
      ensures active'[a].end <= active'[b].end && active'[a].register != active'[b].register
    {
      var x, y := if a < p then a else a - 1, if b < p then b else b - 1;
      if a != p && b != p {
        assert active'[a] == active[x] && active'[b] == active[y];
      }
    }
  }

  lemma InsertHolders(active: seq<Active>, p: nat, held: Active)
    requires p <= |active|
    ensures forall i: nat :: HoldsRegister(InsertAt(active, p, held), i) <==>
              HoldsRegister(active, i) || i == held.register
  {
    var active' := InsertAt(active, p, held);
    forall i: nat ensures HoldsRegister(active', i) <==> HoldsRegister(active, i) || i == held.register {
      if HoldsRegister(active, i) {
        var a: nat :| a < |active| && active[a].register == i;
        assert active'[if a < p then a else a + 1].register == i;
      }
      if i == held.register {
        assert active'[p].register == i;
      }
      if HoldsRegister(active', i) && i != held.register {
        var a: nat :| a < |active'| && active'[a].register == i;
        assert active[if a < p then a else a - 1].register == i;
      }
    }
  }

  lemma SpillPool(file: RegisterFile, intervals: seq<LiveInterval>, k: nat, asg: Assignments, active: seq<Active>,
                  who: seq<nat>, available: seq<bool>, floor: nat, slot: nat)
    requires Pool(file, intervals, k, asg, active, who, available, floor) && k < |intervals| && DistinctVregs(intervals)
    ensures Pool(file, intervals, k + 1, asg[intervals[k].vreg := Spill(slot)], active, who, available, floor)
  {
    var asg' := asg[intervals[k].vreg := Spill(slot)];
    OthersKeep(intervals, asg, k, Spill(slot));
    forall a: nat | a < |active| ensures Held(file, intervals, k + 1, asg', active[a], who[a]) {
      HeldStays(file, intervals, k, asg, asg', active[a], who[a]);
    }
    hide HomeOf, HoldsRegister;
  }

  /** The pool without holder `a`. */
  lemma RemovePool(file: RegisterFile, intervals: seq<LiveInterval>, k: nat, asg: Assignments, active: seq<Active>,
                   who: seq<nat>, available: seq<bool>, floor: nat, a: nat)
    requires Pool(file, intervals, k, asg, active, who, available, floor) && a < |active| && Distinct(file.allocatable)
    ensures var active', who' := Without(active, a), Without(who, a);
            && (forall b: nat :: b < |active'| ==>
                  Held(file, intervals, k, asg, active'[b], who'[b]) && who'[b] != who[a])
            && (forall b: nat, d: nat :: b < d < |active'| ==>
                  active'[b].end <= active'[d].end && active'[b].register != active'[d].register)
            && (forall i: nat :: HoldsRegister(active', i) <==> HoldsRegister(active, i) && i != active[a].register)
            && (forall n: nat :: n in who && n != who[a] ==> n in who')
  {
    var active', who' := Without(active, a), Without(who, a);
    WithoutAt(active, a);
    WithoutAt(who, a);
    forall b: nat | b < |active'|
      ensures Held(file, intervals, k, asg, active'[b], who'[b]) && who'[b] != who[a]
    {
      var was := if b < a then b else b + 1;
      assert Held(file, intervals, k, asg, active[was], who[was]) && Held(file, intervals, k, asg, active[a], who[a]);
      assert active[was].register != active[a].register;
      DistinctHomes(file, intervals, k, asg, active[was], who[was], active[a], who[a]);
    }
    RemoveHolders(active, a);
    RemoveWho(who, a);
    hide HomeOf, Held, HoldsRegister, Without;
  }

  lemma WithoutAt<T>(s: seq<T>, k: nat)
    requires k < |s|
    ensures forall i: nat {:trigger Without(s, k)[i]} :: i < |s| - 1 ==>
              Without(s, k)[i] == s[if i < k then i else i + 1]
  {
  }

  lemma RemoveHolders(active: seq<Active>, a: nat)
    requires a < |active|
    requires forall x: nat, y: nat :: x < y < |active| ==> active[x].register != active[y].register
    ensures forall i: nat :: HoldsRegister(Without(active, a), i) <==>
              HoldsRegister(active, i) && i != active[a].register
  {
    var active' := Without(active, a);
    WithoutAt(active, a);
    forall i: nat ensures HoldsRegister(active', i) <==> HoldsRegister(active, i) && i != active[a].register {
      if HoldsRegister(active, i) && i != active[a].register {
        var b: nat :| b < |active| && active[b].register == i;
        assert active'[if b < a then b else b - 1].register == i;
      }
      if HoldsRegister(active', i) {
        var b: nat :| b < |active'| && active'[b].register == i;
        var was := if b < a then b else b + 1;
        assert active[was].register == i && was != a;
      }
    }
    hide Without;
  }

  lemma RemoveWho(who: seq<nat>, a: nat)
    requires a < |who|
    ensures forall n: nat :: n in who && n != who[a] ==> n in Without(who, a)
  {
    forall n: nat | n in who && n != who[a] ensures n in Without(who, a) {
      var b: nat :| b < |who| && who[b] == n;
      assert Without(who, a)[if b < a then b else b - 1] == n;
    }
  }

  lemma DistinctHomes(file: RegisterFile, intervals: seq<LiveInterval>, k: nat, asg: Assignments, x: Active, n: nat,
                      y: Active, l: nat)
    requires Held(file, intervals, k, asg, x, n) && Held(file, intervals, k, asg, y, l) && x.register != y.register
    requires Distinct(file.allocatable)
    ensures n != l
  {
  }

  // ---- the searches ----

  /** How many of the ascending keys are below `bound`, by binary search. */
  method PartitionPoint(keys: seq<nat>, bound: nat) returns (p: nat)
    requires forall i: nat, j: nat :: i < j < |keys| ==> keys[i] <= keys[j]
    ensures p <= |keys| && (forall i: nat :: i < p ==> keys[i] < bound) &&
            (forall i: nat :: p <= i < |keys| ==> bound <= keys[i])
  {
    var lo, hi := 0, |keys|;
    while lo < hi
      invariant 0 <= lo <= hi <= |keys|
      invariant (forall i: nat :: i < lo ==> keys[i] < bound) &&
                (forall i: nat :: hi <= i < |keys| ==> bound <= keys[i])
    {
      var mid := (lo + hi) / 2;
      if keys[mid] < bound {
        lo := mid + 1;
      } else {
        hi := mid;
      }
    }
    p := lo;
  }

  ghost predicate Ascending(calls: seq<CallSite>) {
    forall a: nat, b: nat :: a < b < |calls| ==> calls[a].position < calls[b].position
  }

  /** Is the interval live across any call?  Starts at the first call that could overlap it. */
  method CrossesAnyCall(interval: LiveInterval, calls: seq<CallSite>) returns (crosses: bool)
    requires Ascending(calls)
    ensures crosses <==> CrossesAny(interval, calls)
  {
    var positions := seq(|calls|, i requires 0 <= i < |calls| => calls[i].position);
    var i := PartitionPoint(positions, interval.start);
    assert forall k: nat :: k < i ==> positions[k] == calls[k].position;
    crosses := false;
    while i < |calls| && calls[i].position <= interval.end && !crosses
      invariant i <= |calls|
      invariant !crosses ==> forall k: nat :: k < i ==> !interval.CrossesCall(calls[k])
      invariant crosses ==> exists k: nat :: k < |calls| && interval.CrossesCall(calls[k])
    {
      crosses := interval.CrossesCall(calls[i]);
      i := i + 1;
    }
    if crosses {
      var k: nat :| k < |calls| && interval.CrossesCall(calls[k]);
      assert calls[k] in calls;
    } else {
      forall c: CallSite | c in calls ensures !interval.CrossesCall(c) {
        var k: nat :| k < |calls| && calls[k] == c;
        if k > i {
          assert calls[i].position < calls[k].position;
        }
      }
    }
  }

  ghost predicate Permitted(file: RegisterFile, i: nat, restricted: bool) {
    i < |file.allocatable| && (restricted ==> file.allocatable[i] in file.calleeSaved)
  }

  /** The most preferred register that is free and permitted. */
  method PickRegister(file: RegisterFile, available: seq<bool>, restricted: bool) returns (index: Option<nat>)
    requires |available| == |file.allocatable|
    ensures index.Some? ==> index.value < |available| && available[index.value] &&
                            Permitted(file, index.value, restricted)
    ensures index.Some? ==> forall i: nat :: i < index.value ==> !(available[i] && Permitted(file, i, restricted))
    ensures index.None? ==> forall i: nat :: i < |available| ==> !(available[i] && Permitted(file, i, restricted))
  {
    for i := 0 to |available|
      invariant forall k: nat :: k < i ==> !(available[k] && Permitted(file, k, restricted))
    {
      if available[i] && (!restricted || file.allocatable[i] in file.calleeSaved) {
        return Some(i);
      }
    }
    return None;
  }

  /** The holder ending latest among those whose register may be taken. */
  method Evictable(file: RegisterFile, active: seq<Active>, restricted: bool) returns (index: Option<nat>)
    requires forall a: nat :: a < |active| ==> active[a].register < |file.allocatable|
    ensures index.Some? ==> index.value < |active| && Permitted(file, active[index.value].register, restricted)
    ensures index.Some? ==> forall a: nat :: index.value < a < |active| ==>
              !Permitted(file, active[a].register, restricted)
    ensures index.None? ==> forall a: nat :: a < |active| ==> !Permitted(file, active[a].register, restricted)
  {
    var a := |active|;
    while a > 0
      invariant 0 <= a <= |active|
      invariant forall b: nat :: a <= b < |active| ==> !Permitted(file, active[b].register, restricted)
    {
      a := a - 1;
      if !restricted || file.allocatable[active[a].register] in file.calleeSaved {
        return Some(a);
      }
    }
    return None;
  }

  function Ends(active: seq<Active>): (r: seq<nat>)
    ensures |r| == |active| && forall a: nat :: a < |r| ==> r[a] == active[a].end
  {
    seq(|active|, a requires 0 <= a < |active| => active[a].end)
  }

  /** Return the registers of every holder that ends before `start` to the pool. */
  method ExpireBefore(file: RegisterFile, ghost intervals: seq<LiveInterval>, ghost k: nat, ghost asg: Assignments,
                      active0: seq<Active>, ghost who0: seq<nat>, available0: seq<bool>, ghost floor: nat, start: nat)
    returns (active: seq<Active>, ghost who: seq<nat>, available: seq<bool>)
    requires Pool(file, intervals, k, asg, active0, who0, available0, floor) && floor <= start
    ensures Pool(file, intervals, k, asg, active, who, available, start) && NoneOver(active, start)
  {
    var p := PartitionPoint(Ends(active0), start);
    available := available0;
    for a := 0 to p
      invariant |available| == |available0|
      invariant forall i: nat :: i < |available0| ==>
                  (available[i] <==> available0[i] || exists b: nat :: b < a && active0[b].register == i)
    {
      assert Held(file, intervals, k, asg, active0[a], who0[a]);
      available := available[active0[a].register := true];
    }
    ExpirePool(file, intervals, k, asg, active0, who0, available0, floor, p, available, start);
    active, who := active0[p..], who0[p..];
    forall a: nat | a < |active| ensures start <= active[a].end {
      assert start <= Ends(active0)[p + a];
    }
  }

  /** Where a holder goes in the order of ends. */
  method InsertPosition(active: seq<Active>, held: Active) returns (p: nat)
    requires forall a: nat, b: nat :: a < b < |active| ==> active[a].end <= active[b].end
    ensures p <= |active| && (forall a: nat :: a < p ==> active[a].end <= held.end)
    ensures forall a: nat :: p <= a < |active| ==> held.end <= active[a].end
  {
    p := PartitionPoint(Ends(active), held.end + 1);
    forall a: nat | a < p ensures active[a].end <= held.end {
      assert Ends(active)[a] < held.end + 1;
    }
    forall a: nat | p <= a < |active| ensures held.end <= active[a].end {
      assert held.end + 1 <= Ends(active)[a];
    }
  }

  // ---- what the scan decides, without its pool ----

  /** Homes and spill slots after some intervals. */
  datatype Stage = Stage(asg: Assignments, spills: nat)

  /** An interval placed before `k` is still in register `r` when `k` starts. */
  ghost predicate Busy(intervals: seq<LiveInterval>, asg: Assignments, k: nat, r: PhysReg)
    requires k < |intervals|
  {
    exists n: nat :: n < k && HomeOf(asg, intervals, n) == InRegister(r) && intervals[k].start <= intervals[n].end
  }

  ghost predicate AllBusy(file: RegisterFile, intervals: seq<LiveInterval>, calls: seq<CallSite>, k: nat,
                          asg: Assignments)
    requires k < |intervals|
  {
    forall i: nat :: Permitted(file, i, CrossesAny(intervals[k], calls)) ==>
      Busy(intervals, asg, k, file.allocatable[i])
  }

  /** Interval `n` holds a register that `k` may use, and is not over when `k` starts. */
  ghost predicate CanYield(file: RegisterFile, intervals: seq<LiveInterval>, calls: seq<CallSite>, k: nat,
                           asg: Assignments, n: nat)
    requires k < |intervals|
  {
    && n < k && HomeOf(asg, intervals, n).InRegister? && intervals[k].start <= intervals[n].end
    && (CrossesAny(intervals[k], calls) ==> HomeOf(asg, intervals, n).register in file.calleeSaved)
  }

  /** Interval `k` gets the first register it may use that is not busy. */
  ghost predicate Takes(file: RegisterFile, intervals: seq<LiveInterval>, calls: seq<CallSite>, k: nat, a: Stage,
                        b: Stage, i: nat)
    requires k < |intervals|
  {
    && Permitted(file, i, CrossesAny(intervals[k], calls)) && !Busy(intervals, a.asg, k, file.allocatable[i])
    && (forall j: nat :: j < i && Permitted(file, j, CrossesAny(intervals[k], calls)) ==>
          Busy(intervals, a.asg, k, file.allocatable[j]))
    && b == Stage(a.asg[intervals[k].vreg := InRegister(file.allocatable[i])], a.spills)
  }

  /** None being free, interval `k` gets the register of `e`, the last to end of those that can yield and ending
      after `k`, which goes to a new slot. */
  ghost predicate Evicts(file: RegisterFile, intervals: seq<LiveInterval>, calls: seq<CallSite>, k: nat, a: Stage,
                         b: Stage, e: nat)
    requires k < |intervals|
  {
    && AllBusy(file, intervals, calls, k, a.asg)
    && CanYield(file, intervals, calls, k, a.asg, e) && intervals[k].end < intervals[e].end
    && (forall n: nat :: CanYield(file, intervals, calls, k, a.asg, n) ==> intervals[n].end <= intervals[e].end)
    && b == Stage(a.asg[intervals[e].vreg := Spill(a.spills + 1)][intervals[k].vreg := HomeOf(a.asg, intervals, e)],
                  a.spills + 1)
  }

  /** None being free and none that can yield ending after `k`, it goes to a new slot itself. */
  ghost predicate Yields(file: RegisterFile, intervals: seq<LiveInterval>, calls: seq<CallSite>, k: nat, a: Stage,
                         b: Stage)
    requires k < |intervals|
  {
    && AllBusy(file, intervals, calls, k, a.asg)
    && (forall n: nat :: CanYield(file, intervals, calls, k, a.asg, n) ==> intervals[n].end <= intervals[k].end)
    && b == Stage(a.asg[intervals[k].vreg := Spill(a.spills + 1)], a.spills + 1)
  }

  ghost predicate Decides(file: RegisterFile, intervals: seq<LiveInterval>, calls: seq<CallSite>, k: nat, a: Stage,
                          b: Stage)
    requires k < |intervals|
  {
    || (exists i: nat :: Takes(file, intervals, calls, k, a, b, i))
    || (exists e: nat :: Evicts(file, intervals, calls, k, a, b, e))
    || Yields(file, intervals, calls, k, a, b)
  }

  ghost predicate DecidesAt(file: RegisterFile, intervals: seq<LiveInterval>, calls: seq<CallSite>,
                            stages: seq<Stage>, k: nat) {
    k < |intervals| && k + 1 < |stages| && Decides(file, intervals, calls, k, stages[k], stages[k + 1])
  }

  /** The intervals are decided one after another, from nothing. */
  ghost predicate IsScan(file: RegisterFile, intervals: seq<LiveInterval>, calls: seq<CallSite>, stages: seq<Stage>) {
    && |stages| == |intervals| + 1 && stages[0] == Stage(map[], 0)
    && forall k: nat :: k < |intervals| ==> DecidesAt(file, intervals, calls, stages, k)
  }

  /** An allocation the scan arrives at. */
  ghost predicate ScanGives(file: RegisterFile, intervals: seq<LiveInterval>, calls: seq<CallSite>,
                            allocation: Allocation) {
    exists stages: seq<Stage> :: IsScan(file, intervals, calls, stages) &&
      stages[|intervals|] == Stage(allocation.assignments, allocation.spillSlots)
  }

  ghost predicate NoneOver(active: seq<Active>, start: nat) {
    forall a: nat :: a < |active| ==> start <= active[a].end
  }

  /** Once the holders that are over have gone, a register is available exactly when it is not busy. */
  lemma AvailableUnlessBusy(file: RegisterFile, intervals: seq<LiveInterval>, k: nat, asg: Assignments,
                            active: seq<Active>, who: seq<nat>, available: seq<bool>, i: nat)
    requires k < |intervals| && Pool(file, intervals, k, asg, active, who, available, intervals[k].start)
    requires NoneOver(active, intervals[k].start) && Distinct(file.allocatable) && i < |file.allocatable|
    ensures i < |available| && (available[i] <==> !Busy(intervals, asg, k, file.allocatable[i]))
  {
    if available[i] {
      AvailableIsFree(file, intervals, k, asg, active, who, available, i);
    } else {
      var a: nat :| a < |active| && active[a].register == i;
      assert Held(file, intervals, k, asg, active[a], who[a]);
    }
    hide HomeOf;
  }

  lemma NoneAvailable(file: RegisterFile, intervals: seq<LiveInterval>, calls: seq<CallSite>, k: nat,
                      asg: Assignments, active: seq<Active>, who: seq<nat>, available: seq<bool>)
    requires k < |intervals| && Pool(file, intervals, k, asg, active, who, available, intervals[k].start)
    requires NoneOver(active, intervals[k].start) && Distinct(file.allocatable)
    requires forall i: nat :: i < |available| ==>
               !(available[i] && Permitted(file, i, CrossesAny(intervals[k], calls)))
    ensures AllBusy(file, intervals, calls, k, asg)
  {
    hide Busy, Pool, CrossesAny;
    forall i: nat | Permitted(file, i, CrossesAny(intervals[k], calls))
      ensures Busy(intervals, asg, k, file.allocatable[i])
    {
      AvailableUnlessBusy(file, intervals, k, asg, active, who, available, i);
    }
  }

  /** Those that can yield are the holders of registers `k` may use. */
  lemma YieldersHold(file: RegisterFile, intervals: seq<LiveInterval>, calls: seq<CallSite>, k: nat,
                     asg: Assignments, active: seq<Active>, who: seq<nat>, available: seq<bool>, n: nat)
    returns (a: nat)
    requires k < |intervals| && Pool(file, intervals, k, asg, active, who, available, intervals[k].start)
    requires CanYield(file, intervals, calls, k, asg, n)
    ensures a < |active| && active[a].end == intervals[n].end
    ensures Permitted(file, active[a].register, CrossesAny(intervals[k], calls))
  {
    assert n in who;
    a :| a < |who| && who[a] == n;
    assert Held(file, intervals, k, asg, active[a], who[a]);
    hide HomeOf, CrossesAny;
  }

  lemma HolderCanYield(file: RegisterFile, intervals: seq<LiveInterval>, calls: seq<CallSite>, k: nat,
                       asg: Assignments, active: seq<Active>, who: seq<nat>, available: seq<bool>, a: nat)
    requires k < |intervals| && Pool(file, intervals, k, asg, active, who, available, intervals[k].start)
    requires NoneOver(active, intervals[k].start) && a < |active|
    requires Permitted(file, active[a].register, CrossesAny(intervals[k], calls))
    ensures a < |who| && CanYield(file, intervals, calls, k, asg, who[a]) && active[a].vreg == intervals[who[a]].vreg
    ensures HomeOf(asg, intervals, who[a]) == InRegister(file.allocatable[active[a].register])
    ensures active[a].end == intervals[who[a]].end
  {
    assert Held(file, intervals, k, asg, active[a], who[a]);
    hide HomeOf, CrossesAny;
  }

  /** The free register taken is the first one not busy. */
  lemma TakeDecides(file: RegisterFile, intervals: seq<LiveInterval>, calls: seq<CallSite>, k: nat, asg: Assignments,
                    spills: nat, active: seq<Active>, who: seq<nat>, available: seq<bool>, i: nat, b: Stage)
    requires k < |intervals| && Pool(file, intervals, k, asg, active, who, available, intervals[k].start)
    requires NoneOver(active, intervals[k].start) && Distinct(file.allocatable)
    requires i < |available| && available[i] && Permitted(file, i, CrossesAny(intervals[k], calls))
    requires forall j: nat :: j < i ==> !(available[j] && Permitted(file, j, CrossesAny(intervals[k], calls)))
    requires b == Stage(asg[intervals[k].vreg := InRegister(file.allocatable[i])], spills)
    ensures Decides(file, intervals, calls, k, Stage(asg, spills), b)
  {
    hide Busy, Pool, CrossesAny;
    AvailableUnlessBusy(file, intervals, k, asg, active, who, available, i);
    forall j: nat | j < i && Permitted(file, j, CrossesAny(intervals[k], calls))
      ensures Busy(intervals, asg, k, file.allocatable[j])
    {
      AvailableUnlessBusy(file, intervals, k, asg, active, who, available, j);
    }
    assert Takes(file, intervals, calls, k, Stage(asg, spills), b, i);
  }

  /** The last holder that may be taken from is the last to end of those that can yield. */
  lemma EvictDecides(file: RegisterFile, intervals: seq<LiveInterval>, calls: seq<CallSite>, k: nat, asg: Assignments,
                     spills: nat, active: seq<Active>, who: seq<nat>, available: seq<bool>, a: nat, b: Stage)
    requires k < |intervals| && Pool(file, intervals, k, asg, active, who, available, intervals[k].start)
    requires NoneOver(active, intervals[k].start) && Distinct(file.allocatable)
    requires AllBusy(file, intervals, calls, k, asg)
    requires a < |active| && Permitted(file, active[a].register, CrossesAny(intervals[k], calls))
    requires forall x: nat :: a < x < |active| ==>
               !Permitted(file, active[x].register, CrossesAny(intervals[k], calls))
    requires intervals[k].end < active[a].end
    requires b == Stage(asg[active[a].vreg := Spill(spills + 1)][intervals[k].vreg :=
                                                                 InRegister(file.allocatable[active[a].register])],
                        spills + 1)
    ensures Decides(file, intervals, calls, k, Stage(asg, spills), b)
  {
    HolderCanYield(file, intervals, calls, k, asg, active, who, available, a);
    var e := who[a];
    forall n: nat | CanYield(file, intervals, calls, k, asg, n) ensures intervals[n].end <= intervals[e].end {
      var x := YieldersHold(file, intervals, calls, k, asg, active, who, available, n);
      EndsInOrder(file, intervals, k, asg, active, who, available, x, a);
    }
    hide Pool, CrossesAny, HomeOf, CanYield, AllBusy;
    assert Evicts(file, intervals, calls, k, Stage(asg, spills), b, e);
  }

  lemma EndsInOrder(file: RegisterFile, intervals: seq<LiveInterval>, k: nat, asg: Assignments, active: seq<Active>,
                    who: seq<nat>, available: seq<bool>, x: nat, a: nat)
    requires k < |intervals| && Pool(file, intervals, k, asg, active, who, available, intervals[k].start)
    requires x <= a < |active|
    ensures active[x].end <= active[a].end
  {
  }

  lemma YieldDecides(file: RegisterFile, intervals: seq<LiveInterval>, calls: seq<CallSite>, k: nat, asg: Assignments,
                     spills: nat, active: seq<Active>, who: seq<nat>, available: seq<bool>, victim: Option<nat>,
                     b: Stage)
    requires k < |intervals| && Pool(file, intervals, k, asg, active, who, available, intervals[k].start)
    requires AllBusy(file, intervals, calls, k, asg)
    requires victim.Some? ==> victim.value < |active| && active[victim.value].end <= intervals[k].end
    requires forall x: nat :: x < |active| && (victim.Some? ==> victim.value < x) ==>
               !Permitted(file, active[x].register, CrossesAny(intervals[k], calls))
    requires b == Stage(asg[intervals[k].vreg := Spill(spills + 1)], spills + 1)
    ensures Decides(file, intervals, calls, k, Stage(asg, spills), b)
  {
    forall n: nat | CanYield(file, intervals, calls, k, asg, n) ensures intervals[n].end <= intervals[k].end {
      var x := YieldersHold(file, intervals, calls, k, asg, active, who, available, n);
      if victim.Some? {
        EndsInOrder(file, intervals, k, asg, active, who, available, x, victim.value);
      }
    }
    hide Pool, CrossesAny, HomeOf, CanYield, AllBusy;
  }

  // ---- the scan ----

  /** The scan's state before interval `k`. */
  ghost predicate Scanning(file: RegisterFile, intervals: seq<LiveInterval>, calls: seq<CallSite>, k: nat,
                           asg: Assignments,
                           spills: nat, used: seq<bool>, active: seq<Active>, who: seq<nat>, available: seq<bool>,
                           floor: nat) {
    && Placed(file, intervals, calls, k, asg, spills, used)
    && Pool(file, intervals, k, asg, active, who, available, floor)
  }

  ghost predicate Scannable(file: RegisterFile, intervals: seq<LiveInterval>, calls: seq<CallSite>) {
    && Distinct(file.allocatable) && DistinctVregs(intervals) && Ascending(calls)
    && forall a: nat, b: nat :: a < b < |intervals| ==> intervals[a].start <= intervals[b].start
  }

  /** Interval `k` takes a free register. */
  method TakeFree(file: RegisterFile, intervals: seq<LiveInterval>, ghost calls: seq<CallSite>, k: nat,
                  asg0: Assignments,
                  ghost spills: nat, used0: seq<bool>, active0: seq<Active>, ghost who0: seq<nat>,
                  available0: seq<bool>, index: nat)
    returns (asg: Assignments, used: seq<bool>, active: seq<Active>, ghost who: seq<nat>, available: seq<bool>)
    requires Scannable(file, intervals, calls) && k < |intervals|
    requires Scanning(file, intervals, calls, k, asg0, spills, used0, active0, who0, available0, intervals[k].start)
    requires index < |available0| && available0[index] && Permitted(file, index, CrossesAny(intervals[k], calls))
    ensures Scanning(file, intervals, calls, k + 1, asg, spills, used, active, who, available, intervals[k].start)
    ensures asg == asg0[intervals[k].vreg := InRegister(file.allocatable[index])]
  {
    AvailableIsFree(file, intervals, k, asg0, active0, who0, available0, index);
    PlaceInRegister(file, intervals, calls, k, asg0, spills, used0, index);
    ghost var a := InRegister(file.allocatable[index]);
    OthersKeep(intervals, asg0, k, a);
    available := available0[index := false];
    used := used0[index := used0[index] || file.allocatable[index] in file.calleeSaved];
    asg := asg0[intervals[k].vreg := InRegister(file.allocatable[index])];
    var held := Active(index, intervals[k].end, intervals[k].vreg);
    var p := InsertPosition(active0, held);
    hide Placed, HomeOf, HoldsRegister, CrossesAny, InsertAt, FreeFor;
    HeldNew(file, intervals, k, asg, held);
    HoldersEarlier(file, intervals, k, asg0, active0, who0);
    InsertPool(file, intervals, k, asg0, asg, active0, who0, available0, available, intervals[k].start, p, held);
    active := InsertAt(active0, p, held);
    who := InsertAt(who0, p, k);
  }

  lemma HeldNew(file: RegisterFile, intervals: seq<LiveInterval>, k: nat, asg: Assignments, held: Active)
    requires k < |intervals| && held.register < |file.allocatable| && held.end == intervals[k].end &&
             held.vreg == intervals[k].vreg
    requires HomeOf(asg, intervals, k) == InRegister(file.allocatable[held.register])
    ensures Held(file, intervals, k + 1, asg, held, k)
  {
  }

  lemma HoldersEarlier(file: RegisterFile, intervals: seq<LiveInterval>, k: nat, asg: Assignments, active: seq<Active>,
                       who: seq<nat>)
    requires |who| == |active| && forall a: nat :: a < |active| ==> Held(file, intervals, k, asg, active[a], who[a])
    ensures forall a: nat :: a < |active| ==> who[a] < k <= |intervals|
  {
    forall a: nat | a < |active| ensures who[a] < k <= |intervals| {
      assert Held(file, intervals, k, asg, active[a], who[a]);
    }
  }

  /** Interval `k` takes the register of holder `a`, which goes to the frame. */
  method TakeFrom(file: RegisterFile, intervals: seq<LiveInterval>, ghost calls: seq<CallSite>, k: nat,
                  asg0: Assignments,
                  spills: nat, ghost used: seq<bool>, active0: seq<Active>, ghost who0: seq<nat>,
                  ghost available: seq<bool>, a: nat)
    returns (asg: Assignments, active: seq<Active>, ghost who: seq<nat>)
    requires Scannable(file, intervals, calls) && k < |intervals|
    requires Scanning(file, intervals, calls, k, asg0, spills, used, active0, who0, available, intervals[k].start)
    requires a < |active0| && Permitted(file, active0[a].register, CrossesAny(intervals[k], calls))
    ensures Scanning(file, intervals, calls, k + 1, asg, spills + 1, used, active, who, available, intervals[k].start)
    ensures asg == asg0[active0[a].vreg := Spill(spills + 1)][intervals[k].vreg :=
                                                             InRegister(file.allocatable[active0[a].register])]
  {
    hide Placed, CrossesAny, InsertAt, FreeFor, Distinct;
    OnlyHolder(file, intervals, k, asg0, active0, who0, available, a);
    ghost var e := who0[a];
    var evicted := active0[a];
    ghost var r := file.allocatable[evicted.register];
    PlaceByEvicting(file, intervals, calls, k, asg0, spills, used, e, r);
    var mid := asg0[evicted.vreg := Spill(spills + 1)];
    asg := mid[intervals[k].vreg := InRegister(file.allocatable[evicted.register])];
    OthersKeep(intervals, asg0, e, Spill(spills + 1));
    OthersKeep(intervals, mid, k, InRegister(r));
    RemovePool(file, intervals, k, asg0, active0, who0, available, intervals[k].start, a);
    var rest := Without(active0, a);
    ghost var restWho := Without(who0, a);
    var held := Active(evicted.register, intervals[k].end, intervals[k].vreg);
    var p := InsertPosition(rest, held);
    hide Placed, HomeOf, HoldsRegister, CrossesAny, InsertAt, FreeFor, Without;
    HeldNew(file, intervals, k, asg, held);
    HoldersEarlier(file, intervals, k, asg0, rest, restWho);
    assert HoldsRegister(active0, evicted.register) by {
      HolderIs(active0, a);
    }
    InsertPool(file, intervals, k, asg0, asg, rest, restWho, available, available, intervals[k].start, p, held);
    active := InsertAt(rest, p, held);
    who := InsertAt(restWho, p, k);
  }

  lemma HolderIs(active: seq<Active>, a: nat)
    requires a < |active|
    ensures HoldsRegister(active, active[a].register)
  {
  }

  lemma ScanStarts(file: RegisterFile, intervals: seq<LiveInterval>, calls: seq<CallSite>)
    ensures Scanning(file, intervals, calls, 0, map[], 0, seq(|file.allocatable|, _ => false), [], [],
                     seq(|file.allocatable|, _ => true), 0)
  {
  }

  /** One home per value: intervals in the same register do not overlap, what is held across a call is
      in a preserved register or the frame, spill slots are numbered 1 to `spillSlots` with one value
      each, and `calleeSaved` lists the preserved registers some value ended up in. */
  ghost predicate IsSafe(file: RegisterFile, intervals: seq<LiveInterval>, calls: seq<CallSite>,
                         allocation: Allocation) {
    var asg := allocation.assignments;
    && KeysAre(intervals, |intervals|, asg) && Disjoint(intervals, |intervals|, asg)
    && SurvivesCalls(file, intervals, calls, |intervals|, asg)
    && SlotsNumbered(intervals, |intervals|, asg, allocation.spillSlots)
    && Distinct(allocation.calleeSaved)
    && forall r: PhysReg :: r in allocation.calleeSaved <==>
         r in file.allocatable && r in file.calleeSaved && UsesRegister(asg, intervals, |intervals|, r)
  }

  /** The chosen ones keep their order. */
  ghost predicate KeepsOrder(all: seq<PhysReg>, chosen: seq<PhysReg>, at: seq<nat>) {
    && |at| == |chosen| && (forall i: nat :: i < |at| ==> at[i] < |all| && all[at[i]] == chosen[i])
    && forall i: nat, j: nat :: i < j < |at| ==> at[i] < at[j]
  }

  ghost predicate InOrder(all: seq<PhysReg>, chosen: seq<PhysReg>) {
    exists at: seq<nat> :: KeepsOrder(all, chosen, at)
  }

  method UsedRegisters(file: RegisterFile, used: seq<bool>) returns (saved: seq<PhysReg>)
    requires |used| == |file.allocatable| && Distinct(file.allocatable)
    ensures InOrder(file.allocatable, saved)
    ensures Distinct(saved)
    ensures forall r: PhysReg :: r in saved <==> exists i: nat :: i < |used| && used[i] && file.allocatable[i] == r
  {
    saved := [];
    ghost var at: seq<nat> := [];
    for i := 0 to |used|
      invariant Distinct(saved)
      invariant KeepsOrder(file.allocatable, saved, at) && forall j: nat :: j < |at| ==> at[j] < i
      invariant forall r: PhysReg :: r in saved <==> exists k: nat :: k < i && used[k] && file.allocatable[k] == r
    {
      if used[i] {
        DistinctSnoc(saved, file.allocatable[i]);
        saved := saved + [file.allocatable[i]];
        at := at + [i];
      }
    }
  }

  /** A home for every interval, so that no two overlapping ones share one and none that spans a call sits in a
      register the call destroys; the frame is used only where every register an interval may use is busy. */
  method LinearScan(file: RegisterFile, intervals: seq<LiveInterval>, calls: seq<CallSite>)
    returns (allocation: Allocation, ghost stages: seq<Stage>)
    requires Scannable(file, intervals, calls)
    ensures IsSafe(file, intervals, calls, allocation)
    ensures IsScan(file, intervals, calls, stages)
    ensures stages[|intervals|] == Stage(allocation.assignments, allocation.spillSlots)
    ensures InOrder(file.allocatable, allocation.calleeSaved)
  {
    hide Scanning, CrossesAny, DecidesAt, InOrder;
    var available := seq(|file.allocatable|, _ => true);
    var used := seq(|file.allocatable|, _ => false);
    var active: seq<Active> := [];
    ghost var who: seq<nat> := [];
    var asg: Assignments := map[];
    var spills: nat := 0;
    ghost var floor: nat := 0;
    stages := [Stage(asg, spills)];
    ScanStarts(file, intervals, calls);
    for k := 0 to |intervals|
      invariant Scanning(file, intervals, calls, k, asg, spills, used, active, who, available, floor)
      invariant forall n: nat :: k <= n < |intervals| ==> floor <= intervals[n].start
      invariant |stages| == k + 1 && stages[0] == Stage(map[], 0) && stages[k] == Stage(asg, spills)
      invariant forall j: nat :: j < k ==> DecidesAt(file, intervals, calls, stages, j)
    {
      var interval := intervals[k];
      ScanParts(file, intervals, calls, k, asg, spills, used, active, who, available, floor);
      active, who, available := ExpireBefore(file, intervals, k, asg, active, who, available, floor, interval.start);
      ScanWhole(file, intervals, calls, k, asg, spills, used, active, who, available, interval.start);
      floor := interval.start;
      asg, spills, used, active, who, available :=
        PlaceOne(file, intervals, calls, k, asg, spills, used, active, who, available);
      StageAdded(file, intervals, calls, stages, k, Stage(asg, spills));
      stages := stages + [Stage(asg, spills)];
    }
    ScanParts(file, intervals, calls, |intervals|, asg, spills, used, active, who, available, floor);
    var saved := UsedRegisters(file, used);
    allocation := Allocation(asg, spills, saved);
    AllocationIsSafe(file, intervals, calls, allocation, used);
  }

  lemma StageAdded(file: RegisterFile, intervals: seq<LiveInterval>, calls: seq<CallSite>, stages: seq<Stage>, k: nat,
                   b: Stage)
    requires |stages| == k + 1 && k < |intervals| && Decides(file, intervals, calls, k, stages[k], b)
    requires forall j: nat :: j < k ==> DecidesAt(file, intervals, calls, stages, j)
    ensures forall j: nat :: j < k + 1 ==> DecidesAt(file, intervals, calls, stages + [b], j)
  {
    hide Decides;
    forall j: nat | j < k + 1 ensures DecidesAt(file, intervals, calls, stages + [b], j) {
      if j < k {
        assert DecidesAt(file, intervals, calls, stages, j);
      }
    }
  }

  /** Interval `k` takes a free register, or one that ends later, or goes to the frame. */
  method PlaceOne(file: RegisterFile, intervals: seq<LiveInterval>, calls: seq<CallSite>, k: nat, asg0: Assignments,
                  spills0: nat, used0: seq<bool>, active0: seq<Active>, ghost who0: seq<nat>, available0: seq<bool>)
    returns (asg: Assignments, spills: nat, used: seq<bool>, active: seq<Active>, ghost who: seq<nat>,
             available: seq<bool>)
    requires Scannable(file, intervals, calls) && k < |intervals|
    requires Scanning(file, intervals, calls, k, asg0, spills0, used0, active0, who0, available0, intervals[k].start)
    requires NoneOver(active0, intervals[k].start)
    ensures Scanning(file, intervals, calls, k + 1, asg, spills, used, active, who, available, intervals[k].start)
    ensures Decides(file, intervals, calls, k, Stage(asg0, spills0), Stage(asg, spills))
  {
    hide Scanning, CrossesAny, Decides, AllBusy, Pool, Placed, Permitted, NoneOver;
    var interval := intervals[k];
    ScanParts(file, intervals, calls, k, asg0, spills0, used0, active0, who0, available0, interval.start);
    asg, spills, used, active, who, available := asg0, spills0, used0, active0, who0, available0;
    var restricted := CrossesAnyCall(interval, calls);
    var free := PickRegister(file, available, restricted);
    if free.Some? {
      asg, used, active, who, available :=
        TakeFree(file, intervals, calls, k, asg0, spills, used0, active0, who0, available0, free.value);
      TakeDecides(file, intervals, calls, k, asg0, spills, active0, who0, available0, free.value, Stage(asg, spills));
    } else {
      NoneAvailable(file, intervals, calls, k, asg0, active0, who0, available0);
      var victim := Evictable(file, active, restricted);
      if victim.Some? && active[victim.value].end > interval.end {
        asg, active, who := TakeFrom(file, intervals, calls, k, asg0, spills0, used, active0, who0, available,
                                     victim.value);
        spills := spills + 1;
        EvictDecides(file, intervals, calls, k, asg0, spills0, active0, who0, available0, victim.value,
                     Stage(asg, spills));
      } else {
        GoToFrame(file, intervals, calls, k, asg, spills, used, active, who, available, interval.start);
        spills := spills + 1;
        asg := asg[interval.vreg := Spill(spills)];
        YieldDecides(file, intervals, calls, k, asg0, spills0, active0, who0, available0, victim, Stage(asg, spills));
      }
    }
  }

  lemma ScanParts(file: RegisterFile, intervals: seq<LiveInterval>, calls: seq<CallSite>, k: nat, asg: Assignments,
                  spills: nat, used: seq<bool>, active: seq<Active>, who: seq<nat>, available: seq<bool>, floor: nat)
    requires Scanning(file, intervals, calls, k, asg, spills, used, active, who, available, floor)
    ensures Placed(file, intervals, calls, k, asg, spills, used)
    ensures Pool(file, intervals, k, asg, active, who, available, floor)
    ensures |available| == |used| == |file.allocatable|
    ensures forall a: nat :: a < |active| ==> active[a].register < |file.allocatable|
  {
    forall a: nat | a < |active| ensures active[a].register < |file.allocatable| {
      assert Held(file, intervals, k, asg, active[a], who[a]);
    }
  }

  lemma ScanWhole(file: RegisterFile, intervals: seq<LiveInterval>, calls: seq<CallSite>, k: nat, asg: Assignments,
                  spills: nat, used: seq<bool>, active: seq<Active>, who: seq<nat>, available: seq<bool>, floor: nat)
    requires Placed(file, intervals, calls, k, asg, spills, used) &&
             Pool(file, intervals, k, asg, active, who, available, floor)
    ensures Scanning(file, intervals, calls, k, asg, spills, used, active, who, available, floor)
    ensures |available| == |used| == |file.allocatable|
    ensures forall a: nat :: a < |active| ==> active[a].register < |file.allocatable|
  {
    forall a: nat | a < |active| ensures active[a].register < |file.allocatable| {
      assert Held(file, intervals, k, asg, active[a], who[a]);
    }
  }

  /** Interval `k` itself goes to the frame. */
  lemma GoToFrame(file: RegisterFile, intervals: seq<LiveInterval>, calls: seq<CallSite>, k: nat, asg: Assignments,
                  spills: nat, used: seq<bool>, active: seq<Active>, who: seq<nat>, available: seq<bool>, floor: nat)
    requires Scannable(file, intervals, calls) && k < |intervals|
    requires Scanning(file, intervals, calls, k, asg, spills, used, active, who, available, floor)
    ensures Scanning(file, intervals, calls, k + 1, asg[intervals[k].vreg := Spill(spills + 1)], spills + 1, used,
                     active, who,
                     available, floor)
  {
    PlaceInSlot(file, intervals, calls, k, asg, spills, used);
    SpillPool(file, intervals, k, asg, active, who, available, floor, spills + 1);
    hide Placed, Pool;
  }

  lemma AllocationIsSafe(file: RegisterFile, intervals: seq<LiveInterval>, calls: seq<CallSite>,
                         allocation: Allocation, used: seq<bool>)
    requires Placed(file, intervals, calls, |intervals|, allocation.assignments, allocation.spillSlots, used)
    requires Distinct(allocation.calleeSaved)
    requires forall r: PhysReg :: r in allocation.calleeSaved <==>
               exists i: nat :: i < |used| && used[i] && file.allocatable[i] == r
    ensures IsSafe(file, intervals, calls, allocation)
  {
    var asg := allocation.assignments;
    hide UsesRegister, KeysAre, Disjoint, SurvivesCalls, SlotsNumbered;
    forall r: PhysReg
      ensures r in allocation.calleeSaved <==>
                r in file.allocatable && r in file.calleeSaved && UsesRegister(asg, intervals, |intervals|, r)
    {
      if r in file.allocatable {
        var i: nat :| i < |file.allocatable| && file.allocatable[i] == r;
        assert used[i] <==> r in file.calleeSaved && UsesRegister(asg, intervals, |intervals|, r);
      }
    }
  }
}
