/** Stack-frame layout: spill slots, local aggregates and address-taken variables, below the saved registers. */
module Frame {
  import opened IdomTree
  import opened Vregs
  import opened Intervals
  import opened LinearScan

  datatype FrameParams = FrameParams(wordSize: nat, stackAlignment: nat)

  /** Where a value lives while the function runs: a register, or a word below the frame pointer. */
  datatype Home = RegisterHome(register: PhysReg) | FrameHome(offset: int)

  datatype FrameLayout = FrameLayout(allocation: Allocation, params: FrameParams, savedBytes: nat, slots: nat,
                                     objects: map<nat, int>, addrTaken: map<nat, int>)
  {
    /** Slots lie below the saved registers, one word each, in order of their number from 1. */
    function OffsetOf(slot: nat): int {
      -(savedBytes + slot * params.wordSize)
    }

    function PinnedOffset(v: VirtualReg): Option<int> {
      if v.Var? && v.id in addrTaken then Some(addrTaken[v.id]) else None
    }

    /** Where a value can be read from: a pinned variable from its own slot. */
    function HomeOf(v: VirtualReg): Option<Home> {
      if PinnedOffset(v).Some? then Some(FrameHome(PinnedOffset(v).value))
      else if v in allocation.assignments then
        match allocation.assignments[v]
        case InRegister(r) => Some(RegisterHome(r))
        case Spill(slot) => Some(FrameHome(OffsetOf(slot)))
      else None
    }

    /** Bytes to subtract from the stack pointer once the saved registers are pushed. */
    function StackAdjust(): int
      requires params.stackAlignment > 0
    {
      AlignUp(savedBytes + slots * params.wordSize, params.stackAlignment) - savedBytes
    }
  }

  /** The least multiple of `alignment` that is not below `value`. */
  function AlignUp(value: nat, alignment: nat): (r: nat)
    requires alignment > 0
    ensures value <= r < value + alignment && r % alignment == 0
  {
    AlignUpRounds(value, alignment);
    (value + alignment - 1) - (value + alignment - 1) % alignment
  }

  lemma AlignUpRounds(value: nat, alignment: nat)
    requires alignment > 0
    ensures var r := (value + alignment - 1) - (value + alignment - 1) % alignment;
            value <= r < value + alignment && r % alignment == 0
  {
    var n := value + alignment - 1;
    var q := n / alignment;
    assert n == alignment * q + n % alignment;
    MultipleHasNoRemainder(alignment, q, n - n % alignment);
  }

  lemma MultipleHasNoRemainder(d: nat, q: nat, n: nat)
    requires d > 0 && n == d * q
    ensures n % d == 0
  {
    var q', m := n / d, n % d;
    assert n == d * q' + m;
    if q' < q {
      TimesNext(q', q, d);
    } else {
      TimesMonotone(q, q', d);
    }
  }

  lemma TimesNext(a: nat, b: nat, w: nat)
    requires a < b
    ensures a * w + w <= b * w
  {
    TimesMonotone(a + 1, b, w);
    assert (a + 1) * w == a * w + w;
  }

  // ---- what lies where ----

  /** Everything that lies in the frame. */
  datatype Thing = SpillSlot(slot: nat) | Object(id: nat) | Pinned(id: nat)

  /** The slots after `from` up to `to`. */
  datatype Area = Area(from: nat, to: nat)

  /** Its first byte, and how many bytes follow. */
  function Base(layout: FrameLayout, a: Area): int {
    layout.OffsetOf(a.to)
  }

  ghost predicate Overlap(lo: int, size: nat, lo': int, size': nat) {
    lo < lo' + size' && lo' < lo + size
  }

  function Bytes(layout: FrameLayout, a: Area): nat
    requires a.from <= a.to
  {
    (a.to - a.from) * layout.params.wordSize
  }

  /** How many whole slots an object needs. */
  function SlotsFor(bytes: nat, word: nat): (n: nat)
    requires word > 0
    ensures bytes <= n * word
  {
    SlotsSuffice(bytes, word);
    (bytes + word - 1) / word
  }

  lemma SlotsSuffice(bytes: nat, word: nat)
    requires word > 0
    ensures bytes <= ((bytes + word - 1) / word) * word
  {
    var n := bytes + word - 1;
    assert n == word * (n / word) + n % word;
  }

  /** Each thing has its own slots, none of which is shared, all within `slots`. */
  ghost predicate Partition(areas: map<Thing, Area>, slots: nat) {
    && (forall t: Thing :: t in areas ==> areas[t].from <= areas[t].to <= slots)
    && forall t: Thing, u: Thing :: t in areas && u in areas && t != u ==>
         areas[t].to <= areas[u].from || areas[u].to <= areas[t].from
  }

  ghost predicate SpillsLaid(layout: FrameLayout, areas: map<Thing, Area>) {
    && (forall n: nat :: SpillSlot(n) in areas <==> 1 <= n <= layout.allocation.spillSlots)
    && (forall n: nat :: SpillSlot(n) in areas ==> areas[SpillSlot(n)] == Area(n - 1, n))
  }

  ghost predicate ObjectLaid(layout: FrameLayout, areas: map<Thing, Area>, v: nat, bytes: nat) {
    && Object(v) in areas && v in layout.objects && layout.params.wordSize > 0
    && layout.objects[v] == Base(layout, areas[Object(v)])
    && areas[Object(v)].to == areas[Object(v)].from + SlotsFor(bytes, layout.params.wordSize)
  }

  ghost predicate PinnedLaid(layout: FrameLayout, areas: map<Thing, Area>, v: nat) {
    && Pinned(v) in areas && v in layout.addrTaken
    && layout.addrTaken[v] == Base(layout, areas[Pinned(v)])
    && areas[Pinned(v)].to == areas[Pinned(v)].from + 1
  }

  /** The layout puts every thing where its area is. */
  ghost predicate LaysOut(layout: FrameLayout, objects: map<nat, nat>, pinned: set<nat>, areas: map<Thing, Area>) {
    && Partition(areas, layout.slots) && SpillsLaid(layout, areas)
    && layout.objects.Keys == objects.Keys && layout.addrTaken.Keys == pinned
    && (forall v: nat :: v in objects ==> ObjectLaid(layout, areas, v, objects[v]))
    && (forall v: nat :: v in pinned ==> PinnedLaid(layout, areas, v))
  }

  ghost function SpillAreas(n: nat): map<Thing, Area>
    ensures forall k: nat :: SpillSlot(k) in SpillAreas(n) <==> 1 <= k <= n
    ensures forall t: Thing :: t in SpillAreas(n) ==>
              t.SpillSlot? && 1 <= t.slot && SpillAreas(n)[t] == Area(t.slot - 1, t.slot)
    decreases n
  {
    if n == 0 then map[] else SpillAreas(n - 1)[SpillSlot(n) := Area(n - 1, n)]
  }

  lemma SpillsOnly(layout: FrameLayout)
    requires layout.slots == layout.allocation.spillSlots && layout.objects == map[] && layout.addrTaken == map[]
    ensures LaysOut(layout, map[], {}, SpillAreas(layout.slots))
    ensures forall v: nat :: Object(v) !in SpillAreas(layout.slots) && Pinned(v) !in SpillAreas(layout.slots)
  {
  }

  /** Lay out a frame: the saved registers, then spill slots, aggregates and address-taken variables. */
  method Plan(params: FrameParams, allocation: Allocation, objects: map<nat, nat>, addrTaken: set<nat>)
    returns (layout: FrameLayout, ghost areas: map<Thing, Area>)
    requires params.wordSize > 0
    ensures layout.allocation == allocation && layout.params == params
    ensures layout.savedBytes == |allocation.calleeSaved| * params.wordSize
    ensures LaysOut(layout, objects, addrTaken, areas)
  {
    hide LaysOut, SlotsFor, FrameLayout.OffsetOf;
    var savedBytes := |allocation.calleeSaved| * params.wordSize;
    layout := FrameLayout(allocation, params, savedBytes, allocation.spillSlots, map[], map[]);
    areas := SpillAreas(allocation.spillSlots);
    SpillsOnly(layout);
    NoneYet(objects);
    layout, areas := PlanObjects(layout, objects, areas);
    layout, areas := PlanPinned(layout, objects, addrTaken, areas);
  }

  lemma NoneYet(objects: map<nat, nat>)
    ensures Only(objects, {}) == map[]
  {
  }

  /** Room for each aggregate, in whole slots. */
  method PlanObjects(before: FrameLayout, objects: map<nat, nat>, ghost areas0: map<Thing, Area>)
    returns (layout: FrameLayout, ghost areas: map<Thing, Area>)
    requires before.params.wordSize > 0 && LaysOut(before, map[], {}, areas0)
    requires forall v: nat :: Object(v) !in areas0 && Pinned(v) !in areas0
    ensures layout == before.(slots := layout.slots, objects := layout.objects)
    ensures LaysOut(layout, objects, {}, areas) && forall v: nat :: Pinned(v) !in areas
  {
    hide LaysOut, SlotsFor, FrameLayout.OffsetOf;
    layout, areas := before, areas0;
    NoneYet(objects);
    var todo := objects.Keys;
    assert objects.Keys - todo == {};
    while todo != {}
      invariant todo <= objects.Keys
      invariant layout == before.(slots := layout.slots, objects := layout.objects)
      invariant LaysOut(layout, Only(objects, objects.Keys - todo), {}, areas)
      invariant forall v: nat :: Pinned(v) !in areas
      invariant forall v: nat :: Object(v) in areas ==> v !in todo
      decreases todo
    {
      var v :| v in todo;
      ghost var was := layout;
      var slots := layout.slots + SlotsFor(objects[v], layout.params.wordSize);
      layout := layout.(slots := slots, objects := layout.objects[v := layout.OffsetOf(slots)]);
      AddObject(was, layout, objects, objects.Keys - todo, v, areas);
      areas := areas[Object(v) := Area(was.slots, slots)];
      assert objects.Keys - todo + {v} == objects.Keys - (todo - {v});
      todo := todo - {v};
    }
    AllOf(objects);
    assert objects.Keys - todo == objects.Keys;
  }

  /** A slot of its own for each address-taken variable. */
  method PlanPinned(before: FrameLayout, ghost objects: map<nat, nat>, addrTaken: set<nat>, ghost areas0: map<Thing,
                    Area>)
    returns (layout: FrameLayout, ghost areas: map<Thing, Area>)
    requires LaysOut(before, objects, {}, areas0) && forall v: nat :: Pinned(v) !in areas0
    ensures layout == before.(slots := layout.slots, addrTaken := layout.addrTaken)
    ensures LaysOut(layout, objects, addrTaken, areas)
  {
    hide LaysOut, FrameLayout.OffsetOf;
    layout, areas := before, areas0;
    var todo := addrTaken;
    assert addrTaken - todo == {};
    while todo != {}
      invariant todo <= addrTaken
      invariant layout == before.(slots := layout.slots, addrTaken := layout.addrTaken)
      invariant LaysOut(layout, objects, addrTaken - todo, areas)
      invariant forall v: nat :: Pinned(v) in areas ==> v !in todo
      decreases todo
    {
      var v :| v in todo;
      ghost var was := layout;
      var slots := layout.slots + 1;
      layout := layout.(slots := slots, addrTaken := layout.addrTaken[v := layout.OffsetOf(slots)]);
      AddPinned(was, layout, objects, addrTaken - todo, v, areas);
      areas := areas[Pinned(v) := Area(was.slots, slots)];
      assert addrTaken - todo + {v} == addrTaken - (todo - {v});
      todo := todo - {v};
    }
    assert addrTaken - todo == addrTaken;
  }

  function Only(objects: map<nat, nat>, keys: set<nat>): map<nat, nat> {
    map v | v in objects && v in keys :: objects[v]
  }

  lemma AllOf(objects: map<nat, nat>)
    ensures Only(objects, objects.Keys) == objects
  {
  }

  /** The same offsets, and every thing laid out before where it was. */
  lemma SameOffsets(before: FrameLayout, layout: FrameLayout, objects: map<nat, nat>, pinned: set<nat>,
                    areas: map<Thing, Area>,
                    t: Thing, a: Area)
    requires LaysOut(before, objects, pinned, areas) && t !in areas
    requires layout.savedBytes == before.savedBytes && layout.params == before.params &&
             layout.allocation == before.allocation
    requires forall v: nat :: v in before.objects ==> v in layout.objects && layout.objects[v] == before.objects[v]
    requires forall v: nat :: v in before.addrTaken ==>
               v in layout.addrTaken && layout.addrTaken[v] == before.addrTaken[v]
    requires !t.SpillSlot? && a.from == before.slots <= a.to == layout.slots
    ensures forall s: nat :: layout.OffsetOf(s) == before.OffsetOf(s)
    ensures Partition(areas[t := a], layout.slots) && SpillsLaid(layout, areas[t := a])
    ensures forall v: nat :: v in objects ==> ObjectLaid(layout, areas[t := a], v, objects[v])
    ensures forall v: nat :: v in pinned ==> PinnedLaid(layout, areas[t := a], v)
  {
    forall v: nat | v in objects ensures ObjectLaid(layout, areas[t := a], v, objects[v]) {
      assert ObjectLaid(before, areas, v, objects[v]);
    }
    forall v: nat | v in pinned ensures PinnedLaid(layout, areas[t := a], v) {
      assert PinnedLaid(before, areas, v);
    }
    hide SlotsFor;
  }

  lemma AddObject(before: FrameLayout, layout: FrameLayout, objects: map<nat, nat>, done: set<nat>, v: nat,
                  areas: map<Thing, Area>)
    requires LaysOut(before, Only(objects, done), {}, areas) && v in objects && v !in done && Object(v) !in areas
    requires done <= objects.Keys && before.params.wordSize > 0
    requires layout == before.(slots := before.slots + SlotsFor(objects[v], before.params.wordSize),
                               objects := before.objects[v :=
                                                         before.OffsetOf(before.slots +
                                                             SlotsFor(objects[v], before.params.wordSize))])
    ensures LaysOut(layout, Only(objects, done + {v}), {}, areas[Object(v) := Area(before.slots, layout.slots)])
  {
    SameOffsets(before, layout, Only(objects, done), {}, areas, Object(v), Area(before.slots, layout.slots));
    assert Only(objects, done + {v}) == Only(objects, done)[v := objects[v]];
    hide SlotsFor, FrameLayout.OffsetOf, Partition, SpillsLaid;
  }

  lemma AddPinned(before: FrameLayout, layout: FrameLayout, objects: map<nat, nat>, done: set<nat>, v: nat,
                  areas: map<Thing, Area>)
    requires LaysOut(before, objects, done, areas) && v !in done && Pinned(v) !in areas
    requires layout == before.(slots := before.slots + 1, addrTaken :=
                               before.addrTaken[v := before.OffsetOf(before.slots + 1)])
    ensures LaysOut(layout, objects, done + {v}, areas[Pinned(v) := Area(before.slots, layout.slots)])
  {
    SameOffsets(before, layout, objects, done, areas, Pinned(v), Area(before.slots, layout.slots));
    hide SlotsFor, FrameLayout.OffsetOf, Partition, SpillsLaid, ObjectLaid;
  }

  /** Nothing in the frame overlaps anything else, or the saved registers above. */
  lemma NothingOverlaps(layout: FrameLayout, objects: map<nat, nat>, pinned: set<nat>, areas: map<Thing, Area>,
                        t: Thing, u: Thing)
    requires LaysOut(layout, objects, pinned, areas) && t in areas && u in areas && t != u
    ensures !Overlap(Base(layout, areas[t]), Bytes(layout, areas[t]), Base(layout, areas[u]), Bytes(layout, areas[u]))
    ensures Base(layout, areas[t]) + Bytes(layout, areas[t]) + layout.savedBytes <= 0
    ensures -(layout.savedBytes + layout.slots * layout.params.wordSize) <= Base(layout, areas[t])
  {
    var w := layout.params.wordSize;
    EndOfArea(layout, areas[t]);
    EndOfArea(layout, areas[u]);
    if areas[t].to <= areas[u].from {
      TimesMonotone(areas[t].to, areas[u].from, w);
    } else {
      TimesMonotone(areas[u].to, areas[t].from, w);
    }
    TimesMonotone(areas[t].to, layout.slots, w);
  }

  lemma EndOfArea(layout: FrameLayout, a: Area)
    requires a.from <= a.to
    ensures Base(layout, a) + Bytes(layout, a) == layout.OffsetOf(a.from)
    ensures layout.OffsetOf(a.from) + layout.savedBytes <= 0
  {
    assert (a.to - a.from) * layout.params.wordSize == a.to * layout.params.wordSize - a.from * layout.params.wordSize;
  }

  lemma TimesMonotone(a: nat, b: nat, w: nat)
    requires a <= b
    ensures a * w <= b * w
  {
    assert (b - a) * w >= 0;
    assert b * w == a * w + (b - a) * w;
  }

  /** Distinct slots lie at distinct offsets. */
  lemma OffsetsDistinct(layout: FrameLayout, a: nat, b: nat)
    requires layout.params.wordSize > 0 && a != b
    ensures layout.OffsetOf(a) != layout.OffsetOf(b)
  {
    var w := layout.params.wordSize;
    if a < b {
      assert b * w == a * w + (b - a) * w;
    } else {
      assert a * w == b * w + (a - b) * w;
    }
  }

  // ---- homes ----

  /** What of the frame a value lives in, if it does not live in a register. */
  function ThingOf(layout: FrameLayout, v: VirtualReg): Option<Thing> {
    if layout.PinnedOffset(v).Some? then Some(Pinned(v.id))
    else if v in layout.allocation.assignments && layout.allocation.assignments[v].Spill?
    then Some(SpillSlot(layout.allocation.assignments[v].slot))
    else None
  }

  /** An address-taken variable is read from the slot its address names. */
  lemma PinnedHome(layout: FrameLayout, objects: map<nat, nat>, pinned: set<nat>, areas: map<Thing, Area>, id: nat)
    requires LaysOut(layout, objects, pinned, areas) && id in pinned
    ensures Pinned(id) in areas && layout.HomeOf(Var(id)) == Some(FrameHome(Base(layout, areas[Pinned(id)])))
  {
    assert PinnedLaid(layout, areas, id);
    hide Partition, SpillsLaid;
  }

  /** A home in the frame is one word, the area of what the value lives in. */
  lemma FrameHomeIs(layout: FrameLayout, file: RegisterFile, intervals: seq<LiveInterval>, calls: seq<CallSite>,
                    objects: map<nat, nat>, pinned: set<nat>, areas: map<Thing, Area>, v: VirtualReg) returns (t: Thing)
    requires LaysOut(layout, objects, pinned, areas) && IsSafe(file, intervals, calls, layout.allocation)
    requires layout.HomeOf(v).Some? && layout.HomeOf(v).value.FrameHome?
    ensures ThingOf(layout, v) == Some(t) && t in areas && areas[t].from <= areas[t].to
    ensures layout.HomeOf(v) == Some(FrameHome(Base(layout, areas[t])))
    ensures Bytes(layout, areas[t]) == layout.params.wordSize
  {
    t := ThingOf(layout, v).value;
    if t.Pinned? {
      assert t.id in pinned by {
        PinnedKeys(layout, objects, pinned, areas);
      }
      PinnedHome(layout, objects, pinned, areas, t.id);
      OneSlot(layout, objects, pinned, areas, t);
    } else {
      SpilledInSlots(file, intervals, calls, layout.allocation, v);
      OneSlot(layout, objects, pinned, areas, t);
    }
    hide LaysOut, IsSafe, FrameLayout.OffsetOf;
  }

  lemma PinnedKeys(layout: FrameLayout, objects: map<nat, nat>, pinned: set<nat>, areas: map<Thing, Area>)
    requires LaysOut(layout, objects, pinned, areas)
    ensures layout.addrTaken.Keys == pinned
  {
  }

  /** A spilled value and an address-taken variable have one slot each. */
  lemma OneSlot(layout: FrameLayout, objects: map<nat, nat>, pinned: set<nat>, areas: map<Thing, Area>, t: Thing)
    requires LaysOut(layout, objects, pinned, areas)
    requires t.SpillSlot? ==> 1 <= t.slot <= layout.allocation.spillSlots
    requires (t.Pinned? ==> t.id in pinned) && !t.Object?
    ensures t in areas && areas[t].to == areas[t].from + 1 && (t.SpillSlot? ==> areas[t].to == t.slot)
    ensures Bytes(layout, areas[t]) == layout.params.wordSize
  {
    if t.Pinned? {
      assert PinnedLaid(layout, areas, t.id);
    } else {
      assert SpillSlot(t.slot) in areas;
    }
    hide Partition, ObjectLaid;
  }

  lemma SpilledInSlots(file: RegisterFile, intervals: seq<LiveInterval>, calls: seq<CallSite>, allocation: Allocation,
                       v: VirtualReg)
    requires IsSafe(file, intervals, calls, allocation)
    requires v in allocation.assignments && allocation.assignments[v].Spill?
    ensures 1 <= allocation.assignments[v].slot <= allocation.spillSlots
  {
    var n: nat :| n < |intervals| && intervals[n].vreg == v;
    assert LinearScan.HomeOf(allocation.assignments, intervals, n) == allocation.assignments[v];
    hide Disjoint, SurvivesCalls, UsesRegister, UsesSlot;
  }

  lemma SpilledApart(file: RegisterFile, intervals: seq<LiveInterval>, calls: seq<CallSite>, allocation: Allocation,
                     u: VirtualReg, v: VirtualReg)
    requires IsSafe(file, intervals, calls, allocation) && u != v
    requires u in allocation.assignments && v in allocation.assignments && allocation.assignments[u].Spill?
    ensures allocation.assignments[u] != allocation.assignments[v]
  {
    var asg := allocation.assignments;
    var a: nat :| a < |intervals| && intervals[a].vreg == u;
    var b: nat :| b < |intervals| && intervals[b].vreg == v;
    assert LinearScan.HomeOf(asg, intervals, a) == asg[u] && LinearScan.HomeOf(asg, intervals, b) == asg[v];
    hide Disjoint, SurvivesCalls, UsesRegister, UsesSlot, LinearScan.HomeOf;
  }

  /** No two values with homes in the frame share a byte of it. */
  lemma HomesApart(layout: FrameLayout, file: RegisterFile, intervals: seq<LiveInterval>, calls: seq<CallSite>,
                   objects: map<nat, nat>, pinned: set<nat>, areas: map<Thing, Area>, u: VirtualReg, v: VirtualReg)
    requires LaysOut(layout, objects, pinned, areas) && IsSafe(file, intervals, calls, layout.allocation) && u != v
    requires layout.HomeOf(u).Some? && layout.HomeOf(u).value.FrameHome?
    requires layout.HomeOf(v).Some? && layout.HomeOf(v).value.FrameHome?
    ensures !Overlap(layout.HomeOf(u).value.offset, layout.params.wordSize,
                     layout.HomeOf(v).value.offset, layout.params.wordSize)
  {
    hide LaysOut, IsSafe, FrameLayout.HomeOf, Overlap, Bytes, Base;
    var t := FrameHomeIs(layout, file, intervals, calls, objects, pinned, areas, u);
    var t' := FrameHomeIs(layout, file, intervals, calls, objects, pinned, areas, v);
    if t.SpillSlot? && t'.SpillSlot? {
      SpilledApart(file, intervals, calls, layout.allocation, u, v);
    }
    NothingOverlaps(layout, objects, pinned, areas, t, t');
  }

  /** A home in the frame lies outside every aggregate, and below the saved registers. */
  lemma HomeOutsideObjects(layout: FrameLayout, file: RegisterFile, intervals: seq<LiveInterval>,
                           calls: seq<CallSite>, objects: map<nat, nat>, pinned: set<nat>, areas: map<Thing, Area>,
                           v: VirtualReg, id: nat)
    requires LaysOut(layout, objects, pinned, areas) && IsSafe(file, intervals, calls, layout.allocation)
    requires layout.HomeOf(v).Some? && layout.HomeOf(v).value.FrameHome? && id in objects
    ensures id in layout.objects
    ensures !Overlap(layout.HomeOf(v).value.offset, layout.params.wordSize, layout.objects[id], objects[id])
    ensures layout.HomeOf(v).value.offset + layout.params.wordSize + layout.savedBytes <= 0
  {
    var t := FrameHomeIs(layout, file, intervals, calls, objects, pinned, areas, v);
    ObjectBytes(layout, objects, pinned, areas, id);
    hide LaysOut, IsSafe, FrameLayout.HomeOf, Bytes, Base;
    NothingOverlaps(layout, objects, pinned, areas, t, Object(id));
  }

  lemma ObjectBytes(layout: FrameLayout, objects: map<nat, nat>, pinned: set<nat>, areas: map<Thing, Area>, id: nat)
    requires LaysOut(layout, objects, pinned, areas) && id in objects
    ensures Object(id) in areas && areas[Object(id)].from <= areas[Object(id)].to && id in layout.objects
    ensures layout.objects[id] == Base(layout, areas[Object(id)]) && objects[id] <= Bytes(layout, areas[Object(id)])
  {
    assert ObjectLaid(layout, areas, id, objects[id]);
    hide SpillsLaid, PinnedLaid;
  }

  /** The stack pointer stays aligned, with the whole frame above it. */
  lemma StackStaysAligned(layout: FrameLayout)
    requires layout.params.stackAlignment > 0
    ensures (layout.savedBytes + layout.StackAdjust()) % layout.params.stackAlignment == 0
    ensures layout.slots * layout.params.wordSize <= layout.StackAdjust()
    ensures layout.StackAdjust() < layout.slots * layout.params.wordSize + layout.params.stackAlignment
  {
  }
}
