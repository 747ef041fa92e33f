/** Slot usage, computed exactly: the blocks storing to a slot, the loads no store of the block precedes, and the
    slots nothing reaches but by name. */
module SlotUses {
  import opened Frontiers
  import opened Ssa

  predicate LoadsSlot(inst: Inst, s: SlotId) {
    inst.op.SlotLoad? && inst.op.slot == s
  }

  predicate StoresSlot(inst: Inst, s: SlotId) {
    inst.op.SlotStore? && inst.op.slot == s
  }

  /** Some instruction of the list stores to `s`. */
  ghost predicate Writes(insts: seq<Inst>, s: SlotId) {
    exists i: nat :: i < |insts| && StoresSlot(insts[i], s)
  }

  /** Some instruction of the list loads `s` with no store to it before. */
  ghost predicate ReadsFirst(insts: seq<Inst>, s: SlotId) {
    exists j: nat :: j < |insts| && LoadsSlot(insts[j], s) && !Writes(insts[..j], s)
  }

  ghost predicate DefinedIn(usage: SlotUsage, s: SlotId, b: BlockId) {
    s in usage.definitions && b in usage.definitions[s]
  }

  /** `usage` lists for the promotable slots every block with a store, and those some block loads too early. */
  ghost predicate UsageOf(f: Func, promotable: set<SlotId>, usage: SlotUsage) {
    && (forall s: SlotId, b: BlockId :: DefinedIn(usage, s, b) <==>
          s in promotable && b < f.Size() && Writes(f.blocks[b].insts, s))
    && (forall s: SlotId :: s in usage.nonLocal <==>
          s in promotable && exists b: BlockId :: b < f.Size() && ReadsFirst(f.blocks[b].insts, s))
  }

  lemma WritesSnoc(insts: seq<Inst>, j: nat, s: SlotId)
    requires j < |insts|
    ensures Writes(insts[..j + 1], s) <==> Writes(insts[..j], s) || StoresSlot(insts[j], s)
  {
    if Writes(insts[..j], s) {
      var i: nat :| i < j && StoresSlot(insts[..j][i], s);
      assert StoresSlot(insts[..j + 1][i], s);
    }
    if StoresSlot(insts[j], s) {
      assert insts[..j + 1][j] == insts[j];
    }
    if Writes(insts[..j + 1], s) {
      var i: nat :| i < j + 1 && StoresSlot(insts[..j + 1][i], s);
      assert i < j ==> insts[..j][i] == insts[i];
    }
  }

  lemma ReadsFirstSnoc(insts: seq<Inst>, j: nat, s: SlotId)
    requires j < |insts|
    ensures ReadsFirst(insts[..j + 1], s) <==>
              ReadsFirst(insts[..j], s) || (LoadsSlot(insts[j], s) && !Writes(insts[..j], s))
  {
    var next := insts[..j + 1];
    assert next[..j] == insts[..j];
    if ReadsFirst(insts[..j], s) {
      var i: nat :| i < j && LoadsSlot(insts[..j][i], s) && !Writes(insts[..j][..i], s);
      assert next[i] == insts[..j][i] && next[..i] == insts[..j][..i];
    }
    if LoadsSlot(insts[j], s) && !Writes(insts[..j], s) {
      assert next[j] == insts[j];
    }
    if ReadsFirst(next, s) {
      var i: nat :| i < j + 1 && LoadsSlot(next[i], s) && !Writes(next[..i], s);
      if i < j {
        assert next[i] == insts[..j][i] && next[..i] == insts[..j][..i];
      }
    }
  }

  /** The usage found so far: all of the blocks before `b`, and the first `j` instructions of `b`. */
  ghost predicate UsageUpTo(f: Func, promotable: set<SlotId>, usage: SlotUsage, b: BlockId, j: nat) {
    && (forall s: SlotId, x: BlockId :: DefinedIn(usage, s, x) <==> s in promotable && WritesUpTo(f, s, x, b, j))
    && (forall s: SlotId :: s in usage.nonLocal <==> s in promotable && SomeReadsFirst(f, s, b, j))
  }

  ghost predicate SomeReadsFirst(f: Func, s: SlotId, b: BlockId, j: nat) {
    exists x: BlockId :: ReadsFirstUpTo(f, s, x, b, j)
  }

  ghost predicate WritesUpTo(f: Func, s: SlotId, x: BlockId, b: BlockId, j: nat) {
    x < f.Size() && (if x < b then Writes(f.blocks[x].insts, s)
                     else x == b && j <= |f.blocks[x].insts| && Writes(f.blocks[x].insts[..j], s))
  }

  ghost predicate ReadsFirstUpTo(f: Func, s: SlotId, x: BlockId, b: BlockId, j: nat) {
    x < f.Size() && (if x < b then ReadsFirst(f.blocks[x].insts, s)
                     else x == b && j <= |f.blocks[x].insts| && ReadsFirst(f.blocks[x].insts[..j], s))
  }

  /** What one instruction adds. */
  function Noted(usage: SlotUsage, promotable: set<SlotId>, written: set<SlotId>, b: BlockId, inst: Inst): SlotUsage {
    if inst.op.SlotLoad? && inst.op.slot in promotable && inst.op.slot !in written then
      usage.(nonLocal := usage.nonLocal + {inst.op.slot})
    else if inst.op.SlotStore? && inst.op.slot in promotable then
      usage.(definitions := usage.definitions[inst.op.slot :=
        (if inst.op.slot in usage.definitions then usage.definitions[inst.op.slot] else {}) + {b}])
    else usage
  }

  lemma NoteOne(f: Func, promotable: set<SlotId>, usage: SlotUsage, written: set<SlotId>, b: BlockId, j: nat)
    requires b < f.Size() && j < |f.blocks[b].insts| && UsageUpTo(f, promotable, usage, b, j)
    requires forall s: SlotId :: s in written <==> s in promotable && Writes(f.blocks[b].insts[..j], s)
    ensures UsageUpTo(f, promotable, Noted(usage, promotable, written, b, f.blocks[b].insts[j]), b, j + 1)
  {
    var insts := f.blocks[b].insts;
    var usage' := Noted(usage, promotable, written, b, insts[j]);
    var next := j + 1;
    forall s: SlotId, x: BlockId
      ensures DefinedIn(usage', s, x) <==> s in promotable && WritesUpTo(f, s, x, b, next)
    {
      WritesSnoc(insts, j, s);
      assert DefinedIn(usage, s, x) <==> s in promotable && WritesUpTo(f, s, x, b, j);
    }
    forall s: SlotId
      ensures s in usage'.nonLocal <==> s in promotable && SomeReadsFirst(f, s, b, next)
    {
      ReadsFirstSnoc(insts, j, s);
      assert ReadsFirstUpTo(f, s, b, b, next) <==>
               ReadsFirstUpTo(f, s, b, b, j) || (LoadsSlot(insts[j], s) && !Writes(insts[..j], s));
      forall x: BlockId | x != b ensures ReadsFirstUpTo(f, s, x, b, next) <==> ReadsFirstUpTo(f, s, x, b, j) {
      }
      if s in promotable && ReadsFirstUpTo(f, s, b, b, j) {
        assert s in usage.nonLocal;
      }
      if LoadsSlot(insts[j], s) && !Writes(insts[..j], s) {
        assert ReadsFirstUpTo(f, s, b, b, next);
      }
    }
    hide Writes, ReadsFirst;
  }

  /** Moving on to the next block. */
  lemma NextBlock(f: Func, promotable: set<SlotId>, usage: SlotUsage, b: BlockId)
    requires b < f.Size() && UsageUpTo(f, promotable, usage, b, |f.blocks[b].insts|)
    ensures UsageUpTo(f, promotable, usage, b + 1, 0)
  {
    var insts := f.blocks[b].insts;
    var next := b + 1;
    assert insts[..|insts|] == insts;
    forall s: SlotId, x: BlockId
      ensures WritesUpTo(f, s, x, next, 0) <==> WritesUpTo(f, s, x, b, |insts|)
      ensures ReadsFirstUpTo(f, s, x, next, 0) <==> ReadsFirstUpTo(f, s, x, b, |insts|)
    {
      if x == next && x < f.Size() {
        assert f.blocks[x].insts[..0] == [];
      }
    }
    forall s: SlotId
      ensures SomeReadsFirst(f, s, next, 0) <==> SomeReadsFirst(f, s, b, |insts|)
    {
    }
    hide WritesUpTo, ReadsFirstUpTo;
  }

  /** Computes the usage of the `promotable` slots exactly, in one pass over the instructions. */
  method Compute(f: Func, promotable: set<SlotId>) returns (usage: SlotUsage)
    ensures UsageOf(f, promotable, usage)
  {
    usage := SlotUsage(map[], {});
    NothingYet(f, promotable);
    for block := 0 to f.Size()
      invariant UsageUpTo(f, promotable, usage, block, 0)
    {
      var writtenHere: set<SlotId> := {};
      var insts := f.blocks[block].insts;
      for j := 0 to |insts|
        invariant UsageUpTo(f, promotable, usage, block, j)
        invariant forall s: SlotId :: s in writtenHere <==> s in promotable && Writes(insts[..j], s)
      {
        hide UsageUpTo, Writes;
        NoteOne(f, promotable, usage, writtenHere, block, j);
        forall s: SlotId
          ensures Writes(insts[..j + 1], s) <==> Writes(insts[..j], s) || StoresSlot(insts[j], s)
        {
          WritesSnoc(insts, j, s);
        }
        var op := insts[j].op;
        if op.SlotLoad? && op.slot in promotable {
          if op.slot !in writtenHere {
            usage := usage.(nonLocal := usage.nonLocal + {op.slot});
          }
        } else if op.SlotStore? && op.slot in promotable {
          writtenHere := writtenHere + {op.slot};
          var blocks := if op.slot in usage.definitions then usage.definitions[op.slot] else {};
          usage := usage.(definitions := usage.definitions[op.slot := blocks + {block}]);
        }
      }
      NextBlock(f, promotable, usage, block);
    }
    UsageDone(f, promotable, usage);
  }

  lemma NothingYet(f: Func, promotable: set<SlotId>)
    ensures UsageUpTo(f, promotable, SlotUsage(map[], {}), 0, 0)
  {
    if f.Size() > 0 {
      assert f.blocks[0].insts[..0] == [];
    }
  }

  lemma UsageDone(f: Func, promotable: set<SlotId>, usage: SlotUsage)
    requires UsageUpTo(f, promotable, usage, f.Size(), 0)
    ensures UsageOf(f, promotable, usage)
  {
    forall s: SlotId, b: BlockId
      ensures WritesUpTo(f, s, b, f.Size(), 0) <==> b < f.Size() && Writes(f.blocks[b].insts, s)
      ensures ReadsFirstUpTo(f, s, b, f.Size(), 0) <==> b < f.Size() && ReadsFirst(f.blocks[b].insts, s)
    {
    }
    forall s: SlotId
      ensures SomeReadsFirst(f, s, f.Size(), 0) <==>
                exists b: BlockId :: b < f.Size() && ReadsFirst(f.blocks[b].insts, s)
    {
    }
    hide WritesUpTo, ReadsFirstUpTo, Writes, ReadsFirst;
  }

  // ---- the promotion gate ----

  const SETJMP_LIKE: set<string> := {"setjmp", "_setjmp", "sigsetjmp", "__sigsetjmp"}

  predicate CallsSetjmp(inst: Inst) {
    inst.op.Call? && inst.op.callee in SETJMP_LIKE
  }

  /** The instruction hands out the address of `s`, or indexes into it. */
  predicate ReachesInto(inst: Inst, s: SlotId) {
    || (inst.op.AddrOf? && inst.op.slot == s)
    || (inst.op.ArrayLoad? && inst.op.base == s)
    || (inst.op.ArrayStore? && inst.op.base == s)
    || (inst.op.ArrayAddr? && inst.op.base == s)
  }

  ghost predicate Somewhere(f: Func, b: BlockId, i: nat) {
    b < f.Size() && i < |f.blocks[b].insts|
  }

  /** Nothing can reach the slot except by name, and control cannot come back from outside. */
  ghost predicate OnlyByName(f: Func, aggregates: set<SlotId>, s: SlotId) {
    && s !in aggregates
    && forall b: BlockId, i: nat :: Somewhere(f, b, i) ==>
         !CallsSetjmp(f.blocks[b].insts[i]) && !ReachesInto(f.blocks[b].insts[i], s)
  }

  /** Of `slots`, exactly those no instruction reaches into, and none at all if control may come back from outside. */
  method Promotable(f: Func, slots: set<SlotId>, aggregates: set<SlotId>) returns (eligible: set<SlotId>)
    ensures forall s: SlotId :: s in eligible <==> s in slots && OnlyByName(f, aggregates, s)
  {
    var returnsTwice := AnySetjmp(f);
    if returnsTwice {
      return {};
    }
    eligible := slots - aggregates;
    for block := 0 to f.Size()
      invariant forall s: SlotId :: s in eligible <==>
                  s in slots - aggregates &&
                  forall b: BlockId, i: nat :: Somewhere(f, b, i) && b < block ==> !ReachesInto(f.blocks[b].insts[i], s)
    {
      for j := 0 to |f.blocks[block].insts|
        invariant forall s: SlotId :: s in eligible <==>
                    s in slots - aggregates &&
                    forall b: BlockId, i: nat :: Somewhere(f, b, i) && (b < block || (b == block && i < j)) ==>
                      !ReachesInto(f.blocks[b].insts[i], s)
      {
        assert Somewhere(f, block, j);
        var inst := f.blocks[block].insts[j];
        match inst.op
        case AddrOf(slot) => eligible := eligible - {slot};
        case ArrayLoad(base, _) => eligible := eligible - {base};
        case ArrayStore(base, _, _) => eligible := eligible - {base};
        case ArrayAddr(base, _) => eligible := eligible - {base};
        case _ =>
      }
    }
  }

  method AnySetjmp(f: Func) returns (any: bool)
    ensures any <==> exists b: BlockId, i: nat :: Somewhere(f, b, i) && CallsSetjmp(f.blocks[b].insts[i])
  {
    any := false;
    for block := 0 to f.Size()
      invariant any <==> exists b: BlockId, i: nat ::
                  Somewhere(f, b, i) && b < block && CallsSetjmp(f.blocks[b].insts[i])
    {
      for j := 0 to |f.blocks[block].insts|
        invariant any <==> exists b: BlockId, i: nat ::
                    Somewhere(f, b, i) && (b < block || (b == block && i < j)) && CallsSetjmp(f.blocks[b].insts[i])
      {
        assert Somewhere(f, block, j);
        if CallsSetjmp(f.blocks[block].insts[j]) {
          any := true;
        }
      }
    }
  }
}
