/** Renaming in place: the stacks of names agree with the specification wherever the walk stands. */
module Renamer {
  import opened Graphs
  import opened IdomTree
  import opened DomFixpoint
  import opened Lists
  import opened Stamps
  import opened Dominators
  import opened Ssa
  import opened Rewrites
  import opened SsaValid
  import opened Functions
  import opened RenameSpec
  import opened Promotion
  import opened RenameSteps
  import opened RenameBlocks
  import opened RenameWalk

  /** The names in scope, what to read instead of each deleted load, and the function being renamed. */
  class Renaming {
    const fn: Function
    const promotable: set<SlotId>
    const undefined: ValueId
    var stacks: Stacks
    var substitutions: Substitution
    var undefinedUsed: bool

    constructor (fn: Function, promotable: set<SlotId>, undefined: ValueId)
      ensures this.fn == fn && this.promotable == promotable && this.undefined == undefined
      ensures stacks == map[] && substitutions == map[] && !undefinedUsed
    {
      this.fn, this.promotable, this.undefined := fn, promotable, undefined;
      stacks, substitutions, undefinedUsed := map[], map[], false;
    }

    ghost function Now(): Names
      reads this
    {
      Names(stacks, substitutions, undefinedUsed)
    }

    /** What this walk renames is what `c` describes. */
    ghost predicate For(c: Promo) {
      promotable == c.slots && undefined == c.undef
    }

    /** The top of the slot's stack; where it is empty the undefined value, which is then marked as used. */
    method Current(slot: SlotId) returns (o: Operand)
      modifies this`undefinedUsed
      ensures Now() == old(Now()).Looked(slot)
      ensures o == old(Now()).Top(undefined, slot)
    {
      var stack := StackOf(stacks, slot);
      if |stack| > 0 {
        o := stack[|stack| - 1];
      } else {
        undefinedUsed := true;
        o := Value(undefined);
      }
    }

    /** Puts `o` on top of the slot's stack. */
    method Push(slot: SlotId, o: Operand)
      modifies this`stacks
      ensures Now() == old(Now()).Push(slot, o)
    {
      stacks := stacks[slot := StackOf(stacks, slot) + [o]];
    }

    /** Pushes every phi's result on the stack of its slot; the tops are then the names after the phis. */
    method PushPhis(block: BlockId, ghost c: Promo, ghost env: Env) returns (pushed: seq<SlotId>)
      requires block < |fn.blocks| && TopsAre(stacks, env) && For(c) && UndefTracked(undefined, Now())
      requires forall k: nat :: k < |fn.blocks[block].phis| ==> fn.blocks[block].phis[k].dest != undefined
      modifies this`stacks
      ensures Now() == old(Now()).(stacks := stacks)
      ensures PhisNamed(c, env, fn.blocks[block].phis, old(stacks), Now(), pushed)
    {
      var phis := fn.blocks[block].phis;
      pushed := [];
      assert phis[..0] == [];
      for k := 0 to |phis|
        invariant Now() == old(Now()).(stacks := stacks)
        invariant PhisNamed(c, env, phis[..k], old(stacks), Now(), pushed)
      {
        hide *;
        NamePhi(c, env, phis, k, old(stacks), Now(), pushed);
        Push(phis[k].slot, Value(phis[k].dest));
        pushed := pushed + [phis[k].slot];
      }
      assert phis[..|phis|] == phis;
    }

    /** The instructions of one block: promoted loads and stores disappear into the names. */
    method RenameInsts(block: BlockId, ghost c: Promo) returns (kept: seq<Inst>, pushed: seq<SlotId>)
      requires c.Sound() && For(c) && block < c.f.Size() && block < |fn.blocks|
      requires fn.blocks[block].insts == c.f.blocks[block].insts
      requires Midway(c, block, 0, Now(), Now(), [], []) && InstsAvoid(undefined, c.f.blocks[block].insts)
      modifies this
      ensures Midway(c, block, |c.f.blocks[block].insts|, old(Now()), Now(), kept, pushed)
    {
      var insts := fn.blocks[block].insts;
      kept, pushed := [], [];
      for j := 0 to |insts|
        invariant Midway(c, block, j, old(Now()), Now(), kept, pushed)
      {
        var inst := insts[j];
        var op := SubOp(substitutions, inst.op);
        assert AllAvoid(undefined, insts[j].op.Operands());
        OpKinds(substitutions, inst.op);
        LoadsDefine(c, block, j);
        if op.SlotLoad? && op.slot in promotable {
          LoadMidway(c, block, j, old(Now()), Now(), kept, pushed);
          var current := Current(op.slot);
          substitutions := substitutions[inst.dest.value := current];
        } else if op.SlotStore? && op.slot in promotable {
          StoreMidway(c, block, j, old(Now()), Now(), kept, pushed);
          Push(op.slot, op.value);
          pushed := pushed + [op.slot];
        } else {
          KeepMidway(c, block, j, old(Now()), Now(), kept, pushed);
          kept := kept + [inst.(op := op)];
        }
        hide Midway, Promo.Sound, SubOp, AllAvoid, InstsAvoid;
      }
    }

    /** Give each phi of `successor` the value arriving from `block`, at every position of `block`. */
    method FillPhisOf(successor: BlockId, block: BlockId)
      requires successor < |fn.blocks|
      requires forall k: nat :: k < |fn.blocks[successor].phis| ==>
                 |fn.blocks[successor].phis[k].args| == |fn.blocks[successor].preds|
      modifies fn`blocks, this`undefinedUsed
      ensures fn.blocks == old(fn.blocks)[successor :=
                                          FilledFrom(old(fn.blocks[successor]), block, old(Now()), undefined)]
      ensures Now() == old(Now()).(used := undefinedUsed) && (old(undefinedUsed) ==> undefinedUsed)
      ensures !undefinedUsed ==> PhisHaveNames(old(fn.blocks[successor]), old(Now()))
    {
      var preds := fn.blocks[successor].preds;
      var positions := PositionsOf(preds, block);
      var phis := fn.blocks[successor].phis;
      ghost var before := phis;
      ghost var n := Now();
      for index := 0 to |phis|
        invariant |phis| == |before| && fn.blocks == old(fn.blocks)
        invariant Now() == n.(used := undefinedUsed) && (n.used ==> undefinedUsed)
        invariant forall k: nat :: k < |phis| ==>
                    phis[k] == if k < index then FillPhi(before[k], preds, block, n, undefined) else before[k]
        invariant !undefinedUsed ==> forall k: nat :: k < index ==> StackOf(n.stacks, before[k].slot) != []
      {
        var current := Current(phis[index].slot);
        assert current == n.Top(undefined, before[index].slot);
        var args := PutAt(phis[index].args, preds, block, positions, current);
        phis := phis[index := phis[index].(args := args)];
      }
      fn.blocks := fn.blocks[successor := fn.blocks[successor].(phis := phis)];
      assert phis == FillPhis(before, preds, block, n, undefined);
    }

    /** Fills, in every successor, the argument columns that belong to `block` with the current names. */
    method FillSuccessorPhis(block: BlockId)
      requires block < |fn.blocks|
      requires forall x: nat :: x in fn.blocks[block].term.Successors() ==> x < |fn.blocks|
      requires forall x: nat, k: nat :: x < |fn.blocks| && k < |fn.blocks[x].phis| ==>
                 |fn.blocks[x].phis[k].args| == |fn.blocks[x].preds|
      modifies fn`blocks, this`undefinedUsed
      ensures |fn.blocks| == |old(fn.blocks)|
      ensures forall x: nat :: x < |fn.blocks| ==>
                fn.blocks[x] == if x in old(fn.blocks[block]).term.Successors()
                                then FilledFrom(old(fn.blocks[x]), block, old(Now()), undefined) else old(fn.blocks[x])
      ensures Now() == old(Now()).(used := undefinedUsed) && (old(undefinedUsed) ==> undefinedUsed)
      ensures !undefinedUsed ==> forall x: nat :: x < |fn.blocks| && x in old(fn.blocks[block]).term.Successors() ==>
                PhisHaveNames(old(fn.blocks[x]), old(Now()))
    {
      var successors := fn.blocks[block].term.Successors();
      ghost var before := fn.blocks;
      ghost var n := Now();
      for i := 0 to |successors|
        invariant |fn.blocks| == |before|
        invariant Now() == n.(used := undefinedUsed) && (n.used ==> undefinedUsed)
        invariant forall x: nat :: x < |before| ==>
                    fn.blocks[x] == if x in successors[..i] then FilledFrom(before[x], block, n, undefined)
                                    else before[x]
        invariant !undefinedUsed ==> forall x: nat :: x < |before| && x in successors[..i] ==>
                    PhisHaveNames(before[x], n)
      {
        var s := successors[i];
        assert s in successors;
        assert successors[..i + 1] == successors[..i] + [s];
        FillTwice(before[s], block, n, undefined);
        NamesForFilled(before[s], block, n, Now(), undefined);
        ArityKept(before[s], block, n, undefined);
        FillPhisOf(s, block);
        hide FilledFrom, FillPhis, PhisHaveNames;
      }
      assert successors[..|successors|] == successors;
    }

    /** One block becomes what the specification renames it to and its successors' columns are filled; the stacks then
        hold the names at its end, `pushed` saying which grew. */
    method RenameBlock(block: BlockId, ghost c: Promo, ghost entered: set<BlockId>) returns (pushed: seq<SlotId>)
      requires For(c) && Walkable(c) && Walked(c, fn.View(), Now(), entered) && Enterable(c, entered, block)
      requires TopsAre(stacks, c.In(block))
      modifies this, fn`blocks
      ensures Walked(c, fn.View(), Now(), entered + {block})
      ensures TopsAre(stacks, c.Out(block)) && Pushed(old(stacks), stacks, pushed)
    {
      hide Walkable, Walked, Enterable, TopsAre, Pushed, UndefTracked, Midway, Promo.In, Promo.Start, Promo.Out,
           InstsAvoid,
           FilledFrom, RenameBlocks.Entered, PhisHaveNames, SubTerm, Promo.AfterPhis, Names.Push, RenamedUpTo,
           Promo.Sound;
      ghost var before, f := Now(), fn.View();
      BlockToEnter(c, f, before, entered, block);
      WalkedParts(c, f, before, entered);
      RenamedArity(c, f, entered);
      pushed := PushPhis(block, c, c.In(block));
      ghost var mid := Now();
      PhisNamedIs(c, c.In(block), fn.blocks[block].phis, before.stacks, mid, pushed);
      MidwayStarts(c, f, entered, block, before, mid);
      var kept, more := RenameInsts(block, c);
      ghost var end := Now();
      fn.blocks := fn.blocks[block :=
                             fn.blocks[block].(insts := kept, term := SubTerm(substitutions, fn.blocks[block].term))];
      ghost var own := fn.blocks;
      SameSuccessors(end.subs, f.blocks[block].term);
      FillSuccessorPhis(block);
      ghost var n := Now();
      EnteredInTurn(block, f, own, fn.blocks, end, n, kept, undefined);
      WalkedMore(c, f, fn.View(), block, entered, before, mid, end, n, kept, more);
      PushedInTurn(before.stacks, mid.stacks, n.stacks, pushed, more);
      pushed := pushed + more;
    }

    /** Undo the pushes of one block on the way back out. */
    method Pop(slots: seq<SlotId>, ghost lo: Stacks)
      requires Pushed(lo, stacks, slots)
      modifies this`stacks
      ensures Now() == old(Now()).(stacks := stacks) && SameStacks(lo, stacks)
    {
      hide Pushed, SameStacks;
      assert slots[0..] == slots;
      for k := 0 to |slots|
        invariant Now() == old(Now()).(stacks := stacks) && Pushed(lo, stacks, slots[k..])
      {
        assert slots[k..] == [slots[k]] + slots[k + 1..];
        PopOne(lo, stacks, slots[k], slots[k + 1..]);
        var stack := stacks[slots[k]];
        stacks := stacks[slots[k] := stack[..|stack| - 1]];
      }
      assert slots[|slots|..] == [];
      PoppedAll(lo, stacks);
    }

    /** Walk the dominator tree, renaming each block as it is entered and popping its names as it is left. */
    method Walk(tree: DomTree, ghost c: Promo)
      requires For(c) && Walkable(c) && Walked(c, fn.View(), Now(), {}) && stacks == map[]
      requires tree.Describes(c.f.Adjacency()) && c.tree == tree.AsTree(c.f.Adjacency())
      modifies this, fn`blocks
      ensures Walked(c, fn.View(), Now(), Blocks(c))
    {
      hide Walkable, Walked, TopsAre, Pushed, SameStacks, Scheduled, LevelsOk, Promo.Sound, Promo.In, Promo.Out,
           Enterable, IsChild;
      EntryOfWalk(c, fn.View(), Now());
      TreeShape(c, tree);
      var children := Children(tree.immediate, tree.order, fn.entry);
      ChildrenListed(c, tree, children);
      var steps := [Enter(fn.entry)];
      var pushed: seq<seq<SlotId>> := seq(|fn.blocks|, _ => []);
      ghost var levels, entered: set<BlockId> := [stacks, stacks], {};
      WalkStarts(c);
      FirstLevels(c, stacks, pushed);
      while |steps| > 0
        invariant |pushed| == |children| == c.f.Size()
        invariant Scheduled(c, steps, entered) && Walked(c, fn.View(), Now(), entered)
        invariant LevelsOk(c, steps, levels, pushed) && |levels| == |steps| + 1 && SameStacks(levels[|steps|], stacks)
        decreases Blocks(c) - entered, |steps|
      {
        var step := steps[|steps| - 1];
        ghost var all := steps;
        steps := steps[..|steps| - 1];
        assert all == steps + [step];
        TopStep(c, steps, step, levels, pushed, stacks);
        levels := levels[..|steps| + 1];
        match step
        case Enter(block) =>
          ghost var before := stacks;
          EnteredNotLeft(c, steps, block, entered);
          EnterableParts(c, entered, block);
          var slots := RenameBlock(block, c, entered);
          SamePushed(levels[|steps|], before, stacks, slots);
          EnterSchedules(c, steps, block, children[block], entered);
          EnterLevelsOk(c, steps, block, children[block], levels, pushed, stacks, slots);
          pushed := pushed[block := slots];
          levels := EnterLevels(levels, stacks, |children[block]|);
          entered := entered + {block};
          SameAsItself(stacks);
          steps := steps + [Leave(block)];
          steps := PushChildren(steps, children[block]);
        case Leave(block) =>
          ghost var n := Now();
          Pop(pushed[block], levels[|steps|]);
          NamesPopped(c, fn.View(), n, Now(), levels[|steps|], pushed[block], entered);
          LeaveSchedules(c, steps, block, entered);
          ForgetPushed(c, steps, levels, pushed, block);
          pushed := pushed[block := []];
      }
      AllEntered(c, fn.View(), Now(), entered);
    }
  }

  /** The steps with an entry for each child, the first child on top. */
  method PushChildren(steps: seq<Step>, children: seq<nat>) returns (r: seq<Step>)
    ensures r == steps + EnterAll(children)
  {
    r := steps;
    var k := |children|;
    while k > 0
      invariant 0 <= k <= |children|
      invariant r == steps + EnterAll(children)[..|children| - k]
    {
      k := k - 1;
      r := r + [Enter(children[k])];
    }
    assert EnterAll(children)[..|children|] == EnterAll(children);
  }

  /** The dominator tree's lists are in shape for listing children. */
  lemma TreeShape(c: Promo, tree: DomTree)
    requires c.Sound() && tree.Describes(c.f.Adjacency()) && c.tree == tree.AsTree(c.f.Adjacency())
    ensures Distinct(tree.order) && |tree.immediate| == c.f.Size()
    ensures forall b: nat :: b in tree.order <==> b < |tree.immediate|
    ensures forall b: nat :: b < |tree.immediate| ==> tree.immediate[b] < |tree.immediate|
  {
    forall b: nat | b < |tree.immediate| ensures tree.immediate[b] < |tree.immediate| {
      assert c.tree.Has(b);
      assert c.tree.Up(b) == tree.immediate[b];
      if b != c.tree.entry {
        assert c.tree.Rises(b);
      }
    }
  }

  lemma ChildrenListed(c: Promo, tree: DomTree, children: seq<seq<nat>>)
    requires tree.Describes(c.f.Adjacency()) && c.tree == tree.AsTree(c.f.Adjacency())
    requires |children| == |tree.immediate|
    requires forall b: nat :: b < |children| ==> Distinct(children[b])
    requires forall b: nat :: b < |children| ==>
               forall y: nat :: y in children[b] <==> y < |tree.immediate| && y != c.f.entry && tree.immediate[y] == b
    ensures forall b: nat :: b < |children| ==> Distinct(children[b]) && forall y: nat :: y in children[b] <==>
              IsChild(c.tree, b, y)
  {
    forall b: nat, y: nat | b < |children|
      ensures y in children[b] <==> IsChild(c.tree, b, y)
    {
      assert c.tree.Has(y) <==> y < |tree.immediate|;
      assert y < |tree.immediate| ==> c.tree.Up(y) == tree.immediate[y];
    }
  }

  lemma ArityKept(block: Block, pred: BlockId, n: Names, undef: ValueId)
    requires forall k: nat :: k < |block.phis| ==> |block.phis[k].args| == |block.preds|
    ensures forall k: nat :: k < |block.phis| ==> |FilledFrom(block, pred, n, undef).phis[k].args| == |block.preds|
  {
  }

  method PositionsOf(preds: seq<BlockId>, block: BlockId) returns (positions: seq<nat>)
    ensures forall i: nat :: i in positions <==> i < |preds| && preds[i] == block
  {
    positions := [];
    for i := 0 to |preds|
      invariant forall k: nat :: k in positions <==> k < i && preds[k] == block
    {
      if preds[i] == block {
        positions := positions + [i];
      }
    }
  }

  method PutAt(args: seq<Operand>, ghost preds: seq<BlockId>, ghost block: BlockId, positions: seq<nat>, o: Operand)
    returns (r: seq<Operand>)
    requires |args| == |preds|
    requires forall i: nat :: i in positions <==> i < |preds| && preds[i] == block
    ensures r == Put(args, preds, block, o)
  {
    r := args;
    for p := 0 to |positions|
      invariant |r| == |args|
      invariant forall i: nat :: i < |args| ==> r[i] == if i in positions[..p] then o else args[i]
    {
      assert positions[p] in positions;
      assert positions[..p + 1] == positions[..p] + [positions[p]];
      r := r[positions[p] := o];
    }
    assert positions[..|positions|] == positions;
    assert r == Put(args, preds, block, o);
  }
}
