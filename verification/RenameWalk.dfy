/** The order of the renaming walk: what is still to be entered and left, and the stacks each step finds. */
module RenameWalk {
  import opened Graphs
  import opened IdomTree
  import opened DomFixpoint
  import opened Lists
  import opened Stamps
  import opened Ssa
  import opened SsaValid
  import opened RenameSpec
  import opened RenameSteps
  import opened RenameBlocks

  datatype Step = Enter(block: BlockId) | Leave(block: BlockId)

  /** The children of a block as steps, the first one on top. */
  function EnterAll(children: seq<nat>): (r: seq<Step>)
    ensures |r| == |children|
    ensures forall i: nat :: i < |r| ==> r[i] == Enter(children[|children| - 1 - i])
  {
    seq(|children|, i requires 0 <= i < |children| => Enter(children[|children| - 1 - i]))
  }

  function Below(n: nat): (r: set<nat>)
    ensures forall b: nat :: b in r <==> b < n
    decreases n
  {
    if n == 0 then {} else Below(n - 1) + {n - 1}
  }

  ghost function Blocks(c: Promo): set<BlockId> {
    Below(c.f.Size())
  }

  // ---- what is still to be entered ----

  ghost predicate Pending(steps: seq<Step>, b: BlockId) {
    exists i: nat :: i < |steps| && steps[i] == Enter(b)
  }

  ghost predicate StepsOnce(steps: seq<Step>) {
    forall i: nat, j: nat :: i < j < |steps| ==> steps[j] != steps[i]
  }

  /** The steps left are those of the blocks that may be entered next, and of blocks to leave, each once. */
  ghost predicate Scheduled(c: Promo, steps: seq<Step>, entered: set<BlockId>) {
    && (forall i: nat :: i < |steps| && steps[i].Enter? ==> Enterable(c, entered, steps[i].block))
    && (forall i: nat :: i < |steps| && steps[i].Leave? ==> steps[i].block in entered)
    && StepsOnce(steps)
    && (forall b: BlockId :: Enterable(c, entered, b) ==> Pending(steps, b))
    && (forall b: BlockId :: b in entered ==> b < c.f.Size() && (b == c.f.entry || c.tree.Up(b) in entered))
  }

  lemma WalkStarts(c: Promo)
    requires c.Sound()
    ensures Scheduled(c, [Enter(c.f.entry)], {})
  {
    assert c.f.Adjacency().Valid();
    assert [Enter(c.f.entry)][0] == Enter(c.f.entry);
  }

  /** With no steps left every block was entered. */
  lemma {:induction false} WalkEnds(c: Promo, entered: set<BlockId>, b: BlockId)
    requires c.Sound() && Scheduled(c, [], entered) && b < c.f.Size()
    ensures b in entered
    decreases c.tree.Num(b)
  {
    assert c.tree.entry == c.f.entry;
    if b != c.f.entry {
      assert c.tree.Has(b) && c.tree.Rises(b);
      assert c.tree.Up(b) < c.f.Size();
      WalkEnds(c, entered, c.tree.Up(b));
    }
    if b !in entered {
      assert Enterable(c, entered, b);
    }
  }

  lemma ChildIsEnterable(c: Promo, children: seq<nat>, entered: set<BlockId>, x: BlockId, y: BlockId)
    requires c.Sound() && Enterable(c, entered, x) && IsChild(c.tree, x, y)
    requires forall b: BlockId :: b in entered ==> b == c.f.entry || c.tree.Up(b) in entered
    ensures Enterable(c, entered + {x}, y) && !Enterable(c, entered, y)
  {
    assert c.tree.entry == c.f.entry;
    assert c.tree.Rises(y);
  }

  lemma EnterSchedules(c: Promo, rest: seq<Step>, x: BlockId, children: seq<nat>, entered: set<BlockId>)
    requires c.Sound() && Scheduled(c, rest + [Enter(x)], entered)
    requires Distinct(children) && forall y: nat :: y in children <==> IsChild(c.tree, x, y)
    ensures Scheduled(c, rest + [Leave(x)] + EnterAll(children), entered + {x})
  {
    var steps := rest + [Enter(x)];
    var next := rest + [Leave(x)] + EnterAll(children);
    assert steps[|rest|] == Enter(x);
    assert Enterable(c, entered, x);
    forall i: nat | i < |next| && next[i].Enter?
      ensures Enterable(c, entered + {x}, next[i].block)
    {
      EnterStep(c, rest, x, children, entered, i);
    }
    forall i: nat | i < |next| && next[i].Leave?
      ensures next[i].block in entered + {x}
    {
      if i < |rest| {
        assert steps[i] == next[i];
      }
    }
    EnterKeepsOnce(c, rest, x, children, entered);
    forall b: BlockId | Enterable(c, entered + {x}, b)
      ensures Pending(next, b)
    {
      EnterPends(c, rest, x, children, entered, b);
    }
    hide Enterable, Pending, StepsOnce, Promo.Sound, IsChild;
  }

  lemma EnterStep(c: Promo, rest: seq<Step>, x: BlockId, children: seq<nat>, entered: set<BlockId>, i: nat)
    requires c.Sound() && Scheduled(c, rest + [Enter(x)], entered)
    requires forall y: nat :: y in children <==> IsChild(c.tree, x, y)
    requires i < |rest| + 1 + |children| && (rest + [Leave(x)] + EnterAll(children))[i].Enter?
    ensures Enterable(c, entered + {x}, (rest + [Leave(x)] + EnterAll(children))[i].block)
    ensures i < |rest| ==> Enterable(c, entered, (rest + [Leave(x)] + EnterAll(children))[i].block)
    ensures i >= |rest| ==> !Enterable(c, entered, (rest + [Leave(x)] + EnterAll(children))[i].block)
  {
    var steps := rest + [Enter(x)];
    var next := rest + [Leave(x)] + EnterAll(children);
    assert steps[|rest|] == Enter(x);
    if i < |rest| {
      assert next[i] == steps[i] && steps[i] != steps[|rest|];
    } else {
      var y := next[i].block;
      assert y == children[|children| - 1 - (i - |rest| - 1)];
      assert y in children;
      ChildIsEnterable(c, children, entered, x, y);
    }
  }

  lemma EnterKeepsOnce(c: Promo, rest: seq<Step>, x: BlockId, children: seq<nat>, entered: set<BlockId>)
    requires c.Sound() && Scheduled(c, rest + [Enter(x)], entered)
    requires Distinct(children) && forall y: nat :: y in children <==> IsChild(c.tree, x, y)
    ensures StepsOnce(rest + [Leave(x)] + EnterAll(children))
  {
    var steps := rest + [Enter(x)];
    var next := rest + [Leave(x)] + EnterAll(children);
    forall i: nat, j: nat | i < j < |next|
      ensures next[j] != next[i]
    {
      if j < |rest| {
        assert steps[i] == next[i] && steps[j] == next[j];
      } else if next[i].Enter? && next[j].Enter? {
        EnterStep(c, rest, x, children, entered, i);
        EnterStep(c, rest, x, children, entered, j);
        if i > |rest| {
          assert next[i] == Enter(children[|children| - 1 - (i - |rest| - 1)]);
          assert next[j] == Enter(children[|children| - 1 - (j - |rest| - 1)]);
        }
      } else if next[i].Leave? && j == |rest| {
        assert steps[i] == next[i];
        EnteredNotLeft(c, rest, x, entered);
      }
    }
    hide Enterable, Promo.Sound, IsChild, Pending;
  }

  lemma EnteredNotLeft(c: Promo, rest: seq<Step>, x: BlockId, entered: set<BlockId>)
    requires Scheduled(c, rest + [Enter(x)], entered)
    ensures Enterable(c, entered, x) && x !in entered
    ensures forall i: nat :: i < |rest| && rest[i].Leave? ==> rest[i].block != x
  {
    var steps := rest + [Enter(x)];
    assert steps[|rest|] == Enter(x);
    forall i: nat | i < |rest| ensures rest[i] == steps[i] {
    }
  }

  lemma EnterPends(c: Promo, rest: seq<Step>, x: BlockId, children: seq<nat>, entered: set<BlockId>, b: BlockId)
    requires c.Sound() && Scheduled(c, rest + [Enter(x)], entered) && Enterable(c, entered + {x}, b)
    requires forall y: nat :: y in children <==> IsChild(c.tree, x, y)
    ensures Pending(rest + [Leave(x)] + EnterAll(children), b)
  {
    var steps := rest + [Enter(x)];
    var next := rest + [Leave(x)] + EnterAll(children);
    if Enterable(c, entered, b) {
      var i: nat :| i < |steps| && steps[i] == Enter(b);
      assert i < |rest|;
      assert next[i] == Enter(b);
    } else {
      assert IsChild(c.tree, x, b);
      var k: nat :| k < |children| && children[k] == b;
      assert next[|rest| + 1 + (|children| - 1 - k)] == Enter(b);
    }
  }

  lemma LeaveSchedules(c: Promo, rest: seq<Step>, x: BlockId, entered: set<BlockId>)
    requires Scheduled(c, rest + [Leave(x)], entered)
    ensures Scheduled(c, rest, entered)
    ensures forall i: nat :: i < |rest| ==> rest[i] != Leave(x)
  {
    var steps := rest + [Leave(x)];
    assert steps[|rest|] == Leave(x);
    forall i: nat | i < |rest| ensures rest[i] == steps[i] {
    }
    forall b: BlockId | Enterable(c, entered, b)
      ensures Pending(rest, b)
    {
      var i: nat :| i < |steps| && steps[i] == Enter(b);
      assert rest[i] == Enter(b);
    }
    hide Enterable;
  }

  // ---- the stacks each step finds ----

  /** Doing the step turns the stacks `hi`, found when it comes up, into `lo`. */
  ghost predicate StepOk(c: Promo, step: Step, lo: Stacks, hi: Stacks, pushed: seq<seq<SlotId>>) {
    match step
    case Enter(b) => SameStacks(lo, hi) && TopsAre(hi, c.In(b))
    case Leave(b) => b < |pushed| && Pushed(lo, hi, pushed[b])
  }

  /** `levels[i]` are the stacks once only the first `i` steps are left. */
  ghost predicate LevelsOk(c: Promo, steps: seq<Step>, levels: seq<Stacks>, pushed: seq<seq<SlotId>>) {
    && |levels| == |steps| + 1
    && forall i: nat, j: nat :: j == i + 1 && i < |steps| ==> StepOk(c, steps[i], levels[i], levels[j], pushed)
  }

  lemma SameTops(a: Stacks, b: Stacks, env: Env)
    requires SameStacks(a, b) && TopsAre(a, env)
    ensures TopsAre(b, env)
  {
  }

  lemma SameInTurn(a: Stacks, b: Stacks, d: Stacks)
    requires SameStacks(a, b) && SameStacks(b, d)
    ensures SameStacks(a, d)
  {
  }

  lemma PushedSame(a: Stacks, b: Stacks, d: Stacks, pushed: seq<SlotId>)
    requires Pushed(a, b, pushed) && SameStacks(b, d)
    ensures Pushed(a, d, pushed)
  {
  }

  lemma SamePushed(a: Stacks, b: Stacks, d: Stacks, pushed: seq<SlotId>)
    requires SameStacks(a, b) && Pushed(b, d, pushed)
    ensures Pushed(a, d, pushed)
  {
  }

  /** Popping one of the slots pushed. */
  lemma PopOne(lo: Stacks, hi: Stacks, s: SlotId, rest: seq<SlotId>)
    requires Pushed(lo, hi, [s] + rest)
    ensures s in hi && |hi[s]| > 0
    ensures Pushed(lo, hi[s := hi[s][..|hi[s]| - 1]], rest)
  {
    assert multiset([s] + rest) == multiset{s} + multiset(rest);
    assert StackOf(lo, s) <= StackOf(hi, s) && |StackOf(hi, s)| == |StackOf(lo, s)| + multiset([s] + rest)[s];
  }

  lemma PoppedAll(lo: Stacks, hi: Stacks)
    requires Pushed(lo, hi, [])
    ensures SameStacks(lo, hi)
  {
  }

  lemma TopStep(c: Promo, rest: seq<Step>, step: Step, levels: seq<Stacks>, pushed: seq<seq<SlotId>>, stacks: Stacks)
    requires LevelsOk(c, rest + [step], levels, pushed) && SameStacks(levels[|rest| + 1], stacks)
    ensures LevelsOk(c, rest, levels[..|rest| + 1], pushed)
    ensures step.Enter? ==> SameStacks(levels[|rest|], stacks) && TopsAre(stacks, c.In(step.block))
    ensures step.Leave? ==> step.block < |pushed| && Pushed(levels[|rest|], stacks, pushed[step.block])
  {
    var steps := rest + [step];
    assert StepOk(c, steps[|rest|], levels[|rest|], levels[|rest| + 1], pushed);
    var fewer := levels[..|rest| + 1];
    forall i: nat, j: nat | j == i + 1 && i < |rest|
      ensures StepOk(c, rest[i], fewer[i], fewer[j], pushed)
    {
      assert StepOk(c, steps[i], levels[i], levels[j], pushed);
    }
    if step.Enter? {
      SameTops(levels[|rest| + 1], stacks, c.In(step.block));
      SameInTurn(levels[|rest|], levels[|rest| + 1], stacks);
    } else {
      PushedSame(levels[|rest|], levels[|rest| + 1], stacks, pushed[step.block]);
    }
    hide TopsAre, Promo.In, SameStacks, Pushed;
  }

  ghost function EnterLevels(levels: seq<Stacks>, stacks: Stacks, n: nat): (r: seq<Stacks>)
    ensures |r| == |levels| + 1 + n
    ensures forall i: nat :: i < |r| ==> r[i] == if i < |levels| then levels[i] else stacks
  {
    levels + seq(n + 1, _ => stacks)
  }

  /** Entering leaves a step to undo it, and its children find the stacks it made. */
  lemma EnterLevelsOk(c: Promo, rest: seq<Step>, x: BlockId, children: seq<nat>, levels: seq<Stacks>,
                      pushed: seq<seq<SlotId>>, stacks: Stacks, slots: seq<SlotId>)
    requires c.Sound() && LevelsOk(c, rest, levels, pushed) && x < |pushed|
    requires forall i: nat :: i < |rest| && rest[i].Leave? ==> rest[i].block != x
    requires Pushed(levels[|rest|], stacks, slots) && TopsAre(stacks, c.Out(x))
    requires forall y: nat :: y in children ==> IsChild(c.tree, x, y)
    ensures LevelsOk(c, rest + [Leave(x)] + EnterAll(children), EnterLevels(levels, stacks, |children|),
                     pushed[x := slots])
  {
    hide TopsAre, Pushed, Promo.In, Promo.Out, Promo.Sound, IsChild, EnterLevels, EnterAll, StepOk;
    forall i: nat, j: nat | j == i + 1 && i < |rest| + 1 + |children|
      ensures StepOk(c, (rest + [Leave(x)] + EnterAll(children))[i], EnterLevels(levels, stacks, |children|)[i],
                     EnterLevels(levels, stacks, |children|)[j], pushed[x := slots])
    {
      EnterLevelOk(c, rest, x, children, levels, pushed, stacks, slots, i);
    }
    LevelsAre(c, rest + [Leave(x)] + EnterAll(children), EnterLevels(levels, stacks, |children|), pushed[x := slots]);
  }

  lemma LevelsAre(c: Promo, steps: seq<Step>, levels: seq<Stacks>, pushed: seq<seq<SlotId>>)
    requires |levels| == |steps| + 1
    requires forall i: nat, j: nat :: j == i + 1 && i < |steps| ==> StepOk(c, steps[i], levels[i], levels[j], pushed)
    ensures LevelsOk(c, steps, levels, pushed)
  {
    hide StepOk;
  }

  lemma EnterLevelOk(c: Promo, rest: seq<Step>, x: BlockId, children: seq<nat>, levels: seq<Stacks>,
                     pushed: seq<seq<SlotId>>, stacks: Stacks, slots: seq<SlotId>, i: nat)
    requires c.Sound() && LevelsOk(c, rest, levels, pushed) && x < |pushed|
    requires forall k: nat :: k < |rest| && rest[k].Leave? ==> rest[k].block != x
    requires |levels| == |rest| + 1 && Pushed(levels[|rest|], stacks, slots) && TopsAre(stacks, c.Out(x))
    requires forall y: nat :: y in children ==> IsChild(c.tree, x, y)
    requires i < |rest| + 1 + |children|
    ensures StepOk(c, (rest + [Leave(x)] + EnterAll(children))[i], EnterLevels(levels, stacks, |children|)[i],
                   EnterLevels(levels, stacks, |children|)[i + 1], pushed[x := slots])
  {
    hide TopsAre, Pushed, Promo.In, Promo.Out, Promo.Sound, IsChild, EnterLevels, EnterAll;
    if i < |rest| {
      var j := i + 1;
      assert StepOk(c, rest[i], levels[i], levels[j], pushed);
    } else if i > |rest| {
      var y := children[|children| - 1 - (i - |rest| - 1)];
      assert y in children;
      ChildInherits(c, x, y);
    }
  }

  lemma FirstLevels(c: Promo, stacks: Stacks, pushed: seq<seq<SlotId>>)
    requires c.Sound() && stacks == map[]
    ensures LevelsOk(c, [Enter(c.f.entry)], [stacks, stacks], pushed)
    ensures SameStacks(stacks, stacks)
  {
    assert c.tree.entry == c.f.entry;
    assert c.In(c.f.entry) == NoEnv;
  }

  /** A block left has no step that looks at what it pushed. */
  lemma ForgetPushed(c: Promo, steps: seq<Step>, levels: seq<Stacks>, pushed: seq<seq<SlotId>>, x: BlockId)
    requires LevelsOk(c, steps, levels, pushed) && x < |pushed|
    requires forall i: nat :: i < |steps| ==> steps[i] != Leave(x)
    ensures LevelsOk(c, steps, levels, pushed[x := []])
  {
    forall i: nat, j: nat | j == i + 1 && i < |steps|
      ensures StepOk(c, steps[i], levels[i], levels[j], pushed[x := []])
    {
      assert StepOk(c, steps[i], levels[i], levels[j], pushed);
    }
    hide TopsAre, Pushed, SameStacks, Promo.In;
  }

  /** Names left behind are among those that were there. */
  lemma NamesPopped(c: Promo, f: Func, n: Names, n': Names, lo: Stacks, slots: seq<SlotId>, entered: set<BlockId>)
    requires Walked(c, f, n, entered) && n' == n.(stacks := n'.stacks)
    requires Pushed(lo, n.stacks, slots) && SameStacks(lo, n'.stacks)
    ensures Walked(c, f, n', entered)
  {
    if !n.used {
      forall s: SlotId ensures AllAvoid(c.undef, StackOf(n'.stacks, s)) {
        assert AllAvoid(c.undef, StackOf(n.stacks, s));
        assert StackOf(lo, s) <= StackOf(n.stacks, s);
      }
    }
    hide RenamedUpTo, SubsKnown, FuncAvoids;
  }

  lemma SameAsItself(stacks: Stacks)
    ensures SameStacks(stacks, stacks)
  {
  }

  lemma EntryOfWalk(c: Promo, f: Func, n: Names)
    requires Walkable(c) && Walked(c, f, n, {})
    ensures c.Sound() && f.entry == c.f.entry && f.Size() == c.f.Size()
  {
  }

  lemma AllEntered(c: Promo, f: Func, n: Names, entered: set<BlockId>)
    requires c.Sound() && Scheduled(c, [], entered) && Walked(c, f, n, entered)
    ensures Walked(c, f, n, Blocks(c))
  {
    forall b: nat | b < c.f.Size() ensures b in entered {
      WalkEnds(c, entered, b);
    }
    assert entered == Blocks(c);
  }

  lemma ChildInherits(c: Promo, x: BlockId, y: BlockId)
    requires c.Sound() && IsChild(c.tree, x, y)
    ensures c.In(y) == c.Out(x)
  {
    assert c.tree.Rises(y);
  }
}
