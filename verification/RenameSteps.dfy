/** One step of the renaming walk: what each thing it does to the stacks of names keeps. */
module RenameSteps {
  import opened Graphs
  import opened IdomTree
  import opened DomFixpoint
  import opened Lists
  import opened Ssa
  import opened Rewrites
  import opened SsaValid
  import opened RenameSpec
  import opened Promotion

  type Stacks = map<SlotId, seq<Operand>>

  function StackOf(stacks: Stacks, s: SlotId): seq<Operand> {
    if s in stacks then stacks[s] else []
  }

  /** The tops of the stacks are the names in `env`. */
  ghost predicate TopsAre(stacks: Stacks, env: Env) {
    forall s: SlotId ::
      if s in env.cur then |StackOf(stacks, s)| > 0 && StackOf(stacks, s)[|StackOf(stacks, s)| - 1] == env.cur[s]
      else StackOf(stacks, s) == []
  }

  ghost predicate SameStacks(a: Stacks, b: Stacks) {
    forall s: SlotId :: StackOf(a, s) == StackOf(b, s)
  }

  /** `after` is `before` with one more name pushed per entry of `pushed`. */
  ghost predicate Pushed(before: Stacks, after: Stacks, pushed: seq<SlotId>) {
    forall s: SlotId ::
      && StackOf(before, s) <= StackOf(after, s)
      && |StackOf(after, s)| == |StackOf(before, s)| + multiset(pushed)[s]
  }

  lemma PushOne(before: Stacks, after: Stacks, pushed: seq<SlotId>, s: SlotId, o: Operand)
    requires Pushed(before, after, pushed)
    ensures Pushed(before, after[s := StackOf(after, s) + [o]], pushed + [s])
  {
  }

  /** The substitutions are those of the loads in the blocks entered so far. */
  ghost predicate SubsKnown(c: Promo, subs: Substitution, entered: set<BlockId>) {
    && SubsAreLoads(c, subs)
    && (forall v: ValueId :: v in subs ==> SiteOf(c.f, v).block in entered)
    && (forall b: BlockId :: b in entered ==> SubsInclude(subs, c.Out(b).sub))
  }

  ghost predicate SubsInclude(substitutions: Substitution, sub: Substitution) {
    forall v: ValueId :: v in sub ==> v in substitutions && substitutions[v] == sub[v]
  }

  /** Block `b` once renamed: promoted loads and stores gone, the rest reading the names. */
  ghost predicate BlockRenamed(c: Promo, b: BlockId, block: Block)
    requires b < c.f.Size()
  {
    && block.insts == EraseInsts(Gone(c), RenamedInsts(c, b))
    && block.term == SubTerm(c.Out(b).sub, c.f.blocks[b].term)
  }

  /** The phis of `b`, with the arguments from the blocks entered so far filled in. */
  ghost predicate PhisFilled(c: Promo, b: BlockId, phis: seq<Phi>, entered: set<BlockId>)
    requires b < c.f.Size()
  {
    |phis| == |c.f.blocks[b].phis| &&
    forall k: nat :: k < |phis| ==> PhiFilled(c, b, c.f.blocks[b].phis[k], phis[k], entered)
  }

  ghost predicate PhiFilled(c: Promo, b: BlockId, was: Phi, phi: Phi, entered: set<BlockId>)
    requires b < c.f.Size()
  {
    && phi.dest == was.dest && phi.slot == was.slot && |phi.args| == |c.f.blocks[b].preds|
    && forall i: nat :: i < |phi.args| && c.f.blocks[b].preds[i] in entered ==>
         phi.args[i] == c.Cur(c.Out(c.f.blocks[b].preds[i]), phi.slot)
  }

  /** The function when the blocks in `entered` have been renamed. */
  ghost predicate RenamedUpTo(c: Promo, f: Func, entered: set<BlockId>) {
    && f.Size() == c.f.Size() && f.entry == c.f.entry && f.sites == c.f.sites
    && (forall b: BlockId :: b in entered ==> b < c.f.Size())
    && forall b: nat :: b < f.Size() ==>
         && f.blocks[b].preds == c.f.blocks[b].preds
         && PhisFilled(c, b, f.blocks[b].phis, entered)
         && (b in entered ==> BlockRenamed(c, b, f.blocks[b]))
         && (b !in entered ==> f.blocks[b].insts == c.f.blocks[b].insts && f.blocks[b].term == c.f.blocks[b].term)
  }

  lemma StartsRenamed(c: Promo)
    requires WellShaped(c.f)
    ensures RenamedUpTo(c, c.f, {})
  {
  }

  /** With every block entered, the function is the renamed one without its promoted loads and stores. */
  lemma EndsRenamed(c: Promo, f: Func, entered: set<BlockId>)
    requires c.Sound() && RenamedUpTo(c, f, entered) && !IsLoad(c, c.undef)
    requires forall b: nat :: b < c.f.Size() ==> b in entered
    ensures f.blocks == EraseBlocks(Gone(c), Renamed(c).blocks)
  {
    forall b: nat | b < f.Size()
      ensures f.blocks[b] == EraseBlock(Gone(c), RenamedBlock(c, b))
    {
      BlockEndsRenamed(c, f, entered, b);
    }
    assert forall b: nat :: b < f.Size() ==> Renamed(c).blocks[b] == RenamedBlock(c, b);
  }

  lemma BlockEndsRenamed(c: Promo, f: Func, entered: set<BlockId>, b: BlockId)
    requires c.Sound() && RenamedUpTo(c, f, entered) && !IsLoad(c, c.undef)
    requires forall x: nat :: x < c.f.Size() ==> x in entered
    requires b < f.Size()
    ensures f.blocks[b] == EraseBlock(Gone(c), RenamedBlock(c, b))
  {
    var phis := FilledBlock(c, b).phis;
    forall k: nat | k < |phis|
      ensures phis[k] == f.blocks[b].phis[k] && phis[k].dest !in LoadResults(c)
    {
      assert PhiFilled(c, b, c.f.blocks[b].phis[k], f.blocks[b].phis[k], entered);
      forall i: nat | i < |c.f.blocks[b].preds|
        ensures phis[k].args[i] == f.blocks[b].phis[k].args[i]
      {
        assert c.f.Adjacency().preds[b][i] < c.f.Size();
      }
      assert phis[k].args == f.blocks[b].phis[k].args;
      assert Writes(c.f.blocks[b].phis, phis[k].dest);
      SiteIs(c.f, phis[k].dest, Point(b, 0));
      PhiIsNoLoad(c, phis[k].dest);
      LoadResultIsLoad(c, phis[k].dest);
    }
    assert phis == f.blocks[b].phis;
    EraseNoPhis(Gone(c), phis);
  }

  lemma {:induction false} EraseNoPhis(dead: Dead, phis: seq<Phi>)
    requires forall k: nat :: k < |phis| ==> phis[k].dest !in dead.values
    ensures ErasePhis(dead, phis) == phis
    decreases |phis|
  {
    if phis != [] {
      var n := |phis| - 1;
      EraseNoPhis(dead, phis[..n]);
      assert phis[..n] + [phis[n]] == phis;
      ErasePhisSnoc(dead, phis[..n], phis[n]);
    }
  }

  // ---- one instruction ----

  /** Reading through everything collected so far reads through the names in force here: a load some
      other branch of the tree deleted is never read here. */
  lemma SubsAgree(c: Promo, substitutions: Substitution, b: BlockId, j: nat, os: seq<Operand>)
    requires c.Sound() && b < c.f.Size() && j <= |c.f.blocks[b].insts|
    requires AllOk(c.f, os, Point(b, j + 1))
    requires forall v: ValueId :: v in substitutions ==> IsLoad(c, v)
    requires SubsInclude(substitutions, c.EnvBefore(b, j).sub)
    ensures SubAll(substitutions, os) == SubAll(c.EnvBefore(b, j).sub, os)
  {
    forall i: nat | i < |os|
      ensures SubOperand(substitutions, os[i]) == SubOperand(c.EnvBefore(b, j).sub, os[i])
    {
      assert OperandOk(c.f, os[i], Point(b, j + 1));
      if os[i].Value? {
        ScopeIsAvailability(c.f, os[i].id, Point(b, j + 1));
        ScopeIsSeen(c, os[i].id, b, j);
      }
    }
  }

  lemma KeptUnlessPromoted(c: Promo, b: BlockId, j: nat)
    requires SingleDefs(c.f) && b < c.f.Size() && j < |c.f.blocks[b].insts|
    ensures var inst := c.f.blocks[b].insts[j];
            Keeps(Gone(c), RenamedInst(c, b, j)) <==> !c.Loads(inst) && !c.Stores(inst)
  {
    var inst := c.f.blocks[b].insts[j];
    OnReads(inst.op, SubAll(c.EnvBefore(b, j).sub, inst.op.Operands()));
    if inst.dest.Some? {
      var v := inst.dest.value;
      LoadResultIsLoad(c, v);
      assert DefinedAt(c.f, v, Point(b, j + 1));
      if IsLoad(c, v) {
        LoadIsAtSite(c, v);
        SiteIs(c.f, v, Point(b, j + 1));
      }
      if c.Loads(inst) {
        assert LoadAt(c, Point(b, j + 1), v);
      }
    }
  }

  lemma KeptSnoc(c: Promo, b: BlockId, j: nat)
    requires SingleDefs(c.f) && b < c.f.Size() && j < |c.f.blocks[b].insts|
    ensures var inst := c.f.blocks[b].insts[j];
            EraseInsts(Gone(c), RenamedInsts(c, b)[..j + 1]) ==
            EraseInsts(Gone(c), RenamedInsts(c, b)[..j]) +
            (if c.Loads(inst) || c.Stores(inst) then [] else [RenamedInst(c, b, j)])
  {
    KeptUnlessPromoted(c, b, j);
    var insts := RenamedInsts(c, b);
    assert insts[..j + 1][..j] == insts[..j];
  }

  /** What each name means now: the stacks, the substitutions, and whether the undefined value was handed out. */
  datatype Names = Names(stacks: Stacks, subs: Substitution, used: bool)
  {
    function Push(s: SlotId, o: Operand): Names {
      this.(stacks := stacks[s := StackOf(stacks, s) + [o]])
    }

    /** The definition of `s` in scope, or the undefined value. */
    function Top(undef: ValueId, s: SlotId): Operand {
      var stack := StackOf(stacks, s);
      if |stack| > 0 then stack[|stack| - 1] else Value(undef)
    }

    function Looked(s: SlotId): Names {
      this.(used := used || StackOf(stacks, s) == [])
    }

    function Instead(v: ValueId, o: Operand): Names {
      this.(subs := subs[v := o])
    }
  }

  ghost predicate SubsAreLoads(c: Promo, subs: Substitution) {
    forall v: ValueId :: v in subs ==> IsLoad(c, v)
  }

  // ---- reading no undefined value ----

  ghost predicate Avoids(undef: ValueId, o: Operand) {
    o != Value(undef)
  }

  ghost predicate AllAvoid(undef: ValueId, os: seq<Operand>) {
    forall i: nat :: i < |os| ==> Avoids(undef, os[i])
  }

  /** Unless it was handed out, no name is the undefined value. */
  ghost predicate UndefTracked(undef: ValueId, n: Names) {
    !n.used ==>
      && (forall s: SlotId :: AllAvoid(undef, StackOf(n.stacks, s)))
      && (forall v: ValueId :: v in n.subs ==> Avoids(undef, n.subs[v]))
  }

  ghost predicate InstsAvoid(undef: ValueId, insts: seq<Inst>) {
    forall i: nat :: i < |insts| ==> AllAvoid(undef, insts[i].op.Operands())
  }

  ghost predicate PhisAvoid(undef: ValueId, phis: seq<Phi>) {
    forall k: nat :: k < |phis| ==> AllAvoid(undef, phis[k].args)
  }

  ghost predicate BlockAvoids(undef: ValueId, block: Block) {
    InstsAvoid(undef, block.insts) && PhisAvoid(undef, block.phis) && AllAvoid(undef, block.term.Operands())
  }

  /** Nothing in the function reads `undef`. */
  ghost predicate FuncAvoids(undef: ValueId, f: Func) {
    forall b: nat :: b < f.Size() ==> BlockAvoids(undef, f.blocks[b])
  }

  lemma SubAvoids(undef: ValueId, n: Names, os: seq<Operand>)
    requires UndefTracked(undef, n) && AllAvoid(undef, os) && !n.used
    ensures AllAvoid(undef, SubAll(n.subs, os))
  {
  }

  lemma PushAvoids(undef: ValueId, n: Names, s: SlotId, o: Operand)
    requires UndefTracked(undef, n) && (!n.used ==> Avoids(undef, o))
    ensures UndefTracked(undef, n.Push(s, o))
  {
    var n' := n.Push(s, o);
    if !n.used {
      forall r: SlotId ensures AllAvoid(undef, StackOf(n'.stacks, r)) {
        assert AllAvoid(undef, StackOf(n.stacks, r));
      }
    }
  }

  lemma LookAvoids(undef: ValueId, n: Names, s: SlotId)
    requires UndefTracked(undef, n)
    ensures UndefTracked(undef, n.Looked(s))
    ensures !n.Looked(s).used ==> Avoids(undef, n.Top(undef, s))
  {
    assert !n.used ==> AllAvoid(undef, StackOf(n.stacks, s));
  }

  lemma InsteadAvoids(undef: ValueId, n: Names, v: ValueId, o: Operand)
    requires UndefTracked(undef, n) && (!n.used ==> Avoids(undef, o))
    ensures UndefTracked(undef, n.Instead(v, o))
  {
  }

  // ---- inside a block ----

  /** `b` only adds substitutes for its own loads, which had none. */
  ghost predicate SubsGrow(c: Promo, b: BlockId, before: Substitution, subs: Substitution) {
    && (forall v: ValueId :: v in before ==> SiteOf(c.f, v).block != b)
    && SubsInclude(subs, before)
    && (forall v: ValueId :: v in subs && v !in before ==> SiteOf(c.f, v).block == b)
  }

  /** The walk stands before instruction `j` of block `b`, having kept `kept` and pushed `pushed`. */
  ghost predicate Midway(c: Promo, b: BlockId, j: nat, before: Names, n: Names, kept: seq<Inst>, pushed: seq<SlotId>)
    requires b < c.f.Size() && j <= |c.f.blocks[b].insts|
  {
    && TopsAre(n.stacks, c.EnvBefore(b, j))
    && SubsAreLoads(c, n.subs) && SubsInclude(n.subs, c.EnvBefore(b, j).sub)
    && SubsGrow(c, b, before.subs, n.subs)
    && Pushed(before.stacks, n.stacks, pushed)
    && UndefTracked(c.undef, n) && (before.used ==> n.used)
    && kept == EraseInsts(Gone(c), RenamedInsts(c, b)[..j])
    && (!n.used ==> InstsAvoid(c.undef, kept))
  }

  lemma TopIsCur(c: Promo, n: Names, env: Env, s: SlotId)
    requires TopsAre(n.stacks, env)
    ensures n.Top(c.undef, s) == c.Cur(env, s)
  {
  }

  lemma OpKinds(sub: Substitution, op: Op)
    ensures SubOp(sub, op).SlotLoad? <==> op.SlotLoad?
    ensures SubOp(sub, op).SlotStore? <==> op.SlotStore?
    ensures op.SlotLoad? ==> SubOp(sub, op).slot == op.slot
    ensures op.SlotStore? ==> SubOp(sub, op).slot == op.slot && SubOp(sub, op).value == SubOperand(sub, op.value)
  {
  }

  /** Reading through everything collected so far makes the instruction the renamed one. */
  lemma OpHere(c: Promo, subs: Substitution, b: BlockId, j: nat)
    requires c.Sound() && b < c.f.Size() && j < |c.f.blocks[b].insts|
    requires SubsAreLoads(c, subs) && SubsInclude(subs, c.EnvBefore(b, j).sub)
    ensures SubOp(subs, c.f.blocks[b].insts[j].op) == RenamedInst(c, b, j).op
    ensures c.f.blocks[b].insts[j].dest.Some? <==> c.f.blocks[b].insts[j].op.DefinesValue()
  {
    var inst := c.f.blocks[b].insts[j];
    assert AllOk(c.f, inst.op.Operands(), Point(b, j + 1));
    SubsAgree(c, subs, b, j, inst.op.Operands());
    assert SubAll(subs, inst.op.Operands()) == SubAll(c.EnvBefore(b, j).sub, inst.op.Operands());
  }

  /** A load leaves the stacks alone and adds its substitute. */
  lemma LoadMidway(c: Promo, b: BlockId, j: nat, before: Names, n: Names, kept: seq<Inst>, pushed: seq<SlotId>)
    requires c.Sound() && b < c.f.Size() && j < |c.f.blocks[b].insts| && c.Loads(c.f.blocks[b].insts[j])
    requires Midway(c, b, j, before, n, kept, pushed)
    ensures var inst := c.f.blocks[b].insts[j];
            Midway(c, b, j + 1, before, n.Looked(inst.op.slot).Instead(inst.dest.value, n.Top(c.undef, inst.op.slot)),
                   kept, pushed)
  {
    var inst := c.f.blocks[b].insts[j];
    var env := c.EnvBefore(b, j);
    StepsSnoc(c, c.Start(b), c.f.blocks[b].insts, j);
    TopIsCur(c, n, env, inst.op.slot);
    LookAvoids(c.undef, n, inst.op.slot);
    InsteadAvoids(c.undef, n.Looked(inst.op.slot), inst.dest.value, n.Top(c.undef, inst.op.slot));
    KeptSnoc(c, b, j);
    assert LoadAt(c, Point(b, j + 1), inst.dest.value);
    LoadSubs(c, n.subs, env, inst);
    LoadGrows(c, b, j, before.subs, n.subs, n.Top(c.undef, inst.op.slot));
    LoadTops(c, n.stacks, env, inst);
    assert kept + [] == kept;
    hide TopsAre, SubsInclude, SubsGrow, Pushed, UndefTracked, EraseInsts, RenamedInsts, Gone, Promo.Sound, InstsAvoid,
         Promo.Steps, Promo.Step;
  }

  lemma LoadSubs(c: Promo, subs: Substitution, env: Env, inst: Inst)
    requires c.Loads(inst) && SubsInclude(subs, env.sub)
    ensures SubsInclude(subs[inst.dest.value := c.Cur(env, inst.op.slot)], c.Step(env, inst).sub)
  {
  }

  lemma LoadGrows(c: Promo, b: BlockId, j: nat, before: Substitution, subs: Substitution, o: Operand)
    requires SingleDefs(c.f) && b < c.f.Size() && j < |c.f.blocks[b].insts| && c.Loads(c.f.blocks[b].insts[j])
    requires SubsGrow(c, b, before, subs)
    ensures SubsGrow(c, b, before, subs[c.f.blocks[b].insts[j].dest.value := o])
  {
    var v := c.f.blocks[b].insts[j].dest.value;
    SiteIs(c.f, v, Point(b, j + 1));
  }

  lemma LoadTops(c: Promo, stacks: Stacks, env: Env, inst: Inst)
    requires c.Loads(inst) && TopsAre(stacks, env)
    ensures TopsAre(stacks, c.Step(env, inst))
  {
  }

  /** A store pushes what it stores. */
  lemma StoreMidway(c: Promo, b: BlockId, j: nat, before: Names, n: Names, kept: seq<Inst>, pushed: seq<SlotId>)
    requires c.Sound() && b < c.f.Size() && j < |c.f.blocks[b].insts| && c.Stores(c.f.blocks[b].insts[j])
    requires Midway(c, b, j, before, n, kept, pushed)
    requires AllAvoid(c.undef, c.f.blocks[b].insts[j].op.Operands())
    ensures var op := SubOp(n.subs, c.f.blocks[b].insts[j].op);
            op.SlotStore? && Midway(c, b, j + 1, before, n.Push(op.slot, op.value), kept, pushed + [op.slot])
  {
    var inst := c.f.blocks[b].insts[j];
    var env := c.EnvBefore(b, j);
    StepsSnoc(c, c.Start(b), c.f.blocks[b].insts, j);
    OpHere(c, n.subs, b, j);
    OpKinds(n.subs, inst.op);
    OpKinds(env.sub, inst.op);
    var op := SubOp(n.subs, inst.op);
    if !n.used {
      SubAvoids(c.undef, n, inst.op.Operands());
      assert AllAvoid(c.undef, SubAll(n.subs, inst.op.Operands()));
      assert op.value == SubAll(n.subs, inst.op.Operands())[0];
    }
    PushAvoids(c.undef, n, op.slot, op.value);
    PushOne(before.stacks, n.stacks, pushed, op.slot, op.value);
    KeptSnoc(c, b, j);
    assert kept + [] == kept;
    StoreTops(c, n, env, inst, op.value);
    hide TopsAre, SubsInclude, SubsGrow, Pushed, UndefTracked, EraseInsts, RenamedInsts, Gone, Promo.Sound, InstsAvoid,
         Promo.Steps, SubOp;
  }

  lemma StoreTops(c: Promo, n: Names, env: Env, inst: Inst, o: Operand)
    requires c.Stores(inst) && TopsAre(n.stacks, env) && o == SubOperand(env.sub, inst.op.value)
    ensures TopsAre(n.Push(inst.op.slot, o).stacks, c.Step(env, inst))
  {
  }

  /** Anything else is kept, reading through the substitutions. */
  lemma KeepMidway(c: Promo, b: BlockId, j: nat, before: Names, n: Names, kept: seq<Inst>, pushed: seq<SlotId>)
    requires c.Sound() && b < c.f.Size() && j < |c.f.blocks[b].insts|
    requires !c.Loads(c.f.blocks[b].insts[j]) && !c.Stores(c.f.blocks[b].insts[j])
    requires Midway(c, b, j, before, n, kept, pushed)
    requires AllAvoid(c.undef, c.f.blocks[b].insts[j].op.Operands())
    ensures var inst := c.f.blocks[b].insts[j];
            Midway(c, b, j + 1, before, n, kept + [inst.(op := SubOp(n.subs, inst.op))], pushed)
  {
    var inst := c.f.blocks[b].insts[j];
    StepsSnoc(c, c.Start(b), c.f.blocks[b].insts, j);
    OpHere(c, n.subs, b, j);
    if !n.used {
      SubAvoids(c.undef, n, inst.op.Operands());
      OnReads(inst.op, SubAll(n.subs, inst.op.Operands()));
    }
    KeptSnoc(c, b, j);
    var env := c.EnvBefore(b, j);
    assert c.Step(env, inst).cur == env.cur && c.Step(env, inst).sub == env.sub;
    QuietTops(c, n.stacks, env, c.Step(env, inst));
    hide TopsAre, SubsInclude, SubsGrow, Pushed, UndefTracked, EraseInsts, RenamedInsts, Gone, Promo.Sound,
         Promo.Steps, SubAll;
  }

  lemma QuietTops(c: Promo, stacks: Stacks, env: Env, env': Env)
    requires TopsAre(stacks, env) && env'.cur == env.cur
    ensures TopsAre(stacks, env')
  {
  }

  /** The walk has made names of the first `k` phis. */
  ghost predicate PhisNamed(c: Promo, env: Env, phis: seq<Phi>, before: Stacks, n: Names, pushed: seq<SlotId>) {
    && TopsAre(n.stacks, c.AfterPhis(env, phis))
    && Pushed(before, n.stacks, pushed)
    && UndefTracked(c.undef, n)
  }

  lemma NamePhi(c: Promo, env: Env, phis: seq<Phi>, k: nat, before: Stacks, n: Names, pushed: seq<SlotId>)
    requires k < |phis| && PhisNamed(c, env, phis[..k], before, n, pushed) && phis[k].dest != c.undef
    ensures PhisNamed(c, env, phis[..k + 1], before, n.Push(phis[k].slot, Value(phis[k].dest)), pushed + [phis[k].slot])
  {
    assert phis[..k + 1][..k] == phis[..k];
    PushOne(before, n.stacks, pushed, phis[k].slot, Value(phis[k].dest));
    PushAvoids(c.undef, n, phis[k].slot, Value(phis[k].dest));
    PhiTops(c, n, c.AfterPhis(env, phis[..k]), phis[k]);
    hide TopsAre, Pushed, UndefTracked;
  }

  lemma PhiTops(c: Promo, n: Names, env: Env, phi: Phi)
    requires TopsAre(n.stacks, env)
    ensures TopsAre(n.Push(phi.slot, Value(phi.dest)).stacks,
                    env.(cur := env.cur[phi.slot := Value(phi.dest)], seen := env.seen + {phi.dest}))
  {
  }

  lemma LoadsDefine(c: Promo, b: BlockId, j: nat)
    requires c.Sound() && b < c.f.Size() && j < |c.f.blocks[b].insts|
    ensures c.f.blocks[b].insts[j].op.SlotLoad? ==> c.f.blocks[b].insts[j].dest.Some?
  {
    assert c.f.blocks[b].insts[j].dest.Some? <==> c.f.blocks[b].insts[j].op.DefinesValue();
  }

  lemma PhisNamedIs(c: Promo, env: Env, phis: seq<Phi>, before: Stacks, n: Names, pushed: seq<SlotId>)
    requires PhisNamed(c, env, phis, before, n, pushed)
    ensures TopsAre(n.stacks, c.AfterPhis(env, phis)) && Pushed(before, n.stacks, pushed) && UndefTracked(c.undef, n)
  {
  }

  lemma SameSuccessors(sub: Substitution, term: Terminator)
    ensures SubTerm(sub, term).Successors() == term.Successors()
  {
  }
}
