/** Promotion preserves meaning: in every run, the operand renaming chose for a slot holds what the
    slot's memory holds, so reading it instead of loading changes nothing. */
module Promotion {
  import opened Graphs
  import opened IdomTree
  import opened DomFixpoint
  import opened Frontiers
  import opened Ssa
  import opened Rewrites
  import opened SsaValid
  import opened RenameSpec

  // ---- what the names stand for ----

  /** `o` was defined on the way here, or is the undefined value; it is not a deleted load. */
  ghost predicate OperandSeen(c: Promo, env: Env, o: Operand) {
    o.Value? ==> (o.id in env.seen || o.id == c.undef) && !IsLoad(c, o.id)
  }

  ghost predicate EnvOk(c: Promo, env: Env) {
    && env.sub.Keys <= env.seen
    && (forall s: SlotId :: s in env.cur ==> OperandSeen(c, env, env.cur[s]))
    && (forall v: ValueId :: v in env.sub ==> OperandSeen(c, env, env.sub[v]))
  }

  /** The undefined value is defined in the entry, right after the incoming arguments are read. */
  ghost predicate UndefAt(c: Promo, prologue: nat) {
    && c.f.entry < c.f.Size()
    && prologue < |c.f.blocks[c.f.entry].insts|
    && c.f.blocks[c.f.entry].insts[prologue] == Inst(Some(c.undef), Undef)
    && (forall i: nat :: i < prologue ==> c.f.blocks[c.f.entry].insts[i].op.GetParam?)
    && c.f.blocks[c.f.entry].phis == []
  }

  ghost predicate PhiFor(c: Promo, b: BlockId, s: SlotId) {
    b < c.f.Size() && exists k: nat :: k < |c.f.blocks[b].phis| && c.f.blocks[b].phis[k].slot == s
  }

  ghost predicate StoresIn(c: Promo, b: BlockId, s: SlotId) {
    b < c.f.Size() && s in c.slots &&
    exists i: nat :: i < |c.f.blocks[b].insts| && c.f.blocks[b].insts[i].op.SlotStore? &&
                     c.f.blocks[b].insts[i].op.slot == s
  }

  /** Block `b` stores to `s` before its instruction `j`. */
  ghost predicate StoredBefore(c: Promo, b: BlockId, j: nat, s: SlotId)
    requires b < c.f.Size() && j <= |c.f.blocks[b].insts|
  {
    exists i: nat :: i < j && c.Stores(c.f.blocks[b].insts[i]) && c.f.blocks[b].insts[i].op.slot == s
  }

  /** The phis are where they have to be: wherever a definition or another phi of a slot read across
      an edge meets paths that avoid it. */
  ghost predicate Placed(c: Promo, nonLocal: set<SlotId>) {
    && (forall s: SlotId, a: nat, x: nat ::
          s in nonLocal && (StoresIn(c, a, s) || PhiFor(c, a, s)) && c.f.Adjacency().InFrontier(a, x) ==>
            PhiFor(c, x, s))
    && (forall b: nat, k: nat, l: nat :: b < c.f.Size() && k < l < |c.f.blocks[b].phis| ==>
          c.f.blocks[b].phis[k].slot != c.f.blocks[b].phis[l].slot)
  }

  /** A promoted slot no block stores to before loading it is in `nonLocal`. */
  ghost predicate CoversReads(c: Promo, nonLocal: set<SlotId>) {
    forall b: nat, j: nat :: b < c.f.Size() && j < |c.f.blocks[b].insts| && c.Loads(c.f.blocks[b].insts[j]) ==>
      c.f.blocks[b].insts[j].op.slot in nonLocal || StoredBefore(c, b, j, c.f.blocks[b].insts[j].op.slot)
  }

  ghost predicate Ready(c: Promo, nonLocal: set<SlotId>, prologue: nat) {
    && c.Sound() && UndefAt(c, prologue) && Placed(c, nonLocal) && CoversReads(c, nonLocal)
    && nonLocal <= c.slots
  }

  lemma UndefIsNoLoad(c: Promo, prologue: nat)
    requires SingleDefs(c.f) && UndefAt(c, prologue)
    ensures !IsLoad(c, c.undef)
  {
    if IsLoad(c, c.undef) {
      var p: Point :| LoadAt(c, p, c.undef);
      assert DefinedAt(c.f, c.undef, Point(c.f.entry, prologue + 1));
      assert DefinedAt(c.f, c.undef, p);
    }
  }

  lemma CurIsSeen(c: Promo, env: Env, s: SlotId)
    requires EnvOk(c, env) && !IsLoad(c, c.undef)
    ensures OperandSeen(c, env, c.Cur(env, s))
  {
  }

  /** What an operand in scope reads after substitution is seen and is no deleted load. */
  lemma SubstitutedSeen(c: Promo, b: BlockId, j: nat, o: Operand)
    requires c.Sound() && b < c.f.Size() && j <= |c.f.blocks[b].insts|
    requires OperandOk(c.f, o, Point(b, j + 1)) && EnvOk(c, c.EnvBefore(b, j))
    ensures OperandSeen(c, c.EnvBefore(b, j), SubOperand(c.EnvBefore(b, j).sub, o))
  {
    if o.Value? {
      ScopeIsAvailability(c.f, o.id, Point(b, j + 1));
      ScopeIsSeen(c, o.id, b, j);
    }
  }

  lemma StepKeepsOk(c: Promo, b: BlockId, j: nat)
    requires c.Sound() && b < c.f.Size() && j < |c.f.blocks[b].insts|
    requires EnvOk(c, c.EnvBefore(b, j)) && !IsLoad(c, c.undef)
    ensures EnvOk(c, c.Step(c.EnvBefore(b, j), c.f.blocks[b].insts[j]))
  {
    var env := c.EnvBefore(b, j);
    var inst := c.f.blocks[b].insts[j];
    var env' := c.Step(env, inst);
    if c.Stores(inst) {
      assert AllOk(c.f, inst.op.Operands(), Point(b, j + 1));
      assert OperandOk(c.f, inst.op.Operands()[0], Point(b, j + 1));
      SubstitutedSeen(c, b, j, inst.op.value);
    } else if c.Loads(inst) {
      CurIsSeen(c, env, inst.op.slot);
    }
    hide Promo.Sound, IsLoad;
  }

  lemma {:induction false} BodyKeepsOk(c: Promo, b: BlockId, j: nat)
    requires c.Sound() && b < c.f.Size() && j <= |c.f.blocks[b].insts|
    requires EnvOk(c, c.Start(b)) && !IsLoad(c, c.undef)
    ensures EnvOk(c, c.EnvBefore(b, j))
    decreases j
  {
    if j == 0 {
      assert c.f.blocks[b].insts[..0] == [];
    } else {
      BodyKeepsOk(c, b, j - 1);
      StepKeepsOk(c, b, j - 1);
      StepsSnoc(c, c.Start(b), c.f.blocks[b].insts, j - 1);
    }
  }

  lemma {:induction false} PhisKeepOk(c: Promo, env: Env, phis: seq<Phi>)
    requires EnvOk(c, env)
    requires forall k: nat :: k < |phis| ==> !IsLoad(c, phis[k].dest)
    ensures EnvOk(c, c.AfterPhis(env, phis))
    decreases |phis|
  {
    if phis != [] {
      var n := |phis| - 1;
      PhisKeepOk(c, env, phis[..n]);
    }
  }

  lemma {:induction false} EnvsOk(c: Promo, b: BlockId)
    requires c.Sound() && b < c.f.Size() && !IsLoad(c, c.undef)
    ensures EnvOk(c, c.In(b)) && EnvOk(c, c.Start(b)) && EnvOk(c, c.Out(b))
    decreases c.tree.Num(b)
  {
    if b != c.tree.entry && c.tree.Rises(b) {
      assert c.tree.Has(c.tree.Up(b));
      EnvsOk(c, c.tree.Up(b));
    }
    forall k: nat | k < |c.f.blocks[b].phis|
      ensures !IsLoad(c, c.f.blocks[b].phis[k].dest)
    {
      assert Writes(c.f.blocks[b].phis, c.f.blocks[b].phis[k].dest);
      SiteIs(c.f, c.f.blocks[b].phis[k].dest, Point(b, 0));
      PhiIsNoLoad(c, c.f.blocks[b].phis[k].dest);
    }
    PhisKeepOk(c, c.In(b), c.f.blocks[b].phis);
    var insts := c.f.blocks[b].insts;
    BodyKeepsOk(c, b, |insts|);
    assert insts[..|insts|] == insts;
  }

  // ---- the names a slot has along the dominator tree ----

  lemma {:induction false} StepsSkipSlot(c: Promo, env: Env, insts: seq<Inst>, s: SlotId)
    requires forall i: nat :: i < |insts| ==> !(c.Stores(insts[i]) && insts[i].op.slot == s)
    ensures c.Cur(c.Steps(env, insts), s) == c.Cur(env, s)
    decreases |insts|
  {
    if insts != [] {
      StepsSkipSlot(c, env, insts[..|insts| - 1], s);
    }
  }

  lemma {:induction false} PhisSkipSlot(c: Promo, env: Env, phis: seq<Phi>, s: SlotId)
    requires forall k: nat :: k < |phis| ==> phis[k].slot != s
    ensures c.Cur(c.AfterPhis(env, phis), s) == c.Cur(env, s)
    decreases |phis|
  {
    if phis != [] {
      PhisSkipSlot(c, env, phis[..|phis| - 1], s);
    }
  }

  /** A block with no store to a slot and no phi for it hands its name on. */
  lemma QuietBlock(c: Promo, b: BlockId, s: SlotId)
    requires b < c.f.Size() && s in c.slots && !StoresIn(c, b, s) && !PhiFor(c, b, s)
    ensures c.Cur(c.Out(b), s) == c.Cur(c.In(b), s)
    ensures c.Cur(c.Start(b), s) == c.Cur(c.In(b), s)
  {
    PhisSkipSlot(c, c.In(b), c.f.blocks[b].phis, s);
    StepsSkipSlot(c, c.Start(b), c.f.blocks[b].insts, s);
  }

  /** Everything on the climb from a predecessor of `x` has `x` in its frontier, so if `x` needed no
      phi, nothing there defines the slot and the name is still the one `x`'s dominator had. */
  lemma {:induction false} NameClimbs(c: Promo, nonLocal: set<SlotId>, prologue: nat, x: BlockId, b: BlockId,
                                      s: SlotId, a: BlockId)
    requires Ready(c, nonLocal, prologue) && s in nonLocal && !PhiFor(c, x, s)
    requires x < c.f.Size() && x != c.f.entry && b in c.f.Adjacency().PredsOf(x)
    requires c.tree.Has(a) && c.tree.Anc(a, b) && c.tree.Anc(c.tree.Up(x), a)
    ensures c.Cur(c.Out(a), s) == c.Cur(c.Out(c.tree.Up(x)), s)
    decreases c.tree.Num(a)
  {
    var top := c.tree.Up(x);
    if a != top {
      assert c.tree.Rises(a);
      OnTheClimb(c, x, b, a);
      QuietBlock(c, a, s);
      AncTransitive(c.tree, c.tree.Up(a), a, b);
      NameClimbs(c, nonLocal, prologue, x, b, s, c.tree.Up(a));
      assert c.In(a) == c.Out(c.tree.Up(a));
    }
  }

  lemma OnTheClimb(c: Promo, x: BlockId, b: BlockId, a: BlockId)
    requires c.Sound() && x < c.f.Size() && x != c.f.entry && b in c.f.Adjacency().PredsOf(x)
    requires c.tree.Has(a) && c.tree.Anc(a, b) && c.tree.Anc(c.tree.Up(x), a) && a != c.tree.Up(x)
    ensures a < c.f.Size() && c.f.Adjacency().InFrontier(a, x)
  {
    var g := c.f.Adjacency();
    ImmediateAbovePreds(g, c.tree, x, b);
    AboveImmediate(g, c.tree, x, a);
    if c.tree.Anc(a, c.tree.Up(x)) {
      AncIsAntisymmetric(c.tree, a, c.tree.Up(x));
    }
    assert c.tree.Anc(a, b) <==> g.Dom(a, b);
  }

  /** Substitutes are never replaced going down the tree. */
  lemma {:induction false} StepsKeepSub(c: Promo, b: BlockId, j: nat, v: ValueId)
    requires c.Sound() && b < c.f.Size() && j <= |c.f.blocks[b].insts|
    requires EnvOk(c, c.Start(b)) && v in c.Start(b).sub
    ensures v in c.EnvBefore(b, j).sub && c.EnvBefore(b, j).sub[v] == c.Start(b).sub[v]
    decreases j
  {
    var insts := c.f.blocks[b].insts;
    if j == 0 {
      assert insts[..0] == [];
    } else {
      StepsKeepSub(c, b, j - 1, v);
      StepsSnoc(c, c.Start(b), insts, j - 1);
      FreshHere(c, b, j - 1);
      StepsGrow(c, c.Start(b), insts, j - 1);
    }
  }

  lemma {:induction false} SubPersists(c: Promo, a: BlockId, b: BlockId, v: ValueId)
    requires c.Sound() && !IsLoad(c, c.undef) && b < c.f.Size() && c.tree.Anc(a, b) && v in c.Out(a).sub
    ensures v in c.Out(b).sub && c.Out(b).sub[v] == c.Out(a).sub[v]
    decreases c.tree.Num(b)
  {
    if a != b {
      assert c.tree.Rises(b);
      assert c.tree.Has(c.tree.Up(b));
      SubPersists(c, a, c.tree.Up(b), v);
      EnvsOk(c, b);
      InsideGrows(c, b);
      var insts := c.f.blocks[b].insts;
      StepsKeepSub(c, b, |insts|, v);
      assert insts[..|insts|] == insts;
    }
  }

  // ---- the function with its phi arguments filled in ----

  /** A phi of `b` with the argument of each predecessor the name its slot has at that block's end. */
  ghost function FilledPhi(c: Promo, b: BlockId, phi: Phi): Phi
    requires b < c.f.Size()
  {
    phi.(args := seq(|c.f.blocks[b].preds|, i requires 0 <= i < |c.f.blocks[b].preds| =>
                     c.Cur(c.Out(c.f.blocks[b].preds[i]), phi.slot)))
  }

  ghost function FilledBlock(c: Promo, b: BlockId): Block
    requires b < c.f.Size()
  {
    var block := c.f.blocks[b];
    block.(phis := seq(|block.phis|, k requires 0 <= k < |block.phis| => FilledPhi(c, b, block.phis[k])))
  }

  ghost function Filled(c: Promo): Func {
    c.f.(blocks := seq(c.f.Size(), b requires 0 <= b < c.f.Size() => FilledBlock(c, b)))
  }

  // ---- in every run, the names hold what memory holds ----

  ghost predicate SubsHold(env: Env, st: State) {
    forall v: ValueId :: v in env.sub ==> st.Read(Value(v)) == st.Read(env.sub[v])
  }

  ghost predicate SlotHolds(c: Promo, m: Machine, env: Env, st: State, s: SlotId) {
    st.Slot(m, s) == st.Read(c.Cur(env, s))
  }

  /** Slots whose name is known to be right before instruction `j` of `b`. */
  ghost predicate Tracked(c: Promo, nonLocal: set<SlotId>, b: BlockId, j: nat, s: SlotId)
    requires b < c.f.Size() && j <= |c.f.blocks[b].insts|
  {
    s in c.slots && (s in nonLocal || StoredBefore(c, b, j, s))
  }

  ghost predicate Holds(c: Promo, m: Machine, nonLocal: set<SlotId>, b: BlockId, j: nat, st: State)
    requires b < c.f.Size() && j <= |c.f.blocks[b].insts|
  {
    && st.Read(Value(c.undef)) == m.undef
    && SubsHold(c.EnvBefore(b, j), st)
    && forall s: SlotId :: Tracked(c, nonLocal, b, j, s) ==> SlotHolds(c, m, c.EnvBefore(b, j), st, s)
  }

  /** What is seen, or undefined, keeps its value across an instruction not defining it. */
  lemma ExecKeepsSeen(c: Promo, m: Machine, private: set<SlotId>, b: BlockId, j: nat, st: State, o: Operand)
    requires c.Sound() && b < c.f.Size() && j < |c.f.blocks[b].insts|
    requires c.f.blocks[b].insts[j].dest != Some(c.undef)
    requires o.Value? ==> o.id in c.EnvBefore(b, j).seen || o.id == c.undef
    ensures Exec(m, private, c.f.blocks[b].insts[j], st).Read(o) == st.Read(o)
  {
    FreshHere(c, b, j);
  }

  lemma StepKeepsSubs(c: Promo, m: Machine, private: set<SlotId>, nonLocal: set<SlotId>, b: BlockId, j: nat, st: State)
    requires c.Sound() && b < c.f.Size() && j < |c.f.blocks[b].insts|
    requires c.f.blocks[b].insts[j].dest != Some(c.undef)
    requires EnvOk(c, c.EnvBefore(b, j)) && Holds(c, m, nonLocal, b, j, st) && !IsLoad(c, c.undef)
    requires CoversReads(c, nonLocal) && c.slots <= private
    ensures SubsHold(c.Step(c.EnvBefore(b, j), c.f.blocks[b].insts[j]), Exec(m, private, c.f.blocks[b].insts[j], st))
  {
    var env := c.EnvBefore(b, j);
    var inst := c.f.blocks[b].insts[j];
    var env' := c.Step(env, inst);
    var st' := Exec(m, private, inst, st);
    forall v: ValueId | v in env'.sub
      ensures st'.Read(Value(v)) == st'.Read(env'.sub[v])
    {
      if c.Loads(inst) && inst.dest.value == v {
        var s := inst.op.slot;
        CurIsSeen(c, env, s);
        ExecKeepsSeen(c, m, private, b, j, st, c.Cur(env, s));
        assert Tracked(c, nonLocal, b, j, s);
        assert SlotHolds(c, m, env, st, s);
      } else {
        assert v in env.sub && env'.sub[v] == env.sub[v];
        assert OperandSeen(c, env, env.sub[v]);
        ExecKeepsSeen(c, m, private, b, j, st, Value(v));
        ExecKeepsSeen(c, m, private, b, j, st, env.sub[v]);
      }
    }
  }

  lemma StepKeepsSlot(c: Promo, m: Machine, private: set<SlotId>, nonLocal: set<SlotId>, b: BlockId, j: nat, st: State,
                      s: SlotId)
    requires c.Sound() && b < c.f.Size() && j < |c.f.blocks[b].insts|
    requires c.f.blocks[b].insts[j].dest != Some(c.undef)
    requires EnvOk(c, c.EnvBefore(b, j)) && Holds(c, m, nonLocal, b, j, st) && !IsLoad(c, c.undef)
    requires c.slots <= private && Tracked(c, nonLocal, b, j + 1, s)
    ensures SlotHolds(c, m, c.Step(c.EnvBefore(b, j), c.f.blocks[b].insts[j]),
                      Exec(m, private, c.f.blocks[b].insts[j], st), s)
  {
    var env := c.EnvBefore(b, j);
    var inst := c.f.blocks[b].insts[j];
    assert inst.dest.Some? <==> inst.op.DefinesValue();
    if c.Stores(inst) && inst.op.slot == s {
      StoredNow(c, m, private, b, j, st);
    } else {
      assert Tracked(c, nonLocal, b, j, s) by {
        if s !in nonLocal {
          var i: nat :| i < j + 1 && c.Stores(c.f.blocks[b].insts[i]) && c.f.blocks[b].insts[i].op.slot == s;
          assert i < j;
        }
      }
      assert SlotHolds(c, m, env, st, s);
      CurIsSeen(c, env, s);
      ExecKeepsSeen(c, m, private, b, j, st, c.Cur(env, s));
    }
  }

  /** After a store the slot's name is what was stored, read through the substitutions so far. */
  lemma StoredNow(c: Promo, m: Machine, private: set<SlotId>, b: BlockId, j: nat, st: State)
    requires SingleDefs(c.f) && b < c.f.Size() && j < |c.f.blocks[b].insts|
    requires c.Stores(c.f.blocks[b].insts[j]) && c.slots <= private
    requires SubsHold(c.EnvBefore(b, j), st)
    ensures var inst := c.f.blocks[b].insts[j];
            SlotHolds(c, m, c.Step(c.EnvBefore(b, j), inst), Exec(m, private, inst, st), inst.op.slot)
  {
    var inst := c.f.blocks[b].insts[j];
    assert inst.dest.Some? <==> inst.op.DefinesValue();
    var st' := Exec(m, private, inst, st);
    assert inst.op.Operands() == [inst.op.value];
    assert st.ReadAll(inst.op.Operands())[0] == st.Read(inst.op.value);
    assert st'.vals == st.vals;
  }

  lemma StepKeepsHolds(c: Promo, m: Machine, private: set<SlotId>, nonLocal: set<SlotId>, b: BlockId, j: nat, st: State)
    requires c.Sound() && b < c.f.Size() && j < |c.f.blocks[b].insts|
    requires c.f.blocks[b].insts[j].dest != Some(c.undef)
    requires EnvOk(c, c.EnvBefore(b, j)) && Holds(c, m, nonLocal, b, j, st) && !IsLoad(c, c.undef)
    requires CoversReads(c, nonLocal) && c.slots <= private
    ensures Holds(c, m, nonLocal, b, j + 1, Exec(m, private, c.f.blocks[b].insts[j], st))
  {
    var inst := c.f.blocks[b].insts[j];
    var st' := Exec(m, private, inst, st);
    StepsSnoc(c, c.Start(b), c.f.blocks[b].insts, j);
    StepKeepsSubs(c, m, private, nonLocal, b, j, st);
    ExecKeepsSeen(c, m, private, b, j, st, Value(c.undef));
    var next := j + 1;
    forall s: SlotId | Tracked(c, nonLocal, b, next, s)
      ensures SlotHolds(c, m, c.EnvBefore(b, next), st', s)
    {
      StepKeepsSlot(c, m, private, nonLocal, b, j, st, s);
    }
    hide Promo.Sound, EnvOk, CoversReads, SubsHold, SlotHolds, Exec, Tracked;
  }

  /** Where a block's instructions start to matter: in the entry, after the undefined value. */
  ghost function FirstRow(c: Promo, prologue: nat, b: BlockId): nat {
    if b == c.f.entry then prologue + 1 else 0
  }

  lemma {:induction false} BodyKeepsHolds(c: Promo, m: Machine, private: set<SlotId>, nonLocal: set<SlotId>,
                                          prologue: nat,
                                          b: BlockId, j: nat, st: State)
    requires Ready(c, nonLocal, prologue) && c.slots <= private && b < c.f.Size()
    requires FirstRow(c, prologue, b) <= j <= |c.f.blocks[b].insts|
    requires var i := FirstRow(c, prologue, b); Holds(c, m, nonLocal, b, i,
                                                      ExecAll(m, private, c.f.blocks[b].insts[..i], st))
    ensures Holds(c, m, nonLocal, b, j, ExecAll(m, private, c.f.blocks[b].insts[..j], st))
    decreases j
  {
    hide *;
    if j > FirstRow(c, prologue, b) {
      BodyKeepsHolds(c, m, private, nonLocal, prologue, b, j - 1, st);
      InstKeepsHolds(c, m, private, nonLocal, prologue, b, j - 1, st);
    }
  }

  lemma InstKeepsHolds(c: Promo, m: Machine, private: set<SlotId>, nonLocal: set<SlotId>, prologue: nat,
                       b: BlockId, j: nat, st: State)
    requires Ready(c, nonLocal, prologue) && c.slots <= private && b < c.f.Size()
    requires FirstRow(c, prologue, b) <= j < |c.f.blocks[b].insts|
    requires Holds(c, m, nonLocal, b, j, ExecAll(m, private, c.f.blocks[b].insts[..j], st))
    ensures Holds(c, m, nonLocal, b, j + 1, ExecAll(m, private, c.f.blocks[b].insts[..j + 1], st))
  {
    UndefIsNoLoad(c, prologue);
    EnvsOk(c, b);
    BodyKeepsOk(c, b, j);
    ExecAllStep(m, private, c.f.blocks[b].insts, j, st);
    OnlyUndefIsUndef(c, prologue, b, j);
    hide Holds, EnvOk, UndefAt, ExecAll, Exec, Promo.Sound, CoversReads, IsLoad;
    StepKeepsHolds(c, m, private, nonLocal, b, j, ExecAll(m, private, c.f.blocks[b].insts[..j], st));
  }

  lemma OnlyUndefIsUndef(c: Promo, prologue: nat, b: BlockId, j: nat)
    requires SingleDefs(c.f) && UndefAt(c, prologue) && b < c.f.Size() && j < |c.f.blocks[b].insts|
    requires FirstRow(c, prologue, b) <= j
    ensures c.f.blocks[b].insts[j].dest != Some(c.undef)
  {
    if c.f.blocks[b].insts[j].dest == Some(c.undef) {
      assert DefinedAt(c.f, c.undef, Point(c.f.entry, prologue + 1));
      SiteIs(c.f, c.undef, Point(b, j + 1));
    }
  }

  /** The entry's opening: arguments are read and the undefined value made; no memory was written and
      no slot has a name. */
  lemma EntryHolds(c: Promo, m: Machine, private: set<SlotId>, nonLocal: set<SlotId>, prologue: nat)
    requires Ready(c, nonLocal, prologue)
    ensures Holds(c, m, nonLocal, c.f.entry, prologue + 1,
                  ExecAll(m, private, c.f.blocks[c.f.entry].insts[..prologue + 1], State(map[], map[], [])))
  {
    var b := c.f.entry;
    var insts := c.f.blocks[b].insts;
    var st0 := State(map[], map[], []);
    OpeningNamesNothing(c, nonLocal, prologue, prologue);
    OpeningStoresNothing(c, m, private, prologue, prologue, st0);
    StepsSnoc(c, c.Start(b), insts, prologue);
    ExecAllStep(m, private, insts, prologue, st0);
    assert insts[prologue] == Inst(Some(c.undef), Undef);
  }

  lemma {:induction false} OpeningNamesNothing(c: Promo, nonLocal: set<SlotId>, prologue: nat, j: nat)
    requires Ready(c, nonLocal, prologue) && j <= prologue
    ensures c.EnvBefore(c.f.entry, j).cur == map[] && c.EnvBefore(c.f.entry, j).sub == map[]
    decreases j
  {
    var insts := c.f.blocks[c.f.entry].insts;
    if j == 0 {
      assert insts[..0] == [];
      assert c.tree.entry == c.f.entry;
      assert c.Start(c.f.entry) == c.AfterPhis(NoEnv, []);
    } else {
      OpeningNamesNothing(c, nonLocal, prologue, j - 1);
      StepsSnoc(c, c.Start(c.f.entry), insts, j - 1);
      assert insts[j - 1].op.GetParam?;
    }
  }

  lemma {:induction false} OpeningStoresNothing(c: Promo, m: Machine, private: set<SlotId>, prologue: nat, j: nat,
                                                st: State)
    requires UndefAt(c, prologue) && j <= prologue
    ensures ExecAll(m, private, c.f.blocks[c.f.entry].insts[..j], st).mem == st.mem
    decreases j
  {
    var insts := c.f.blocks[c.f.entry].insts;
    if j > 0 {
      OpeningStoresNothing(c, m, private, prologue, j - 1, st);
      ExecAllStep(m, private, insts, j - 1, st);
      assert insts[j - 1].op.GetParam?;
    }
  }

  // ---- across an edge ----

  lemma {:induction false} PhiNames(c: Promo, env: Env, phis: seq<Phi>, k: nat)
    requires k < |phis| && forall i: nat, j: nat :: i < j < |phis| ==> phis[i].slot != phis[j].slot
    ensures c.Cur(c.AfterPhis(env, phis), phis[k].slot) == Value(phis[k].dest)
    decreases |phis|
  {
    var n := |phis| - 1;
    if k < n {
      PhiNames(c, env, phis[..n], k);
    }
  }

  lemma FilledCrosses(c: Promo, x: BlockId, b: BlockId, st: State, v: ValueId)
    requires SingleDefs(c.f) && x < c.f.Size() && !Writes(c.f.blocks[x].phis, v)
    ensures Cross(FilledBlock(c, x), b, st).Read(Value(v)) == st.Read(Value(v))
  {
    var phis := FilledBlock(c, x).phis;
    forall k: nat | k < |phis| ensures phis[k].dest != v {
      assert c.f.blocks[x].phis[k].dest != v;
    }
    AssignSpares(phis, c.f.blocks[x].preds, b, st, st.vals, v);
  }

  lemma EdgeKeepsSubs(c: Promo, nonLocal: set<SlotId>, prologue: nat, b: BlockId, x: BlockId, st: State)
    requires Ready(c, nonLocal, prologue) && b < c.f.Size() && x < c.f.Size() && c.f.Adjacency().Edge(b, x)
    requires SubsHold(c.Out(b), st)
    ensures SubsHold(c.Start(x), Cross(FilledBlock(c, x), b, st))
  {
    var g := c.f.Adjacency();
    assert b in g.preds[x];
    UndefIsNoLoad(c, prologue);
    ImmediateAbovePreds(g, c.tree, x, b);
    EnvsOk(c, x);
    PhisGrow(c, c.In(x), c.f.blocks[x].phis);
    forall v: ValueId | v in c.Start(x).sub
      ensures Cross(FilledBlock(c, x), b, st).Read(Value(v)) == Cross(FilledBlock(c, x), b, st).Read(c.Start(x).sub[v])
    {
      assert x != c.f.entry;
      assert c.tree.Rises(x);
      var top := c.tree.Up(x);
      SubPersists(c, top, b, v);
      InValueCrosses(c, prologue, x, b, st, Value(v));
      InValueCrosses(c, prologue, x, b, st, c.In(x).sub[v]);
    }
  }

  /** What was seen on entering a block keeps its value across the block's phis. */
  lemma InValueCrosses(c: Promo, prologue: nat, x: BlockId, b: BlockId, st: State, o: Operand)
    requires c.Sound() && UndefAt(c, prologue) && x < c.f.Size()
    requires o.Value? ==> o.id in c.In(x).seen || o.id == c.undef
    ensures Cross(FilledBlock(c, x), b, st).Read(o) == st.Read(o)
  {
    if o.Value? {
      if Writes(c.f.blocks[x].phis, o.id) {
        if o.id in c.In(x).seen {
          FreshPhi(c, x, o.id);
        } else {
          assert DefinedAt(c.f, c.undef, Point(c.f.entry, prologue + 1));
          SiteIs(c.f, c.undef, Point(x, 0));
        }
      }
      FilledCrosses(c, x, b, st, o.id);
    }
  }

  lemma EdgeKeepsSlot(c: Promo, m: Machine, nonLocal: set<SlotId>, prologue: nat, b: BlockId, x: BlockId, st: State,
                      s: SlotId)
    requires Ready(c, nonLocal, prologue) && b < c.f.Size() && x < c.f.Size() && c.f.Adjacency().Edge(b, x)
    requires s in nonLocal && SlotHolds(c, m, c.Out(b), st, s)
    ensures SlotHolds(c, m, c.Start(x), Cross(FilledBlock(c, x), b, st), s)
  {
    var g := c.f.Adjacency();
    assert b in g.preds[x];
    var block := c.f.blocks[x];
    if PhiFor(c, x, s) {
      var k: nat :| k < |block.phis| && block.phis[k].slot == s;
      PhiNames(c, c.In(x), block.phis, k);
      FilledArrives(c, x, b, st, k);
    } else {
      UndefIsNoLoad(c, prologue);
      EnvsOk(c, x);
      ImmediateAbovePreds(g, c.tree, x, b);
      NameClimbs(c, nonLocal, prologue, x, b, s, b);
      assert c.tree.Rises(x);
      PhisSkipSlot(c, c.In(x), block.phis, s);
      CurIsSeen(c, c.In(x), s);
      InValueCrosses(c, prologue, x, b, st, c.Cur(c.In(x), s));
    }
  }

  /** A filled phi receives the name its slot has at the end of the predecessor taken. */
  lemma FilledArrives(c: Promo, x: BlockId, b: BlockId, st: State, k: nat)
    requires SingleDefs(c.f) && x < c.f.Size() && b in c.f.blocks[x].preds && k < |c.f.blocks[x].phis|
    ensures Cross(FilledBlock(c, x), b, st).Read(Value(c.f.blocks[x].phis[k].dest)) ==
            st.Read(c.Cur(c.Out(b), c.f.blocks[x].phis[k].slot))
  {
    var block := c.f.blocks[x];
    var phis := FilledBlock(c, x).phis;
    assert DistinctDests(block.phis);
    forall i: nat, j: nat | i < j < |phis| ensures phis[i].dest != phis[j].dest {
      assert block.phis[i].dest != block.phis[j].dest;
    }
    AssignWrites(phis, block.preds, b, st, st.vals, k);
    var i := Position(block.preds, b);
    assert Arrival(phis[k], block.preds, b) == c.Cur(c.Out(b), block.phis[k].slot);
  }

  lemma EdgeKeepsHolds(c: Promo, m: Machine, nonLocal: set<SlotId>, prologue: nat, b: BlockId, x: BlockId, st: State)
    requires Ready(c, nonLocal, prologue) && b < c.f.Size() && x < c.f.Size() && c.f.Adjacency().Edge(b, x)
    requires Holds(c, m, nonLocal, b, |c.f.blocks[b].insts|, st)
    ensures x != c.f.entry && Holds(c, m, nonLocal, x, 0, Cross(FilledBlock(c, x), b, st))
  {
    var insts := c.f.blocks[b].insts;
    assert insts[..|insts|] == insts;
    assert b in c.f.Adjacency().preds[x];
    assert c.f.blocks[x].insts[..0] == [];
    EdgeKeepsSubs(c, nonLocal, prologue, b, x, st);
    InValueCrosses(c, prologue, x, b, st, Value(c.undef));
    forall s: SlotId | Tracked(c, nonLocal, x, 0, s)
      ensures SlotHolds(c, m, c.Start(x), Cross(FilledBlock(c, x), b, st), s)
    {
      assert Tracked(c, nonLocal, b, |insts|, s);
      EdgeKeepsSlot(c, m, nonLocal, prologue, b, x, st, s);
    }
  }

  // ---- every run ----

  /** In every run of the filled function, at every block reached, the names hold what memory holds. */
  ghost predicate RunHolds(c: Promo, m: Machine, nonLocal: set<SlotId>, s: Status) {
    && !s.Stuck?
    && (s.At? ==> s.block < c.f.Size())
    && (s.At? && s.block == c.f.entry ==> s.st == State(map[], map[], []))
    && (s.At? && s.block != c.f.entry ==> Holds(c, m, nonLocal, s.block, 0, s.st))
  }

  /** The names hold at each instruction that can read them. */
  lemma HoldsInside(c: Promo, m: Machine, private: set<SlotId>, nonLocal: set<SlotId>, prologue: nat, s: Status, j: nat)
    requires Ready(c, nonLocal, prologue) && c.slots <= private && RunHolds(c, m, nonLocal, s) && s.At?
    requires FirstRow(c, prologue, s.block) <= j <= |c.f.blocks[s.block].insts|
    ensures Holds(c, m, nonLocal, s.block, j, ExecAll(m, private, c.f.blocks[s.block].insts[..j], s.st))
  {
    if s.block == c.f.entry {
      EntryHolds(c, m, private, nonLocal, prologue);
    } else {
      assert c.f.blocks[s.block].insts[..0] == [];
    }
    BodyKeepsHolds(c, m, private, nonLocal, prologue, s.block, j, s.st);
  }

  lemma FilledShape(c: Promo)
    requires c.f.Adjacency().Valid()
    ensures Filled(c).Adjacency() == c.f.Adjacency() && Filled(c).Size() == c.f.Size() && Filled(c).entry == c.f.entry
    ensures forall b: nat :: b < c.f.Size() ==>
              Filled(c).blocks[b] == FilledBlock(c, b)
              && Filled(c).blocks[b].insts == c.f.blocks[b].insts && Filled(c).blocks[b].term == c.f.blocks[b].term
              && Filled(c).blocks[b].preds == c.f.blocks[b].preds
  {
    assert Filled(c).Adjacency().preds == c.f.Adjacency().preds;
    assert Filled(c).Adjacency().succs == c.f.Adjacency().succs;
  }

  lemma ReadyShape(c: Promo, nonLocal: set<SlotId>, prologue: nat)
    requires Ready(c, nonLocal, prologue)
    ensures c.f.Adjacency().Valid()
    ensures forall b: BlockId :: b < c.f.Size() ==> FirstRow(c, prologue, b) <= |c.f.blocks[b].insts|
  {
  }

  lemma NextKeepsHolds(c: Promo, m: Machine, private: set<SlotId>, nonLocal: set<SlotId>, prologue: nat, s: Status)
    requires Ready(c, nonLocal, prologue) && c.slots <= private && RunHolds(c, m, nonLocal, s)
    ensures RunHolds(c, m, nonLocal, Next(m, private, Filled(c), s))
  {
    hide Holds, Ready, Filled, ExecAll, Target, Cross, FilledBlock;
    if s.At? {
      ReadyShape(c, nonLocal, prologue);
      FilledShape(c);
      var b := s.block;
      var insts := c.f.blocks[b].insts;
      HoldsInside(c, m, private, nonLocal, prologue, s, |insts|);
      assert insts[..|insts|] == insts;
      var last := ExecAll(m, private, insts, s.st);
      var term := c.f.blocks[b].term;
      if !term.Return? {
        TargetIsEdge(c.f, b, last);
        EdgeKeepsHolds(c, m, nonLocal, prologue, b, Target(term, last), last);
      }
    }
  }

  lemma {:induction false} RunsHold(c: Promo, m: Machine, private: set<SlotId>, nonLocal: set<SlotId>, prologue: nat,
                                    n: nat)
    requires Ready(c, nonLocal, prologue) && c.slots <= private
    ensures RunHolds(c, m, nonLocal, Run(m, private, Filled(c), n))
    decreases n
  {
    hide *;
    if n == 0 {
      HoldsAtStart(c, m, nonLocal, prologue);
      RunStart(m, private, Filled(c));
    } else {
      RunStep(m, private, Filled(c), n);
      RunsHold(c, m, private, nonLocal, prologue, n - 1);
      NextKeepsHolds(c, m, private, nonLocal, prologue, Run(m, private, Filled(c), n - 1));
    }
  }

  lemma HoldsAtStart(c: Promo, m: Machine, nonLocal: set<SlotId>, prologue: nat)
    requires Ready(c, nonLocal, prologue)
    ensures Filled(c).entry == c.f.entry && RunHolds(c, m, nonLocal, At(c.f.entry, State(map[], map[], [])))
  {
    FilledShape(c);
    hide Filled;
  }

  // ---- reading the names instead ----

  /** Every instruction and terminator reading through the substitutions in force where it stands. */
  ghost function RenamedInst(c: Promo, b: BlockId, j: nat): Inst
    requires b < c.f.Size() && j < |c.f.blocks[b].insts|
  {
    var inst := c.f.blocks[b].insts[j];
    inst.(op := SubOp(c.EnvBefore(b, j).sub, inst.op))
  }

  ghost function RenamedInsts(c: Promo, b: BlockId): seq<Inst>
    requires b < c.f.Size()
  {
    seq(|c.f.blocks[b].insts|, j requires 0 <= j < |c.f.blocks[b].insts| => RenamedInst(c, b, j))
  }

  ghost function RenamedBlock(c: Promo, b: BlockId): Block
    requires b < c.f.Size()
  {
    FilledBlock(c, b).(insts := RenamedInsts(c, b), term := SubTerm(c.Out(b).sub, c.f.blocks[b].term))
  }

  ghost function Renamed(c: Promo): Func {
    c.f.(blocks := seq(c.f.Size(), b requires 0 <= b < c.f.Size() => RenamedBlock(c, b)))
  }

  lemma SubHoldsReads(env: Env, st: State, os: seq<Operand>)
    requires SubsHold(env, st)
    ensures ReadAlike(os, SubAll(env.sub, os), st)
  {
    forall i: nat | i < |os| ensures st.Read(SubAll(env.sub, os)[i]) == st.Read(os[i]) {
      if os[i].Value? && os[i].id in env.sub {
        assert st.Read(Value(os[i].id)) == st.Read(env.sub[os[i].id]);
      }
    }
  }

  lemma RenamedInstLike(c: Promo, m: Machine, private: set<SlotId>, nonLocal: set<SlotId>, prologue: nat, s: Status,
                        j: nat)
    requires Ready(c, nonLocal, prologue) && c.slots <= private && RunHolds(c, m, nonLocal, s) && s.At?
    requires j < |c.f.blocks[s.block].insts|
    ensures InstLike(c.f.blocks[s.block].insts[j], RenamedInst(c, s.block, j),
                     ExecAll(m, private, c.f.blocks[s.block].insts[..j], s.st))
  {
    var inst := c.f.blocks[s.block].insts[j];
    var env := c.EnvBefore(s.block, j);
    var at := ExecAll(m, private, c.f.blocks[s.block].insts[..j], s.st);
    OnReads(inst.op, SubAll(env.sub, inst.op.Operands()));
    if FirstRow(c, prologue, s.block) <= j {
      HoldsInside(c, m, private, nonLocal, prologue, s, j);
      SubHoldsReads(env, at, inst.op.Operands());
    } else {
      assert inst.op.Operands() == [];
    }
  }

  lemma RenamedTermLike(c: Promo, m: Machine, private: set<SlotId>, nonLocal: set<SlotId>, prologue: nat, s: Status)
    requires Ready(c, nonLocal, prologue) && c.slots <= private && RunHolds(c, m, nonLocal, s) && s.At?
    ensures TermLike(c.f.blocks[s.block].term, SubTerm(c.Out(s.block).sub, c.f.blocks[s.block].term),
                     ExecAll(m, private, c.f.blocks[s.block].insts, s.st))
  {
    var b := s.block;
    var insts := c.f.blocks[b].insts;
    HoldsInside(c, m, private, nonLocal, prologue, s, |insts|);
    assert insts[..|insts|] == insts;
    var term := c.f.blocks[b].term;
    SubHoldsReads(c.Out(b), ExecAll(m, private, insts, s.st), term.Operands());
    assert SubTerm(c.Out(b).sub, term).Operands() == SubAll(c.Out(b).sub, term.Operands());
  }

  lemma RenamedShape(c: Promo)
    ensures Renamed(c).Size() == c.f.Size() && Filled(c).Size() == c.f.Size()
    ensures forall b: nat :: b < c.f.Size() ==>
              && Renamed(c).blocks[b].insts == RenamedInsts(c, b)
              && Renamed(c).blocks[b].term == SubTerm(c.Out(b).sub, c.f.blocks[b].term)
              && Renamed(c).blocks[b].phis == Filled(c).blocks[b].phis
              && Renamed(c).blocks[b].preds == Filled(c).blocks[b].preds
  {
    forall b: nat | b < c.f.Size()
      ensures Renamed(c).blocks[b] == RenamedBlock(c, b) && Filled(c).blocks[b] == FilledBlock(c, b)
    {
    }
  }

  lemma SamePhisLike(phis: seq<Phi>, preds: seq<BlockId>, pred: BlockId, st: State)
    ensures PhisLike(phis, phis, preds, pred, st)
  {
  }

  lemma RenamedInstsLike(c: Promo, m: Machine, private: set<SlotId>, nonLocal: set<SlotId>, prologue: nat, s: Status)
    requires Ready(c, nonLocal, prologue) && c.slots <= private && RunHolds(c, m, nonLocal, s) && s.At?
    requires s.block < c.f.Size()
    ensures InstsLike(m, private, c.f.blocks[s.block].insts, RenamedInsts(c, s.block), s.st)
  {
    hide Ready, RunHolds, InstLike, ExecAll, RenamedInst;
    var insts := c.f.blocks[s.block].insts;
    forall j: nat | j < |insts|
      ensures InstLike(insts[j], RenamedInst(c, s.block, j), ExecAll(m, private, insts[..j], s.st))
    {
      RenamedInstLike(c, m, private, nonLocal, prologue, s, j);
    }
  }

  lemma RenamedEdgesLike(c: Promo, b: BlockId, last: State)
    requires b < Filled(c).Size()
    ensures EdgesLike(Filled(c), Renamed(c), b, last)
  {
    RenamedShape(c);
    hide Filled, Renamed, PhisLike;
    forall x: nat | x < c.f.Size()
      ensures PhisLike(Filled(c).blocks[x].phis, Renamed(c).blocks[x].phis, Filled(c).blocks[x].preds, b, last)
    {
      SamePhisLike(Filled(c).blocks[x].phis, Filled(c).blocks[x].preds, b, last);
    }
  }

  lemma RenamedBlockLike(c: Promo, m: Machine, private: set<SlotId>, nonLocal: set<SlotId>, prologue: nat, s: Status)
    requires Ready(c, nonLocal, prologue) && c.slots <= private && RunHolds(c, m, nonLocal, s) && s.At?
    requires Filled(c).Size() == Renamed(c).Size() == c.f.Size()
    ensures BlockLike(m, private, Filled(c), Renamed(c), s.block, s.st)
  {
    FilledShape(c);
    RenamedShape(c);
    RenamedInstsLike(c, m, private, nonLocal, prologue, s);
    RenamedTermLike(c, m, private, nonLocal, prologue, s);
    RenamedEdgesLike(c, s.block, ExecAll(m, private, c.f.blocks[s.block].insts, s.st));
    hide Ready, RunHolds, InstsLike, TermLike, EdgesLike, Filled, Renamed, ExecAll, SubTerm, RenamedInsts;
  }

  lemma RenamedNext(c: Promo, m: Machine, private: set<SlotId>, nonLocal: set<SlotId>, prologue: nat, s: Status)
    requires Ready(c, nonLocal, prologue) && c.slots <= private && RunHolds(c, m, nonLocal, s)
    ensures Next(m, private, Renamed(c), s) == Next(m, private, Filled(c), s)
  {
    if s.At? {
      RenamedBlockLike(c, m, private, nonLocal, prologue, s);
      LikeNext(m, private, Filled(c), Renamed(c), s.block, s.st);
    }
  }

  /** Reading the names instead of the loads' results changes no run at all. */
  lemma {:induction false} RenamingKeepsRuns(c: Promo, m: Machine, private: set<SlotId>, nonLocal: set<SlotId>,
                                             prologue: nat, n: nat)
    requires Ready(c, nonLocal, prologue) && c.slots <= private
    ensures Run(m, private, Renamed(c), n) == Run(m, private, Filled(c), n)
    decreases n
  {
    hide *;
    if n == 0 {
      RenamedEntry(c);
      RunStart(m, private, Renamed(c));
      RunStart(m, private, Filled(c));
    } else {
      RunStep(m, private, Renamed(c), n);
      RunStep(m, private, Filled(c), n);
      RenamingKeepsRuns(c, m, private, nonLocal, prologue, n - 1);
      RunsHold(c, m, private, nonLocal, prologue, n - 1);
      RenamedNext(c, m, private, nonLocal, prologue, Run(m, private, Filled(c), n - 1));
    }
  }

  lemma RenamedEntry(c: Promo)
    ensures Renamed(c).entry == Filled(c).entry
  {
  }

  // ---- dropping the loads and stores ----

  /** The results of the deleted loads. */
  ghost function LoadResults(c: Promo): set<ValueId> {
    set b: nat, i: nat {:trigger c.f.blocks[b].insts[i]} |
      b < c.f.Size() && i < |c.f.blocks[b].insts| && c.Loads(c.f.blocks[b].insts[i])
      :: c.f.blocks[b].insts[i].dest.value
  }

  ghost function Gone(c: Promo): Dead {
    Dead(LoadResults(c), c.slots)
  }

  lemma LoadResultIsLoad(c: Promo, v: ValueId)
    ensures v in LoadResults(c) <==> IsLoad(c, v)
  {
    if IsLoad(c, v) {
      var p: Point :| LoadAt(c, p, v);
      assert c.Loads(c.f.blocks[p.block].insts[p.row - 1]);
    }
    if v in LoadResults(c) {
      var b: nat, i: nat :| b < c.f.Size() && i < |c.f.blocks[b].insts| && c.Loads(c.f.blocks[b].insts[i])
                            && c.f.blocks[b].insts[i].dest.value == v;
      assert LoadAt(c, Point(b, i + 1), v);
    }
  }

  lemma SubstitutedIsNoLoad(c: Promo, b: BlockId, j: nat, os: seq<Operand>)
    requires c.Sound() && b < c.f.Size() && j <= |c.f.blocks[b].insts| && !IsLoad(c, c.undef)
    requires AllOk(c.f, os, Point(b, j + 1))
    ensures Unread(Gone(c), SubAll(c.EnvBefore(b, j).sub, os))
  {
    EnvsOk(c, b);
    BodyKeepsOk(c, b, j);
    forall i: nat | i < |os|
      ensures var o := SubAll(c.EnvBefore(b, j).sub, os)[i]; !(o.Value? && o.id in LoadResults(c))
    {
      assert OperandOk(c.f, os[i], Point(b, j + 1));
      SubstitutedSeen(c, b, j, os[i]);
      var o := SubAll(c.EnvBefore(b, j).sub, os)[i];
      if o.Value? {
        LoadResultIsLoad(c, o.id);
      }
    }
  }

  lemma RenamedInstErasable(c: Promo, private: set<SlotId>, b: BlockId, j: nat)
    requires c.Sound() && c.slots <= private && !IsLoad(c, c.undef)
    requires b < c.f.Size() && j < |c.f.blocks[b].insts|
    ensures InstErasable(private, Gone(c), RenamedInst(c, b, j))
  {
    var inst := c.f.blocks[b].insts[j];
    var env := c.EnvBefore(b, j);
    OnReads(inst.op, SubAll(env.sub, inst.op.Operands()));
    assert AllOk(c.f, inst.op.Operands(), Point(b, j + 1));
    SubstitutedIsNoLoad(c, b, j, inst.op.Operands());
    assert inst.dest.Some? <==> inst.op.DefinesValue();
    if inst.dest.Some? {
      LoadResultIsLoad(c, inst.dest.value);
      assert DefinedAt(c.f, inst.dest.value, Point(b, j + 1));
      if IsLoad(c, inst.dest.value) {
        LoadIsAtSite(c, inst.dest.value);
        SiteIs(c.f, inst.dest.value, Point(b, j + 1));
      }
      if c.Loads(inst) {
        assert LoadAt(c, Point(b, j + 1), inst.dest.value);
      }
    }
  }

  lemma FilledPhiErasable(c: Promo, b: BlockId, k: nat)
    requires c.Sound() && !IsLoad(c, c.undef) && b < c.f.Size() && k < |c.f.blocks[b].phis|
    ensures PhiErasable(Gone(c), FilledPhi(c, b, c.f.blocks[b].phis[k]))
  {
    var phi := FilledPhi(c, b, c.f.blocks[b].phis[k]);
    forall i: nat | i < |phi.args|
      ensures !(phi.args[i].Value? && phi.args[i].id in LoadResults(c))
    {
      var a := c.f.blocks[b].preds[i];
      assert c.f.Adjacency().preds[b][i] < c.f.Size();
      EnvsOk(c, a);
      CurIsSeen(c, c.Out(a), phi.slot);
      if phi.args[i].Value? {
        LoadResultIsLoad(c, phi.args[i].id);
      }
    }
  }

  lemma RenamedBlockErasable(c: Promo, private: set<SlotId>, b: BlockId)
    requires c.Sound() && c.slots <= private && !IsLoad(c, c.undef) && b < c.f.Size()
    ensures BlockErasable(private, Gone(c), RenamedBlock(c, b))
  {
    var insts := c.f.blocks[b].insts;
    forall i: nat | i < |insts|
      ensures InstErasable(private, Gone(c), RenamedInst(c, b, i))
    {
      RenamedInstErasable(c, private, b, i);
    }
    forall k: nat | k < |c.f.blocks[b].phis|
      ensures PhiErasable(Gone(c), FilledPhi(c, b, c.f.blocks[b].phis[k]))
    {
      FilledPhiErasable(c, b, k);
    }
    var term := c.f.blocks[b].term;
    assert insts[..|insts|] == insts;
    assert AllOk(c.f, term.Operands(), End(c.f, b));
    SubstitutedIsNoLoad(c, b, |insts|, term.Operands());
    assert SubTerm(c.Out(b).sub, term).Operands() == SubAll(c.Out(b).sub, term.Operands());
    hide InstErasable, PhiErasable, Unread, Gone, Promo.Sound, RenamedInst, FilledPhi, SubTerm;
  }

  lemma RenamedErasable(c: Promo, private: set<SlotId>)
    requires c.Sound() && c.slots <= private && !IsLoad(c, c.undef)
    ensures Erasable(private, Gone(c), Renamed(c))
  {
    hide Promo.Sound, IsLoad, BlockErasable, RenamedBlock, Gone;
    forall b: nat | b < c.f.Size()
      ensures BlockErasable(private, Gone(c), RenamedBlock(c, b))
    {
      RenamedBlockErasable(c, private, b);
    }
  }

  /** Dropping the promoted loads and stores, once nothing reads them, leaves every run as it was. */
  lemma DroppingKeepsRuns(c: Promo, m: Machine, private: set<SlotId>, nonLocal: set<SlotId>, prologue: nat, f': Func,
                          n: nat)
    requires Ready(c, nonLocal, prologue) && c.slots <= private
    requires f'.blocks == EraseBlocks(Gone(c), Renamed(c).blocks) && f'.entry == c.f.entry
    ensures SameBut(m, Gone(c), Run(m, private, Filled(c), n), Run(m, private, f', n))
  {
    UndefIsNoLoad(c, prologue);
    RenamedErasable(c, private);
    RenamingKeepsRuns(c, m, private, nonLocal, prologue, n);
    EraseKeepsRuns(m, private, Gone(c), Renamed(c), f', n);
  }
}
