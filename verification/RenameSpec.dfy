/** What renaming means: which operand stands for each promoted slot at each point of a function. */
module RenameSpec {
  import opened Graphs
  import opened IdomTree
  import opened DomFixpoint
  import opened Ssa
  import opened Rewrites
  import opened SsaValid

  /** What names mean at one point: the operand holding each slot, what to read instead of each
      deleted load, and the values defined on the way here. */
  datatype Env = Env(cur: map<SlotId, Operand>, sub: Substitution, seen: set<ValueId>)

  const NoEnv := Env(map[], map[], {})

  /** A function with its phis placed and its undefined value in it, the slots to promote, and the
      dominator tree. */
  datatype Promo = Promo(f: Func, slots: set<SlotId>, undef: ValueId, tree: Tree)
  {
    function Cur(env: Env, s: SlotId): Operand {
      if s in env.cur then env.cur[s] else Value(undef)
    }

    predicate Loads(inst: Inst) {
      inst.op.SlotLoad? && inst.op.slot in slots && inst.dest.Some?
    }

    predicate Stores(inst: Inst) {
      inst.op.SlotStore? && inst.op.slot in slots
    }

    /** What one instruction does to the names. */
    function Step(env: Env, inst: Inst): Env {
      if Loads(inst) then
        env.(sub := env.sub[inst.dest.value := Cur(env, inst.op.slot)], seen := env.seen + {inst.dest.value})
      else if Stores(inst) then
        env.(cur := env.cur[inst.op.slot := SubOperand(env.sub, inst.op.value)])
      else if inst.dest.Some? then env.(seen := env.seen + {inst.dest.value})
      else env
    }

    function Steps(env: Env, insts: seq<Inst>): Env
      decreases |insts|
    {
      if insts == [] then env else Step(Steps(env, insts[..|insts| - 1]), insts[|insts| - 1])
    }

    /** After a phi its slot is named by the phi's result. */
    function AfterPhis(env: Env, phis: seq<Phi>): Env
      decreases |phis|
    {
      if phis == [] then env
      else
        var last := phis[|phis| - 1];
        var e := AfterPhis(env, phis[..|phis| - 1]);
        e.(cur := e.cur[last.slot := Value(last.dest)], seen := e.seen + {last.dest})
    }

    /** The names a block inherits from its immediate dominator. */
    ghost function In(b: BlockId): Env
      decreases tree.Num(b), 0
    {
      if b == tree.entry || !tree.Rises(b) then NoEnv else Out(tree.Up(b))
    }

    ghost function Start(b: BlockId): Env
      decreases tree.Num(b), 1
    {
      if b < f.Size() then AfterPhis(In(b), f.blocks[b].phis) else In(b)
    }

    ghost function Out(b: BlockId): Env
      decreases tree.Num(b), 2
    {
      if b < f.Size() then Steps(Start(b), f.blocks[b].insts) else Start(b)
    }

    /** The names before instruction `j` of `b`. */
    ghost function EnvBefore(b: BlockId, j: nat): Env
      requires b < f.Size() && j <= |f.blocks[b].insts|
    {
      Steps(Start(b), f.blocks[b].insts[..j])
    }

    /** Everything a point may read is defined before it, instructions and terminators alike. */
    ghost predicate ReadsDefined() {
      && (forall b: nat, i: nat :: b < f.Size() && i < |f.blocks[b].insts| ==>
            AllOk(f, f.blocks[b].insts[i].op.Operands(), Point(b, i + 1)))
      && (forall b: nat :: b < f.Size() ==> AllOk(f, f.blocks[b].term.Operands(), End(f, b)))
    }

    ghost predicate Sound() {
      && WellShaped(f) && SingleDefs(f) && ReadsDefined()
      && IsDomTree(f.Adjacency(), tree)
    }
  }

  lemma StepsSnoc(c: Promo, env: Env, insts: seq<Inst>, j: nat)
    requires j < |insts|
    ensures c.Steps(env, insts[..j + 1]) == c.Step(c.Steps(env, insts[..j]), insts[j])
  {
    assert insts[..j + 1][..j] == insts[..j];
  }

  // ---- which values have been seen ----

  lemma {:induction false} StepsGrow(c: Promo, env: Env, insts: seq<Inst>, j: nat)
    requires j <= |insts|
    ensures env.seen <= c.Steps(env, insts[..j]).seen
    ensures env.sub.Keys <= c.Steps(env, insts[..j]).sub.Keys
    ensures forall i: nat :: i < j && insts[i].dest.Some? && !c.Stores(insts[i]) ==>
              insts[i].dest.value in c.Steps(env, insts[..j]).seen
    ensures forall i: nat :: i < j && c.Loads(insts[i]) ==>
              insts[i].dest.value in c.Steps(env, insts[..j]).sub
    decreases j
  {
    if j > 0 {
      StepsGrow(c, env, insts, j - 1);
      StepsSnoc(c, env, insts, j - 1);
    }
  }

  lemma {:induction false} PhisGrow(c: Promo, env: Env, phis: seq<Phi>)
    ensures env.seen <= c.AfterPhis(env, phis).seen
    ensures c.AfterPhis(env, phis).sub == env.sub
    ensures forall v: ValueId :: Writes(phis, v) ==> v in c.AfterPhis(env, phis).seen
    decreases |phis|
  {
    if phis != [] {
      var n := |phis| - 1;
      PhisGrow(c, env, phis[..n]);
      forall v: ValueId | Writes(phis, v)
        ensures v in c.AfterPhis(env, phis).seen
      {
        var k: nat :| k < |phis| && phis[k].dest == v;
        if k < n {
          assert phis[..n][k].dest == v;
        }
      }
    }
  }

  /** Names only accumulate going down the dominator tree. */
  lemma {:induction false} OutGrows(c: Promo, a: BlockId, b: BlockId)
    requires c.tree.Valid() && c.tree.Has(b) && c.tree.Anc(a, b)
    ensures c.Out(a).seen <= c.Out(b).seen
    ensures c.Out(a).sub.Keys <= c.Out(b).sub.Keys
    decreases c.tree.Num(b)
  {
    if a != b {
      OutGrows(c, a, c.tree.Up(b));
      InsideGrows(c, b);
    }
  }

  lemma InsideGrows(c: Promo, b: BlockId)
    ensures c.In(b).seen <= c.Start(b).seen <= c.Out(b).seen
    ensures c.In(b).sub == c.Start(b).sub
    ensures c.Start(b).sub.Keys <= c.Out(b).sub.Keys
  {
    if b < c.f.Size() {
      PhisGrow(c, c.In(b), c.f.blocks[b].phis);
      var insts := c.f.blocks[b].insts;
      assert insts[..|insts|] == insts;
      StepsGrow(c, c.Start(b), insts, |insts|);
    }
  }

  /** Whatever is in scope at a point has been seen there, and if it is a load, has a substitute. */
  lemma ScopeIsSeen(c: Promo, v: ValueId, b: BlockId, j: nat)
    requires c.Sound() && b < c.f.Size() && j <= |c.f.blocks[b].insts|
    requires InScope(c.f, v, Point(b, j + 1))
    ensures v in c.EnvBefore(b, j).seen
    ensures IsLoad(c, v) ==> v in c.EnvBefore(b, j).sub
  {
    var q := SiteOf(c.f, v);
    var insts := c.f.blocks[b].insts;
    StepsGrow(c, c.Start(b), insts, j);
    PhisGrow(c, c.In(b), c.f.blocks[b].phis);
    if q.block == b {
      if q.row > 0 {
        SeenInBlock(c, v, b, j);
      } else {
        PhiIsNoLoad(c, v);
      }
    } else {
      assert c.f.Adjacency().Dom(q.block, b);
      SeenAtEnd(c, v);
      assert c.tree.Anc(q.block, b);
      OutGrows(c, q.block, c.tree.Up(b));
      assert c.In(b) == c.Out(c.tree.Up(b));
    }
  }

  /** `v` is the result of a load to be deleted. */
  ghost predicate IsLoad(c: Promo, v: ValueId) {
    exists p: Point :: LoadAt(c, p, v)
  }

  ghost predicate LoadAt(c: Promo, p: Point, v: ValueId) {
    && p.block < c.f.Size() && 0 < p.row && p.row - 1 < |c.f.blocks[p.block].insts|
    && c.Loads(c.f.blocks[p.block].insts[p.row - 1])
    && c.f.blocks[p.block].insts[p.row - 1].dest == Some(v)
  }

  lemma PhiIsNoLoad(c: Promo, v: ValueId)
    requires SingleDefs(c.f) && DefinedAt(c.f, v, SiteOf(c.f, v)) && SiteOf(c.f, v).row == 0
    ensures !IsLoad(c, v)
  {
    if IsLoad(c, v) {
      var p: Point :| LoadAt(c, p, v);
      SiteIs(c.f, v, p);
    }
  }

  lemma LoadIsAtSite(c: Promo, v: ValueId)
    requires SingleDefs(c.f) && IsLoad(c, v)
    ensures LoadAt(c, SiteOf(c.f, v), v)
  {
    var p: Point :| LoadAt(c, p, v);
    SiteIs(c.f, v, p);
  }

  lemma SeenInBlock(c: Promo, v: ValueId, b: BlockId, j: nat)
    requires SingleDefs(c.f) && b < c.f.Size() && j <= |c.f.blocks[b].insts|
    requires DefinedAt(c.f, v, SiteOf(c.f, v)) && SiteOf(c.f, v).block == b && 0 < SiteOf(c.f, v).row <= j
    ensures v in c.EnvBefore(b, j).seen
    ensures IsLoad(c, v) ==> v in c.EnvBefore(b, j).sub
  {
    var insts := c.f.blocks[b].insts;
    var i := SiteOf(c.f, v).row - 1;
    StepsGrow(c, c.Start(b), insts, j);
    assert insts[i].dest.Some? <==> insts[i].op.DefinesValue();
    if IsLoad(c, v) {
      LoadIsAtSite(c, v);
    }
  }

  lemma SeenAtEnd(c: Promo, v: ValueId)
    requires SingleDefs(c.f) && DefinedAt(c.f, v, SiteOf(c.f, v))
    ensures v in c.Out(SiteOf(c.f, v).block).seen
    ensures IsLoad(c, v) ==> v in c.Out(SiteOf(c.f, v).block).sub
  {
    var b := SiteOf(c.f, v).block;
    var insts := c.f.blocks[b].insts;
    assert insts[..|insts|] == insts;
    if SiteOf(c.f, v).row == 0 {
      PhisGrow(c, c.In(b), c.f.blocks[b].phis);
      StepsGrow(c, c.Start(b), insts, |insts|);
      PhiIsNoLoad(c, v);
    } else {
      SeenInBlock(c, v, b, |insts|);
    }
  }

  // ---- conversely, whatever has been seen is defined before ----

  ghost predicate DefinedBefore(c: Promo, v: ValueId, q: Point) {
    exists p: Point :: DefinedAt(c.f, v, p) && Before(c.f.Adjacency(), p, q)
  }

  lemma {:induction false} StepsSee(c: Promo, env: Env, insts: seq<Inst>, j: nat, v: ValueId)
    requires j <= |insts| && v in c.Steps(env, insts[..j]).seen
    ensures v in env.seen || exists i: nat :: i < j && insts[i].dest == Some(v)
    decreases j
  {
    if j > 0 {
      StepsSnoc(c, env, insts, j - 1);
      if v in c.Steps(env, insts[..j - 1]).seen {
        StepsSee(c, env, insts, j - 1, v);
      } else {
        assert insts[j - 1].dest == Some(v);
      }
    }
  }

  lemma {:induction false} PhisSee(c: Promo, env: Env, phis: seq<Phi>, v: ValueId)
    requires v in c.AfterPhis(env, phis).seen
    ensures v in env.seen || Writes(phis, v)
    decreases |phis|
  {
    if phis != [] {
      var n := |phis| - 1;
      if v in c.AfterPhis(env, phis[..n]).seen {
        PhisSee(c, env, phis[..n], v);
        if Writes(phis[..n], v) {
          var k: nat :| k < n && phis[..n][k].dest == v;
          assert phis[k].dest == v;
        }
      } else {
        assert phis[n].dest == v;
      }
    }
  }

  lemma {:induction false} SeenIsInDominator(c: Promo, b: BlockId, v: ValueId) returns (p: Point)
    requires c.Sound() && b < c.f.Size() && v in c.In(b).seen
    ensures DefinedAt(c.f, v, p) && p.block != b && c.tree.Anc(p.block, b)
    decreases c.tree.Num(b)
  {
    var a := c.tree.Up(b);
    assert c.tree.Rises(b);
    SeenOut(c, a, v);
    if v in c.In(a).seen {
      p := SeenIsInDominator(c, a, v);
      AncTransitive(c.tree, p.block, a, b);
      AncIsRecorded(c.tree, p.block, a);
    } else {
      p :| DefinedAt(c.f, v, p) && p.block == a;
      assert c.tree.Anc(a, a) && c.tree.Anc(a, b);
    }
  }

  lemma SeenOut(c: Promo, a: BlockId, v: ValueId)
    requires a < c.f.Size() && v in c.Out(a).seen
    ensures v in c.In(a).seen || exists p: Point :: DefinedAt(c.f, v, p) && p.block == a
  {
    var insts := c.f.blocks[a].insts;
    assert insts[..|insts|] == insts;
    StepsSee(c, c.Start(a), insts, |insts|, v);
    if v in c.Start(a).seen {
      PhisSee(c, c.In(a), c.f.blocks[a].phis, v);
      if Writes(c.f.blocks[a].phis, v) {
        assert DefinedAt(c.f, v, Point(a, 0));
      }
    } else {
      var i: nat :| i < |insts| && insts[i].dest == Some(v);
      assert DefinedAt(c.f, v, Point(a, i + 1));
    }
  }

  /** What has been seen before instruction `j` is defined at another point than that. */
  lemma SeenElsewhere(c: Promo, b: BlockId, j: nat, v: ValueId) returns (p: Point)
    requires c.Sound() && b < c.f.Size() && j < |c.f.blocks[b].insts|
    requires v in c.EnvBefore(b, j).seen
    ensures DefinedAt(c.f, v, p) && p != Point(b, j + 1)
  {
    var insts := c.f.blocks[b].insts;
    StepsSee(c, c.Start(b), insts, j, v);
    if i: nat :| i < j && insts[i].dest == Some(v) {
      p := Point(b, i + 1);
    } else {
      PhisSee(c, c.In(b), c.f.blocks[b].phis, v);
      if Writes(c.f.blocks[b].phis, v) {
        p := Point(b, 0);
      } else {
        p := SeenIsInDominator(c, b, v);
      }
    }
  }

  /** An instruction's own result has not been seen before it. */
  lemma FreshHere(c: Promo, b: BlockId, j: nat)
    requires c.Sound() && b < c.f.Size() && j < |c.f.blocks[b].insts|
    ensures c.f.blocks[b].insts[j].dest.Some? ==> c.f.blocks[b].insts[j].dest.value !in c.EnvBefore(b, j).seen
  {
    var dest := c.f.blocks[b].insts[j].dest;
    if dest.Some? {
      assert DefinedAt(c.f, dest.value, Point(b, j + 1));
      if dest.value in c.EnvBefore(b, j).seen {
        var p := SeenElsewhere(c, b, j, dest.value);
      }
    }
  }

  /** Neither have a block's phis when it is entered. */
  lemma FreshPhi(c: Promo, b: BlockId, v: ValueId)
    requires c.Sound() && b < c.f.Size() && Writes(c.f.blocks[b].phis, v)
    ensures v !in c.In(b).seen
  {
    if v in c.In(b).seen {
      assert DefinedAt(c.f, v, Point(b, 0));
      var p := SeenIsInDominator(c, b, v);
    }
  }
}
