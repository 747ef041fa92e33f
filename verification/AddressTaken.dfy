/** Why the promotion gate turns down a slot whose address was taken: promoting it would change what a run returns. */
module AddressTaken {
  import opened Graphs
  import opened IdomTree
  import opened Ssa
  import opened SlotUses
  import opened Rewrites
  import opened SsaValid
  import opened Functions
  import opened RenameSpec
  import opened Promotion
  import opened RenameSteps
  import opened Prepare
  import opened Promoted
  import opened Mem2Reg
  import opened WholeMemory

  const STORE_THEN_CALL := [Inst(Some(0), AddrOf(0)), Inst(None, SlotStore(0, Imm(5))), Inst(Some(1), Call("poke", [])),
                            Inst(Some(2), SlotLoad(0))]

  /** Hands out the address of a slot, stores 5 there, calls, and returns what the slot then holds. */
  const LEAK := Func([Block([], STORE_THEN_CALL, Return(Some(Value(2))), [])], [AtInst, AtInst, AtInst], 0)

  /** An outside world that writes 7 into slot 0 as soon as it can. */
  const POKING := Outside((_, _) => 0, _ => 0, 0, (_, _, _) => 0, (_, _) => 0, _ => 0, _ => map[0 := 7])

  lemma GateRefuses(aggregates: set<SlotId>)
    ensures !OnlyByName(LEAK, aggregates, 0)
  {
    assert Somewhere(LEAK, 0, 0) && ReachesInto(LEAK.blocks[0].insts[0], 0);
  }

  // ---- the run in memory ----

  lemma LeakHandsOut(vals: Vals, m: Ram)
    ensures ExecWhole(POKING, STORE_THEN_CALL[0], vals, m).1 == m.(taken := m.taken + {0})
    ensures ExecWhole(POKING, STORE_THEN_CALL[1], vals, m).1 == m.(cells := m.cells[0 := 5])
  {
    hide Cell, Touched;
  }

  lemma LeakIsPoked(vals: Vals, m: Ram)
    requires 0 in m.taken
    ensures Cell(POKING, ExecWhole(POKING, STORE_THEN_CALL[2], vals, m).1.cells, 0) == 7
  {
  }

  lemma LeakReadsBack(vals: Vals, m: Ram)
    ensures ExecWhole(POKING, STORE_THEN_CALL[3], vals, m).0 == vals[2 := Cell(POKING, m.cells, 0)]
  {
    hide Cell, Touched;
  }

  lemma LeakBody(vals: Vals, m: Ram)
    ensures var end := ExecAllWhole(POKING, STORE_THEN_CALL, vals, m).0; 2 in end && end[2] == 7
  {
    var code := STORE_THEN_CALL;
    var s1 := ExecWhole(POKING, code[0], vals, m);
    var s2 := ExecWhole(POKING, code[1], s1.0, s1.1);
    var s3 := ExecWhole(POKING, code[2], s2.0, s2.1);
    LeakHandsOut(vals, m);
    LeakHandsOut(s1.0, s1.1);
    LeakIsPoked(s2.0, s2.1);
    LeakReadsBack(s3.0, s3.1);
    hide ExecWhole, Cell;
    assert code[..3][..2] == code[..2] && code[..2][..1] == code[..1] && code[..1] == [code[0]];
    assert ExecAllWhole(POKING, code[..1], vals, m) == s1;
    assert ExecAllWhole(POKING, code[..2], vals, m) == s2;
    assert ExecAllWhole(POKING, code[..3], vals, m) == s3;
  }

  lemma LeakRuns()
    ensures RunWhole(POKING, LEAK, 1).WholeDone? && RunWhole(POKING, LEAK, 1).result == Some(7)
  {
    LeakBody(map[], Ram(map[], {}, []));
    assert RunWhole(POKING, LEAK, 0) == WholeAt(0, map[], Ram(map[], {}, []));
    hide ExecAllWhole;
  }

  // ---- the run once promoted ----

  lemma LeakNames(c: Promo, env: Env)
    requires c.slots == {0}
    ensures var after := c.Steps(env, STORE_THEN_CALL); 2 in after.sub && after.sub[2] == Imm(5)
  {
    var code := STORE_THEN_CALL;
    assert code[..3][..2] == code[..2] && code[..2][..1] == code[..1];
    var e := c.Steps(env, code[..1]);
    assert c.Steps(env, code[..2]) == e.(cur := e.cur[0 := Imm(5)]);
    assert c.Steps(env, code[..3]).cur == e.cur[0 := Imm(5)];
  }

  lemma LeakPrepared(c: Promo, prologue: nat)
    requires Prepared(LEAK, c, prologue)
    ensures c.f.Size() == 1 && c.f.entry == 0
    ensures c.f.blocks[0].insts == [Inst(Some(c.undef), Undef)] + STORE_THEN_CALL
    ensures c.f.blocks[0].term == Return(Some(Value(2)))
  {
    assert SameButAdded(LEAK, c, prologue, 0);
    assert !LEAK.blocks[0].insts[0].op.GetParam?;
    assert STORE_THEN_CALL[0..] == STORE_THEN_CALL;
  }

  lemma {:induction false} StepsOn(c: Promo, env: Env, first: Inst, rest: seq<Inst>)
    ensures c.Steps(env, [first] + rest) == c.Steps(c.Step(env, first), rest)
    decreases |rest|
  {
    var all := [first] + rest;
    if rest == [] {
      assert all[..0] == [] && all[0] == first;
    } else {
      assert all[..|all| - 1] == [first] + rest[..|rest| - 1];
      StepsOn(c, env, first, rest[..|rest| - 1]);
    }
  }

  lemma LeakPromoted(f': Func, c: Promo, prologue: nat, nonLocal: set<SlotId>)
    requires PromotedBy(LEAK, f', {0}, c, prologue, nonLocal)
    ensures f'.entry == 0 && f'.Size() == 1 && f'.blocks[0].term == Return(Some(Imm(5)))
  {
    LeakPrepared(c, prologue);
    SlimIs(c);
    SlimmerIs(c);
    hide MemoryForm, Prepared, Ready, PhisNonLocal, FuncAvoids, Slim, Slimmer, EraseInsts, ErasePhis;
    var undef := Inst(Some(c.undef), Undef);
    StepsOn(c, c.Start(0), undef, STORE_THEN_CALL);
    LeakNames(c, c.Step(c.Start(0), undef));
    assert Slim(c).blocks[0].term == SubTerm(c.Out(0).sub, c.f.blocks[0].term);
  }

  /** Promoted against the gate's advice, the function returns 5 where its run in memory returns 7. */
  lemma AddressTakenMustStay(f': Func, c: Promo, prologue: nat, nonLocal: set<SlotId>)
    requires PromotedBy(LEAK, f', {0}, c, prologue, nonLocal)
    ensures RunWhole(POKING, LEAK, 1).WholeDone? && RunWhole(POKING, LEAK, 1).result == Some(7)
    ensures RunWhole(POKING, f', 1).WholeDone? && RunWhole(POKING, f', 1).result == Some(5)
  {
    LeakRuns();
    LeakPromoted(f', c, prologue, nonLocal);
    hide PromotedBy, ExecAllWhole;
    assert RunWhole(POKING, f', 0) == WholeAt(0, map[], Ram(map[], {}, []));
  }

  // ---- the pass really does that ----

  lemma LeakUses()
    ensures BlockUsesOk(LEAK, 0)
  {
    assert LEAK.blocks[0].insts[3].dest == Some(2);
    assert DefinedAt(LEAK, 2, Point(0, 4)) && Before(LEAK.Adjacency(), Point(0, 4), End(LEAK, 0));
    hide OperandOk, Func.Adjacency, DefinedAt;
  }

  lemma LeakInMemory()
    ensures MemoryForm(LEAK)
  {
    var g := LEAK.Adjacency();
    assert g.PathTo([0], 0);
    LeakUses();
    forall v: ValueId, p: Point | DefinedAt(LEAK, v, p)
      ensures v < 3 && p == Point(0, if v == 2 then 4 else 2 * v + 1)
    {
    }
  }

  method PromotePastTheGate() returns (fn: Function)
    ensures ValidSsa(fn.View())
    ensures RunWhole(POKING, LEAK, 1).WholeDone? && RunWhole(POKING, LEAK, 1).result == Some(7)
    ensures RunWhole(POKING, fn.View(), 1).WholeDone? && RunWhole(POKING, fn.View(), 1).result == Some(5)
  {
    fn := new Function(LEAK);
    LeakInMemory();
    PromoteSlots(fn, {0});
    hide PromotedBy, RunWhole;
    ghost var c: Promo, prologue: nat, nonLocal: set<SlotId> :| PromotedBy(LEAK, fn.View(), {0}, c, prologue, nonLocal);
    AddressTakenMustStay(fn.View(), c, prologue, nonLocal);
  }
}
