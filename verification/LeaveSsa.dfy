/** Leaving SSA form preserves meaning: the code runs block by block as the function does. */
module LeaveSsa {
  import opened Graphs
  import opened IdomTree
  import opened Ssa
  import opened SsaValid
  import opened ParallelCopies
  import opened Tac
  import opened Destruct

  /** Every value is in its home; memory and events are the same; no call is being prepared. */
  ghost predicate Agrees(st: State, t: TacState) {
    && t.trace == st.trace && t.mem == st.mem && t.params == []
    && forall v: ValueId :: Get(t.env, Home(v)) == st.Read(Value(v))
  }

  ghost predicate Matches(s: Status, t: TacStatus) {
    match (s, t)
    case (At(b, st), TacAt(c, u)) => b == c && Agrees(st, u)
    case (Done(r, trace), TacDone(r', trace')) => r == r' && trace == trace'
    case (Stuck, TacStuck) => true
    case _ => false
  }

  lemma ReadsHome(st: State, t: TacState, o: Operand)
    requires Agrees(st, t)
    ensures SourceValue(t.env, AsSource(o)) == st.Read(o) == Wanted(t.env, o)
  {
    if o.Value? {
      assert Get(t.env, Home(o.id)) == st.Read(Value(o.id));
    }
  }

  lemma ReadsHomes(st: State, t: TacState, os: seq<Operand>)
    requires Agrees(st, t)
    ensures t.Values(AsSources(os)) == st.ReadAll(os)
  {
    forall i: nat | i < |os| ensures t.Values(AsSources(os))[i] == st.ReadAll(os)[i] {
      ReadsHome(st, t, os[i]);
    }
  }

  lemma WritesHome(st: State, t: TacState, mem: map<SlotId, Word>, trace: seq<Event>, dest: Option<ValueId>, w: Word)
    requires Agrees(st, t)
    ensures Agrees(State(if dest.Some? then st.vals[dest.value := w] else st.vals, mem, trace),
                   t.(mem := mem, trace := trace).Write(Dest(dest), w))
  {
    forall v: ValueId
      ensures Get(t.Write(Dest(dest), w).env, Home(v)) ==
                State(if dest.Some? then st.vals[dest.value := w] else st.vals, mem, trace).Read(Value(v))
    {
      assert Get(t.env, Home(v)) == st.Read(Value(v));
    }
  }

  lemma PerformNeedsNoValues(m: Machine, private: set<SlotId>, op: Op, args: seq<Word>, st: State)
    requires |args| == |op.Operands()|
    ensures Perform(m, private, op, args, State(map[], st.mem, st.trace)) == Perform(m, private, op, args, st)
  {
  }

  lemma {:induction false} ParamsCollect(m: Machine, private: set<SlotId>, st: State, t: TacState, os: seq<Operand>,
                                         k: nat)
    requires Agrees(st, t) && k <= |os|
    ensures DoAll(m, private, Params(os)[..k], t) == t.(params := st.ReadAll(os)[..k])
    decreases k
  {
    if k == 0 {
      assert Params(os)[..0] == [];
    } else {
      ParamsCollect(m, private, st, t, os, k - 1);
      assert Params(os)[..k][..k - 1] == Params(os)[..k - 1];
      ReadsHome(st, t, os[k - 1]);
      assert st.ReadAll(os)[..k - 1] + [st.Read(os[k - 1])] == st.ReadAll(os)[..k];
    }
  }

  lemma CallAgrees(m: Machine, private: set<SlotId>, inst: Inst, st: State, t: TacState)
    requires inst.op.Call? && Agrees(st, t)
    ensures Agrees(Exec(m, private, inst, st), DoAll(m, private, LoweredInst(inst), t))
  {
    var args := inst.op.args;
    var params := Params(args);
    var call := CallLabel(Dest(inst.dest), inst.op.callee, |args|);
    assert LoweredInst(inst) == params + [call];
    ParamsCollect(m, private, st, t, args, |args|);
    assert params[..|args|] == params && st.ReadAll(args)[..|args|] == st.ReadAll(args);
    DoAllAppend(m, private, params, [call], t);
    DoOne(m, private, call, t.(params := st.ReadAll(args)));
    assert inst.op.Head() == Call(inst.op.callee, seq(|args|, _ => Imm(0)));
    var trace := st.trace + [Event(inst.op.Head(), st.ReadAll(args))];
    WritesHome(st, t, st.mem, trace, inst.dest, m.world(trace));
  }

  lemma InstAgrees(m: Machine, private: set<SlotId>, inst: Inst, st: State, t: TacState)
    requires Agrees(st, t) && m.undef == 0 && (inst.dest.Some? <==> inst.op.DefinesValue())
    ensures Agrees(Exec(m, private, inst, st), DoAll(m, private, LoweredInst(inst), t))
  {
    if inst.op.Call? {
      CallAgrees(m, private, inst, st, t);
    } else {
      var code := LoweredInst(inst);
      DoOne(m, private, code[0], t);
      ReadsHomes(st, t, inst.op.Operands());
      PerformNeedsNoValues(m, private, inst.op, st.ReadAll(inst.op.Operands()), st);
      var (w, mem, trace) := Perform(m, private, inst.op, st.ReadAll(inst.op.Operands()), st);
      WritesHome(st, t, mem, trace, inst.dest, w);
      if inst.op.Copy? {
        ReadsHome(st, t, inst.op.source);
      }
    }
  }

  lemma {:induction false} BodyAgrees(m: Machine, private: set<SlotId>, insts: seq<Inst>, st: State, t: TacState)
    requires Agrees(st, t) && m.undef == 0
    requires forall i: nat :: i < |insts| ==> (insts[i].dest.Some? <==> insts[i].op.DefinesValue())
    ensures Agrees(ExecAll(m, private, insts, st), DoAll(m, private, LoweredInsts(insts), t))
    decreases |insts|
  {
    if insts != [] {
      var n := |insts| - 1;
      BodyAgrees(m, private, insts[..n], st, t);
      var st', t' := ExecAll(m, private, insts[..n], st), DoAll(m, private, LoweredInsts(insts[..n]), t);
      InstAgrees(m, private, insts[n], st', t');
      DoAllAppend(m, private, LoweredInsts(insts[..n]), LoweredInst(insts[n]), t);
      hide Exec, DoAll, LoweredInst, Agrees;
    }
  }

  lemma {:induction false} BodyIsStraight(insts: seq<Inst>)
    ensures Straight(LoweredInsts(insts))
    decreases |insts|
  {
    if insts != [] {
      BodyIsStraight(insts[..|insts| - 1]);
    }
  }

  // ---- the edge ----

  /** The moves at the end of a block stand for the simultaneous assignment of its successor's phis. */
  lemma EdgeAgrees(f: Func, b: BlockId, c: BlockId, moves: seq<Move>, base: nat, st: State, t: TacState)
    requires Lowerable(f) && b < f.Size() && f.blocks[b].term.Successors() == [c] && c < f.Size()
    requires Owed(f, b, moves, base) && Agrees(st, t)
    ensures Agrees(Cross(f.blocks[c], b, st), t.(env := RunMoves(moves, t.env)))
  {
    LowerableEdge(f, b, c);
    var after := RunMoves(moves, t.env);
    forall v: ValueId
      ensures Get(after, Home(v)) == Cross(f.blocks[c], b, st).Read(Value(v))
    {
      assert Get(t.env, Home(v)) == st.Read(Value(v));
      if f.blocks[c].phis != [] {
        assert Realises(OutgoingCopies(f.blocks[c].phis, Position(f.blocks[c].preds, b)), moves, base);
        PhiAgrees(f, b, c, moves, base, st, t, v);
      }
    }
  }

  lemma PhiAgrees(f: Func, b: BlockId, c: BlockId, moves: seq<Move>, base: nat, st: State, t: TacState, v: ValueId)
    requires Lowerable(f) && c < f.Size() && b in f.blocks[c].preds && Agrees(st, t)
    requires Realises(OutgoingCopies(f.blocks[c].phis, Position(f.blocks[c].preds, b)), moves, base)
    ensures Get(RunMoves(moves, t.env), Home(v)) == Cross(f.blocks[c], b, st).Read(Value(v))
  {
    var phis, preds := f.blocks[c].phis, f.blocks[c].preds;
    var position := Position(preds, b);
    var copies := OutgoingCopies(phis, position);
    assert RealisesFrom(copies, moves, base, t.env);
    assert Get(t.env, Home(v)) == st.Read(Value(v));
    if Writes(phis, v) {
      var k: nat :| k < |phis| && phis[k].dest == v;
      assert |phis[k].args| == |preds|;
      AssignWrites(phis, preds, b, st, st.vals, k);
      ReadsHome(st, t, phis[k].args[position]);
      if phis[k].args[position] != Value(v) {
        var i := OutgoingHas(phis, position, k);
      } else {
        NotAssigned(phis, position, k);
      }
    } else {
      AssignSpares(phis, preds, b, st, st.vals, v);
      if Assigns(copies, v) {
        var i: nat :| i < |copies| && copies[i].dest == v;
        var k := OutgoingAre(phis, position, i);
      }
    }
    hide RunMoves, Realises, Assign, OutgoingCopies;
  }

  lemma NotAssigned(phis: seq<Phi>, position: nat, k: nat)
    requires DistinctDests(phis) && k < |phis| && position < |phis[k].args| &&
             phis[k].args[position] == Value(phis[k].dest)
    ensures !Assigns(OutgoingCopies(phis, position), phis[k].dest)
  {
    var copies := OutgoingCopies(phis, position);
    forall i: nat | i < |copies| ensures copies[i].dest != phis[k].dest {
      var l := OutgoingAre(phis, position, i);
    }
  }

  lemma NoPhisNoChange(f: Func, b: BlockId, c: BlockId, st: State)
    requires c < f.Size() && f.blocks[c].phis == []
    ensures Cross(f.blocks[c], b, st) == st
  {
  }

  // ---- leaving a block ----

  lemma JumpMatches(m: Machine, private: set<SlotId>, f: Func, b: BlockId, moves: seq<Move>, base: nat, st: State,
                    t: TacState)
    requires Lowerable(f) && b < f.Size() && f.blocks[b].term.Jump? && Owed(f, b, moves, base) && Agrees(st, t)
    ensures Matches(Leave(f, b, st),
                    LeaveCode(m, private, LoweredTerm(f.blocks[b].term), t.(env := RunMoves(moves, t.env))))
  {
    var c := f.blocks[b].term.target;
    assert f.blocks[b].term.Successors() == [c];
    LowerableEdge(f, b, c);
    EdgeAgrees(f, b, c, moves, base, st, t);
  }

  lemma BranchMatches(m: Machine, private: set<SlotId>, f: Func, b: BlockId, moves: seq<Move>, base: nat, st: State,
                      t: TacState)
    requires Lowerable(f) && b < f.Size() && f.blocks[b].term.Branch? && Owed(f, b, moves, base) && Agrees(st, t)
    ensures Matches(Leave(f, b, st),
                    LeaveCode(m, private, LoweredTerm(f.blocks[b].term), t.(env := RunMoves(moves, t.env))))
  {
    var term := f.blocks[b].term;
    assert moves == [];
    var c := Target(term, st);
    assert c in term.Successors();
    LowerableEdge(f, b, c);
    NoPhisNoChange(f, b, c, st);
    ReadsHome(st, t, term.cond);
    var code := LoweredTerm(term);
    assert code[1..] == [Goto(term.elseBlock)];
  }

  lemma ReturnMatches(m: Machine, private: set<SlotId>, f: Func, b: BlockId, moves: seq<Move>, base: nat, st: State,
                      t: TacState)
    requires b < f.Size() && f.blocks[b].term.Return? && Owed(f, b, moves, base) && Agrees(st, t)
    ensures Matches(Leave(f, b, st),
                    LeaveCode(m, private, LoweredTerm(f.blocks[b].term), t.(env := RunMoves(moves, t.env))))
  {
    assert moves == [];
    var result := f.blocks[b].term.result;
    if result.Some? {
      ReadsHome(st, t, result.value);
    }
  }

  lemma BlockMatches(m: Machine, private: set<SlotId>, f: Func, cfg: Cfg, b: BlockId, st: State, t: TacState)
    requires Lowerable(f) && SingleDefs(f) && Lowered(f, cfg) && m.undef == 0 && b < f.Size() && Agrees(st, t)
    ensures Matches(Next(m, private, f, At(b, st)), TacNext(m, private, cfg, TacAt(b, t)))
  {
    var insts, term := f.blocks[b].insts, f.blocks[b].term;
    assert BlockLowered(f, b, cfg[b]);
    var moves: seq<Move>, base: nat :| Owed(f, b, moves, base)
                                       && cfg[b] == LoweredInsts(insts) + AsTac(moves) + LoweredTerm(term);
    BodyAgrees(m, private, insts, st, t);
    BodyIsStraight(insts);
    var st', t' := ExecAll(m, private, insts, st), DoAll(m, private, LoweredInsts(insts), t);
    hide Lowered, BlockLowered, ExecAll, DoAll, LoweredInsts, LoweredTerm, Leave, Agrees, RunMoves, AsTac, Owed,
         Lowerable, SingleDefs;
    MovesRun(m, private, moves, t');
    StraightFirst(m, private, LoweredInsts(insts) + AsTac(moves), LoweredTerm(term), t);
    DoAllAppend(m, private, LoweredInsts(insts), AsTac(moves), t);
    match term
    case Jump(_) => JumpMatches(m, private, f, b, moves, base, st', t');
    case Branch(_, _, _) => BranchMatches(m, private, f, b, moves, base, st', t');
    case Return(_) => ReturnMatches(m, private, f, b, moves, base, st', t');
  }

  /** Every run of the code matches the function's, block by block: the same blocks with every value in
      its home, the same events, the same result. */
  lemma {:induction false} LeavingKeepsRuns(m: Machine, private: set<SlotId>, f: Func, cfg: Cfg, n: nat)
    requires Lowerable(f) && SingleDefs(f) && Lowered(f, cfg) && m.undef == 0
    ensures Matches(Run(m, private, f, n), TacRun(m, private, cfg, f.entry, n))
    ensures Inside(f, Run(m, private, f, n))
    decreases n
  {
    hide *;
    if n == 0 {
      LowerableEntry(f);
      StartMatches(m, private, f, cfg);
    } else {
      LeavingKeepsRuns(m, private, f, cfg, n - 1);
      RunStep(m, private, f, n);
      TacRunStep(m, private, cfg, f.entry, n);
      NextMatches(m, private, f, cfg, Run(m, private, f, n - 1), TacRun(m, private, cfg, f.entry, n - 1));
    }
  }

  lemma StartMatches(m: Machine, private: set<SlotId>, f: Func, cfg: Cfg)
    requires f.entry < f.Size()
    ensures Matches(Run(m, private, f, 0), TacRun(m, private, cfg, f.entry, 0)) && Inside(f, Run(m, private, f, 0))
  {
  }

  lemma TacRunStep(m: Machine, private: set<SlotId>, cfg: Cfg, entry: BlockId, n: nat)
    requires n > 0
    ensures TacRun(m, private, cfg, entry, n) == TacNext(m, private, cfg, TacRun(m, private, cfg, entry, n - 1))
  {
  }

  ghost predicate Inside(f: Func, s: Status) {
    s.At? ==> s.block < f.Size()
  }

  lemma NextMatches(m: Machine, private: set<SlotId>, f: Func, cfg: Cfg, s: Status, t: TacStatus)
    requires Lowerable(f) && SingleDefs(f) && Lowered(f, cfg) && m.undef == 0 && Matches(s, t) && Inside(f, s)
    ensures Matches(Next(m, private, f, s), TacNext(m, private, cfg, t)) && Inside(f, Next(m, private, f, s))
  {
    LowerableEntry(f);
    hide Lowerable, SingleDefs, Lowered, Agrees, Graph.Valid, ExecAll, Leave, LeaveCode;
    if s.At? {
      BlockMatches(m, private, f, cfg, s.block, s.st, t.st);
      NextInside(m, private, f, s);
      hide Next, TacNext;
    }
  }

  lemma LowerableEntry(f: Func)
    requires Lowerable(f)
    ensures f.Adjacency().Valid() && f.entry < f.Size()
  {
    assert f.entry < f.Adjacency().Size();
  }

  lemma NextInside(m: Machine, private: set<SlotId>, f: Func, s: Status)
    requires f.Adjacency().Valid() && s.At? && s.block < f.Size()
    ensures var s' := Next(m, private, f, s); s'.At? ==> s'.block < f.Size()
  {
  }

  // ---- when the phis can be lowered ----

  /** One argument per predecessor and different results: what every function in SSA form has. */
  ghost predicate PhisInOrder(f: Func) {
    && f.Adjacency().Valid()
    && (forall b: nat, k: nat :: b < f.Size() && k < |f.blocks[b].phis| ==>
          |f.blocks[b].phis[k].args| == |f.blocks[b].preds|)
    && forall b: nat :: b < f.Size() ==> DistinctDests(f.blocks[b].phis)
  }

  /** Without critical edges, every block owing copies to phis ends in a plain jump exactly when no
      branching block is the only predecessor of one with phis. */
  lemma CriticalFreeLowers(f: Func)
    requires PhisInOrder(f) && CriticalFree(f)
    ensures Lowerable(f) <==> forall c: nat, b: nat :: c < f.Size() && b < f.Size() ==>
              (f.blocks[c].preds == [b] && f.blocks[c].phis != [] ==> |f.blocks[b].term.Successors()| == 1)
  {
    var g := f.Adjacency();
    if Lowerable(f) {
      forall c: nat, b: nat | c < f.Size() && b < f.Size() && f.blocks[c].preds == [b] && f.blocks[c].phis != []
        ensures |f.blocks[b].term.Successors()| == 1
      {
        assert b in g.preds[c];
        assert g.Edge(b, c);
      }
    } else {
      var b: nat, c: nat :| b < f.Size() && c < f.Size() && g.Edge(b, c) && f.blocks[c].phis != []
                            && |f.blocks[b].term.Successors()| != 1;
      assert b in g.preds[c];
      assert |f.blocks[b].term.Successors()| >= 2;
      assert f.blocks[c].preds == [b];
    }
  }

  // A branch to two blocks of which one has a phi, with the one argument its one predecessor brings.
  const ONE_ARGUMENT := Func([Block([], [Inst(Some(0), GetParam(0))], Branch(Value(0), 1, 2), []),
                              Block([Phi(1, [Value(0)], 0)], [], Ssa.Return(Some(Value(1))), [0]),
                              Block([], [], Ssa.Return(None), [0])], [AtInst, AtPhi(1, 0)], 0)

  lemma OneArgumentGraph()
    ensures var g := ONE_ARGUMENT.Adjacency();
            g.entry == 0 && g.succs == [[1, 2], [], []] && g.preds == [[], [0], [0]] && g.Valid()
  {
    var g := ONE_ARGUMENT.Adjacency();
    assert g.succs == [[1, 2], [], []] && g.preds == [[], [0], [0]];
  }

  lemma OneArgumentPhis()
    ensures PhisInOrder(ONE_ARGUMENT)
  {
    OneArgumentGraph();
    hide Func.Adjacency, Graph.Valid;
  }

  /** The absence of critical edges alone is not enough: a phi with one argument in a block that a branch leads to
      asks for a copy its predecessor cannot make. */
  lemma CriticalFreeIsNotEnough()
    ensures PhisInOrder(ONE_ARGUMENT) && CriticalFree(ONE_ARGUMENT) && !Lowerable(ONE_ARGUMENT)
  {
    OneArgumentGraph();
    OneArgumentPhis();
    hide Func.Adjacency, Graph.Valid, PhisInOrder;
    assert ONE_ARGUMENT.Adjacency().Edge(0, 1);
  }

  // ---- what the back end may rely on ----

  /** The instruction after `k` passes another argument or is the call. */
  ghost predicate CallFollows(code: seq<Tac>, k: nat) {
    k + 1 < |code| && (code[k + 1].Param? || code[k + 1].CallLabel?)
  }

  lemma {:induction false} BodyPassesToCalls(insts: seq<Inst>, k: nat)
    requires k < |LoweredInsts(insts)| && LoweredInsts(insts)[k].Param?
    ensures CallFollows(LoweredInsts(insts), k)
    decreases |insts|
  {
    var n := |insts| - 1;
    var before := LoweredInsts(insts[..n]);
    if k < |before| {
      BodyPassesToCalls(insts[..n], k);
    } else {
      var last := LoweredInst(insts[n]);
      assert last[k - |before|].Param?;
      assert insts[n].op.Call?;
      var j := k - |before|;
      assert last[j + 1].Param? || last[j + 1].CallLabel?;
      assert LoweredInsts(insts)[k + 1] == last[j + 1];
    }
  }

  /** The arguments of a call sit directly before it. */
  lemma ParamsSitBeforeCalls(f: Func, cfg: Cfg, b: BlockId, k: nat)
    requires Lowered(f, cfg) && b < f.Size() && k < |cfg[b]| && cfg[b][k].Param?
    ensures CallFollows(cfg[b], k)
  {
    assert BlockLowered(f, b, cfg[b]);
    var insts := f.blocks[b].insts;
    var moves: seq<Move>, base: nat :| Owed(f, b, moves, base)
                                       && cfg[b] == LoweredInsts(insts) + AsTac(moves) + LoweredTerm(f.blocks[b].term);
    ParamInBody(LoweredInsts(insts), moves, f.blocks[b].term, k);
    BodyPassesToCalls(insts, k);
    hide LoweredInsts, LoweredTerm, AsTac, Owed, Lowered, BlockLowered;
  }

  lemma ParamInBody(body: seq<Tac>, moves: seq<Move>, term: Terminator, k: nat)
    requires var code := body + AsTac(moves) + LoweredTerm(term); k < |code| && code[k].Param?
    ensures k < |body|
  {
  }

  /** After an instruction that transfers control there are only others: nothing is computed behind it. */
  lemma TransfersComeLast(f: Func, cfg: Cfg, b: BlockId, k: nat, j: nat)
    requires Lowered(f, cfg) && b < f.Size() && k <= j < |cfg[b]| && cfg[b][k].Transfers()
    ensures cfg[b][j].Transfers()
  {
    assert BlockLowered(f, b, cfg[b]);
    var insts := f.blocks[b].insts;
    var moves: seq<Move>, base: nat :| Owed(f, b, moves, base)
                                       && cfg[b] == LoweredInsts(insts) + AsTac(moves) + LoweredTerm(f.blocks[b].term);
    BodyIsStraight(insts);
    TailTransfers(LoweredInsts(insts), moves, f.blocks[b].term, k, j);
    hide LoweredInsts, LoweredTerm, AsTac, Owed, Lowered, BlockLowered;
  }

  lemma TailTransfers(body: seq<Tac>, moves: seq<Move>, term: Terminator, k: nat, j: nat)
    requires Straight(body)
    requires var code := body + AsTac(moves) + LoweredTerm(term); k <= j < |code| && code[k].Transfers()
    ensures (body + AsTac(moves) + LoweredTerm(term))[j].Transfers()
  {
  }
}
