/** Three-address code: what leaving SSA form produces, and what running it does. */
module Tac {
  import opened IdomTree
  import opened Ssa
  import opened ParallelCopies

  datatype Tac =
    | Mov(dest: Place, source: Source)
    | Simple(result: Option<Place>, op: Op, args: seq<Source>)
    | Param(arg: Source)
    | CallLabel(result: Option<Place>, callee: string, count: nat)
    | ReadParam(into: Option<Place>, index: nat)
    | Goto(target: BlockId)
    | BranchIf(cond: Source, target: BlockId)
    | Ret(value: Option<Source>)
  {
    predicate Transfers() {
      Goto? || BranchIf? || Ret?
    }
  }

  /** A list of code by block number. */
  type Cfg = seq<seq<Tac>>

  /** Homes and temporaries, slot memory, the events so far, and the arguments of the next call. */
  datatype TacState = TacState(env: Store, mem: map<SlotId, Word>, trace: seq<Event>, params: seq<Word>)
  {
    function Write(dest: Option<Place>, w: Word): TacState {
      if dest.Some? then this.(env := env[dest.value := w]) else this
    }

    function Values(args: seq<Source>): seq<Word> {
      seq(|args|, i requires 0 <= i < |args| => SourceValue(env, args[i]))
    }
  }

  /** One instruction that does not transfer control. */
  function Do(m: Machine, private: set<SlotId>, t: Tac, st: TacState): TacState {
    match t
    case Mov(dest, source) => st.(env := st.env[dest := SourceValue(st.env, source)])
    case Simple(dest, op, args) =>
      if |args| == |op.Operands()| then
        var (w, mem, trace) := Perform(m, private, op, st.Values(args), State(map[], st.mem, st.trace));
        st.(mem := mem, trace := trace).Write(dest, w)
      else st
    case Param(arg) => st.(params := st.params + [SourceValue(st.env, arg)])
    case CallLabel(dest, callee, count) =>
      var trace := st.trace + [Event(Call(callee, seq(count, _ => Imm(0))), st.params)];
      st.(trace := trace, params := []).Write(dest, m.world(trace))
    case ReadParam(dest, index) => st.Write(dest, m.param(index))
    case _ => st
  }

  function DoAll(m: Machine, private: set<SlotId>, code: seq<Tac>, st: TacState): TacState
    decreases |code|
  {
    if code == [] then st
    else Do(m, private, code[|code| - 1], DoAll(m, private, code[..|code| - 1], st))
  }

  datatype TacStatus = TacAt(block: BlockId, st: TacState) | TacDone(result: Option<Word>, trace: seq<Event>) | TacStuck

  /** Run a block from its first instruction to the transfer that leaves it. */
  function LeaveCode(m: Machine, private: set<SlotId>, code: seq<Tac>, st: TacState): TacStatus
    decreases |code|
  {
    if code == [] then TacStuck
    else
      match code[0]
      case Goto(target) => TacAt(target, st)
      case BranchIf(cond, target) =>
        if SourceValue(st.env, cond) != 0 then TacAt(target, st) else LeaveCode(m, private, code[1..], st)
      case Ret(value) => TacDone(if value.Some? then Some(SourceValue(st.env, value.value)) else None, st.trace)
      case _ => LeaveCode(m, private, code[1..], Do(m, private, code[0], st))
  }

  function TacNext(m: Machine, private: set<SlotId>, cfg: Cfg, s: TacStatus): TacStatus {
    match s
    case TacAt(b, st) => if b < |cfg| then LeaveCode(m, private, cfg[b], st) else TacStuck
    case _ => s
  }

  function TacRun(m: Machine, private: set<SlotId>, cfg: Cfg, entry: BlockId, n: nat): TacStatus
    decreases n
  {
    if n == 0 then TacAt(entry, TacState(map[], map[], [], []))
    else TacNext(m, private, cfg, TacRun(m, private, cfg, entry, n - 1))
  }

  lemma {:induction false} DoAllAppend(m: Machine, private: set<SlotId>, a: seq<Tac>, b: seq<Tac>, st: TacState)
    ensures DoAll(m, private, a + b, st) == DoAll(m, private, b, DoAll(m, private, a, st))
    decreases |b|
  {
    if b == [] {
      assert a + b == a;
    } else {
      var n := |b| - 1;
      assert (a + b)[..|a + b| - 1] == a + b[..n];
      DoAllAppend(m, private, a, b[..n], st);
    }
  }

  ghost predicate Straight(code: seq<Tac>) {
    forall i: nat :: i < |code| ==> !code[i].Transfers()
  }

  /** Straight code runs through before the rest. */
  lemma {:induction false} StraightFirst(m: Machine, private: set<SlotId>, code: seq<Tac>, rest: seq<Tac>, st: TacState)
    requires Straight(code)
    ensures LeaveCode(m, private, code + rest, st) == LeaveCode(m, private, rest, DoAll(m, private, code, st))
    decreases |code|
  {
    if code == [] {
      assert code + rest == rest;
    } else {
      var all := code + rest;
      assert all[0] == code[0] && all[1..] == code[1..] + rest;
      StraightFirst(m, private, code[1..], rest, Do(m, private, code[0], st));
      assert [code[0]] + code[1..] == code;
      DoAllAppend(m, private, [code[0]], code[1..], st);
      DoOne(m, private, code[0], st);
    }
  }

  lemma DoOne(m: Machine, private: set<SlotId>, t: Tac, st: TacState)
    ensures DoAll(m, private, [t], st) == Do(m, private, t, st)
  {
    assert [t][..0] == [];
  }

  function AsTac(moves: seq<Move>): (r: seq<Tac>)
    ensures |r| == |moves| && forall i: nat :: i < |moves| ==> r[i] == Mov(moves[i].dest, moves[i].source)
  {
    seq(|moves|, i requires 0 <= i < |moves| => Mov(moves[i].dest, moves[i].source))
  }

  /** Moves change the homes and nothing else. */
  lemma {:induction false} MovesRun(m: Machine, private: set<SlotId>, moves: seq<Move>, st: TacState)
    ensures DoAll(m, private, AsTac(moves), st) == st.(env := RunMoves(moves, st.env))
    decreases |moves|
  {
    if moves != [] {
      var n := |moves| - 1;
      assert AsTac(moves)[..n] == AsTac(moves[..n]);
      MovesRun(m, private, moves[..n], st);
    }
  }
}
