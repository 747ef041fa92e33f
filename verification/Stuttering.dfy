/** When one function does, in more steps, what another does in fewer. */
module Stuttering {
  import opened IdomTree
  import opened Ssa

  /** The second function reaches, no sooner, what the first has reached after `n` blocks. */
  ghost predicate CaughtUp(m: Machine, private: set<SlotId>, f: Func, f': Func, n: nat) {
    exists n': nat :: n <= n' && Run(m, private, f', n') == Run(m, private, f, n)
  }

  /** Everything the first function reaches the second reaches as well, in at least as many blocks. */
  ghost predicate Follows(m: Machine, private: set<SlotId>, f: Func, f': Func) {
    forall n: nat {:trigger CaughtUp(m, private, f, f', n)} :: CaughtUp(m, private, f, f', n)
  }

  lemma FollowsItself(m: Machine, private: set<SlotId>, f: Func)
    ensures Follows(m, private, f, f)
  {
    forall n: nat ensures CaughtUp(m, private, f, f, n) {
      assert n <= n && Run(m, private, f, n) == Run(m, private, f, n);
    }
  }

  lemma FollowsInTurn(m: Machine, private: set<SlotId>, f: Func, g: Func, h: Func)
    requires Follows(m, private, f, g) && Follows(m, private, g, h)
    ensures Follows(m, private, f, h)
  {
    forall n: nat ensures CaughtUp(m, private, f, h, n) {
      assert CaughtUp(m, private, f, g, n);
      var i: nat :| n <= i && Run(m, private, g, i) == Run(m, private, f, n);
      assert CaughtUp(m, private, g, h, i);
      var j: nat :| i <= j && Run(m, private, h, j) == Run(m, private, g, i);
    }
  }

  /** A finished or stuck run stays as it is. */
  lemma {:induction false} Settled(m: Machine, private: set<SlotId>, f: Func, n: nat, n': nat)
    requires n <= n' && !Run(m, private, f, n).At?
    ensures Run(m, private, f, n') == Run(m, private, f, n)
    decreases n'
  {
    if n < n' {
      Settled(m, private, f, n, n' - 1);
    }
  }

  ghost predicate Ends(m: Machine, private: set<SlotId>, f: Func, result: Option<Word>, trace: seq<Event>) {
    exists n: nat :: Run(m, private, f, n) == Done(result, trace)
  }

  /** One function follows another only if both end alike or neither ends. */
  lemma FollowersEndAlike(m: Machine, private: set<SlotId>, f: Func, f': Func, result: Option<Word>, trace: seq<Event>)
    requires Follows(m, private, f, f')
    ensures Ends(m, private, f, result, trace) <==> Ends(m, private, f', result, trace)
  {
    if Ends(m, private, f, result, trace) {
      var n: nat :| Run(m, private, f, n) == Done(result, trace);
      assert CaughtUp(m, private, f, f', n);
      var n': nat :| n <= n' && Run(m, private, f', n') == Run(m, private, f, n);
    }
    if Ends(m, private, f', result, trace) {
      var n': nat :| Run(m, private, f', n') == Done(result, trace);
      assert CaughtUp(m, private, f, f', n');
      var i: nat :| n' <= i && Run(m, private, f', i) == Run(m, private, f, n');
      Settled(m, private, f', n', i);
    }
  }

  /** Both still run and have the same events behind them, or ended alike. */
  ghost predicate SameShown(s: Status, t: Status) {
    match s
    case At(_, st) => t.At? && t.st.trace == st.trace
    case Done(_, _) => t == s
    case Stuck => t == s
  }

  ghost function TraceOf(status: Status): seq<Event> {
    match status
    case At(_, st) => st.trace
    case Done(_, trace) => trace
    case Stuck => []
  }

  lemma PerformExtends(m: Machine, private: set<SlotId>, op: Op, args: seq<Word>, st: State)
    requires |args| == |op.Operands()|
    ensures st.trace <= Perform(m, private, op, args, st).2
  {
  }

  lemma {:induction false} ExecExtends(m: Machine, private: set<SlotId>, insts: seq<Inst>, st: State)
    ensures st.trace <= ExecAll(m, private, insts, st).trace
    decreases |insts|
  {
    if insts != [] {
      var before := ExecAll(m, private, insts[..|insts| - 1], st);
      var inst := insts[|insts| - 1];
      ExecExtends(m, private, insts[..|insts| - 1], st);
      PerformExtends(m, private, inst.op, before.ReadAll(inst.op.Operands()), before);
      hide Perform;
    }
  }

  /** Events that happened stay. */
  lemma {:induction false} TracesGrow(m: Machine, private: set<SlotId>, f: Func, n: nat, n': nat)
    requires n <= n' && !Run(m, private, f, n').Stuck?
    ensures TraceOf(Run(m, private, f, n)) <= TraceOf(Run(m, private, f, n'))
    decreases n'
  {
    if n < n' {
      RunStep(m, private, f, n');
      var s := Run(m, private, f, n' - 1);
      TracesGrow(m, private, f, n, n' - 1);
      if s.At? {
        ExecExtends(m, private, f.blocks[s.block].insts, s.st);
      }
      hide Run, ExecAll;
    }
  }

  /** What the follower has done after `n` blocks the other one has done by then, too. */
  lemma FollowersTrail(m: Machine, private: set<SlotId>, f: Func, f': Func, n: nat)
    requires Follows(m, private, f, f') && !Run(m, private, f, n).Stuck?
    ensures TraceOf(Run(m, private, f', n)) <= TraceOf(Run(m, private, f, n))
  {
    assert CaughtUp(m, private, f, f', n);
    var i: nat :| n <= i && Run(m, private, f', i) == Run(m, private, f, n);
    TracesGrow(m, private, f', n, i);
  }

  /** One block of the first is one or two of the second. */
  ghost predicate Catches(m: Machine, private: set<SlotId>, f: Func, f': Func, s: Status) {
    || Next(m, private, f', s) == Next(m, private, f, s)
    || Next(m, private, f', Next(m, private, f', s)) == Next(m, private, f, s)
  }

  /** Outside the blocks of `dead`, which no run enters, one block of `f` is one or two of `f'`. */
  ghost predicate StepsFollow(m: Machine, private: set<SlotId>, f: Func, f': Func, dead: set<BlockId>) {
    && Alive(f, dead, f.entry) && f'.entry == f.entry
    && forall b: BlockId, st: State {:trigger At(b, st)} :: Alive(f, dead, b) ==>
         Catches(m, private, f, f', At(b, st)) && StaysAlive(f, dead, Next(m, private, f, At(b, st)))
  }

  ghost predicate Alive(f: Func, dead: set<BlockId>, b: BlockId) {
    b < f.Size() && b !in dead
  }

  ghost predicate StaysAlive(f: Func, dead: set<BlockId>, s: Status) {
    s.At? ==> Alive(f, dead, s.block)
  }

  lemma {:induction false} StepsFollowUpTo(m: Machine, private: set<SlotId>, f: Func, f': Func, dead: set<BlockId>,
                                           n: nat)
    requires StepsFollow(m, private, f, f', dead)
    ensures CaughtUp(m, private, f, f', n) && StaysAlive(f, dead, Run(m, private, f, n))
    decreases n
  {
    hide Next;
    if n == 0 {
      assert Run(m, private, f', 0) == Run(m, private, f, 0);
    } else {
      StepsFollowUpTo(m, private, f, f', dead, n - 1);
      var i: nat :| n - 1 <= i && Run(m, private, f', i) == Run(m, private, f, n - 1);
      var s := Run(m, private, f, n - 1);
      var next := i + 1;
      RunStep(m, private, f, n);
      RunStep(m, private, f', next);
      RunStep(m, private, f', next + 1);
      if s.At? {
        assert s == At(s.block, s.st);
        assert Catches(m, private, f, f', s);
      } else {
        StopsAt(m, private, f, f', s);
      }
      assert Run(m, private, f', next) == Run(m, private, f, n) ||
             Run(m, private, f', next + 1) == Run(m, private, f, n);
    }
  }

  lemma StopsAt(m: Machine, private: set<SlotId>, f: Func, f': Func, s: Status)
    requires !s.At?
    ensures Next(m, private, f, s) == s == Next(m, private, f', s)
  {
  }

  lemma FollowsBySteps(m: Machine, private: set<SlotId>, f: Func, f': Func, dead: set<BlockId>)
    requires StepsFollow(m, private, f, f', dead)
    ensures Follows(m, private, f, f')
  {
    hide StepsFollow, CaughtUp, StaysAlive;
    forall n: nat ensures CaughtUp(m, private, f, f', n) {
      StepsFollowUpTo(m, private, f, f', dead, n);
    }
  }

  // ---- one block ----

  lemma NextLeaves(m: Machine, private: set<SlotId>, f: Func, b: BlockId, st: State)
    requires b < f.Size()
    ensures Next(m, private, f, At(b, st)) == Leave(f, b, ExecAll(m, private, f.blocks[b].insts, st))
  {
  }

  lemma LeaveTo(f: Func, b: BlockId, st: State, x: BlockId)
    requires b < f.Size() && !f.blocks[b].term.Return? && x == Target(f.blocks[b].term, st) && x < f.Size()
    ensures Leave(f, b, st) == At(x, Cross(f.blocks[x], b, st))
  {
  }

  // ---- states the runs agree on ----

  /** The arguments of a phi along parallel edges are the same. */
  ghost predicate ParallelAgree(block: Block) {
    forall k: nat, i: nat, j: nat ::
      k < |block.phis| && i < j < |block.preds| && j < |block.phis[k].args| && block.preds[i] == block.preds[j] ==>
      block.phis[k].args[i] == block.phis[k].args[j]
  }

  ghost predicate AllParallelAgree(f: Func) {
    forall b: BlockId :: b < f.Size() ==> ParallelAgree(f.blocks[b])
  }

  ghost predicate SameArrivals(a: Block, p: BlockId, b: Block, q: BlockId) {
    && |a.phis| == |b.phis|
    && forall k: nat :: k < |a.phis| ==>
      a.phis[k].dest == b.phis[k].dest && Arrival(a.phis[k], a.preds, p) == Arrival(b.phis[k], b.preds, q)
  }

  lemma {:induction false} AssignAlike(a: seq<Phi>, preds: seq<BlockId>, p: BlockId, b: seq<Phi>, preds': seq<BlockId>,
                                       q: BlockId, st: State, vals: map<ValueId, Word>)
    requires |a| == |b|
    requires forall k: nat :: k < |a| ==> a[k].dest == b[k].dest && Arrival(a[k], preds, p) == Arrival(b[k], preds', q)
    ensures Assign(a, preds, p, st, vals) == Assign(b, preds', q, st, vals)
    decreases |a|
  {
    hide Arrival;
    if a != [] {
      AssignAlike(a[..|a| - 1], preds, p, b[..|b| - 1], preds', q, st, vals);
    }
  }

  lemma CrossAlike(a: Block, p: BlockId, b: Block, q: BlockId, st: State)
    requires SameArrivals(a, p, b, q)
    ensures Cross(a, p, st) == Cross(b, q, st)
  {
    AssignAlike(a.phis, a.preds, p, b.phis, b.preds, q, st, st.vals);
  }
}
