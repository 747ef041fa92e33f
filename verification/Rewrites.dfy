/** The two rewrites every pass here is made of: reading something equal instead, and erasing
    definitions and stores nothing reads any more. */
module Rewrites {
  import opened IdomTree
  import opened Ssa

  // ---- substitution ----

  type Substitution = map<ValueId, Operand>

  function SubOperand(sub: Substitution, o: Operand): Operand {
    if o.Value? && o.id in sub then sub[o.id] else o
  }

  function SubAll(sub: Substitution, os: seq<Operand>): (r: seq<Operand>)
    ensures |r| == |os|
    ensures forall i :: 0 <= i < |os| ==> r[i] == SubOperand(sub, os[i])
  {
    seq(|os|, i requires 0 <= i < |os| => SubOperand(sub, os[i]))
  }

  function SubOp(sub: Substitution, op: Op): Op {
    op.On(SubAll(sub, op.Operands()))
  }

  function SubTerm(sub: Substitution, term: Terminator): Terminator {
    term.On(SubAll(sub, term.Operands()))
  }

  lemma OnReads(op: Op, os: seq<Operand>)
    requires |os| == |op.Operands()|
    ensures op.On(os).Operands() == os
    ensures op.On(os).Head() == op.Head()
    ensures op.On(os).DefinesValue() == op.DefinesValue()
  {
    match op
    case Call(_, args) => assert op.On(os).Operands() == os;
    case _ => 
  }

  /** Two instructions alike but for operands that read the same do the same. */
  lemma ExecReadsSame(m: Machine, private: set<SlotId>, inst: Inst, os: seq<Operand>, st: State)
    requires |os| == |inst.op.Operands()|
    requires forall i: nat :: i < |os| ==> st.Read(os[i]) == st.Read(inst.op.Operands()[i])
    ensures Exec(m, private, Inst(inst.dest, inst.op.On(os)), st) == Exec(m, private, inst, st)
  {
    OnReads(inst.op, os);
    assert st.ReadAll(os) == st.ReadAll(inst.op.Operands());
  }

  /** `b` is `a` but for operands that read the same in `st`. */
  ghost predicate InstLike(a: Inst, b: Inst, st: State) {
    && b.dest == a.dest
    && |b.op.Operands()| == |a.op.Operands()| && b.op == a.op.On(b.op.Operands())
    && ReadAlike(a.op.Operands(), b.op.Operands(), st)
  }

  ghost predicate ReadAlike(os: seq<Operand>, os': seq<Operand>, st: State) {
    |os| == |os'| && forall i: nat :: i < |os| ==> st.Read(os'[i]) == st.Read(os[i])
  }

  ghost predicate TermLike(a: Terminator, b: Terminator, st: State) {
    && |b.Operands()| == |a.Operands()| && b == a.On(b.Operands())
    && ReadAlike(a.Operands(), b.Operands(), st)
  }

  ghost predicate PhisLike(ps: seq<Phi>, qs: seq<Phi>, preds: seq<BlockId>, pred: BlockId, st: State) {
    |ps| == |qs| && forall k: nat :: k < |ps| ==>
      qs[k].dest == ps[k].dest && st.Read(Arrival(qs[k], preds, pred)) == st.Read(Arrival(ps[k], preds, pred))
  }

  ghost predicate InstsLike(m: Machine, private: set<SlotId>, insts: seq<Inst>, insts': seq<Inst>, st: State) {
    |insts'| == |insts| &&
    forall j: nat :: j < |insts| ==> InstLike(insts[j], insts'[j], ExecAll(m, private, insts[..j], st))
  }

  ghost predicate EdgesLike(f: Func, f': Func, b: BlockId, last: State)
    requires b < f.Size()
  {
    forall c: nat :: c < f.Size() && c < f'.Size() && c in f.blocks[b].term.Successors() ==>
      f'.blocks[c].preds == f.blocks[c].preds
      && PhisLike(f.blocks[c].phis, f'.blocks[c].phis, f.blocks[c].preds, b, last)
  }

  /** Run from `st`, block `b` of `f'` meets operands that read as those of `f` do all the way. */
  ghost predicate BlockLike(m: Machine, private: set<SlotId>, f: Func, f': Func, b: BlockId, st: State)
    requires b < f.Size() && b < f'.Size()
  {
    var last := ExecAll(m, private, f.blocks[b].insts, st);
    && InstsLike(m, private, f.blocks[b].insts, f'.blocks[b].insts, st)
    && TermLike(f.blocks[b].term, f'.blocks[b].term, last)
    && EdgesLike(f, f', b, last)
  }

  lemma StepLike(m: Machine, private: set<SlotId>, a: Inst, b: Inst, st: State)
    requires InstLike(a, b, st)
    ensures Exec(m, private, b, st) == Exec(m, private, a, st)
  {
    ExecReadsSame(m, private, a, b.op.Operands(), st);
    hide Exec;
  }

  lemma {:induction false} BodyLike(m: Machine, private: set<SlotId>, insts: seq<Inst>, insts': seq<Inst>, st: State,
                                    j: nat)
    requires j <= |insts| == |insts'|
    requires forall i: nat :: i < j ==> InstLike(insts[i], insts'[i], ExecAll(m, private, insts[..i], st))
    ensures ExecAll(m, private, insts'[..j], st) == ExecAll(m, private, insts[..j], st)
    decreases j
  {
    if j == 0 {
      assert insts[..0] == [] && insts'[..0] == [];
    } else {
      hide *;
      BodyLike(m, private, insts, insts', st, j - 1);
      ExecAllStep(m, private, insts, j - 1, st);
      ExecAllStep(m, private, insts', j - 1, st);
      StepLike(m, private, insts[j - 1], insts'[j - 1], ExecAll(m, private, insts[..j - 1], st));
    }
  }

  lemma {:induction false} AssignLike(ps: seq<Phi>, qs: seq<Phi>, preds: seq<BlockId>, pred: BlockId, st: State,
                                      vals: map<ValueId, Word>)
    requires PhisLike(ps, qs, preds, pred, st)
    ensures Assign(qs, preds, pred, st, vals) == Assign(ps, preds, pred, st, vals)
    decreases |ps|
  {
    if ps != [] {
      AssignLike(ps[..|ps| - 1], qs[..|ps| - 1], preds, pred, st, vals);
    }
  }

  lemma LikeNext(m: Machine, private: set<SlotId>, f: Func, f': Func, b: BlockId, st: State)
    requires b < f.Size() == f'.Size() && BlockLike(m, private, f, f', b, st)
    ensures Next(m, private, f', At(b, st)) == Next(m, private, f, At(b, st))
  {
    var block, block' := f.blocks[b], f'.blocks[b];
    var n := |block.insts|;
    BodyLike(m, private, block.insts, block'.insts, st, n);
    assert block.insts[..n] == block.insts && block'.insts[..n] == block'.insts;
    var last := ExecAll(m, private, block.insts, st);
    assert ExecAll(m, private, block'.insts, st) == last;
    LikeLeave(m, private, f, f', b, st, last);
  }

  lemma LikeLeave(m: Machine, private: set<SlotId>, f: Func, f': Func, b: BlockId, st: State, last: State)
    requires b < f.Size() == f'.Size()
    requires TermLike(f.blocks[b].term, f'.blocks[b].term, last)
    requires forall c: nat :: c < f.Size() && c in f.blocks[b].term.Successors() ==>
               f'.blocks[c].preds == f.blocks[c].preds
               && PhisLike(f.blocks[c].phis, f'.blocks[c].phis, f.blocks[c].preds, b, last)
    ensures Leave(f', b, last) == Leave(f, b, last)
  {
    var term, term' := f.blocks[b].term, f'.blocks[b].term;
    assert |term.Operands()| > 0 ==> last.Read(term'.Operands()[0]) == last.Read(term.Operands()[0]);
    assert term'.Return? == term.Return?;
    if term.Return? {
      assert term.result.Some? ==> term'.result.Some? && last.Read(term'.result.value) == last.Read(term.result.value);
    } else {
      assert Target(term', last) == Target(term, last);
      var c := Target(term, last);
      assert c in term.Successors();
      if c < f.Size() {
        AssignLike(f.blocks[c].phis, f'.blocks[c].phis, f.blocks[c].preds, b, last, last.vals);
        assert Cross(f'.blocks[c], b, last) == Cross(f.blocks[c], b, last);
      }
    }
  }

  // ---- erasure ----

  /** What is erased: the definitions of some values, and the stores to some slots. */
  datatype Dead = Dead(values: set<ValueId>, slots: set<SlotId>)

  predicate Keeps(dead: Dead, inst: Inst) {
    && !(inst.dest.Some? && inst.dest.value in dead.values)
    && !(inst.op.SlotStore? && inst.op.slot in dead.slots)
  }

  function EraseInsts(dead: Dead, insts: seq<Inst>): seq<Inst>
    decreases |insts|
  {
    if insts == [] then []
    else
      var last := insts[|insts| - 1];
      EraseInsts(dead, insts[..|insts| - 1]) + (if Keeps(dead, last) then [last] else [])
  }

  function ErasePhis(dead: Dead, phis: seq<Phi>): seq<Phi>
    decreases |phis|
  {
    if phis == [] then []
    else
      var last := phis[|phis| - 1];
      ErasePhis(dead, phis[..|phis| - 1]) + (if last.dest in dead.values then [] else [last])
  }

  function EraseBlock(dead: Dead, block: Block): Block {
    block.(phis := ErasePhis(dead, block.phis), insts := EraseInsts(dead, block.insts))
  }

  function EraseBlocks(dead: Dead, blocks: seq<Block>): seq<Block> {
    seq(|blocks|, b requires 0 <= b < |blocks| => EraseBlock(dead, blocks[b]))
  }

  ghost predicate Unread(dead: Dead, os: seq<Operand>) {
    forall i: nat :: i < |os| ==> !(os[i].Value? && os[i].id in dead.values)
  }

  /** An erased instruction has no effect but its value or a store nothing loads; a kept one reads
      nothing erased. */
  ghost predicate InstErasable(private: set<SlotId>, dead: Dead, inst: Inst) {
    if Keeps(dead, inst) then
      Unread(dead, inst.op.Operands()) && !(inst.op.SlotLoad? && inst.op.slot in dead.slots)
    else if inst.op.SlotStore? then inst.op.slot in private && inst.op.slot in dead.slots && inst.dest.None?
    else inst.op.Copy? || inst.op.Undef? || (inst.op.SlotLoad? && inst.op.slot in private)
  }

  ghost predicate PhiErasable(dead: Dead, phi: Phi) {
    phi.dest !in dead.values ==> Unread(dead, phi.args)
  }

  ghost predicate BlockErasable(private: set<SlotId>, dead: Dead, block: Block) {
    && (forall i: nat :: i < |block.insts| ==> InstErasable(private, dead, block.insts[i]))
    && (forall k: nat :: k < |block.phis| ==> PhiErasable(dead, block.phis[k]))
    && Unread(dead, block.term.Operands())
  }

  ghost predicate Erasable(private: set<SlotId>, dead: Dead, f: Func) {
    forall b: nat :: b < |f.blocks| ==> BlockErasable(private, dead, f.blocks[b])
  }

  /** Equal but for what was erased. */
  ghost predicate AgreeBut(m: Machine, dead: Dead, a: State, b: State) {
    && a.trace == b.trace
    && (forall v: ValueId :: v !in dead.values ==> a.Read(Value(v)) == b.Read(Value(v)))
    && (forall s: SlotId :: s !in dead.slots ==> a.Slot(m, s) == b.Slot(m, s))
  }

  ghost predicate SameBut(m: Machine, dead: Dead, a: Status, b: Status) {
    match (a, b)
    case (At(x, s), At(y, t)) => x == y && AgreeBut(m, dead, s, t)
    case (Done(r, tr), Done(r', tr')) => r == r' && tr == tr'
    case (Stuck, Stuck) => true
    case _ => false
  }

  lemma ReadAgrees(m: Machine, dead: Dead, a: State, b: State, o: Operand)
    requires AgreeBut(m, dead, a, b) && !(o.Value? && o.id in dead.values)
    ensures a.Read(o) == b.Read(o)
  {
    if o.Value? {
      assert a.Read(Value(o.id)) == b.Read(Value(o.id));
    }
  }

  lemma ReadsAgree(m: Machine, dead: Dead, a: State, b: State, os: seq<Operand>)
    requires AgreeBut(m, dead, a, b) && Unread(dead, os)
    ensures a.ReadAll(os) == b.ReadAll(os)
  {
    forall i: nat | i < |os| ensures a.Read(os[i]) == b.Read(os[i]) {
      if os[i].Value? {
        assert a.Read(Value(os[i].id)) == b.Read(Value(os[i].id));
      }
    }
  }

  lemma ExecKeptAgrees(m: Machine, private: set<SlotId>, dead: Dead, inst: Inst, a: State, b: State)
    requires AgreeBut(m, dead, a, b) && InstErasable(private, dead, inst) && Keeps(dead, inst)
    ensures AgreeBut(m, dead, Exec(m, private, inst, a), Exec(m, private, inst, b))
  {
    ReadsAgree(m, dead, a, b, inst.op.Operands());
    PerformAgrees(m, private, dead, inst.op, a.ReadAll(inst.op.Operands()), a, b);
    hide Perform;
  }

  /** Equal arguments in agreeing states: equal results, agreeing memories, equal events. */
  lemma PerformAgrees(m: Machine, private: set<SlotId>, dead: Dead, op: Op, args: seq<Word>, a: State, b: State)
    requires AgreeBut(m, dead, a, b) && |args| == |op.Operands()|
    requires !(op.SlotLoad? && op.slot in dead.slots)
    ensures var (w, mem, trace) := Perform(m, private, op, args, a);
            var (w', mem', trace') := Perform(m, private, op, args, b);
            && w == w' && trace == trace'
            && forall s: SlotId :: s !in dead.slots ==>
              State(a.vals, mem, trace).Slot(m, s) == State(b.vals, mem', trace').Slot(m, s)
  {
    match op
    case SlotLoad(s) => assert s !in dead.slots ==> a.Slot(m, s) == b.Slot(m, s);
    case _ =>
  }

  lemma ExecErasedAgrees(m: Machine, private: set<SlotId>, dead: Dead, inst: Inst, a: State, b: State)
    requires AgreeBut(m, dead, a, b) && InstErasable(private, dead, inst) && !Keeps(dead, inst)
    ensures AgreeBut(m, dead, Exec(m, private, inst, a), b)
  {
  }

  lemma {:induction false} ErasedBodyAgrees(m: Machine, private: set<SlotId>, dead: Dead, insts: seq<Inst>, a: State,
                                            b: State)
    requires AgreeBut(m, dead, a, b)
    requires forall i: nat :: i < |insts| ==> InstErasable(private, dead, insts[i])
    ensures AgreeBut(m, dead, ExecAll(m, private, insts, a), ExecAll(m, private, EraseInsts(dead, insts), b))
    decreases |insts|
  {
    if insts != [] {
      var last := insts[|insts| - 1];
      var rest := insts[..|insts| - 1];
      ErasedBodyAgrees(m, private, dead, rest, a, b);
      var erased := EraseInsts(dead, rest);
      if Keeps(dead, last) {
        assert (erased + [last])[..|erased|] == erased;
        ExecKeptAgrees(m, private, dead, last, ExecAll(m, private, rest, a), ExecAll(m, private, erased, b));
      } else {
        assert erased + [] == erased;
        ExecErasedAgrees(m, private, dead, last, ExecAll(m, private, rest, a), ExecAll(m, private, erased, b));
      }
    }
  }

  /** After the phis of an edge: equal where both assigned from equal states. */
  ghost predicate ValsAgreeBut(dead: Dead, x: map<ValueId, Word>, y: map<ValueId, Word>) {
    forall v: ValueId :: v !in dead.values ==>
      (if v in x then x[v] else 0) == (if v in y then y[v] else 0)
  }

  lemma {:induction false} ErasedPhisAgree(m: Machine, dead: Dead, phis: seq<Phi>, preds: seq<BlockId>, pred: BlockId,
                                           a: State, b: State, x: map<ValueId, Word>, y: map<ValueId, Word>)
    requires AgreeBut(m, dead, a, b) && ValsAgreeBut(dead, x, y)
    requires forall k: nat :: k < |phis| ==> ArrivalErasable(dead, phis[k], preds, pred)
    ensures ValsAgreeBut(dead, Assign(phis, preds, pred, a, x), Assign(ErasePhis(dead, phis), preds, pred, b, y))
    decreases |phis|
  {
    hide Assign, ErasePhis, Arrival, AgreeBut, ValsAgreeBut;
    if phis == [] {
      AssignNothing(preds, pred, a, x);
      AssignNothing(preds, pred, b, y);
    } else {
      var n := |phis| - 1;
      var last, rest := phis[n], phis[..n];
      assert rest + [last] == phis;
      ErasedPhisAgree(m, dead, rest, preds, pred, a, b, x, y);
      var erased := ErasePhis(dead, rest);
      AssignSnoc(rest, last, preds, pred, a, x);
      AssignSnoc(erased, last, preds, pred, b, y);
      ErasePhisSnoc(dead, rest, last);
      if last.dest !in dead.values {
        ReadAgrees(m, dead, a, b, Arrival(last, preds, pred));
      }
      WriteAgrees(dead, Assign(rest, preds, pred, a, x), Assign(erased, preds, pred, b, y), last.dest,
                  a.Read(Arrival(last, preds, pred)));
    }
  }

  lemma AssignNothing(preds: seq<BlockId>, pred: BlockId, st: State, vals: map<ValueId, Word>)
    ensures Assign([], preds, pred, st, vals) == vals
    ensures forall dead: Dead :: ErasePhis(dead, []) == []
  {
  }

  lemma AssignSnoc(phis: seq<Phi>, last: Phi, preds: seq<BlockId>, pred: BlockId, st: State, vals: map<ValueId, Word>)
    ensures Assign(phis + [last], preds, pred, st, vals) ==
            Assign(phis, preds, pred, st, vals)[last.dest := st.Read(Arrival(last, preds, pred))]
  {
    assert (phis + [last])[..|phis|] == phis;
  }

  lemma ErasePhisSnoc(dead: Dead, phis: seq<Phi>, last: Phi)
    ensures ErasePhis(dead, phis + [last]) ==
            if last.dest in dead.values then ErasePhis(dead, phis) else ErasePhis(dead, phis) + [last]
  {
    assert (phis + [last])[..|phis|] == phis;
    assert ErasePhis(dead, phis) + [] == ErasePhis(dead, phis);
  }

  lemma WriteAgrees(dead: Dead, x: map<ValueId, Word>, y: map<ValueId, Word>, d: ValueId, w: Word)
    requires ValsAgreeBut(dead, x, y)
    ensures ValsAgreeBut(dead, x[d := w], y[d := w])
    ensures d in dead.values ==> ValsAgreeBut(dead, x[d := w], y)
  {
  }

  ghost predicate ArrivalErasable(dead: Dead, phi: Phi, preds: seq<BlockId>, pred: BlockId) {
    phi.dest !in dead.values ==> var o := Arrival(phi, preds, pred); !(o.Value? && o.id in dead.values)
  }

  lemma CrossErasedAgrees(m: Machine, private: set<SlotId>, dead: Dead, block: Block, pred: BlockId, a: State, b: State)
    requires AgreeBut(m, dead, a, b) && BlockErasable(private, dead, block)
    ensures AgreeBut(m, dead, Cross(block, pred, a), Cross(EraseBlock(dead, block), pred, b))
  {
    assert ValsAgreeBut(dead, a.vals, b.vals) by {
      forall v: ValueId | v !in dead.values
        ensures (if v in a.vals then a.vals[v] else 0) == (if v in b.vals then b.vals[v] else 0)
      {
        assert a.Read(Value(v)) == b.Read(Value(v));
      }
    }
    forall k: nat | k < |block.phis|
      ensures ArrivalErasable(dead, block.phis[k], block.preds, pred)
    {
      assert PhiErasable(dead, block.phis[k]);
    }
    ErasedPhisAgree(m, dead, block.phis, block.preds, pred, a, b, a.vals, b.vals);
    var a', b' := Cross(block, pred, a), Cross(EraseBlock(dead, block), pred, b);
    forall v: ValueId | v !in dead.values
      ensures a'.Read(Value(v)) == b'.Read(Value(v))
    {
    }
  }

  lemma NextErasedAgrees(m: Machine, private: set<SlotId>, dead: Dead, f: Func, f': Func, s: Status, t: Status)
    requires Erasable(private, dead, f) && f'.blocks == EraseBlocks(dead, f.blocks)
    requires SameBut(m, dead, s, t)
    ensures SameBut(m, dead, Next(m, private, f, s), Next(m, private, f', t))
  {
    if s.At? && s.block < f.Size() {
      var block := f.blocks[s.block];
      assert BlockErasable(private, dead, block);
      ErasedBodyAgrees(m, private, dead, block.insts, s.st, t.st);
      var a := ExecAll(m, private, block.insts, s.st);
      var b := ExecAll(m, private, EraseInsts(dead, block.insts), t.st);
      assert Unread(dead, block.term.Operands());
      if !block.term.Return? {
        if block.term.Branch? {
          assert block.term.Operands()[0] == block.term.cond;
          ReadAgrees(m, dead, a, b, block.term.cond);
        }
        var target := Target(block.term, a);
        if target < f.Size() {
          CrossErasedAgrees(m, private, dead, f.blocks[target], s.block, a, b);
        }
      } else if block.term.result.Some? {
        assert block.term.Operands()[0] == block.term.result.value;
        ReadAgrees(m, dead, a, b, block.term.result.value);
      }
    }
  }

  /** Erasing what nothing reads leaves every run as it was, but for the erased values. */
  lemma {:induction false} EraseKeepsRuns(m: Machine, private: set<SlotId>, dead: Dead, f: Func, f': Func, n: nat)
    requires Erasable(private, dead, f) && f'.blocks == EraseBlocks(dead, f.blocks) && f'.entry == f.entry
    ensures SameBut(m, dead, Run(m, private, f, n), Run(m, private, f', n))
    decreases n
  {
    hide Erasable, Next, AgreeBut;
    if n == 0 {
      assert AgreeBut(m, dead, State(map[], map[], []), State(map[], map[], [])) by {
        AgreesWithItself(m, dead, State(map[], map[], []));
      }
    } else {
      EraseKeepsRuns(m, private, dead, f, f', n - 1);
      NextErasedAgrees(m, private, dead, f, f', Run(m, private, f, n - 1), Run(m, private, f', n - 1));
    }
  }

  lemma AgreesWithItself(m: Machine, dead: Dead, a: State)
    ensures AgreeBut(m, dead, a, a)
  {
  }
}
