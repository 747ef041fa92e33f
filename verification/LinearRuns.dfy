/** Run on virtual registers, instruction by instruction, encoded code does what it did block by block. */
module LinearRuns {
  import opened IdomTree
  import opened Ssa
  import opened ParallelCopies
  import opened Tac
  import opened LinearCode
  import V = Vregs
  import A = AllocSim
  import L = Linear
  import Liveness

  // ---- the host a machine makes ----

  /** The event the outside world knows, from the instruction that caused it. */
  function Decoded(names: Naming, e: A.Event): Event {
    match e.instr.opcode
    case Call =>
      var name := if e.instr.arg1.Some? && e.instr.arg1.value.Label? then names.nameOf(e.instr.arg1.value.target)
                  else "";
      var count := if e.instr.arg2.Some? && e.instr.arg2.value.ImmInt? && e.instr.arg2.value.value >= 0
                   then e.instr.arg2.value.value else 0;
      Event(Ssa.Call(name, seq(count, _ => Imm(0))), e.args)
    case Load => Event(Ssa.Load(Imm(0)), e.args)
    case Store => Event(Ssa.Store(Imm(0), Imm(0)), e.args)
    case ArrayLoad => Event(Ssa.ArrayLoad(VariableOf(e.instr.arg1), Imm(0)), Behind(e.args))
    case ArrayAddr => Event(Ssa.ArrayAddr(VariableOf(e.instr.arg1), Imm(0)), Behind(e.args))
    case ArrayStore => Event(Ssa.ArrayStore(VariableOf(e.instr.dest), Imm(0), Imm(0)), Behind(e.args))
    case _ => Event(Undef, e.args)
  }

  /** The array an access names. */
  function VariableOf(o: Option<V.Operand>): SlotId {
    if o.Some? && o.value.OfVar? then o.value.id else 0
  }

  /** The words after the array's own. */
  function Behind(args: seq<Word>): seq<Word> {
    if args == [] then [] else args[1..]
  }

  function DecodedAll(names: Naming, trace: seq<A.Event>): (r: seq<Event>)
    ensures |r| == |trace| && forall i: nat :: i < |r| ==> r[i] == Decoded(names, trace[i])
  {
    seq(|trace|, i requires 0 <= i < |trace| => Decoded(names, trace[i]))
  }

  function ResultOf(m: Machine, names: Naming, instr: V.Instr, args: seq<Word>, trace: seq<A.Event>): Word {
    match instr.opcode
    case Mov => if |args| > 0 then args[0] else 0
    case Arithmetic(kind) => m.pure(Binary(kind, Imm(0), Imm(0)), args)
    case Convert(kind) => m.pure(Ssa.Convert(kind, Imm(0)), args)
    case GetParam =>
      if instr.arg1.Some? && instr.arg1.value.ImmInt? && instr.arg1.value.value >= 0
      then m.param(instr.arg1.value.value) else 0
    case _ => m.world(DecodedAll(names, trace))
  }

  /** The same machine, working on instructions; `garbage` is what calls leave in registers they may use. */
  function HostOf(m: Machine, names: Naming, garbage: (seq<A.Event>, nat) -> Word): A.Host {
    A.Host((instr, args, trace) => ResultOf(m, names, instr, args, trace), garbage)
  }

  // ---- states ----

  /** The same values, slot memory, arguments and events. */
  ghost predicate Mirrors(names: Naming, s: A.VirtualState, u: TacState) {
    && (forall p: Place :: A.ValueOf(s.vals, RegOf(p)) == Get(u.env, p))
    && (forall slot: SlotId :: A.ValueOf(s.vals, V.Var(slot)) == if slot in u.mem then u.mem[slot] else 0)
    && s.params == u.params && DecodedAll(names, s.trace) == u.trace
  }

  /** An operation on values, private slots, memory by address and the elements of arrays. */
  predicate Scalar(private: set<SlotId>, op: Op) {
    && !op.AddrOf?
    && ((op.SlotLoad? || op.SlotStore?) ==> op.slot in private)
  }

  /** Leaving SSA form makes only such operations into plain instructions. */
  predicate Encodable(private: set<SlotId>, t: Tac) {
    t.Simple? ==> |t.args| == |t.op.Operands()| && Scalar(private, t.op)
                  && !t.op.Copy? && !t.op.Undef? && !t.op.Call? && !t.op.GetParam?
  }

  lemma SourceMirrors(names: Naming, s: A.VirtualState, u: TacState, source: Source)
    requires Mirrors(names, s, u)
    ensures A.OperandValue(s.vals, InSource(source)) == SourceValue(u.env, source)
  {
    if source.From? {
      assert A.ValueOf(s.vals, RegOf(source.place)) == Get(u.env, source.place);
    }
  }

  lemma RegsDiffer(p: Place, q: Place)
    ensures RegOf(p) == RegOf(q) <==> p == q
  {
  }

  /** Writing a place on both sides. */
  lemma WriteMirrors(names: Naming, s: A.VirtualState, u: TacState, dest: Option<Place>, w: Word,
                     s': A.VirtualState)
    requires Mirrors(names, s, u)
    requires s'.vals == if dest.Some? then s.vals[RegOf(dest.value) := w] else s.vals
    requires s'.params == s.params && s'.trace == s.trace
    ensures Mirrors(names, s', u.Write(dest, w))
  {
    var u' := u.Write(dest, w);
    forall p: Place ensures A.ValueOf(s'.vals, RegOf(p)) == Get(u'.env, p) {
      assert A.ValueOf(s.vals, RegOf(p)) == Get(u.env, p);
      if dest.Some? {
        RegsDiffer(p, dest.value);
      }
    }
    forall slot: SlotId
      ensures A.ValueOf(s'.vals, V.Var(slot)) == if slot in u'.mem then u'.mem[slot] else 0
    {
      assert A.ValueOf(s.vals, V.Var(slot)) == if slot in u.mem then u.mem[slot] else 0;
    }
    hide DecodedAll;
  }

  lemma StoreMirrors(names: Naming, s: A.VirtualState, u: TacState, slot: SlotId, w: Word)
    requires Mirrors(names, s, u)
    ensures Mirrors(names, s.(vals := s.vals[V.Var(slot) := w]), u.(mem := u.mem[slot := w]))
  {
    var s', u' := s.(vals := s.vals[V.Var(slot) := w]), u.(mem := u.mem[slot := w]);
    forall p: Place ensures A.ValueOf(s'.vals, RegOf(p)) == Get(u'.env, p) {
      assert A.ValueOf(s.vals, RegOf(p)) == Get(u.env, p);
    }
    forall r: SlotId ensures A.ValueOf(s'.vals, V.Var(r)) == if r in u'.mem then u'.mem[r] else 0 {
      assert A.ValueOf(s.vals, V.Var(r)) == if r in u.mem then u.mem[r] else 0;
    }
    hide DecodedAll;
  }

  lemma EventMirrors(names: Naming, s: A.VirtualState, u: TacState, e: A.Event, params: seq<Word>)
    requires Mirrors(names, s, u)
    ensures DecodedAll(names, s.trace + [e]) == u.trace + [Decoded(names, e)]
    ensures Mirrors(names, s.(trace := s.trace + [e], params := params),
                    u.(trace := u.trace + [Decoded(names, e)], params := params))
  {
    assert DecodedAll(names, s.trace + [e]) == DecodedAll(names, s.trace) + [Decoded(names, e)];
    hide DecodedAll;
  }

  // ---- one instruction ----

  /** What a plain instruction writes is what the host says. */
  lemma PlainDoes(m: Machine, names: Naming, garbage: (seq<A.Event>, nat) -> Word, instr: V.Instr, s: A.VirtualState,
                  args: seq<Word>)
    requires !instr.opcode.Param? && !instr.opcode.Call? && args == A.ReadValues(s.vals, A.Read(instr))
    ensures var trace := if A.IsEvent(instr.opcode) then s.trace + [A.Event(instr, args)] else s.trace;
            var w := ResultOf(m, names, instr, args, trace);
            A.VirtualDo(HostOf(m, names, garbage), instr, s)
            == A.VirtualState(if V.Def(instr).Some? then s.vals[V.Def(instr).value := w] else s.vals, s.params, trace)
  {
    hide ResultOf, A.Read, V.Def;
  }

  /** What an encoded operation reads and writes. */
  lemma EncodedReads(result: Option<Place>, op: Op, args: seq<Source>, vals: A.Values)
    requires |args| == |op.Operands()| && (op.Binary? || op.Convert? || op.Load? || op.Store?)
    ensures var instr := EncodedOp(result, op, args);
            && |A.Read(instr)| == |args| && (forall i: nat :: i < |args| ==> A.Read(instr)[i] == InSource(args[i]))
            && V.Def(instr) == (if result.Some? && !op.Store? then Some(RegOf(result.value)) else None)
            && A.IsEvent(instr.opcode) == (op.Load? || op.Store?)
            && !instr.opcode.Param? && !instr.opcode.Call?
  {
  }

  lemma ArgsMirror(names: Naming, s: A.VirtualState, u: TacState, args: seq<Source>, os: seq<V.Operand>)
    requires Mirrors(names, s, u) && |os| == |args| && forall i: nat :: i < |args| ==> os[i] == InSource(args[i])
    ensures A.ReadValues(s.vals, os) == u.Values(args)
  {
    forall i: nat | i < |args| ensures A.ReadValues(s.vals, os)[i] == u.Values(args)[i] {
      SourceMirrors(names, s, u, args[i]);
    }
  }

  lemma HeadsDecode(names: Naming, result: Option<Place>, op: Op, args: seq<Source>, words: seq<Word>)
    requires |args| == |op.Operands()| && (op.Load? || op.Store?)
    ensures Decoded(names, A.Event(EncodedOp(result, op, args), words)) == Event(op.Head(), words)
  {
  }

  lemma PureResult(m: Machine, names: Naming, result: Option<Place>, op: Op, args: seq<Source>, words: seq<Word>,
                   trace: seq<A.Event>)
    requires |args| == |op.Operands()| && (op.Binary? || op.Convert? || op.Load? || op.Store?)
    ensures ResultOf(m, names, EncodedOp(result, op, args), words, trace)
         == if op.Binary? || op.Convert? then m.pure(op.Head(), words) else m.world(DecodedAll(names, trace))
  {
    hide DecodedAll;
  }

  lemma ComputeMirrors(m: Machine, names: Naming, garbage: (seq<A.Event>, nat) -> Word, private: set<SlotId>,
                       result: Option<Place>, op: Op, args: seq<Source>, s: A.VirtualState, u: TacState)
    requires Mirrors(names, s, u) && |args| == |op.Operands()| && (op.Binary? || op.Convert?)
    ensures Mirrors(names, A.VirtualDo(HostOf(m, names, garbage), EncodedOp(result, op, args), s),
                    Do(m, private, Simple(result, op, args), u))
  {
    var instr, words := EncodedOp(result, op, args), u.Values(args);
    EncodedReads(result, op, args, s.vals);
    ArgsMirror(names, s, u, args, A.Read(instr));
    PlainDoes(m, names, garbage, instr, s, words);
    PureResult(m, names, result, op, args, words, s.trace);
    var w := m.pure(op.Head(), words);
    assert Do(m, private, Simple(result, op, args), u) == u.Write(result, w);
    hide A.VirtualDo, ResultOf, EncodedOp, V.Def, A.Read, Mirrors, Do, Op.Head, A.IsEvent;
    WriteMirrors(names, s, u, result, w, A.VirtualDo(HostOf(m, names, garbage), instr, s));
  }

  lemma AccessMirrors(m: Machine, names: Naming, garbage: (seq<A.Event>, nat) -> Word, private: set<SlotId>,
                      result: Option<Place>, op: Op, args: seq<Source>, s: A.VirtualState, u: TacState)
    requires Mirrors(names, s, u) && |args| == |op.Operands()| && (op.Load? || op.Store?)
    requires op.Store? ==> result.None?
    ensures Mirrors(names, A.VirtualDo(HostOf(m, names, garbage), EncodedOp(result, op, args), s),
                    Do(m, private, Simple(result, op, args), u))
  {
    var instr, words := EncodedOp(result, op, args), u.Values(args);
    var e := A.Event(instr, words);
    EncodedReads(result, op, args, s.vals);
    ArgsMirror(names, s, u, args, A.Read(instr));
    PlainDoes(m, names, garbage, instr, s, words);
    PureResult(m, names, result, op, args, words, s.trace + [e]);
    EventMirrors(names, s, u, e, s.params);
    HeadsDecode(names, result, op, args, words);
    var trace := u.trace + [Event(op.Head(), words)];
    var w := m.world(trace);
    assert Do(m, private, Simple(result, op, args), u) == u.(trace := trace).Write(result, w);
    hide A.VirtualDo, ResultOf, EncodedOp, V.Def, A.Read, Mirrors, Do, Op.Head, A.IsEvent, Decoded, DecodedAll;
    WriteMirrors(names, s.(trace := s.trace + [e]), u.(trace := trace), result, w,
                 A.VirtualDo(HostOf(m, names, garbage), instr, s));
  }

  predicate OnArray(op: Op) {
    op.ArrayLoad? || op.ArrayStore? || op.ArrayAddr?
  }

  lemma ArrayReads(names: Naming, result: Option<Place>, op: Op, args: seq<Source>, word: Word, words: seq<Word>)
    requires |args| == |op.Operands()| && OnArray(op)
    ensures var instr := EncodedOp(result, op, args);
            && A.Read(instr) == [V.OfVar(op.base)] + InSources(args)
            && V.Def(instr) == (if result.Some? && !op.ArrayStore? then Some(RegOf(result.value)) else None)
            && A.IsEvent(instr.opcode) && !instr.opcode.Param? && !instr.opcode.Call?
            && Decoded(names, A.Event(instr, [word] + words)) == Event(op.Head(), words)
  {
    OperationReads(result, op, args);
    assert ([word] + words)[1..] == words;
  }

  lemma ArrayResult(m: Machine, names: Naming, result: Option<Place>, op: Op, args: seq<Source>, words: seq<Word>,
                    trace: seq<A.Event>)
    requires |args| == |op.Operands()| && OnArray(op)
    ensures ResultOf(m, names, EncodedOp(result, op, args), words, trace) == m.world(DecodedAll(names, trace))
  {
    hide DecodedAll;
  }

  /** An array is named, not read: what the outside world sees of an access is its position and the word stored. */
  lemma ArrayMirrors(m: Machine, names: Naming, garbage: (seq<A.Event>, nat) -> Word, private: set<SlotId>,
                     result: Option<Place>, op: Op, args: seq<Source>, s: A.VirtualState, u: TacState)
    requires Mirrors(names, s, u) && |args| == |op.Operands()| && OnArray(op)
    requires op.ArrayStore? ==> result.None?
    ensures Mirrors(names, A.VirtualDo(HostOf(m, names, garbage), EncodedOp(result, op, args), s),
                    Do(m, private, Simple(result, op, args), u))
  {
    var instr, words := EncodedOp(result, op, args), u.Values(args);
    var word := A.OperandValue(s.vals, V.OfVar(op.base));
    var e := A.Event(instr, [word] + words);
    ArrayReads(names, result, op, args, word, words);
    ArgsMirror(names, s, u, args, InSources(args));
    ReadBehind(s.vals, V.OfVar(op.base), InSources(args));
    PlainDoes(m, names, garbage, instr, s, [word] + words);
    ArrayResult(m, names, result, op, args, [word] + words, s.trace + [e]);
    EventMirrors(names, s, u, e, s.params);
    var trace := u.trace + [Event(op.Head(), words)];
    var w := m.world(trace);
    assert Do(m, private, Simple(result, op, args), u) == u.(trace := trace).Write(result, w);
    hide A.VirtualDo, ResultOf, EncodedOp, V.Def, A.Read, Mirrors, Do, Op.Head, A.IsEvent, Decoded, DecodedAll,
         A.OperandValue;
    WriteMirrors(names, s.(trace := s.trace + [e]), u.(trace := trace), result, w,
                 A.VirtualDo(HostOf(m, names, garbage), instr, s));
  }

  lemma ReadBehind(vals: A.Values, o: V.Operand, os: seq<V.Operand>)
    ensures A.ReadValues(vals, [o] + os) == [A.OperandValue(vals, o)] + A.ReadValues(vals, os)
  {
    hide A.OperandValue;
  }

  /** A move, and a load of a slot, which is one. */
  lemma MoveMirrors(m: Machine, names: Naming, garbage: (seq<A.Event>, nat) -> Word, result: Option<Place>,
                    source: V.Operand, w: Word, s: A.VirtualState, u: TacState)
    requires Mirrors(names, s, u) && A.OperandValue(s.vals, source) == w
    ensures Mirrors(names, A.VirtualDo(HostOf(m, names, garbage),
                                       V.Instr(V.Mov, IntoPlace(result), Some(source), None), s),
                    u.Write(result, w))
  {
    var instr := V.Instr(V.Mov, IntoPlace(result), Some(source), None);
    assert A.Read(instr) == [source];
    assert V.Def(instr) == if result.Some? then Some(RegOf(result.value)) else None;
    PlainDoes(m, names, garbage, instr, s, [w]);
    hide A.VirtualDo, V.Def, A.Read, Mirrors;
    WriteMirrors(names, s, u, result, w, A.VirtualDo(HostOf(m, names, garbage), instr, s));
  }

  lemma SlotStoreMirrors(m: Machine, names: Naming, garbage: (seq<A.Event>, nat) -> Word, slot: SlotId, source: Source,
                         s: A.VirtualState, u: TacState)
    requires Mirrors(names, s, u)
    ensures Mirrors(names, A.VirtualDo(HostOf(m, names, garbage),
                                       V.Instr(V.Mov, Some(V.OfVar(slot)), Some(InSource(source)), None), s),
                    u.(mem := u.mem[slot := SourceValue(u.env, source)]))
  {
    var instr := V.Instr(V.Mov, Some(V.OfVar(slot)), Some(InSource(source)), None);
    SourceMirrors(names, s, u, source);
    var w := SourceValue(u.env, source);
    assert A.Read(instr) == [InSource(source)];
    assert V.Def(instr) == Some(V.Var(slot));
    PlainDoes(m, names, garbage, instr, s, [w]);
    hide A.VirtualDo, V.Def, A.Read, Mirrors;
    StoreMirrors(names, s, u, slot, w);
  }

  lemma CallMirrors(m: Machine, names: Naming, garbage: (seq<A.Event>, nat) -> Word, private: set<SlotId>,
                    result: Option<Place>, callee: string, count: nat, s: A.VirtualState, u: TacState)
    requires Mirrors(names, s, u) && TellsApart(names)
    ensures Mirrors(names, A.VirtualDo(HostOf(m, names, garbage), Encoded(names, CallLabel(result, callee, count)), s),
                    Do(m, private, CallLabel(result, callee, count), u))
  {
    var instr := Encoded(names, CallLabel(result, callee, count));
    var e := A.Event(instr, s.params);
    EventMirrors(names, s, u, e, []);
    assert Decoded(names, e) == Event(Ssa.Call(callee, seq(count, _ => Imm(0))), u.params);
    var trace := u.trace + [Decoded(names, e)];
    var w := m.world(trace);
    assert V.Def(instr) == if result.Some? then Some(RegOf(result.value)) else None;
    var s1, u1 := s.(trace := s.trace + [e], params := []), u.(trace := trace, params := []);
    assert A.VirtualDo(HostOf(m, names, garbage), instr, s)
        == s1.(vals := if result.Some? then s.vals[RegOf(result.value) := w] else s.vals);
    hide A.VirtualDo, V.Def, A.Read, Mirrors, Decoded, DecodedAll;
    WriteMirrors(names, s1, u1, result, w, A.VirtualDo(HostOf(m, names, garbage), instr, s));
  }

  lemma ParamMirrors(m: Machine, names: Naming, garbage: (seq<A.Event>, nat) -> Word, private: set<SlotId>,
                     arg: Source, s: A.VirtualState, u: TacState)
    requires Mirrors(names, s, u)
    ensures Mirrors(names, A.VirtualDo(HostOf(m, names, garbage), Encoded(names, Param(arg)), s),
                    Do(m, private, Param(arg), u))
  {
    var instr := Encoded(names, Param(arg));
    assert A.Read(instr) == [InSource(arg)];
    SourceMirrors(names, s, u, arg);
    assert A.ReadValues(s.vals, A.Read(instr)) == [SourceValue(u.env, arg)];
    hide DecodedAll;
  }

  lemma ReadParamMirrors(m: Machine, names: Naming, garbage: (seq<A.Event>, nat) -> Word, private: set<SlotId>,
                         into: Option<Place>, index: nat, s: A.VirtualState, u: TacState)
    requires Mirrors(names, s, u)
    ensures Mirrors(names, A.VirtualDo(HostOf(m, names, garbage), Encoded(names, ReadParam(into, index)), s),
                    Do(m, private, ReadParam(into, index), u))
  {
    var instr := Encoded(names, ReadParam(into, index));
    assert A.Read(instr) == [];
    assert V.Def(instr) == if into.Some? then Some(RegOf(into.value)) else None;
    PlainDoes(m, names, garbage, instr, s, []);
    hide A.VirtualDo, V.Def, A.Read, Mirrors;
    WriteMirrors(names, s, u, into, m.param(index), A.VirtualDo(HostOf(m, names, garbage), instr, s));
  }

  lemma SlotMirrors(m: Machine, names: Naming, garbage: (seq<A.Event>, nat) -> Word, private: set<SlotId>,
                    result: Option<Place>, op: Op, args: seq<Source>, s: A.VirtualState, u: TacState)
    requires Mirrors(names, s, u) && m.undef == 0 && |args| == |op.Operands()|
    requires (op.SlotLoad? || op.SlotStore?) && op.slot in private && (op.SlotStore? ==> result.None?)
    ensures Mirrors(names, A.VirtualDo(HostOf(m, names, garbage), EncodedOp(result, op, args), s),
                    Do(m, private, Simple(result, op, args), u))
  {
    var slot := op.slot;
    if op.SlotLoad? {
      var w := if slot in u.mem then u.mem[slot] else 0;
      assert A.ValueOf(s.vals, V.Var(slot)) == w;
      assert A.OperandValue(s.vals, V.OfVar(slot)) == w;
      MoveMirrors(m, names, garbage, result, V.OfVar(slot), w, s, u);
      assert Do(m, private, Simple(result, op, args), u) == u.Write(result, w);
    } else {
      SlotStoreMirrors(m, names, garbage, slot, args[0], s, u);
      assert u.Values(args)[0] == SourceValue(u.env, args[0]);
      assert Do(m, private, Simple(result, op, args), u) == u.(mem := u.mem[slot := SourceValue(u.env, args[0])]);
    }
    hide A.VirtualDo, Mirrors;
  }

  /** An instruction that does not transfer control. */
  lemma DoMirrors(m: Machine, names: Naming, garbage: (seq<A.Event>, nat) -> Word, private: set<SlotId>, t: Tac,
                  s: A.VirtualState, u: TacState)
    requires Mirrors(names, s, u) && TellsApart(names) && m.undef == 0 && Encodable(private, t) && !t.Transfers()
    requires StoresPlain(t)
    ensures Mirrors(names, A.VirtualDo(HostOf(m, names, garbage), Encoded(names, t), s), Do(m, private, t, u))
  {
    hide Mirrors, A.VirtualDo, HostOf, EncodedOp, TellsApart;
    match t
    case Mov(dest, source) =>
      SourceMirrors(names, s, u, source);
      MoveMirrors(m, names, garbage, Some(dest), InSource(source), SourceValue(u.env, source), s, u);
    case Simple(result, op, args) =>
      hide Do;
      if op.Binary? || op.Convert? {
        ComputeMirrors(m, names, garbage, private, result, op, args, s, u);
      } else if op.Load? || op.Store? {
        AccessMirrors(m, names, garbage, private, result, op, args, s, u);
      } else if OnArray(op) {
        ArrayMirrors(m, names, garbage, private, result, op, args, s, u);
      } else {
        SlotMirrors(m, names, garbage, private, result, op, args, s, u);
      }
    case Param(arg) => ParamMirrors(m, names, garbage, private, arg, s, u);
    case CallLabel(result, callee, count) => CallMirrors(m, names, garbage, private, result, callee, count, s, u);
    case ReadParam(into, index) => ReadParamMirrors(m, names, garbage, private, into, index, s, u);
  }

  // ---- from block to block ----

  /** Everything in the code can be encoded, and stores have no result. */
  ghost predicate AllEncodable(private: set<SlotId>, cfg: Cfg) {
    forall b: nat, k: nat :: b < |cfg| && k < |cfg[b]| ==> Encodable(private, cfg[b][k]) && StoresPlain(cfg[b][k])
  }

  predicate StoresPlain(t: Tac) {
    t.Simple? && !t.op.DefinesValue() ==> t.result.None?
  }

  /** `n` steps from anywhere. */
  function VirtualFrom(h: A.Host, cfg: L.Cfg, r: A.Run<A.VirtualState>, n: nat): A.Run<A.VirtualState>
    decreases n
  {
    if n == 0 then r else A.VirtualNext(h, cfg, VirtualFrom(h, cfg, r, n - 1))
  }

  lemma {:induction false} FromAdds(h: A.Host, cfg: L.Cfg, r: A.Run<A.VirtualState>, a: nat, b: nat)
    ensures VirtualFrom(h, cfg, VirtualFrom(h, cfg, r, a), b) == VirtualFrom(h, cfg, r, a + b)
    decreases b
  {
    hide A.VirtualNext;
    if b > 0 {
      FromAdds(h, cfg, r, a, b - 1);
    }
  }

  lemma {:induction false} FromStart(h: A.Host, cfg: L.Cfg, start: A.VirtualState, n: nat)
    ensures A.VirtualRun(h, cfg, start, n) == VirtualFrom(h, cfg, A.At(Liveness.Point(cfg.entry, 0), start), n)
    decreases n
  {
    hide A.VirtualNext;
    if n > 0 {
      FromStart(h, cfg, start, n - 1);
    }
  }

  lemma OneStep(h: A.Host, cfg: L.Cfg, r: A.Run<A.VirtualState>)
    ensures VirtualFrom(h, cfg, r, 1) == A.VirtualNext(h, cfg, r)
  {
    assert VirtualFrom(h, cfg, r, 0) == r;
    hide A.VirtualNext;
  }

  ghost predicate RunMirrors(names: Naming, r: A.Run<A.VirtualState>, t: TacStatus) {
    match t
    case TacAt(b, u) => r.At? && r.p == Liveness.Point(b, 0) && Mirrors(names, r.s, u)
    case TacDone(result, trace) => r.Done? && r.value == result && DecodedAll(names, r.trace) == trace
    case TacStuck => r.Stuck?
  }

  /** A transfer on virtual registers changes nothing but the place. */
  lemma TransferDoesNothing(h: A.Host, names: Naming, t: Tac, s: A.VirtualState)
    requires t.Goto? || t.BranchIf?
    ensures A.VirtualDo(h, Encoded(names, t), s) == s
  {
    hide A.ReadValues;
  }

  lemma TransferStep(names: Naming, t: Tac, s: A.VirtualState, u: TacState)
    requires Mirrors(names, s, u)
    ensures var instr := Encoded(names, t);
            A.StepOf(instr, A.ReadValues(s.vals, A.Read(instr))) ==
            match t
            case Goto(target) => A.To(target)
            case BranchIf(cond, target) => if SourceValue(u.env, cond) != 0 then A.To(target) else A.On
            case Ret(value) => A.Out(if value.Some? then Some(SourceValue(u.env, value.value)) else None)
            case _ => A.On
  {
    var instr := Encoded(names, t);
    if t.BranchIf? {
      SourceMirrors(names, s, u, t.cond);
      assert A.Read(instr) == [InSource(t.cond), V.Label(t.target)] || A.Read(instr) == [InSource(t.cond)];
    } else if t.Ret? && t.value.Some? {
      SourceMirrors(names, s, u, t.value.value);
      assert A.Read(instr) == [InSource(t.value.value)];
    } else if t.Ret? {
      assert A.Read(instr) == [];
    }
    hide Mirrors;
  }

  lemma NextAt(h: A.Host, names: Naming, cfg: Cfg, entry: nat, b: nat, k: nat, s: A.VirtualState)
    requires b < |cfg| && k < |cfg[b]|
    ensures var instr := Encoded(names, cfg[b][k]);
            var step := A.StepOf(instr, A.ReadValues(s.vals, A.Read(instr)));
            A.VirtualNext(h, AsLinear(names, cfg, entry), A.At(Liveness.Point(b, k), s)) ==
            if step.Out? then A.Done(step.value, s.trace)
            else A.At(if step.To? then Liveness.Point(step.target, 0) else Liveness.Point(b, k + 1),
                      A.VirtualDo(h, instr, s))
  {
    hide A.VirtualDo, A.StepOf, A.Read, A.ReadValues, Encoded, AsLinear;
  }

  lemma NextPast(h: A.Host, names: Naming, cfg: Cfg, entry: nat, b: nat, k: nat, s: A.VirtualState)
    requires b < |cfg| ==> |cfg[b]| <= k
    ensures A.VirtualNext(h, AsLinear(names, cfg, entry), A.At(Liveness.Point(b, k), s)).Stuck?
  {
    hide A.VirtualDo, A.StepOf, A.Read, A.ReadValues, Encoded, AsLinear;
  }

  /** The instruction leaves the block, from where it is. */
  ghost predicate LeavesAt(t: Tac, u: TacState) {
    t.Goto? || t.Ret? || (t.BranchIf? && SourceValue(u.env, t.cond) != 0)
  }

  lemma LeavingCode(m: Machine, private: set<SlotId>, code: seq<Tac>, k: nat, u: TacState)
    requires k < |code|
    ensures LeaveCode(m, private, code[k..], u) ==
            match code[k]
            case Goto(target) => TacAt(target, u)
            case BranchIf(cond, target) =>
              if SourceValue(u.env, cond) != 0 then TacAt(target, u) else LeaveCode(m, private, code[k + 1..], u)
            case Ret(value) => TacDone(if value.Some? then Some(SourceValue(u.env, value.value)) else None, u.trace)
            case _ => LeaveCode(m, private, code[k + 1..], Do(m, private, code[k], u))
  {
    assert code[k..][0] == code[k] && code[k..][1..] == code[k + 1..];
    hide Do;
  }

  lemma LeavingMirrors(m: Machine, names: Naming, garbage: (seq<A.Event>, nat) -> Word, private: set<SlotId>, cfg: Cfg,
                       entry: nat, b: nat, k: nat, s: A.VirtualState, u: TacState)
    requires b < |cfg| && k < |cfg[b]| && Mirrors(names, s, u) && LeavesAt(cfg[b][k], u)
    ensures RunMirrors(names, A.VirtualNext(HostOf(m, names, garbage), AsLinear(names, cfg, entry),
                                            A.At(Liveness.Point(b, k), s)),
                       LeaveCode(m, private, cfg[b][k..], u))
  {
    var h, t := HostOf(m, names, garbage), cfg[b][k];
    NextAt(h, names, cfg, entry, b, k, s);
    TransferStep(names, t, s, u);
    LeavingCode(m, private, cfg[b], k, u);
    MirrorsTrace(names, s, u);
    if t.Goto? || t.BranchIf? {
      TransferDoesNothing(h, names, t, s);
    }
    hide Mirrors, A.VirtualNext, HostOf, AsLinear, Encoded, A.StepOf, A.Read, A.ReadValues, A.VirtualDo, LeaveCode, Do;
  }

  lemma StayingMirrors(m: Machine, names: Naming, garbage: (seq<A.Event>, nat) -> Word, private: set<SlotId>, cfg: Cfg,
                       entry: nat, b: nat, k: nat, s: A.VirtualState, u: TacState)
    returns (s': A.VirtualState, u': TacState)
    requires b < |cfg| && k < |cfg[b]| && AllEncodable(private, cfg) && TellsApart(names) && m.undef == 0
    requires Mirrors(names, s, u) && !LeavesAt(cfg[b][k], u)
    ensures A.VirtualNext(HostOf(m, names, garbage), AsLinear(names, cfg, entry), A.At(Liveness.Point(b, k), s))
         == A.At(Liveness.Point(b, k + 1), s')
    ensures Mirrors(names, s', u')
    ensures LeaveCode(m, private, cfg[b][k..], u) == LeaveCode(m, private, cfg[b][k + 1..], u')
  {
    var h, t := HostOf(m, names, garbage), cfg[b][k];
    NextAt(h, names, cfg, entry, b, k, s);
    TransferStep(names, t, s, u);
    LeavingCode(m, private, cfg[b], k, u);
    assert Encodable(private, t) && StoresPlain(t);
    hide Mirrors, A.VirtualNext, HostOf, AsLinear, Encoded, A.StepOf, A.Read, A.ReadValues, A.VirtualDo, LeaveCode, Do,
         Encodable, StoresPlain, AllEncodable;
    s', u' := A.VirtualDo(h, Encoded(names, t), s), u;
    if t.BranchIf? {
      TransferDoesNothing(h, names, t, s);
    } else {
      u' := Do(m, private, t, u);
      DoMirrors(m, names, garbage, private, t, s, u);
    }
  }

  /** The rest of a block, up to where it leaves. */
  lemma {:induction false} LeaveMirrors(m: Machine, names: Naming, garbage: (seq<A.Event>, nat) -> Word,
                                        private: set<SlotId>, cfg: Cfg, entry: nat, b: nat, k: nat,
                                        s: A.VirtualState, u: TacState) returns (n: nat)
    requires b < |cfg| && k <= |cfg[b]| && AllEncodable(private, cfg) && TellsApart(names) && m.undef == 0
    requires Mirrors(names, s, u)
    ensures n >= 1
    ensures RunMirrors(names, VirtualFrom(HostOf(m, names, garbage), AsLinear(names, cfg, entry),
                                          A.At(Liveness.Point(b, k), s), n),
                       LeaveCode(m, private, cfg[b][k..], u))
    decreases |cfg[b]| - k
  {
    hide *;
    var h, linear, here := HostOf(m, names, garbage), AsLinear(names, cfg, entry), A.At(Liveness.Point(b, k), s);
    OneStep(h, linear, here);
    n := 1;
    if k == |cfg[b]| {
      EndMirrors(h, names, m, private, cfg, entry, b, s, u);
    } else if LeavesAt(cfg[b][k], u) {
      LeavingMirrors(m, names, garbage, private, cfg, entry, b, k, s, u);
    } else {
      var s', u' := StayingMirrors(m, names, garbage, private, cfg, entry, b, k, s, u);
      var rest := LeaveMirrors(m, names, garbage, private, cfg, entry, b, k + 1, s', u');
      FromAdds(h, linear, here, 1, rest);
      n := 1 + rest;
    }
  }

  lemma EndMirrors(h: A.Host, names: Naming, m: Machine, private: set<SlotId>, cfg: Cfg, entry: nat, b: nat,
                   s: A.VirtualState, u: TacState)
    requires b < |cfg|
    ensures RunMirrors(names, A.VirtualNext(h, AsLinear(names, cfg, entry), A.At(Liveness.Point(b, |cfg[b]|), s)),
                       LeaveCode(m, private, cfg[b][|cfg[b]|..], u))
  {
    NextPast(h, names, cfg, entry, b, |cfg[b]|, s);
    hide A.VirtualNext, AsLinear;
  }

  lemma MirrorsTrace(names: Naming, s: A.VirtualState, u: TacState)
    requires Mirrors(names, s, u)
    ensures DecodedAll(names, s.trace) == u.trace
  {
  }

  /** The next block. */
  lemma NextMirrors(m: Machine, names: Naming, garbage: (seq<A.Event>, nat) -> Word, private: set<SlotId>, cfg: Cfg,
                    entry: nat, r: A.Run<A.VirtualState>, t: TacStatus) returns (more: nat)
    requires AllEncodable(private, cfg) && TellsApart(names) && m.undef == 0 && RunMirrors(names, r, t)
    ensures more >= 1
    ensures RunMirrors(names, VirtualFrom(HostOf(m, names, garbage), AsLinear(names, cfg, entry), r, more),
                       TacNext(m, private, cfg, t))
  {
    var h, linear := HostOf(m, names, garbage), AsLinear(names, cfg, entry);
    hide Mirrors, A.VirtualNext, HostOf, AsLinear, AllEncodable, LeaveCode, VirtualFrom;
    more := 1;
    OneStep(h, linear, r);
    if t.TacAt? && t.block < |cfg| {
      more := LeaveMirrors(m, names, garbage, private, cfg, entry, t.block, 0, r.s, t.st);
      assert cfg[t.block][0..] == cfg[t.block];
    } else if t.TacAt? {
      NextPast(h, names, cfg, entry, t.block, 0, r.s);
    } else {
      EndedNext(h, linear, r);
    }
  }

  lemma StartsMirrored(h: A.Host, names: Naming, m: Machine, private: set<SlotId>, cfg: Cfg, entry: nat)
    ensures RunMirrors(names, A.VirtualRun(h, AsLinear(names, cfg, entry), A.VirtualState(map[], [], []), 0),
                       TacRun(m, private, cfg, entry, 0))
  {
    assert DecodedAll(names, []) == [];
  }

  /** However many blocks the code has run, some number of instructions, no fewer, does the same. */
  lemma {:induction false} RunsMirror(m: Machine, names: Naming, garbage: (seq<A.Event>, nat) -> Word,
                                      private: set<SlotId>, cfg: Cfg, entry: nat, n: nat) returns (k: nat)
    requires AllEncodable(private, cfg) && TellsApart(names) && m.undef == 0
    ensures n <= k
    ensures RunMirrors(names, A.VirtualRun(HostOf(m, names, garbage), AsLinear(names, cfg, entry),
                                           A.VirtualState(map[], [], []), k),
                       TacRun(m, private, cfg, entry, n))
    decreases n
  {
    var h, linear, start := HostOf(m, names, garbage), AsLinear(names, cfg, entry), A.VirtualState(map[], [], []);
    if n == 0 {
      k := 0;
      StartsMirrored(h, names, m, private, cfg, entry);
    } else {
      k := RunsMirror(m, names, garbage, private, cfg, entry, n - 1);
      var t := TacRun(m, private, cfg, entry, n - 1);
      assert TacRun(m, private, cfg, entry, n) == TacNext(m, private, cfg, t);
      hide *;
      var r := A.VirtualRun(h, linear, start, k);
      var more := NextMirrors(m, names, garbage, private, cfg, entry, r, t);
      FromStart(h, linear, start, k);
      FromAdds(h, linear, A.At(Liveness.Point(linear.entry, 0), start), k, more);
      FromStart(h, linear, start, k + more);
      k := k + more;
    }
  }

  lemma EndedNext(h: A.Host, cfg: L.Cfg, r: A.Run<A.VirtualState>)
    requires !r.At?
    ensures A.VirtualNext(h, cfg, r) == r
  {
  }
}
