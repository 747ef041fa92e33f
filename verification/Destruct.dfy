/** Leaving SSA form: phis become moves at the end of each predecessor, one temporary per free cycle. */
module Destruct {
  import opened Graphs
  import opened IdomTree
  import opened Lists
  import opened Ssa
  import opened SsaValid
  import opened ParallelCopies
  import opened Tac

  /** `dest` is to get what `source` held before any of the copies. */
  datatype Assignment = Assignment(dest: ValueId, source: Operand)

  function AsSource(o: Operand): Source {
    match o
    case Value(v) => From(Home(v))
    case Imm(c) => Const(c)
  }

  // ---- one parallel copy ----

  ghost predicate Parallel(copies: seq<Assignment>) {
    && (forall i: nat, j: nat :: i < j < |copies| ==> copies[i].dest != copies[j].dest)
    && (forall i: nat :: i < |copies| ==> copies[i].source != Value(copies[i].dest))
  }

  ghost predicate Assigns(copies: seq<Assignment>, d: ValueId) {
    exists i: nat :: i < |copies| && copies[i].dest == d
  }

  /** From every start the moves do all the assignments at once, and touch no other home or older
      temporary. */
  ghost predicate Realises(copies: seq<Assignment>, moves: seq<Move>, base: nat) {
    forall env: Store :: RealisesFrom(copies, moves, base, env)
  }

  ghost predicate RealisesFrom(copies: seq<Assignment>, moves: seq<Move>, base: nat, env: Store) {
    var after := RunMoves(moves, env);
    && (forall i: nat :: i < |copies| ==> Get(after, Home(copies[i].dest)) == Wanted(env, copies[i].source))
    && (forall v: ValueId :: !Assigns(copies, v) ==> Get(after, Home(v)) == Get(env, Home(v)))
    && (forall k: nat :: k <= base ==> Get(after, Scratch(k)) == Get(env, Scratch(k)))
  }

  ghost predicate SourcesAre(copies: seq<Assignment>, source: Sources) {
    && (forall i: nat :: i < |copies| ==> copies[i].dest in source && source[copies[i].dest] == copies[i].source)
    && (forall d: ValueId :: d in source ==> Assigns(copies, d))
  }

  /** The sources by destination, the homes of the values read, and all destinations pending. */
  method Start(copies: seq<Assignment>)
    returns (source: Sources, location: map<ValueId, Place>, pending: set<ValueId>)
    requires Parallel(copies)
    ensures SourcesAre(copies, source) && pending == source.Keys && |pending| == |copies|
    ensures forall v: ValueId :: v in location ==> location[v] == Home(v) && exists d: ValueId :: Reads(source, d, v)
    ensures forall d: ValueId, v: ValueId :: Reads(source, d, v) ==> v in location && d != v
  {
    source, location, pending := map[], map[], {};
    for i := 0 to |copies|
      invariant SourcesAre(copies[..i], source) && pending == source.Keys && |pending| == i
      invariant forall v: ValueId :: v in location ==>
                  location[v] == Home(v) && exists d: ValueId :: Reads(source, d, v)
      invariant forall d: ValueId, v: ValueId :: Reads(source, d, v) ==> v in location && d != v
    {
      var copy := copies[i];
      ghost var before := source;
      assert !Assigns(copies[..i], copy.dest);
      source := source[copy.dest := copy.source];
      pending := pending + {copy.dest};
      forall d: ValueId, v: ValueId
        ensures Reads(source, d, v) <==> Reads(before, d, v) || (d == copy.dest && copy.source == Value(v))
      {
      }
      if copy.source.Value? {
        location := location[copy.source.id := Home(copy.source.id)];
        assert Reads(source, copy.dest, copy.source.id);
      }
      SourcesSnoc(copies, i, before);
    }
    assert copies[..|copies|] == copies;
  }

  lemma SourcesSnoc(copies: seq<Assignment>, i: nat, source: Sources)
    requires i < |copies| && SourcesAre(copies[..i], source) && Parallel(copies)
    ensures SourcesAre(copies[..i + 1], source[copies[i].dest := copies[i].source])
  {
    var next := source[copies[i].dest := copies[i].source];
    var more := copies[..i + 1];
    forall k: nat | k < |more| ensures more[k].dest in next && next[more[k].dest] == more[k].source {
      if k < i {
        assert copies[..i][k] == more[k];
      }
    }
    forall d: ValueId | d in next ensures Assigns(copies[..i + 1], d) {
      if d == copies[i].dest {
        assert copies[..i + 1][i].dest == d;
      } else {
        var k: nat :| k < i && copies[..i][k].dest == d;
        assert copies[..i + 1][k].dest == d;
      }
    }
  }

  /** The destinations in order; those nothing reads may be written straight away. */
  method Destinations(copies: seq<Assignment>, location: map<ValueId, Place>)
    returns (ready: seq<ValueId>, all: seq<ValueId>)
    requires Parallel(copies)
    ensures Distinct(ready) && forall d: ValueId :: d in ready <==> Assigns(copies, d) && d !in location
    ensures forall d: ValueId :: d in all <==> Assigns(copies, d)
  {
    ready, all := [], [];
    for i := 0 to |copies|
      invariant Distinct(ready) && forall d: ValueId :: d in ready <==> Assigns(copies[..i], d) && d !in location
      invariant forall d: ValueId :: d in all <==> Assigns(copies[..i], d)
    {
      AssignsSnoc(copies, i);
      assert !Assigns(copies[..i], copies[i].dest);
      if copies[i].dest !in location {
        DistinctSnoc(ready, copies[i].dest);
        ready := ready + [copies[i].dest];
      }
      all := all + [copies[i].dest];
    }
    assert copies[..|copies|] == copies;
  }

  lemma AssignsSnoc(copies: seq<Assignment>, i: nat)
    requires i < |copies|
    ensures forall d: ValueId :: Assigns(copies[..i + 1], d) <==> Assigns(copies[..i], d) || d == copies[i].dest
  {
    forall d: ValueId ensures Assigns(copies[..i + 1], d) <==> Assigns(copies[..i], d) || d == copies[i].dest {
      if Assigns(copies[..i], d) {
        var k: nat :| k < i && copies[..i][k].dest == d;
        assert copies[..i + 1][k].dest == d;
      }
      if d == copies[i].dest {
        assert copies[..i + 1][i].dest == d;
      }
      if Assigns(copies[..i + 1], d) && d != copies[i].dest {
        var k: nat :| k < i + 1 && copies[..i + 1][k].dest == d;
        assert copies[..i][k].dest == d;
      }
    }
  }

  /** The whole invariant of sequentialising: what may be written, what was, and which cycles. */
  ghost predicate Underway(source: Sources, p: Progress, base: nat, toDo: seq<ValueId>) {
    && Sound(source, p, base) && Faithful(source, p, base) && WritesOnce(source, p, base)
    && AllRead(source, p.location.Keys)
    && (forall d: ValueId :: d in p.pending ==> d in toDo || d in p.ready)
  }

  lemma StartsUnderway(source: Sources, p: Progress, base: nat, toDo: seq<ValueId>)
    requires p.pending == source.Keys && p.moves == [] && p.scratch == base && Distinct(p.ready)
    requires forall d: ValueId :: d in p.ready <==> d in source && d !in p.location
    requires forall v: ValueId :: v in p.location ==>
               p.location[v] == Home(v) && exists d: ValueId :: Reads(source, d, v)
    requires forall d: ValueId, v: ValueId :: Reads(source, d, v) ==> v in p.location && d != v
    requires forall d: ValueId :: d in source ==> d in toDo
    ensures Underway(source, p, base, toDo) && Accounted(source, p, [], None)
  {
    forall v: ValueId | v in p.location ensures Whereabouts(source, p, base, v) {
    }
    assert forall d: ValueId, v: ValueId :: Reads(source, d, v) ==> d in p.pending;
    forall env: Store ensures FaithfulFrom(source, p, base, env) {
    }
    forall c: set<ValueId> | FreeCycle(source, c) ensures Untouched(p, c) {
      CycleStartsUntouched(source, p, c);
    }
    assert Dests(p.moves) == [];
  }

  ghost function Fed(source: Sources, c: set<ValueId>): (r: set<ValueId>)
    ensures forall e: ValueId :: e in c && Src(source, e).Value? ==> Src(source, e).id in r
    ensures forall x: ValueId :: x in r ==> exists e: ValueId :: e in c && Reads(source, e, x)
  {
    set e | e in c && Src(source, e).Value? :: Src(source, e).id
  }

  /** Everything in a free cycle feeds something in it. */
  lemma CycleIsRead(source: Sources, c: set<ValueId>, d: ValueId) returns (e: ValueId)
    requires FreeCycle(source, c) && d in c
    ensures Reads(source, e, d)
  {
    hide FreeCycle, SourceClosed, FeedsInside, Fed;
    var fed := Fed(source, c);
    forall x: ValueId | x in fed ensures x in c && FeedsInside(source, fed, x) {
      var y: ValueId :| y in c && Reads(source, y, x);
      FedStaysInside(source, c, fed, y, x);
    }
    FedIsNonempty(source, c, d);
    FedIsAll(source, c, fed);
    e :| e in c && Reads(source, e, d);
  }

  lemma FedIsNonempty(source: Sources, c: set<ValueId>, d: ValueId)
    requires FreeCycle(source, c) && d in c
    ensures Fed(source, c) != {}
  {
    assert FeedsInside(source, c, d);
    assert Src(source, d).id in Fed(source, c);
  }

  lemma FedStaysInside(source: Sources, c: set<ValueId>, fed: set<ValueId>, y: ValueId, x: ValueId)
    requires FreeCycle(source, c) && fed == Fed(source, c) && y in c && Reads(source, y, x)
    ensures x in c && FeedsInside(source, fed, x)
  {
    assert SourceClosed(source, c);
    hide FreeCycle, Fed;
    assert FeedsInside(source, c, y);
    assert FeedsInside(source, c, x);
  }

  lemma FedIsAll(source: Sources, c: set<ValueId>, fed: set<ValueId>)
    requires FreeCycle(source, c) && fed != {} && fed <= c
    requires forall x: ValueId :: x in fed ==> FeedsInside(source, fed, x)
    ensures fed == c
  {
    assert SourceClosed(source, fed);
  }

  lemma CycleStartsUntouched(source: Sources, p: Progress, c: set<ValueId>)
    requires FreeCycle(source, c) && p.pending == source.Keys
    requires forall d: ValueId :: d in p.ready <==> d in source && d !in p.location
    requires forall d: ValueId, v: ValueId :: Reads(source, d, v) ==> v in p.location && d != v
    ensures Untouched(p, c)
  {
    forall d: ValueId | d in c ensures d in p.pending && d !in p.ready {
      assert FeedsInside(source, c, d);
      var e := CycleIsRead(source, c, d);
    }
  }

  lemma WriteUnderway(source: Sources, p: Progress, base: nat, toDo: seq<ValueId>, d: ValueId)
    requires Underway(source, p, base, toDo) && |p.ready| > 0 && d == p.ready[|p.ready| - 1]
    ensures d in source && d in p.pending && (source[d].Value? ==> source[d].id in p.location)
    ensures Underway(source, Write(source, p, d), base, toDo)
  {
    NothingNeeded(source, p, base, d);
    WriteSound(source, p, base, d);
    WriteReady(source, p, base, d);
    WriteOnce(source, p, base, d);
    forall env: Store ensures FaithfulFrom(source, Write(source, p, d), base, env) {
      assert FaithfulFrom(source, p, base, env);
      WriteFaithful(source, p, base, d, env);
    }
    assert Write(source, p, d).location.Keys == p.location.Keys;
    hide Sound, FaithfulFrom, WritesOnce, AllRead;
  }

  lemma BreakUnderway(source: Sources, p: Progress, base: nat, toDo: seq<ValueId>, d: ValueId)
    requires Underway(source, p, base, toDo + [d]) && p.ready == [] && d in p.pending
    ensures d in p.location && Underway(source, Break(p, d), base, toDo)
  {
    AtHome(source, p, base, d);
    BreakSound(source, p, base, d);
    BreakOnce(source, p, base, d);
    forall env: Store ensures FaithfulFrom(source, Break(p, d), base, env) {
      assert FaithfulFrom(source, p, base, env);
      BreakFaithful(source, p, base, d, env);
    }
    assert Break(p, d).location.Keys == p.location.Keys;
    hide FaithfulFrom, WritesOnce, AllRead;
  }

  /** Every free cycle is accounted for, and a broken one is being unwound. */
  ghost predicate Tracking(source: Sources, p: Progress, found: seq<set<ValueId>>, chain: Option<Chain>) {
    && Accounted(source, p, found, if chain.Some? then Some(chain.value.start) else None)
    && (chain.Some? ==> Unwinding(source, p, chain.value))
  }

  function Linked(chain: Option<Chain>, d: ValueId): Option<Chain> {
    if chain.Some? then Some(chain.value.(links := chain.value.links + [d])) else None
  }

  lemma StartsTracking(source: Sources, p: Progress)
    requires Accounted(source, p, [], None)
    ensures Tracking(source, p, [], None)
  {
  }

  lemma WriteTracks(source: Sources, p: Progress, base: nat, toDo: seq<ValueId>, d: ValueId, found: seq<set<ValueId>>,
                    chain: Option<Chain>)
    requires Underway(source, p, base, toDo) && |p.ready| > 0 && d == p.ready[|p.ready| - 1] &&
             Tracking(source, p, found, chain)
    requires d in source && d in p.pending && (source[d].Value? ==> source[d].id in p.location)
    ensures Tracking(source, Write(source, p, d), found, Linked(chain, d))
  {
    assert Sound(source, p, base);
    hide Sound, Faithful, WritesOnce, AllRead, Accounted, Unwinding, Write;
    WriteAccounted(source, p, base, d, found, if chain.Some? then Some(chain.value.start) else None);
    if chain.Some? {
      WriteUnwinds(source, p, base, d, chain.value);
    }
  }

  lemma BreakTracks(source: Sources, p: Progress, base: nat, toDo: seq<ValueId>, d: ValueId, found: seq<set<ValueId>>)
    requires Underway(source, p, base, toDo) && p.ready == [] && d in p.pending && Tracking(source, p, found, None)
    ensures Tracking(source, Break(p, d), found, Some(Chain(d, [], p.pending)))
  {
    hide Sound, Faithful, WritesOnce, AllRead, Accounted, Unwinding, Break;
    BreakAccounted(source, p, d, found);
    BreakUnwinds(source, p, base, d);
  }

  lemma UnwoundTracks(source: Sources, p: Progress, found: seq<set<ValueId>>, h: Chain)
    requires p.ready == [] && Tracking(source, p, found, Some(h))
    ensures Tracking(source, p, found + [Members(h.links)], None)
  {
    hide Accounted, Unwinding, Members;
    UnwoundAccounted(source, p, h, found);
  }

  lemma AlreadyWritten(source: Sources, p: Progress, base: nat, toDo: seq<ValueId>, d: ValueId)
    requires Underway(source, p, base, toDo + [d]) && d !in p.pending
    ensures Underway(source, p, base, toDo)
  {
    hide Sound, Faithful, WritesOnce, AllRead;
  }

  lemma DestinationsAreKeys(copies: seq<Assignment>, source: Sources)
    requires SourcesAre(copies, source)
    ensures forall d: ValueId :: d in source <==> Assigns(copies, d)
  {
  }

  lemma Finished(copies: seq<Assignment>, source: Sources, p: Progress, base: nat, toDo: seq<ValueId>,
                 found: seq<set<ValueId>>)
    requires SourcesAre(copies, source) && Underway(source, p, base, toDo) && toDo == [] && p.ready == []
    requires Tracking(source, p, found, None)
    ensures p.pending == {} && Realises(copies, p.moves, base)
    ensures Distinct(Dests(p.moves))
    ensures forall d: ValueId :: Home(d) in Dests(p.moves) <==> Assigns(copies, d)
    ensures forall k: nat :: Scratch(k) in Dests(p.moves) <==> base < k <= p.scratch
    ensures Distinct(found) && forall c: set<ValueId> :: c in found <==> FreeCycle(source, c)
  {
    assert p.pending == {};
    assert forall d: ValueId :: Written(source, p, d) <==> Assigns(copies, d);
    FinishedRealises(copies, source, p, base);
    forall c: set<ValueId> | FreeCycle(source, c) ensures c in found {
      assert c != {};
    }
    hide Sound, AllRead, RunMoves, Realises, Faithful, SourcesAre;
  }

  lemma FinishedRealises(copies: seq<Assignment>, source: Sources, p: Progress, base: nat)
    requires SourcesAre(copies, source) && Faithful(source, p, base) && p.pending == {}
    ensures Realises(copies, p.moves, base)
  {
    forall env: Store ensures RealisesFrom(copies, p.moves, base, env) {
      assert FaithfulFrom(source, p, base, env);
      forall i: nat | i < |copies|
        ensures Get(RunMoves(p.moves, env), Home(copies[i].dest)) == Wanted(env, copies[i].source)
      {
        assert Written(source, p, copies[i].dest);
      }
      forall v: ValueId | !Assigns(copies, v) ensures Get(RunMoves(p.moves, env), Home(v)) == Get(env, Home(v)) {
        assert !Written(source, p, v);
      }
    }
  }

  // ---- what a block becomes ----

  function Dest(dest: Option<ValueId>): Option<Place> {
    if dest.Some? then Some(Home(dest.value)) else None
  }

  function AsSources(os: seq<Operand>): (r: seq<Source>)
    ensures |r| == |os| && forall i: nat :: i < |os| ==> r[i] == AsSource(os[i])
  {
    seq(|os|, i requires 0 <= i < |os| => AsSource(os[i]))
  }

  function Params(os: seq<Operand>): (r: seq<Tac>)
    ensures |r| == |os| && forall i: nat :: i < |os| ==> r[i] == Param(AsSource(os[i]))
  {
    seq(|os|, i requires 0 <= i < |os| => Param(AsSource(os[i])))
  }

  /** One instruction.  The arguments of a call sit directly before it; an undefined value is zero. */
  function LoweredInst(inst: Inst): seq<Tac> {
    match inst.op
    case Copy(source) => if inst.dest.Some? then [Mov(Home(inst.dest.value), AsSource(source))] else []
    case Undef => if inst.dest.Some? then [Mov(Home(inst.dest.value), Const(0))] else []
    case Call(callee, args) => Params(args) + [CallLabel(Dest(inst.dest), callee, |args|)]
    case GetParam(index) => [ReadParam(Dest(inst.dest), index)]
    case _ => [Simple(Dest(inst.dest), inst.op, AsSources(inst.op.Operands()))]
  }

  function LoweredInsts(insts: seq<Inst>): seq<Tac>
    decreases |insts|
  {
    if insts == [] then [] else LoweredInsts(insts[..|insts| - 1]) + LoweredInst(insts[|insts| - 1])
  }

  function LoweredTerm(term: Terminator): seq<Tac> {
    match term
    case Jump(target) => [Goto(target)]
    case Branch(cond, thenBlock, elseBlock) => [BranchIf(AsSource(cond), thenBlock), Goto(elseBlock)]
    case Return(result) => [Ret(if result.Some? then Some(AsSource(result.value)) else None)]
  }

  /** What the phis of a block ask of the edge at `position`; a phi taking its own result asks nothing. */
  function OutgoingCopies(phis: seq<Phi>, position: nat): seq<Assignment>
    decreases |phis|
  {
    if phis == [] then []
    else
      var phi := phis[|phis| - 1];
      var before := OutgoingCopies(phis[..|phis| - 1], position);
      if position < |phi.args| && phi.args[position] != Value(phi.dest)
      then before + [Assignment(phi.dest, phi.args[position])] else before
  }

  /** A block that owes copies to phis has one way out. */
  ghost predicate Lowerable(f: Func) {
    && f.Adjacency().Valid()
    && (forall b: nat, k: nat :: b < f.Size() && k < |f.blocks[b].phis| ==>
          |f.blocks[b].phis[k].args| == |f.blocks[b].preds|)
    && (forall b: nat :: b < f.Size() ==> DistinctDests(f.blocks[b].phis))
    && forall b: nat, c: nat :: b < f.Size() && c < f.Size() && f.Adjacency().Edge(b, c) && f.blocks[c].phis != [] ==>
         |f.blocks[b].term.Successors()| == 1
  }

  /** The moves at the end of `b`: those realising the parallel copy its one successor's phis ask for. */
  ghost predicate Owed(f: Func, b: BlockId, moves: seq<Move>, base: nat)
    requires b < f.Size()
  {
    var succs := f.blocks[b].term.Successors();
    if |succs| == 1 && succs[0] < f.Size() && f.blocks[succs[0]].phis != [] then
      Realises(OutgoingCopies(f.blocks[succs[0]].phis, Position(f.blocks[succs[0]].preds, b)), moves, base)
    else moves == []
  }

  ghost predicate BlockLowered(f: Func, b: BlockId, code: seq<Tac>)
    requires b < f.Size()
  {
    exists moves: seq<Move>, base: nat :: Owed(f, b, moves, base) &&
      code == LoweredInsts(f.blocks[b].insts) + AsTac(moves) + LoweredTerm(f.blocks[b].term)
  }

  ghost predicate Lowered(f: Func, cfg: Cfg) {
    |cfg| == f.Size() && forall b: nat :: b < f.Size() ==> BlockLowered(f, b, cfg[b])
  }

  lemma LowerableEdge(f: Func, b: BlockId, c: BlockId)
    requires Lowerable(f) && b < f.Size() && c in f.blocks[b].term.Successors()
    ensures c < f.Size() && b in f.blocks[c].preds && DistinctDests(f.blocks[c].phis)
    ensures f.blocks[c].phis != [] ==> |f.blocks[b].term.Successors()| == 1
  {
    var g := f.Adjacency();
    assert g.succs[b] == f.blocks[b].term.Successors();
    var k: nat :| k < |g.succs[b]| && g.succs[b][k] == c;
    assert g.succs[b][k] < g.Size();
    assert g.Edge(b, c);
    assert b in g.preds[c];
  }

  lemma {:induction false} OutgoingAre(phis: seq<Phi>, position: nat, i: nat) returns (k: nat)
    requires i < |OutgoingCopies(phis, position)|
    ensures k < |phis| && position < |phis[k].args|
    ensures OutgoingCopies(phis, position)[i] == Assignment(phis[k].dest, phis[k].args[position])
    ensures phis[k].args[position] != Value(phis[k].dest)
    decreases |phis|
  {
    var n := |phis| - 1;
    if i < |OutgoingCopies(phis[..n], position)| {
      k := OutgoingAre(phis[..n], position, i);
    } else {
      k := n;
    }
  }

  lemma {:induction false} OutgoingHas(phis: seq<Phi>, position: nat, k: nat) returns (i: nat)
    requires k < |phis| && position < |phis[k].args| && phis[k].args[position] != Value(phis[k].dest)
    ensures i < |OutgoingCopies(phis, position)|
    ensures OutgoingCopies(phis, position)[i] == Assignment(phis[k].dest, phis[k].args[position])
    decreases |phis|
  {
    var n := |phis| - 1;
    if k == n {
      i := |OutgoingCopies(phis[..n], position)|;
    } else {
      i := OutgoingHas(phis[..n], position, k);
    }
  }

  lemma {:induction false} OutgoingParallel(phis: seq<Phi>, position: nat)
    requires DistinctDests(phis)
    ensures Parallel(OutgoingCopies(phis, position))
    decreases |phis|
  {
    var copies := OutgoingCopies(phis, position);
    if phis != [] {
      var n := |phis| - 1;
      OutgoingParallel(phis[..n], position);
      var before := OutgoingCopies(phis[..n], position);
      forall i: nat | i < |before| ensures before[i].dest != phis[n].dest {
        var k := OutgoingAre(phis[..n], position, i);
        assert phis[..n][k] == phis[k];
      }
    }
  }

  /** One function's translation out of SSA form: the function, and how many temporaries it took. */
  class Lowering {
    const f: Func
    var copies: nat

    constructor (f: Func)
      ensures this.f == f && copies == 0
    {
      this.f, copies := f, 0;
    }

    /** Moves that leave every destination holding what its source held at the start, and all other homes alone. */
    method Sequentialize(copies: seq<Assignment>) returns (moves: seq<Move>, ghost cycles: seq<set<ValueId>>)
      requires Parallel(copies)
      modifies this
      ensures Realises(copies, moves, old(this.copies))
      ensures this.copies == old(this.copies) + |cycles| && |moves| == |copies| + |cycles|
      ensures Distinct(Dests(moves))
      ensures forall d: ValueId :: Home(d) in Dests(moves) <==> Assigns(copies, d)
      ensures forall k: nat :: Scratch(k) in Dests(moves) <==> old(this.copies) < k <= this.copies
      ensures Distinct(cycles) && exists source: Sources ::
                SourcesAre(copies, source) && forall c: set<ValueId> :: c in cycles <==> FreeCycle(source, c)
    {
      ghost var base := this.copies;
      hide Underway, Tracking, Distinct, Dests, Realises, SourcesAre, Written, Reads, AllRead, Assigns, FreeCycle;
      var source, location, pending := Start(copies);
      var ready, toDo := Destinations(copies, location);
      moves, cycles := [], [];
      ghost var p := Progress(location, pending, ready, moves, this.copies);
      ghost var chain: Option<Chain> := None;
      DestinationsAreKeys(copies, source);
      StartsUnderway(source, p, base, toDo);
      StartsTracking(source, p);
      while true
        invariant p == Progress(location, pending, ready, moves, this.copies)
        invariant Underway(source, p, base, toDo) && Tracking(source, p, cycles, chain)
        invariant this.copies == base + |cycles| + if chain.Some? then 1 else 0
        invariant |moves| + |pending| == |copies| + (this.copies - base)
        decreases |toDo|
      {
        while |ready| > 0
          invariant p == Progress(location, pending, ready, moves, this.copies)
          invariant Underway(source, p, base, toDo) && Tracking(source, p, cycles, chain)
          invariant this.copies == base + |cycles| + if chain.Some? then 1 else 0
          invariant |moves| + |pending| == |copies| + (this.copies - base)
          decreases |pending|
        {
          var dest := ready[|ready| - 1];
          WriteUnderway(source, p, base, toDo, dest);
          WriteTracks(source, p, base, toDo, dest, cycles, chain);
          p := Write(source, p, dest);
          chain := Linked(chain, dest);
          ready := ready[..|ready| - 1];
          var heldIn := match source[dest] {
            case Value(value) => From(location[value])
            case Imm(constant) => Const(constant)
          };
          moves := moves + [Move(Home(dest), heldIn)];
          pending := pending - {dest};
          if source[dest].Value? {
            var value := source[dest].id;
            var atHome := heldIn == From(Home(value));
            location := location[value := Home(dest)];
            if atHome && value in pending {
              ready := ready + [value];
            }
          }
        }
        if chain.Some? {
          UnwoundTracks(source, p, cycles, chain.value);
          cycles := cycles + [Members(chain.value.links)];
          chain := None;
        }
        if |toDo| == 0 {
          break;
        }
        var dest := toDo[|toDo| - 1];
        ghost var all := toDo;
        toDo := toDo[..|toDo| - 1];
        assert all == toDo + [dest];
        if dest in pending {
          BreakUnderway(source, p, base, toDo, dest);
          BreakTracks(source, p, base, all, dest, cycles);
          chain := Some(Chain(dest, [], pending));
          p := Break(p, dest);
          this.copies := this.copies + 1;
          var temporary := Scratch(this.copies);
          moves := moves + [Move(temporary, From(Home(dest)))];
          location := location[dest := temporary];
          ready := ready + [dest];
        } else {
          AlreadyWritten(source, p, base, toDo, dest);
        }
      }
      Finished(copies, source, p, base, toDo, cycles);
    }

    /** The moves this block owes to the phis of its successors: none, or one parallel copy. */
    method LowerOutgoingPhis(block: BlockId) returns (moves: seq<Move>)
      requires Lowerable(f) && block < f.Size()
      modifies this
      ensures Owed(f, block, moves, old(copies))
    {
      var successors := f.blocks[block].term.Successors();
      moves := [];
      for i := 0 to |successors|
        invariant i == 0 ==> moves == [] && copies == old(copies)
        invariant i == 1 && |successors| == 1 ==> Owed(f, block, moves, old(copies))
        invariant |successors| != 1 ==> moves == []
      {
        var successor := successors[i];
        assert successor in successors;
        LowerableEdge(f, block, successor);
        var phis := f.blocks[successor].phis;
        if phis != [] {
          assert |successors| == 1;
          var position := Position(f.blocks[successor].preds, block);
          var assignments := OutgoingCopies(phis, position);
          OutgoingParallel(phis, position);
          var more, _ := Sequentialize(assignments);
          moves := moves + more;
          assert moves == more;
        }
      }
    }

    /** One block: its instructions, the moves its outgoing edges owe to phis, and its transfer. */
    method LowerBlock(block: BlockId) returns (body: seq<Tac>)
      requires Lowerable(f) && block < f.Size()
      modifies this
      ensures BlockLowered(f, block, body)
    {
      var insts := f.blocks[block].insts;
      body := [];
      for i := 0 to |insts|
        invariant body == LoweredInsts(insts[..i])
      {
        assert insts[..i + 1][..i] == insts[..i];
        body := body + LoweredInst(insts[i]);
      }
      assert insts[..|insts|] == insts;
      ghost var base := copies;
      var moves := LowerOutgoingPhis(block);
      assert Owed(f, block, moves, base);
      body := body + AsTac(moves) + LoweredTerm(f.blocks[block].term);
    }
  }

  /** Code for every block: the lowered instructions, moves realising what the successor's phis ask, the transfer. */
  method ToCfg(f: Func) returns (cfg: Cfg)
    requires Lowerable(f)
    ensures Lowered(f, cfg)
  {
    var lowering := new Lowering(f);
    cfg := [];
    for block := 0 to f.Size()
      invariant lowering.f == f && |cfg| == block
      invariant forall b: nat :: b < block ==> BlockLowered(f, b, cfg[b])
    {
      var body := lowering.LowerBlock(block);
      cfg := cfg + [body];
    }
  }
}
