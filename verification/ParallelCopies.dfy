/** The invariant behind turning one parallel assignment into moves, one temporary per cycle. */
module ParallelCopies {
  import opened IdomTree
  import opened Lists
  import opened Ssa

  /** Where a value can be held: its own home, or a temporary that phi lowering made. */
  datatype Place = Home(value: ValueId) | Scratch(number: nat)

  datatype Source = From(place: Place) | Const(constant: int)

  datatype Move = Move(dest: Place, source: Source)

  type Store = map<Place, Word>

  function Get(env: Store, p: Place): Word {
    if p in env then env[p] else 0
  }

  function SourceValue(env: Store, s: Source): Word {
    match s
    case From(p) => Get(env, p)
    case Const(c) => c
  }

  /** What the moves leave, done one after another. */
  function RunMoves(moves: seq<Move>, env: Store): Store
    decreases |moves|
  {
    if moves == [] then env
    else
      var before := RunMoves(moves[..|moves| - 1], env);
      before[moves[|moves| - 1].dest := SourceValue(before, moves[|moves| - 1].source)]
  }

  lemma RunSnoc(moves: seq<Move>, move: Move, env: Store)
    ensures RunMoves(moves + [move], env) ==
              RunMoves(moves, env)[move.dest := SourceValue(RunMoves(moves, env), move.source)]
  {
    assert (moves + [move])[..|moves|] == moves;
  }

  /** What each destination is to receive. */
  type Sources = map<ValueId, Operand>

  function Wanted(env: Store, o: Operand): Word {
    match o
    case Value(v) => Get(env, Home(v))
    case Imm(c) => c
  }

  function Src(source: Sources, d: ValueId): Operand {
    if d in source then source[d] else Imm(0)
  }

  ghost predicate Reads(source: Sources, d: ValueId, v: ValueId) {
    Src(source, d) == Value(v)
  }

  // ---- where the algorithm stands ----

  /** Where each value read now lives, the destinations still to be written, those of them nothing
      needs any more, the moves so far and the temporaries used so far. */
  datatype Progress = Progress(location: map<ValueId, Place>, pending: set<ValueId>, ready: seq<ValueId>,
                               moves: seq<Move>, scratch: nat)

  ghost predicate Written(source: Sources, p: Progress, d: ValueId) {
    d in source && d !in p.pending
  }

  /** A value is at home, or where a destination that received it is, or in a temporary. */
  ghost predicate Whereabouts(source: Sources, p: Progress, base: nat, v: ValueId)
    requires v in p.location
  {
    match p.location[v]
    case Home(d) => d == v || (Written(source, p, d) && Reads(source, d, v))
    case Scratch(k) => base < k <= p.scratch
  }

  ghost predicate Sound(source: Sources, p: Progress, base: nat) {
    && p.pending <= source.Keys && base <= p.scratch
    && Distinct(p.ready) && (forall d: ValueId :: d in p.ready ==> d in p.pending)
    && (forall d: ValueId, v: ValueId :: Reads(source, d, v) ==> v in p.location && d != v)
    && (forall v: ValueId :: v in p.location ==> Whereabouts(source, p, base, v))
    && (forall d: ValueId, v: ValueId :: Reads(source, d, v) && d !in p.pending ==> p.location[v] != Home(v))
    && (forall d: ValueId :: d in p.pending && d !in p.ready ==> d in p.location && p.location[d] == Home(d))
    && (forall d: ValueId :: d in p.ready && d in p.location ==> p.location[d] != Home(d))
  }

  /** Every value with a whereabouts is read by some copy. */
  ghost predicate AllRead(source: Sources, values: set<ValueId>) {
    forall v: ValueId :: v in values ==> exists d: ValueId :: Reads(source, d, v)
  }

  /** `now` has in its place everything that `env` is to become, and keeps what is still needed. */
  ghost predicate Carries(source: Sources, p: Progress, base: nat, env: Store, now: Store) {
    && (forall v: ValueId :: v in p.location ==> Get(now, p.location[v]) == Get(env, Home(v)))
    && (forall d: ValueId :: Written(source, p, d) ==> Get(now, Home(d)) == Wanted(env, source[d]))
    && (forall v: ValueId :: !Written(source, p, v) ==> Get(now, Home(v)) == Get(env, Home(v)))
    && (forall k: nat :: k <= base ==> Get(now, Scratch(k)) == Get(env, Scratch(k)))
  }

  /** Run from `env`, the moves so far did what they were to and kept what is still needed. */
  ghost predicate FaithfulFrom(source: Sources, p: Progress, base: nat, env: Store) {
    Carries(source, p, base, env, RunMoves(p.moves, env))
  }

  ghost predicate Faithful(source: Sources, p: Progress, base: nat) {
    forall env: Store :: FaithfulFrom(source, p, base, env)
  }

  function Dests(moves: seq<Move>): (r: seq<Place>)
    ensures |r| == |moves| && forall i: nat :: i < |moves| ==> r[i] == moves[i].dest
  {
    seq(|moves|, i requires 0 <= i < |moves| => moves[i].dest)
  }

  /** Each written destination and each temporary has been written exactly once, and nothing else. */
  ghost predicate WritesOnce(source: Sources, p: Progress, base: nat) {
    && Distinct(Dests(p.moves))
    && (forall d: ValueId :: Home(d) in Dests(p.moves) <==> Written(source, p, d))
    && (forall k: nat :: Scratch(k) in Dests(p.moves) <==> base < k <= p.scratch)
  }

  // ---- writing a destination nothing needs ----

  /** Write `d`, the last of the ready ones. */
  function Write(source: Sources, p: Progress, d: ValueId): Progress
    requires d in source && |p.ready| > 0
    requires source[d].Value? ==> source[d].id in p.location
  {
    var rest := p.ready[..|p.ready| - 1];
    var pending := p.pending - {d};
    match source[d]
    case Imm(c) => p.(pending := pending, ready := rest, moves := p.moves + [Move(Home(d), Const(c))])
    case Value(v) =>
      p.(pending := pending, location := p.location[v := Home(d)],
         ready := if p.location[v] == Home(v) && v in pending then rest + [v] else rest,
         moves := p.moves + [Move(Home(d), From(p.location[v]))])
  }

  ghost predicate CanWrite(source: Sources, p: Progress, base: nat, d: ValueId) {
    Sound(source, p, base) && |p.ready| > 0 && p.ready[|p.ready| - 1] == d
  }

  /** Nothing needed is where `d` is about to be written. */
  lemma NotNeeded(source: Sources, p: Progress, base: nat, d: ValueId, v: ValueId)
    requires Sound(source, p, base) && d in p.ready && v in p.location
    ensures p.location[v] != Home(d)
  {
    assert Whereabouts(source, p, base, v);
  }

  lemma RestIsDistinct(ready: seq<ValueId>)
    requires Distinct(ready) && |ready| > 0
    ensures Distinct(ready[..|ready| - 1])
    ensures forall x: ValueId :: x in ready[..|ready| - 1] <==> x in ready && x != ready[|ready| - 1]
  {
    var rest := ready[..|ready| - 1];
    assert ready == rest + [ready[|ready| - 1]];
  }

  lemma WriteSound(source: Sources, p: Progress, base: nat, d: ValueId)
    requires CanWrite(source, p, base, d)
    ensures d in source && d in p.pending && (source[d].Value? ==> source[d].id in p.location)
    ensures Sound(source, Write(source, p, d), base)
  {
    assert d in p.ready;
    if source[d].Value? {
      assert Reads(source, d, source[d].id);
    }
    var p' := Write(source, p, d);
    RestIsDistinct(p.ready);
    WriteReady(source, p, base, d);
    forall v: ValueId | v in p'.location ensures Whereabouts(source, p', base, v) {
      if !(source[d].Value? && source[d].id == v) {
        assert Whereabouts(source, p, base, v);
      }
    }
    forall e: ValueId, v: ValueId | Reads(source, e, v) && e !in p'.pending ensures p'.location[v] != Home(v) {
      if source[d] != Value(v) {
        assert e != d;
      }
    }
  }

  lemma WriteReady(source: Sources, p: Progress, base: nat, d: ValueId)
    requires CanWrite(source, p, base, d) && d in source && d in p.pending &&
             (source[d].Value? ==> source[d].id in p.location)
    ensures var p' := Write(source, p, d);
            && Distinct(p'.ready)
            && (forall e: ValueId :: e in p'.ready <==>
                  (e in p.ready && e != d) ||
                  (source[d] == Value(e) && p.location[e] == Home(e) && e in p.pending && e != d))
  {
    RestIsDistinct(p.ready);
  }

  lemma NothingNeeded(source: Sources, p: Progress, base: nat, d: ValueId)
    requires CanWrite(source, p, base, d)
    ensures d in source && d in p.pending && (source[d].Value? ==> source[d].id in p.location)
    ensures forall v: ValueId :: v in p.location ==> p.location[v] != Home(d)
  {
    assert d in p.ready;
    assert source[d].Value? ==> Reads(source, d, source[d].id);
    forall v: ValueId | v in p.location ensures p.location[v] != Home(d) {
      NotNeeded(source, p, base, d, v);
    }
    hide Sound;
  }

  lemma WriteCarries(source: Sources, p: Progress, base: nat, d: ValueId, env: Store, now: Store)
    requires d in source && d in p.pending && |p.ready| > 0 && (source[d].Value? ==> source[d].id in p.location)
    requires forall v: ValueId :: v in p.location ==> p.location[v] != Home(d)
    requires Carries(source, p, base, env, now)
    ensures Carries(source, Write(source, p, d), base, env, now[Home(d) := Wanted(env, source[d])])
  {
    var p' := Write(source, p, d);
    var now' := now[Home(d) := Wanted(env, source[d])];
    forall e: ValueId ensures Written(source, p', e) <==> Written(source, p, e) || e == d {
    }
    forall q: Place ensures Get(now', q) == if q == Home(d) then Wanted(env, source[d]) else Get(now, q) {
    }
    forall v: ValueId | v in p'.location ensures Get(now', p'.location[v]) == Get(env, Home(v)) {
      assert Get(now, p.location[v]) == Get(env, Home(v));
    }
    hide Get, Written;
  }

  lemma WriteFaithful(source: Sources, p: Progress, base: nat, d: ValueId, env: Store)
    requires d in source && d in p.pending && |p.ready| > 0 && (source[d].Value? ==> source[d].id in p.location)
    requires forall v: ValueId :: v in p.location ==> p.location[v] != Home(d)
    requires FaithfulFrom(source, p, base, env)
    ensures FaithfulFrom(source, Write(source, p, d), base, env)
  {
    var now := RunMoves(p.moves, env);
    WriteCarries(source, p, base, d, env, now);
    var move := Write(source, p, d).moves[|p.moves|];
    RunSnoc(p.moves, move, env);
    assert SourceValue(now, move.source) == Wanted(env, source[d]);
    hide RunMoves, Carries, Wanted, SourceValue;
  }

  lemma {:induction false} SnocDests(moves: seq<Move>, move: Move)
    ensures Dests(moves + [move]) == Dests(moves) + [move.dest]
  {
  }

  lemma WriteOnce(source: Sources, p: Progress, base: nat, d: ValueId)
    requires d in source && d in p.pending && |p.ready| > 0 && (source[d].Value? ==> source[d].id in p.location)
    requires WritesOnce(source, p, base)
    ensures WritesOnce(source, Write(source, p, d), base)
  {
    var p' := Write(source, p, d);
    SnocDests(p.moves, p'.moves[|p.moves|]);
    assert Home(d) !in Dests(p.moves);
    DistinctSnoc(Dests(p.moves), Home(d));
  }

  // ---- breaking a cycle ----

  /** Save `d` in a temporary, so that it may be written. */
  function Break(p: Progress, d: ValueId): Progress {
    p.(scratch := p.scratch + 1, location := p.location[d := Scratch(p.scratch + 1)], ready := [d],
       moves := p.moves + [Move(Scratch(p.scratch + 1), From(Home(d)))])
  }

  lemma BreakSound(source: Sources, p: Progress, base: nat, d: ValueId)
    requires Sound(source, p, base) && p.ready == [] && d in p.pending
    ensures Sound(source, Break(p, d), base)
  {
    var p' := Break(p, d);
    forall v: ValueId | v in p'.location ensures Whereabouts(source, p', base, v) {
      if v != d {
        assert Whereabouts(source, p, base, v);
      }
    }
  }

  lemma BreakFaithful(source: Sources, p: Progress, base: nat, d: ValueId, env: Store)
    requires Sound(source, p, base) && p.ready == [] && d in p.pending && FaithfulFrom(source, p, base, env)
    ensures FaithfulFrom(source, Break(p, d), base, env)
  {
    var p' := Break(p, d);
    RunSnoc(p.moves, p'.moves[|p.moves|], env);
    var now, now' := RunMoves(p.moves, env), RunMoves(p'.moves, env);
    forall v: ValueId | v in p'.location ensures Get(now', p'.location[v]) == Get(env, Home(v)) {
      if v != d {
        assert Whereabouts(source, p, base, v);
      }
    }
  }

  lemma BreakOnce(source: Sources, p: Progress, base: nat, d: ValueId)
    requires WritesOnce(source, p, base) && base <= p.scratch
    ensures WritesOnce(source, Break(p, d), base)
  {
    var p' := Break(p, d);
    SnocDests(p.moves, p'.moves[|p.moves|]);
    DistinctSnoc(Dests(p.moves), Scratch(p.scratch + 1));
  }

  // ---- when nothing is ready ----

  ghost predicate FeedsInside(source: Sources, c: set<ValueId>, d: ValueId) {
    Src(source, d).Value? && Src(source, d).id in c
  }

  ghost predicate SourceClosed(source: Sources, c: set<ValueId>) {
    forall d: ValueId {:trigger FeedsInside(source, c, d)} :: d in c ==> FeedsInside(source, c, d)
  }

  /** The pending copies permute their destinations: distinct sources, all among them. */
  ghost predicate Permutes(source: Sources, pending: set<ValueId>) {
    && SourceClosed(source, pending)
    && (forall d: ValueId, e: ValueId {:trigger Src(source, d), Src(source, e)} ::
          d in pending && e in pending && Src(source, d) == Src(source, e) ==> d == e)
  }

  lemma PendingReader(source: Sources, p: Progress, base: nat, d: ValueId) returns (e: ValueId)
    requires Sound(source, p, base) && p.ready == [] && AllRead(source, p.location.Keys) && d in p.pending
    ensures Reads(source, e, d) && e in p.pending
  {
    assert d in p.location.Keys;
    e :| Reads(source, e, d);
  }

  function SourcesOf(source: Sources, list: seq<ValueId>): (r: seq<Operand>)
    ensures |r| == |list| && forall i: nat :: i < |list| ==> r[i] == Src(source, list[i])
  {
    seq(|list|, i requires 0 <= i < |list| => Src(source, list[i]))
  }

  function AsValues(list: seq<ValueId>): (r: seq<Operand>)
    ensures |r| == |list| && forall i: nat :: i < |list| ==> r[i] == Value(list[i])
  {
    seq(|list|, i requires 0 <= i < |list| => Value(list[i]))
  }

  /** With nothing ready every pending destination is still read by a pending copy; as many sources as
      destinations then cover them all, so each exactly once. */
  lemma StuckPermutes(source: Sources, p: Progress, base: nat)
    requires Sound(source, p, base) && p.ready == [] && AllRead(source, p.location.Keys)
    ensures Permutes(source, p.pending)
  {
    var list := ListOfSet(p.pending);
    StuckCovers(source, p, base, list);
    CoveringPermutes(source, p.pending, list);
    hide *;
  }

  /** A list of destinations all among their own sources. */
  lemma CoveringPermutes(source: Sources, pending: set<ValueId>, list: seq<ValueId>)
    requires Distinct(list) && forall x: ValueId :: x in list <==> x in pending
    requires forall o: Operand :: o in AsValues(list) ==> o in SourcesOf(source, list)
    ensures Permutes(source, pending)
  {
    var dests, sources := AsValues(list), SourcesOf(source, list);
    forall i, j | 0 <= i < j < |dests| ensures dests[i] != dests[j] {
      assert list[i] != list[j];
    }
    PigeonholeTight(dests, sources);
    forall d: ValueId | d in pending ensures FeedsInside(source, pending, d) {
      var i: nat :| i < |list| && list[i] == d;
      assert sources[i] in sources;
      var k: nat :| k < |dests| && dests[k] == sources[i];
      assert list[k] in list;
    }
    forall d: ValueId, e: ValueId | d in pending && e in pending && Src(source, d) == Src(source, e) ensures d == e {
      var i: nat :| i < |list| && list[i] == d;
      var j: nat :| j < |list| && list[j] == e;
      assert sources[i] == sources[j];
    }
  }

  lemma StuckCovers(source: Sources, p: Progress, base: nat, list: seq<ValueId>)
    requires Sound(source, p, base) && p.ready == [] && AllRead(source, p.location.Keys)
    requires forall x: ValueId :: x in list <==> x in p.pending
    ensures forall o: Operand :: o in AsValues(list) ==> o in SourcesOf(source, list)
  {
    forall o: Operand | o in AsValues(list) ensures o in SourcesOf(source, list) {
      var i: nat :| i < |list| && AsValues(list)[i] == o;
      assert list[i] in list;
      var e := PendingReader(source, p, base, list[i]);
      var j: nat :| j < |list| && list[j] == e;
      assert SourcesOf(source, list)[j] == o;
    }
    hide Sound, AllRead;
  }

  // ---- cycles ----

  /** A cycle of copies nothing outside it reads: the destinations feed each other and nobody else, and
      no fewer of them do. */
  ghost predicate FreeCycle(source: Sources, c: set<ValueId>) {
    && c != {} && SourceClosed(source, c)
    && (forall d: ValueId, v: ValueId :: Reads(source, d, v) && v in c ==> d in c)
    && (forall less: set<ValueId> :: less != {} && less <= c && SourceClosed(source, less) ==> less == c)
  }

  /** Two free cycles that meet are the same. */
  lemma FreeCyclesMeet(source: Sources, a: set<ValueId>, b: set<ValueId>, d: ValueId)
    requires FreeCycle(source, a) && FreeCycle(source, b) && d in a && d in b
    ensures a == b
  {
    var both := a * b;
    assert d in both;
    forall x: ValueId | x in both ensures FeedsInside(source, both, x) {
      assert FeedsInside(source, a, x) && FeedsInside(source, b, x);
    }
    assert SourceClosed(source, both);
    assert both == a && both == b;
  }

  /** The copies written since the cycle at `start` was broken: each one's source is the next, and
      `before` was pending then. */
  datatype Chain = Chain(start: ValueId, links: seq<ValueId>, before: set<ValueId>)

  ghost predicate LinkAt(source: Sources, links: seq<ValueId>, i: nat) {
    i + 1 < |links| ==> Src(source, links[i]) == Value(links[i + 1])
  }

  ghost predicate IsChain(source: Sources, h: Chain) {
    && Distinct(h.links) && (forall x: ValueId :: x in h.links ==> x in h.before)
    && (forall i: nat :: LinkAt(source, h.links, i))
    && (h.links != [] ==> h.links[0] == h.start)
  }

  ghost predicate Unwinding(source: Sources, p: Progress, h: Chain) {
    && Permutes(source, h.before) && h.start in h.before && h.start in p.location &&
    p.location[h.start] != Home(h.start)
    && IsChain(source, h)
    && (forall x: ValueId :: x in p.pending <==> x in h.before && x !in h.links)
    && (forall d: ValueId, x: ValueId :: Reads(source, d, x) && x in h.before ==> d in h.before)
    && p.ready == if h.links == [] then [h.start] else AfterLink(source, h)
  }

  /** What the last link makes ready: its source, unless that is where the chain began. */
  function AfterLink(source: Sources, h: Chain): seq<ValueId>
    requires h.links != []
  {
    var last := h.links[|h.links| - 1];
    if Src(source, last).Value? && Src(source, last).id != h.start then [Src(source, last).id] else []
  }

  /** Nothing of the cycle is written or ready. */
  ghost predicate Untouched(p: Progress, c: set<ValueId>) {
    c <= p.pending && forall d: ValueId :: d in c ==> d !in p.ready
  }

  /** Every free cycle was found, or is untouched, or is the one being unwound. */
  ghost predicate Accounted(source: Sources, p: Progress, found: seq<set<ValueId>>, start: Option<ValueId>) {
    && (forall c: set<ValueId> :: c in found ==> FreeCycle(source, c) && forall d: ValueId :: d in c ==>
          d !in p.pending)
    && Distinct(found)
    && (start.Some? ==> forall c: set<ValueId> :: c in found ==> start.value !in c)
    && (forall c: set<ValueId> :: FreeCycle(source, c) ==>
          c in found || Untouched(p, c) || (start.Some? && start.value in c))
  }

  /** What feeds a free cycle is in it. */
  lemma OutsideReader(source: Sources, c: set<ValueId>, d: ValueId, e: ValueId)
    requires FreeCycle(source, c) && d in source && d !in c && e in c
    ensures source[d] != Value(e)
  {
    assert !Reads(source, d, e);
  }

  lemma WriteAccounted(source: Sources, p: Progress, base: nat, d: ValueId, found: seq<set<ValueId>>,
                       start: Option<ValueId>)
    requires CanWrite(source, p, base, d) && d in source && d in p.pending &&
             (source[d].Value? ==> source[d].id in p.location)
    requires Accounted(source, p, found, start)
    ensures Accounted(source, Write(source, p, d), found, start)
  {
    var p' := Write(source, p, d);
    WriteReady(source, p, base, d);
    forall c: set<ValueId> | FreeCycle(source, c)
      ensures c in found || Untouched(p', c) || (start.Some? && start.value in c)
    {
      if Untouched(p, c) {
        assert d in p.ready && d !in c;
        forall e: ValueId | e in c ensures e !in p'.ready {
          OutsideReader(source, c, d, e);
        }
      }
    }
    hide Sound, FreeCycle;
  }

  lemma StuckReads(source: Sources, p: Progress, base: nat)
    requires Sound(source, p, base) && p.ready == []
    ensures forall d: ValueId, x: ValueId :: Reads(source, d, x) && x in p.pending ==> d in p.pending
  {
  }

  lemma BreakUnwinds(source: Sources, p: Progress, base: nat, d: ValueId)
    requires Sound(source, p, base) && p.ready == [] && d in p.pending && AllRead(source, p.location.Keys)
    ensures Unwinding(source, Break(p, d), Chain(d, [], p.pending))
  {
    StuckPermutes(source, p, base);
    StuckReads(source, p, base);
    hide Sound, Permutes, AllRead, Reads;
  }

  lemma BreakAccounted(source: Sources, p: Progress, d: ValueId, found: seq<set<ValueId>>)
    requires Accounted(source, p, found, None) && p.ready == [] && d in p.pending
    ensures Accounted(source, Break(p, d), found, Some(d))
  {
    hide FreeCycle;
  }

  lemma WriteUnwinds(source: Sources, p: Progress, base: nat, d: ValueId, h: Chain)
    requires CanWrite(source, p, base, d) && d in source && d in p.pending &&
             (source[d].Value? ==> source[d].id in p.location)
    requires Unwinding(source, p, h)
    ensures Unwinding(source, Write(source, p, d), h.(links := h.links + [d]))
  {
    WriteReady(source, p, base, d);
    assert d in p.ready && d in h.before && d !in h.links;
    assert FeedsInside(source, h.before, d);
    ChainGrows(source, h, d, p.ready);
    var next := source[d].id;
    LinkIsNew(source, h, d);
    assert Reads(source, d, next) && d != next;
    assert p.ready == [d];
    if next != h.start {
      assert next in p.pending && next !in p.ready;
      AtHome(source, p, base, next);
    } else {
      assert h.links != [] && h.links[0] in h.links;
    }
    hide Permutes, Sound, IsChain, Reads;
  }

  lemma AtHome(source: Sources, p: Progress, base: nat, d: ValueId)
    requires Sound(source, p, base) && d in p.pending && d !in p.ready
    ensures d in p.location && p.location[d] == Home(d)
  {
  }

  lemma ChainGrows(source: Sources, h: Chain, d: ValueId, ready: seq<ValueId>)
    requires IsChain(source, h) && d in h.before && d !in h.links && d in ready
    requires ready == if h.links == [] then [h.start] else AfterLink(source, h)
    ensures IsChain(source, h.(links := h.links + [d]))
  {
    var links := h.links + [d];
    DistinctSnoc(h.links, d);
    forall i: nat ensures LinkAt(source, links, i) {
      assert LinkAt(source, h.links, i);
    }
  }

  /** A source other than the start is not yet among the links: its one reader was not. */
  lemma LinkIsNew(source: Sources, h: Chain, d: ValueId)
    requires Permutes(source, h.before) && IsChain(source, h) && d in h.before && d !in h.links
    ensures FeedsInside(source, h.before, d)
    ensures Src(source, d).id in h.links ==> Src(source, d).id == h.start
  {
    assert FeedsInside(source, h.before, d);
    var next := Src(source, d).id;
    if next in h.links && next != h.start {
      var j: nat :| j < |h.links| && h.links[j] == next;
      OneReader(source, h, d, j);
    }
  }

  lemma OneReader(source: Sources, h: Chain, d: ValueId, j: nat)
    requires Permutes(source, h.before) && IsChain(source, h) && d in h.before
    requires 0 < j < |h.links| && Src(source, d) == Value(h.links[j])
    ensures d == h.links[j - 1] && d in h.links
  {
    assert h.links[j - 1] in h.links;
    assert LinkAt(source, h.links, j - 1);
  }

  lemma {:induction false} ClosedHoldsLinks(source: Sources, h: Chain, less: set<ValueId>, k: nat)
    requires SourceClosed(source, less) && IsChain(source, h) && k < |h.links| && h.links[0] in less
    ensures h.links[k] in less
    decreases k
  {
    if k > 0 {
      ClosedHoldsLinks(source, h, less, k - 1);
      assert LinkAt(source, h.links, k - 1);
      assert FeedsInside(source, less, h.links[k - 1]);
    }
  }

  lemma {:induction false} ClosedReachesEnd(source: Sources, h: Chain, less: set<ValueId>, k: nat)
    requires SourceClosed(source, less) && IsChain(source, h) && k < |h.links| && h.links[k] in less
    ensures h.links[|h.links| - 1] in less
    decreases |h.links| - k
  {
    if k < |h.links| - 1 {
      assert LinkAt(source, h.links, k);
      assert FeedsInside(source, less, h.links[k]);
      ClosedReachesEnd(source, h, less, k + 1);
    }
  }

  ghost function Members(links: seq<ValueId>): (r: set<ValueId>)
    ensures forall x: ValueId :: x in r <==> x in links
  {
    set x | x in links
  }

  /** The chain came back to its start. */
  lemma LastFeedsStart(source: Sources, p: Progress, h: Chain)
    requires Unwinding(source, p, h) && p.ready == []
    ensures h.links != [] && Src(source, h.links[|h.links| - 1]) == Value(h.start)
  {
    var n := |h.links| - 1;
    assert h.links[n] in h.links;
    assert FeedsInside(source, h.before, h.links[n]);
  }

  lemma UnwoundIsClosed(source: Sources, p: Progress, h: Chain)
    requires Unwinding(source, p, h) && p.ready == []
    ensures SourceClosed(source, Members(h.links)) && h.start in Members(h.links)
  {
    var c := Members(h.links);
    LastFeedsStart(source, p, h);
    assert h.links[0] in c;
    forall d: ValueId | d in c ensures FeedsInside(source, c, d) {
      var i: nat :| i < |h.links| && h.links[i] == d;
      assert LinkAt(source, h.links, i);
      if i + 1 < |h.links| {
        assert h.links[i + 1] in h.links;
      }
    }
  }

  lemma UnwoundIsMinimal(source: Sources, p: Progress, h: Chain, less: set<ValueId>)
    requires Unwinding(source, p, h) && p.ready == []
    requires less != {} && less <= Members(h.links) && SourceClosed(source, less)
    ensures less == Members(h.links)
  {
    LastFeedsStart(source, p, h);
    var x: ValueId :| x in less;
    var k: nat :| k < |h.links| && h.links[k] == x;
    ClosedReachesEnd(source, h, less, k);
    assert FeedsInside(source, less, h.links[|h.links| - 1]);
    forall y: ValueId | y in Members(h.links) ensures y in less {
      var l: nat :| l < |h.links| && h.links[l] == y;
      ClosedHoldsLinks(source, h, less, l);
    }
  }

  lemma ReaderIsLink(source: Sources, p: Progress, h: Chain, d: ValueId, v: ValueId)
    requires Unwinding(source, p, h) && p.ready == [] && Reads(source, d, v) && v in h.links
    ensures d in h.links
  {
    LastFeedsStart(source, p, h);
    var n := |h.links| - 1;
    assert h.links[n] in h.links;
    assert v in h.before && d in h.before;
    var j: nat :| j < |h.links| && h.links[j] == v;
    if j == 0 {
      assert Src(source, d) == Src(source, h.links[n]);
    } else {
      OneReader(source, h, d, j);
    }
  }

  /** When the chain has come back to its start, what it unwound is a free cycle. */
  lemma UnwoundIsFree(source: Sources, p: Progress, h: Chain)
    requires Unwinding(source, p, h) && p.ready == []
    ensures FreeCycle(source, Members(h.links)) && h.start in Members(h.links)
    ensures forall d: ValueId :: d in Members(h.links) ==> d !in p.pending
  {
    var c := Members(h.links);
    UnwoundIsClosed(source, p, h);
    forall d: ValueId, v: ValueId | Reads(source, d, v) && v in c ensures d in c {
      ReaderIsLink(source, p, h, d, v);
    }
    forall less: set<ValueId> | less != {} && less <= c && SourceClosed(source, less) ensures less == c {
      UnwoundIsMinimal(source, p, h, less);
    }
    hide SourceClosed, Permutes, IsChain, Reads;
  }

  lemma UnwoundAccounted(source: Sources, p: Progress, h: Chain, found: seq<set<ValueId>>)
    requires Unwinding(source, p, h) && p.ready == [] && Accounted(source, p, found, Some(h.start))
    ensures Accounted(source, p, found + [Members(h.links)], None)
  {
    UnwoundIsFree(source, p, h);
    var c := Members(h.links);
    DistinctSnoc(found, c);
    forall b: set<ValueId> | FreeCycle(source, b)
      ensures b in found + [c] || Untouched(p, b)
    {
      if h.start in b {
        FreeCyclesMeet(source, b, c, h.start);
      }
    }
    hide FreeCycle, Unwinding;
  }
}
