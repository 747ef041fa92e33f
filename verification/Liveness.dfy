/** Which values are still needed where: the backward dataflow, and what its fixed point means. */
module Liveness {
  import opened IdomTree
  import opened Lists
  import opened Vregs
  import opened Linear

  // ---- what being live means ----

  /** Before instruction `row` of a block; the row past the last is the block's end. */
  datatype Point = Point(name: LabelId, row: nat)

  ghost predicate Follows(cfg: Cfg, p: Point, q: Point) {
    if p.row < |cfg.Body(p.name)| then q == Point(p.name, p.row + 1)
    else q.row == 0 && p.row == |cfg.Body(p.name)| && q.name in cfg.Successors(p.name)
  }

  ghost predicate ReadAt(cfg: Cfg, p: Point, v: VirtualReg) {
    p.row < |cfg.Body(p.name)| && v in Uses(cfg.Body(p.name)[p.row])
  }

  ghost predicate DefinedAt(cfg: Cfg, p: Point, v: VirtualReg) {
    p.row < |cfg.Body(p.name)| && Def(cfg.Body(p.name)[p.row]) == Some(v)
  }

  /** Some path of at most `n` steps from `p` reaches a read of `v` with no definition in between. */
  ghost predicate LiveWithin(cfg: Cfg, v: VirtualReg, p: Point, n: nat)
    decreases n
  {
    || ReadAt(cfg, p, v)
    || (n > 0 && !DefinedAt(cfg, p, v) && exists q: Point :: Follows(cfg, p, q) && LiveWithin(cfg, v, q, n - 1))
  }

  ghost predicate Live(cfg: Cfg, v: VirtualReg, p: Point) {
    exists n: nat :: LiveWithin(cfg, v, p, n)
  }

  ghost function End(cfg: Cfg, name: LabelId): Point {
    Point(name, |cfg.Body(name)|)
  }

  lemma {:induction false} LiveLonger(cfg: Cfg, v: VirtualReg, p: Point, n: nat, k: nat)
    requires LiveWithin(cfg, v, p, n) && n <= k
    ensures LiveWithin(cfg, v, p, k)
    decreases n
  {
    if !ReadAt(cfg, p, v) {
      var q: Point :| Follows(cfg, p, q) && LiveWithin(cfg, v, q, n - 1);
      LiveLonger(cfg, v, q, n - 1, k - 1);
    }
  }

  lemma LiveBefore(cfg: Cfg, v: VirtualReg, p: Point, q: Point)
    requires Follows(cfg, p, q) && Live(cfg, v, q) && !DefinedAt(cfg, p, v)
    ensures Live(cfg, v, p)
  {
    var n: nat :| LiveWithin(cfg, v, q, n);
    assert LiveWithin(cfg, v, p, n + 1);
  }

  /** Inside a block, live before an instruction means read by it, or not defined by it and live after. */
  lemma LiveAtRow(cfg: Cfg, v: VirtualReg, p: Point)
    requires p.row < |cfg.Body(p.name)|
    ensures Live(cfg, v, p) <==> ReadAt(cfg, p, v) || (!DefinedAt(cfg, p, v) && Live(cfg, v, Point(p.name, p.row + 1)))
  {
    var next := Point(p.name, p.row + 1);
    if Live(cfg, v, p) && !ReadAt(cfg, p, v) {
      var n: nat :| LiveWithin(cfg, v, p, n);
      assert LiveWithin(cfg, v, next, n - 1);
    }
    if ReadAt(cfg, p, v) {
      assert LiveWithin(cfg, v, p, 0);
    } else if !DefinedAt(cfg, p, v) && Live(cfg, v, next) {
      LiveBefore(cfg, v, p, next);
    }
  }

  /** At a block's end, live means live at the start of some successor. */
  lemma LiveAtEnd(cfg: Cfg, v: VirtualReg, name: LabelId)
    ensures Live(cfg, v, End(cfg, name)) <==>
              exists s: LabelId :: s in cfg.Successors(name) && Live(cfg, v, Point(s, 0))
  {
    var p := End(cfg, name);
    if Live(cfg, v, p) {
      var n: nat :| LiveWithin(cfg, v, p, n);
      var q: Point :| Follows(cfg, p, q) && LiveWithin(cfg, v, q, n - 1);
      assert q.name in cfg.Successors(name) && q == Point(q.name, 0);
    }
    if s: LabelId :| s in cfg.Successors(name) && Live(cfg, v, Point(s, 0)) {
      LiveBefore(cfg, v, p, Point(s, 0));
    }
  }

  // ---- what a block exposes and defines ----

  function Killed(body: seq<Instr>): set<VirtualReg>
    decreases |body|
  {
    if body == [] then {}
    else
      var last := body[|body| - 1];
      Killed(body[..|body| - 1]) + (if Def(last).Some? then {Def(last).value} else {})
  }

  function Used(body: seq<Instr>): set<VirtualReg>
    decreases |body|
  {
    if body == [] then {}
    else
      var rest := body[..|body| - 1];
      Used(rest) + (Members(Uses(body[|body| - 1])) - Killed(rest))
  }

  function Members(s: seq<VirtualReg>): (r: set<VirtualReg>)
    ensures forall v: VirtualReg :: v in r <==> v in s
    decreases |s|
  {
    if s == [] then {} else Members(s[..|s| - 1]) + {s[|s| - 1]}
  }

  /** The values a block needs from outside it, and those it defines. */
  method BlockUseKill(body: seq<Instr>) returns (used: set<VirtualReg>, killed: set<VirtualReg>)
    ensures used == Used(body) && killed == Killed(body)
  {
    used, killed := {}, {};
    for i := 0 to |body|
      invariant used == Used(body[..i]) && killed == Killed(body[..i])
    {
      assert body[..i + 1][..i] == body[..i];
      used := AddExposed(used, killed, Uses(body[i]));
      if Def(body[i]).Some? {
        killed := killed + {Def(body[i]).value};
      }
      hide Uses, Def, Members;
    }
    assert body[..|body|] == body;
  }

  /** Only a read no earlier definition in the block satisfies is exposed. */
  method AddExposed(before: set<VirtualReg>, killed: set<VirtualReg>, uses: seq<VirtualReg>)
    returns (used: set<VirtualReg>)
    ensures used == before + (Members(uses) - killed)
  {
    used := before;
    for k := 0 to |uses|
      invariant used == before + (Members(uses[..k]) - killed)
    {
      assert uses[..k + 1][..k] == uses[..k];
      if uses[k] !in killed {
        used := used + {uses[k]};
      }
    }
    assert uses[..|uses|] == uses;
  }

  /** What is live at a block's start: what it exposes, and what it does not kill of what is live at its end. */
  lemma {:induction false} LiveThrough(cfg: Cfg, v: VirtualReg, name: LabelId, row: nat)
    requires row <= |cfg.Body(name)|
    ensures Live(cfg, v, Point(name, 0)) <==>
              v in Used(cfg.Body(name)[..row]) ||
              (v !in Killed(cfg.Body(name)[..row]) && Live(cfg, v, Point(name, row)))
    decreases row
  {
    var body := cfg.Body(name);
    if row == 0 {
      assert body[..0] == [];
    } else {
      LiveThrough(cfg, v, name, row - 1);
      assert body[..row][..row - 1] == body[..row - 1];
      LiveAtRow(cfg, v, Point(name, row - 1));
    }
  }

  lemma LiveIn(cfg: Cfg, v: VirtualReg, name: LabelId)
    ensures Live(cfg, v, Point(name, 0)) <==>
              v in Used(cfg.Body(name)) || (v !in Killed(cfg.Body(name)) && Live(cfg, v, End(cfg, name)))
  {
    var body := cfg.Body(name);
    assert body[..|body|] == body;
    LiveThrough(cfg, v, name, |body|);
  }

  // ---- the fixed point ----

  type Sets = map<LabelId, set<VirtualReg>>

  function At(sets: Sets, name: LabelId): set<VirtualReg> {
    if name in sets then sets[name] else {}
  }

  ghost predicate ArrivesFrom(cfg: Cfg, ins: Sets, name: LabelId, v: VirtualReg) {
    exists s: LabelId :: s in cfg.Successors(name) && v in At(ins, s)
  }

  /** The union of the live-in sets of a block's successors. */
  ghost predicate IsOut(cfg: Cfg, ins: Sets, name: LabelId, out: set<VirtualReg>) {
    forall v: VirtualReg :: v in out <==> ArrivesFrom(cfg, ins, name, v)
  }

  ghost predicate IsIn(cfg: Cfg, name: LabelId, out: set<VirtualReg>, incoming: set<VirtualReg>) {
    incoming == Used(cfg.Body(name)) + (out - Killed(cfg.Body(name)))
  }

  /** Both equations hold for a block. */
  ghost predicate Solved(cfg: Cfg, ins: Sets, outs: Sets, name: LabelId) {
    && name in ins && name in outs
    && IsOut(cfg, ins, name, outs[name]) && IsIn(cfg, name, outs[name], ins[name])
  }

  /** Everything in the sets is live there, and each set is within what its equation gives now. */
  ghost predicate Justified(cfg: Cfg, ins: Sets, outs: Sets) {
    && ins.Keys <= cfg.blocks.Keys && outs.Keys <= cfg.blocks.Keys
    && (forall b: LabelId, v: VirtualReg :: v in At(ins, b) ==> Live(cfg, v, Point(b, 0)))
    && (forall b: LabelId, v: VirtualReg :: v in At(outs, b) ==> Live(cfg, v, End(cfg, b)))
    && (forall b: LabelId, v: VirtualReg :: v in At(outs, b) ==> ArrivesFrom(cfg, ins, b, v))
    && (forall b: LabelId, v: VirtualReg :: v in At(ins, b) ==>
          v in Used(cfg.Body(b)) || (v !in Killed(cfg.Body(b)) && ArrivesFrom(cfg, ins, b, v)))
  }

  ghost predicate AllSolved(cfg: Cfg, ins: Sets, outs: Sets) {
    forall b: LabelId :: b in cfg.blocks ==> Solved(cfg, ins, outs, b)
  }

  /** A fixed point holds every live value. */
  lemma {:induction false} FixedPointComplete(cfg: Cfg, ins: Sets, outs: Sets, v: VirtualReg, p: Point, n: nat)
    requires AllSolved(cfg, ins, outs) && LiveWithin(cfg, v, p, n) && p.name in cfg.blocks &&
             p.row <= |cfg.Body(p.name)|
    ensures LiveRest(cfg, outs, v, p)
    decreases n
  {
    hide AllSolved, LiveRest, ReadAt, DefinedAt;
    RestStep(cfg, outs, v, p);
    if ReadAt(cfg, p, v) {
      ReadIsInside(cfg, p, v);
    } else {
      var q: Point :| Follows(cfg, p, q) && LiveWithin(cfg, v, q, n - 1);
      if p.row < |cfg.Body(p.name)| {
        FixedPointComplete(cfg, ins, outs, v, q, n - 1);
      } else {
        LiveHasBlock(cfg, v, q.name, n - 1);
        FixedPointComplete(cfg, ins, outs, v, q, n - 1);
        FlowsBack(cfg, ins, outs, v, p.name, q.name);
      }
    }
  }

  lemma ReadIsInside(cfg: Cfg, p: Point, v: VirtualReg)
    requires ReadAt(cfg, p, v)
    ensures p.row < |cfg.Body(p.name)|
  {
  }

  lemma LiveHasBlock(cfg: Cfg, v: VirtualReg, name: LabelId, n: nat)
    requires LiveWithin(cfg, v, Point(name, 0), n)
    ensures name in cfg.blocks
  {
    if name !in cfg.blocks {
      DanglingIsDead(cfg, v, name, n);
    }
  }

  lemma FlowsBack(cfg: Cfg, ins: Sets, outs: Sets, v: VirtualReg, name: LabelId, s: LabelId)
    requires AllSolved(cfg, ins, outs) && name in cfg.blocks && s in cfg.blocks && s in cfg.Successors(name)
    requires LiveRest(cfg, outs, v, Point(s, 0))
    ensures v in At(outs, name)
  {
    assert Solved(cfg, ins, outs, s) && Solved(cfg, ins, outs, name);
    RestAtStart(cfg, ins, outs, v, s);
    assert ArrivesFrom(cfg, ins, name, v);
  }

  /** A label with no block reads nothing and leads nowhere. */
  lemma DanglingIsDead(cfg: Cfg, v: VirtualReg, name: LabelId, n: nat)
    requires name !in cfg.blocks
    ensures !LiveWithin(cfg, v, Point(name, 0), n)
  {
  }

  /** From `p` on, the block reads `v` before defining it, or leaves it alone with `v` in its live-out set. */
  ghost predicate LiveRest(cfg: Cfg, outs: Sets, v: VirtualReg, p: Point) {
    var rest := cfg.Body(p.name);
    p.row <= |rest| &&
    (v in Used(rest[p.row..]) || (v !in Killed(rest[p.row..]) && v in At(outs, p.name)))
  }

  lemma {:induction false} KilledCons(body: seq<Instr>)
    requires body != []
    ensures Killed(body) == Killed(body[1..]) + (if Def(body[0]).Some? then {Def(body[0]).value} else {})
    decreases |body|
  {
    if |body| == 1 {
      assert body[..0] == [];
    } else {
      var rest := body[..|body| - 1];
      KilledCons(rest);
      assert rest[1..] == body[1..][..|body| - 2];
    }
  }

  lemma {:induction false} UsedCons(body: seq<Instr>, v: VirtualReg)
    requires body != []
    ensures v in Used(body) <==> v in Uses(body[0]) || (v in Used(body[1..]) && Def(body[0]) != Some(v))
    decreases |body|
  {
    if |body| == 1 {
      assert body[..0] == [] && body[1..] == [];
    } else {
      var rest := body[..|body| - 1];
      UsedCons(rest, v);
      KilledCons(rest);
      assert rest[1..] == body[1..][..|body| - 2];
    }
  }

  lemma RestStep(cfg: Cfg, outs: Sets, v: VirtualReg, p: Point)
    requires p.row <= |cfg.Body(p.name)|
    ensures p.row < |cfg.Body(p.name)| ==>
              (LiveRest(cfg, outs, v, p) <==>
                 ReadAt(cfg, p, v) || (!DefinedAt(cfg, p, v) && LiveRest(cfg, outs, v, Point(p.name, p.row + 1))))
    ensures p.row == |cfg.Body(p.name)| ==> (LiveRest(cfg, outs, v, p) <==> v in At(outs, p.name))
  {
    var body := cfg.Body(p.name);
    if p.row < |body| {
      assert body[p.row..][1..] == body[p.row + 1..];
      KilledCons(body[p.row..]);
      UsedCons(body[p.row..], v);
    }
  }

  lemma RestAtStart(cfg: Cfg, ins: Sets, outs: Sets, v: VirtualReg, name: LabelId)
    requires Solved(cfg, ins, outs, name) && LiveRest(cfg, outs, v, Point(name, 0))
    ensures v in ins[name]
  {
    assert cfg.Body(name)[0..] == cfg.Body(name);
  }

  // ---- one step towards it ----

  /** Replacing a block's sets by what its equations give keeps everything justified, and loses nothing. */
  lemma UpdateJustified(cfg: Cfg, ins: Sets, outs: Sets, b: LabelId, out: set<VirtualReg>, incoming: set<VirtualReg>)
    requires Justified(cfg, ins, outs) && b in cfg.blocks && IsOut(cfg, ins, b, out) && IsIn(cfg, b, out, incoming)
    ensures Justified(cfg, ins[b := incoming], outs[b := out])
    ensures At(ins, b) <= incoming && At(outs, b) <= out
  {
    var ins', outs' := ins[b := incoming], outs[b := out];
    assert At(ins, b) <= incoming && At(outs, b) <= out;
    forall x: LabelId
      ensures At(ins', x) == if x == b then incoming else At(ins, x)
      ensures At(outs', x) == if x == b then out else At(outs, x)
    {
    }
    ArrivalsGrow(cfg, ins, b, incoming);
    UpdateIsLive(cfg, ins, outs, b, out, incoming);
    hide Live, Used, Killed, At;
  }

  lemma ArrivalsGrow(cfg: Cfg, ins: Sets, b: LabelId, incoming: set<VirtualReg>)
    requires At(ins, b) <= incoming
    ensures forall x: LabelId, v: VirtualReg :: ArrivesFrom(cfg, ins, x, v) ==>
              ArrivesFrom(cfg, ins[b := incoming], x, v)
  {
    var ins' := ins[b := incoming];
    forall x: LabelId, v: VirtualReg | ArrivesFrom(cfg, ins, x, v) ensures ArrivesFrom(cfg, ins', x, v) {
      var s: LabelId :| s in cfg.Successors(x) && v in At(ins, s);
      assert v in At(ins', s);
    }
  }

  lemma UpdateIsLive(cfg: Cfg, ins: Sets, outs: Sets, b: LabelId, out: set<VirtualReg>, incoming: set<VirtualReg>)
    requires Justified(cfg, ins, outs) && IsOut(cfg, ins, b, out) && IsIn(cfg, b, out, incoming)
    ensures forall v: VirtualReg :: v in out ==> Live(cfg, v, End(cfg, b))
    ensures forall v: VirtualReg :: v in incoming ==> Live(cfg, v, Point(b, 0))
  {
    forall v: VirtualReg | v in out ensures Live(cfg, v, End(cfg, b)) {
      var s: LabelId :| s in cfg.Successors(b) && v in At(ins, s);
      LiveAtEnd(cfg, v, b);
    }
    forall v: VirtualReg | v in incoming ensures Live(cfg, v, Point(b, 0)) {
      LiveIn(cfg, v, b);
    }
    hide Live, Used, Killed;
  }

  datatype Fact = InHas(b: LabelId, v: VirtualReg) | OutHas(b: LabelId, v: VirtualReg) | InKnown(b: LabelId) |
      OutKnown(b: LabelId)

  ghost function Facts(ins: Sets, outs: Sets): set<Fact> {
    (set b, v | b in ins && v in ins[b] :: InHas(b, v)) + (set b, v | b in outs && v in outs[b] :: OutHas(b, v))
    + (set b | b in ins :: InKnown(b)) + (set b | b in outs :: OutKnown(b))
  }

  ghost function Everything(cfg: Cfg): set<VirtualReg> {
    set b, v | b in cfg.blocks && v in Used(cfg.blocks[b].instructions) :: v
  }

  ghost function AllFacts(cfg: Cfg): set<Fact> {
    (set b, v | b in cfg.blocks && v in Everything(cfg) :: InHas(b, v))
    + (set b, v | b in cfg.blocks && v in Everything(cfg) :: OutHas(b, v))
    + (set b | b in cfg.blocks :: InKnown(b)) + (set b | b in cfg.blocks :: OutKnown(b))
  }

  /** Only values some block exposes ever appear. */
  ghost predicate Bounded(cfg: Cfg, ins: Sets, outs: Sets) {
    && ins.Keys <= cfg.blocks.Keys && outs.Keys <= cfg.blocks.Keys
    && (forall b: LabelId, v: VirtualReg :: v in At(ins, b) ==> v in Everything(cfg))
    && (forall b: LabelId, v: VirtualReg :: v in At(outs, b) ==> v in Everything(cfg))
  }

  lemma FactsBounded(cfg: Cfg, ins: Sets, outs: Sets)
    requires Bounded(cfg, ins, outs)
    ensures Facts(ins, outs) <= AllFacts(cfg)
  {
    forall b: LabelId, v: VirtualReg | b in ins && v in ins[b] ensures v in Everything(cfg) {
      assert v in At(ins, b);
    }
    forall b: LabelId, v: VirtualReg | b in outs && v in outs[b] ensures v in Everything(cfg) {
      assert v in At(outs, b);
    }
    hide Everything;
  }

  lemma ExposedIsSomething(cfg: Cfg, b: LabelId, v: VirtualReg)
    requires b in cfg.blocks
    ensures v in Used(cfg.Body(b)) ==> v in Everything(cfg)
  {
    assert cfg.Body(b) == cfg.blocks[b].instructions;
  }

  lemma UpdateBounded(cfg: Cfg, ins: Sets, outs: Sets, b: LabelId, out: set<VirtualReg>, incoming: set<VirtualReg>)
    requires Bounded(cfg, ins, outs) && b in cfg.blocks && IsOut(cfg, ins, b, out) && IsIn(cfg, b, out, incoming)
    ensures Bounded(cfg, ins[b := incoming], outs[b := out])
  {
    hide Everything, Used, Killed;
    var ins', outs' := ins[b := incoming], outs[b := out];
    forall v: VirtualReg | v in out ensures v in Everything(cfg) {
      assert ArrivesFrom(cfg, ins, b, v);
      var s: LabelId :| s in cfg.Successors(b) && v in At(ins, s);
    }
    forall x: LabelId, v: VirtualReg | v in At(ins', x) ensures v in Everything(cfg) {
      if x == b {
        ExposedIsSomething(cfg, b, v);
      } else {
        assert v in At(ins, x);
      }
    }
    forall x: LabelId, v: VirtualReg | v in At(outs', x) ensures v in Everything(cfg) {
      if x != b {
        assert v in At(outs, x);
      }
    }
  }

  ghost predicate FactHolds(ins: Sets, outs: Sets, f: Fact) {
    match f
    case InHas(b, v) => b in ins && v in ins[b]
    case OutHas(b, v) => b in outs && v in outs[b]
    case InKnown(b) => b in ins
    case OutKnown(b) => b in outs
  }

  lemma FactsAre(ins: Sets, outs: Sets)
    ensures forall f: Fact :: f in Facts(ins, outs) <==> FactHolds(ins, outs, f)
  {
  }

  lemma FactsGrow(ins: Sets, outs: Sets, b: LabelId, out: set<VirtualReg>, incoming: set<VirtualReg>)
    requires At(ins, b) <= incoming && At(outs, b) <= out
    ensures Facts(ins, outs) <= Facts(ins[b := incoming], outs[b := out])
    ensures b !in ins || ins[b] != incoming || b !in outs || outs[b] != out ==>
              Facts(ins, outs) != Facts(ins[b := incoming], outs[b := out])
  {
    FactsAre(ins, outs);
    FactsAre(ins[b := incoming], outs[b := out]);
    hide Facts;
    var f := NewFact(ins, outs, b, out, incoming);
    if b !in ins || ins[b] != incoming || b !in outs || outs[b] != out {
      assert FactHolds(ins[b := incoming], outs[b := out], f) && !FactHolds(ins, outs, f);
    }
  }

  lemma NewFact(ins: Sets, outs: Sets, b: LabelId, out: set<VirtualReg>, incoming: set<VirtualReg>) returns (f: Fact)
    requires At(ins, b) <= incoming && At(outs, b) <= out
    ensures b !in ins || ins[b] != incoming || b !in outs || outs[b] != out ==>
              FactHolds(ins[b := incoming], outs[b := out], f) && !FactHolds(ins, outs, f)
  {
    f := InKnown(b);
    if b !in outs {
      f := OutKnown(b);
    } else if b in ins && ins[b] != incoming {
      var v: VirtualReg :| v in incoming && v !in ins[b];
      f := InHas(b, v);
    } else if b in ins && outs[b] != out {
      var v: VirtualReg :| v in out && v !in outs[b];
      f := OutHas(b, v);
    }
  }

  /** A block whose equations give what it has now, and no successor of which changed, is solved. */
  lemma SolvedStays(cfg: Cfg, ins: Sets, outs: Sets, b: LabelId, out: set<VirtualReg>, incoming: set<VirtualReg>)
    requires IsOut(cfg, ins, b, out) && IsIn(cfg, b, out, incoming)
    requires b in ins && ins[b] == incoming && b in outs && outs[b] == out
    ensures Solved(cfg, ins, outs, b)
  {
  }

  method UnionOfSuccessors(cfg: Cfg, ins: Sets, name: LabelId) returns (out: set<VirtualReg>)
    ensures IsOut(cfg, ins, name, out)
  {
    out := {};
    var successors := cfg.Successors(name);
    for i := 0 to |successors|
      invariant forall v: VirtualReg :: v in out <==> exists k: nat :: k < i && v in At(ins, successors[k])
    {
      if successors[i] in ins {
        out := out + ins[successors[i]];
      }
    }
    forall v: VirtualReg ensures v in out <==> ArrivesFrom(cfg, ins, name, v) {
      if ArrivesFrom(cfg, ins, name, v) {
        var s: LabelId :| s in successors && v in At(ins, s);
        var k: nat :| k < |successors| && successors[k] == s;
      }
    }
  }

  /** What an update leaves: justified and bounded sets that lost nothing, and whether they gained. */
  ghost predicate Advanced(cfg: Cfg, ins0: Sets, outs0: Sets, ins: Sets, outs: Sets, changed: bool) {
    && Justified(cfg, ins, outs) && Bounded(cfg, ins, outs)
    && Facts(ins0, outs0) <= Facts(ins, outs)
    && (changed ==> Facts(ins0, outs0) != Facts(ins, outs))
    && (!changed ==> ins == ins0 && outs == outs0)
  }

  /** Give one block the sets its equations ask for now. */
  method Update(cfg: Cfg, used: set<VirtualReg>, killed: set<VirtualReg>, name: LabelId, ins0: Sets, outs0: Sets)
    returns (ins: Sets, outs: Sets, changed: bool)
    requires name in cfg.blocks && used == Used(cfg.Body(name)) && killed == Killed(cfg.Body(name))
    requires Justified(cfg, ins0, outs0) && Bounded(cfg, ins0, outs0)
    ensures Advanced(cfg, ins0, outs0, ins, outs, changed)
    ensures !changed ==> Solved(cfg, ins, outs, name)
  {
    hide Justified, Bounded, Facts, IsOut, Solved, IsIn, Used, Killed;
    ins, outs, changed := ins0, outs0, false;
    var newOut := UnionOfSuccessors(cfg, ins, name);
    var newIn := used + (newOut - killed);
    InIs(cfg, name, newOut, newIn);
    UpdateJustified(cfg, ins, outs, name, newOut, newIn);
    UpdateBounded(cfg, ins, outs, name, newOut, newIn);
    FactsGrow(ins, outs, name, newOut, newIn);
    if name in ins && ins[name] == newIn && name in outs && outs[name] == newOut {
      SolvedStays(cfg, ins, outs, name, newOut, newIn);
    }
    if name !in ins || ins[name] != newIn {
      changed := true;
      ins := ins[name := newIn];
    }
    if name !in outs || outs[name] != newOut {
      changed := true;
      outs := outs[name := newOut];
    }
    assert changed ==> ins == ins0[name := newIn] && outs == outs0[name := newOut];
  }

  lemma AdvanceInTurn(cfg: Cfg, ins0: Sets, outs0: Sets, ins1: Sets, outs1: Sets, changed1: bool, ins: Sets,
                      outs: Sets, changed: bool)
    requires Advanced(cfg, ins0, outs0, ins1, outs1, changed1) && Advanced(cfg, ins1, outs1, ins, outs, changed)
    ensures Advanced(cfg, ins0, outs0, ins, outs, changed1 || changed)
  {
    hide Justified, Bounded, Facts;
  }

  /** One sweep over every block. */
  method Sweep(cfg: Cfg, useKill: map<LabelId, (set<VirtualReg>, set<VirtualReg>)>, ins0: Sets, outs0: Sets)
    returns (ins: Sets, outs: Sets, changed: bool)
    requires useKill.Keys == cfg.blocks.Keys
    requires forall b: LabelId :: b in useKill ==> useKill[b] == (Used(cfg.Body(b)), Killed(cfg.Body(b)))
    requires Justified(cfg, ins0, outs0) && Bounded(cfg, ins0, outs0)
    ensures Advanced(cfg, ins0, outs0, ins, outs, changed)
    ensures !changed ==> AllSolved(cfg, ins, outs)
  {
    ins, outs, changed := ins0, outs0, false;
    var todo := cfg.blocks.Keys;
    while todo != {}
      invariant todo <= cfg.blocks.Keys
      invariant Advanced(cfg, ins0, outs0, ins, outs, changed)
      invariant !changed ==> forall b: LabelId :: b in cfg.blocks && b !in todo ==> Solved(cfg, ins, outs, b)
      decreases todo
    {
      hide Justified, Bounded, Facts, Solved, Used, Killed;
      var name :| name in todo;
      todo := todo - {name};
      var ins1, outs1, more := Update(cfg, useKill[name].0, useKill[name].1, name, ins, outs);
      AdvanceInTurn(cfg, ins0, outs0, ins, outs, changed, ins1, outs1, more);
      ins, outs, changed := ins1, outs1, changed || more;
    }
  }

  lemma InIs(cfg: Cfg, name: LabelId, out: set<VirtualReg>, incoming: set<VirtualReg>)
    requires incoming == Used(cfg.Body(name)) + (out - Killed(cfg.Body(name)))
    ensures IsIn(cfg, name, out, incoming)
  {
  }

  /** The live-out set of every block: exactly the values some path from its end reads before defining. */
  method ComputeLiveOut(cfg: Cfg) returns (outs: Sets)
    ensures outs.Keys == cfg.blocks.Keys
    ensures exists ins: Sets :: AllSolved(cfg, ins, outs)
    ensures forall b: LabelId, v: VirtualReg :: b in cfg.blocks ==> (v in outs[b] <==> Live(cfg, v, End(cfg, b)))
  {
    var useKill := AllUseKill(cfg);
    var ins: Sets := map[];
    outs := map[];
    var changed := true;
    while changed
      invariant Justified(cfg, ins, outs) && Bounded(cfg, ins, outs)
      invariant !changed ==> AllSolved(cfg, ins, outs)
      decreases AllFacts(cfg) - Facts(ins, outs), changed
    {
      hide Justified, Bounded, Facts, AllFacts, AllSolved, Used, Killed;
      FactsBounded(cfg, ins, outs);
      ins, outs, changed := Sweep(cfg, useKill, ins, outs);
      FactsBounded(cfg, ins, outs);
    }
    LiveOutExact(cfg, ins, outs);
  }

  method AllUseKill(cfg: Cfg) returns (useKill: map<LabelId, (set<VirtualReg>, set<VirtualReg>)>)
    ensures useKill.Keys == cfg.blocks.Keys
    ensures forall b: LabelId :: b in useKill ==> useKill[b] == (Used(cfg.Body(b)), Killed(cfg.Body(b)))
  {
    useKill := map[];
    var todo := cfg.blocks.Keys;
    while todo != {}
      invariant todo <= cfg.blocks.Keys && useKill.Keys == cfg.blocks.Keys - todo
      invariant forall b: LabelId :: b in useKill ==> useKill[b] == (Used(cfg.Body(b)), Killed(cfg.Body(b)))
      decreases todo
    {
      var name :| name in todo;
      todo := todo - {name};
      var used, killed := BlockUseKill(cfg.blocks[name].instructions);
      useKill := useKill[name := (used, killed)];
    }
  }

  lemma LiveOutExact(cfg: Cfg, ins: Sets, outs: Sets)
    requires Justified(cfg, ins, outs) && AllSolved(cfg, ins, outs)
    ensures outs.Keys == cfg.blocks.Keys
    ensures forall b: LabelId, v: VirtualReg :: b in cfg.blocks ==> (v in outs[b] <==> Live(cfg, v, End(cfg, b)))
  {
    AllKnown(cfg, ins, outs);
    hide Justified, AllSolved;
    forall b: LabelId, v: VirtualReg | b in cfg.blocks
      ensures v in outs[b] <==> Live(cfg, v, End(cfg, b))
    {
      LiveOutAt(cfg, ins, outs, b, v);
    }
    hide Live;
  }

  lemma AllKnown(cfg: Cfg, ins: Sets, outs: Sets)
    requires Justified(cfg, ins, outs) && AllSolved(cfg, ins, outs)
    ensures outs.Keys == cfg.blocks.Keys
  {
    forall b: LabelId | b in cfg.blocks ensures b in outs {
      assert Solved(cfg, ins, outs, b);
    }
  }

  lemma LiveOutAt(cfg: Cfg, ins: Sets, outs: Sets, b: LabelId, v: VirtualReg)
    requires Justified(cfg, ins, outs) && AllSolved(cfg, ins, outs) && b in cfg.blocks && b in outs
    ensures v in outs[b] <==> Live(cfg, v, End(cfg, b))
  {
    assert v in outs[b] <==> v in At(outs, b);
    hide AllSolved, LiveRest;
    if Live(cfg, v, End(cfg, b)) {
      var n: nat :| LiveWithin(cfg, v, End(cfg, b), n);
      FixedPointComplete(cfg, ins, outs, v, End(cfg, b), n);
      RestStep(cfg, outs, v, End(cfg, b));
    }
  }
}
