/** Live intervals: one range of indices per value, covering every index at which it is needed. */
module Intervals {
  import opened IdomTree
  import opened Lists
  import opened Vregs
  import opened Linear
  import opened Liveness

  /** First and last instruction index, both included, at which a value is live. */
  datatype LiveInterval = LiveInterval(vreg: VirtualReg, start: nat, end: nat)
  {
    /** Live before the call and after it, which rules out the call's own result. */
    predicate CrossesCall(call: CallSite) {
      start <= call.position <= end && !(start == call.position && call.defines == Some(vreg))
    }
  }

  datatype CallSite = CallSite(position: nat, defines: Option<VirtualReg>)

  datatype Span = Span(start: nat, end: nat)

  type Spans = map<VirtualReg, Span>

  /** `v` is defined by instruction `i` of the block, or some path from it reads `v` first. */
  ghost predicate Needed(cfg: Cfg, block: LinearBlock, i: nat, v: VirtualReg) {
    block.start <= i < block.end &&
    (DefinedAt(cfg, Point(block.name, i - block.start), v) || Live(cfg, v, Point(block.name, i - block.start)))
  }

  ghost predicate Covered(spans: Spans, v: VirtualReg, i: nat) {
    v in spans && spans[v].start <= i <= spans[v].end
  }

  // ---- the reverse walk ----

  /** Every index from `cur` on is covered for each value needed there. */
  ghost predicate Covers(cfg: Cfg, blocks: seq<LinearBlock>, spans: Spans, cur: nat) {
    forall k: nat, i: nat, v: VirtualReg :: k < |blocks| && Needed(cfg, blocks[k], i, v) && i >= cur ==>
      Covered(spans, v, i)
  }

  ghost predicate EndsFrom(spans: Spans, cur: nat, size: nat) {
    forall v: VirtualReg :: v in spans ==> spans[v].start <= spans[v].end < size && cur <= spans[v].end + 1
  }

  /** What is live before index `cur` of the block spans back to the block's start. */
  ghost predicate SpansBack(cfg: Cfg, block: LinearBlock, spans: Spans, cur: nat) {
    block.start <= cur &&
    forall v: VirtualReg :: Live(cfg, v, Point(block.name, cur - block.start)) ==>
      v in spans && spans[v].start <= block.start && cur <= spans[v].end + 1
  }

  ghost predicate Widened(before: Spans, after: Spans) {
    forall v: VirtualReg :: v in before ==>
      v in after && after[v].start <= before[v].start && before[v].end <= after[v].end
  }

  /** Spans in `after` but not `before` are those of `added`, reaching from `from` to `to` at least. */
  ghost predicate Added(before: Spans, after: Spans, added: set<VirtualReg>, from: nat, to: nat) {
    && Widened(before, after)
    && (forall v: VirtualReg :: v in added ==> v in after && after[v].start <= from && to <= after[v].end)
    && (forall v: VirtualReg :: v in after ==> v in before || v in added)
    && (forall v: VirtualReg :: v in after && v !in added ==> after[v] == before[v])
    && (forall v: VirtualReg :: v in after && v in added ==>
          after[v].end == if v in before && before[v].end >= to then before[v].end else to)
    && (forall v: VirtualReg :: v in after && v in added ==>
          after[v].start == if v in before && before[v].start <= from then before[v].start else from)
  }

  function Extend(spans: Spans, v: VirtualReg, from: nat, to: nat): Spans {
    if v in spans then
      spans[v := Span(if from < spans[v].start then from else spans[v].start,
                      if to > spans[v].end then to else spans[v].end)]
    else spans[v := Span(from, to)]
  }

  /** The span begins here, wherever it began before. */
  function Born(spans: Spans, v: VirtualReg, index: nat): Spans {
    if v in spans then spans[v := spans[v].(start := index)] else spans[v := Span(index, index)]
  }

  lemma ExtendAdds(before: Spans, spans: Spans, added: set<VirtualReg>, v: VirtualReg, from: nat, to: nat)
    requires Added(before, spans, added, from, to)
    ensures Added(before, Extend(spans, v, from, to), added + {v}, from, to)
  {
    hide Extend;
    ExtendIs(spans, v, from, to);
  }

  lemma ExtendIs(spans: Spans, v: VirtualReg, from: nat, to: nat)
    ensures var after := Extend(spans, v, from, to);
            && after.Keys == spans.Keys + {v}
            && (forall w: VirtualReg :: w in spans && w != v ==> after[w] == spans[w])
            && after[v].start == (if v in spans && spans[v].start <= from then spans[v].start else from)
            && after[v].end == (if v in spans && spans[v].end >= to then spans[v].end else to)
  {
  }

  method ExtendSet(before: Spans, live: set<VirtualReg>, from: nat, to: nat) returns (spans: Spans)
    ensures Added(before, spans, live, from, to)
  {
    spans := before;
    var todo := live;
    while todo != {}
      invariant todo <= live && Added(before, spans, live - todo, from, to)
      decreases todo
    {
      var v :| v in todo;
      ExtendAdds(before, spans, live - todo, v, from, to);
      assert live - todo + {v} == live - (todo - {v});
      todo := todo - {v};
      spans := Extend(spans, v, from, to);
    }
    assert live - todo == live;
  }

  method ExtendUses(before: Spans, uses: seq<VirtualReg>, from: nat, to: nat) returns (spans: Spans)
    ensures Added(before, spans, Members(uses), from, to)
  {
    spans := before;
    for k := 0 to |uses|
      invariant Added(before, spans, Members(uses[..k]), from, to)
    {
      assert uses[..k + 1][..k] == uses[..k];
      ExtendAdds(before, spans, Members(uses[..k]), uses[k], from, to);
      spans := Extend(spans, uses[k], from, to);
    }
    assert uses[..|uses|] == uses;
  }

  lemma CoversWider(cfg: Cfg, blocks: seq<LinearBlock>, before: Spans, after: Spans, cur: nat)
    requires Covers(cfg, blocks, before, cur) && Widened(before, after)
    ensures Covers(cfg, blocks, after, cur)
  {
    forall k: nat, i: nat, v: VirtualReg | k < |blocks| && Needed(cfg, blocks[k], i, v) && i >= cur
      ensures Covered(after, v, i)
    {
      assert Covered(before, v, i);
    }
    hide Needed;
  }

  /** Entering a block from its end: what is live out of it spans all of it. */
  lemma EnterBlock(cfg: Cfg, blocks: seq<LinearBlock>, block: LinearBlock, before: Spans, spans: Spans,
                   live: set<VirtualReg>, size: nat)
    requires block.start < block.end <= size && block.end - block.start == |cfg.Body(block.name)|
    requires Covers(cfg, blocks, before, block.end) && EndsFrom(before, block.end, size)
    requires Added(before, spans, live, block.start, block.end - 1)
    requires forall v: VirtualReg :: v in live <==> Live(cfg, v, End(cfg, block.name))
    ensures Covers(cfg, blocks, spans, block.end) && EndsFrom(spans, block.end, size) &&
            SpansBack(cfg, block, spans, block.end)
  {
    CoversWider(cfg, blocks, before, spans, block.end);
    hide Live, Covers;
  }

  /** What one instruction, walked backwards, does: its definition, then its reads. */
  ghost predicate Stepped(instr: Instr, start: nat, i: nat, before: Spans, born: Spans, after: Spans) {
    && born == (if Def(instr).Some? then Born(before, Def(instr).value, i) else before)
    && Added(born, after, Members(Uses(instr)), start, i)
  }

  lemma StepLive(cfg: Cfg, block: LinearBlock, i: nat, before: Spans, born: Spans, after: Spans, v: VirtualReg)
    requires block.start <= i < block.end && block.end - block.start == |cfg.Body(block.name)|
    requires SpansBack(cfg, block, before, i + 1)
    requires Stepped(cfg.Body(block.name)[i - block.start], block.start, i, before, born, after)
    requires Live(cfg, v, Point(block.name, i - block.start))
    ensures v in after && after[v].start <= block.start && i <= after[v].end
  {
    var instr := cfg.Body(block.name)[i - block.start];
    var p := Point(block.name, i - block.start);
    LiveAtRow(cfg, v, p);
    assert ReadAt(cfg, p, v) <==> v in Members(Uses(instr));
    hide Live, Uses, Def;
    if !ReadAt(cfg, p, v) {
      var next := i + 1;
      assert Live(cfg, v, Point(block.name, next - block.start));
      assert v in before && before[v].start <= block.start && next <= before[v].end + 1;
      assert Def(instr) != Some(v);
      assert born[v] == before[v];
    }
  }

  lemma StepSpans(cfg: Cfg, block: LinearBlock, i: nat, before: Spans, born: Spans, after: Spans, size: nat)
    requires block.start <= i < block.end <= size && block.end - block.start == |cfg.Body(block.name)|
    requires SpansBack(cfg, block, before, i + 1) && EndsFrom(before, i + 1, size)
    requires Stepped(cfg.Body(block.name)[i - block.start], block.start, i, before, born, after)
    ensures SpansBack(cfg, block, after, i) && EndsFrom(after, i, size)
    ensures forall v: VirtualReg :: Needed(cfg, block, i, v) ==> Covered(after, v, i)
    ensures Widened(born, after)
  {
    hide Live, Uses, Def, Added, EndsFrom, Members;
    var instr := cfg.Body(block.name)[i - block.start];
    var p := Point(block.name, i - block.start);
    BornEnds(before, born, i, size, Def(instr));
    AddedEnds(born, after, Members(Uses(instr)), block.start, i, size);
    forall v: VirtualReg | Live(cfg, v, p)
      ensures v in after && after[v].start <= block.start && i <= after[v].end
    {
      StepLive(cfg, block, i, before, born, after, v);
    }
    forall v: VirtualReg | DefinedAt(cfg, p, v) ensures Covered(after, v, i) {
      BornCovered(born, after, Members(Uses(instr)), block.start, i, v);
    }
    AddedWidens(born, after, Members(Uses(instr)), block.start, i);
  }

  lemma BornCovered(born: Spans, after: Spans, added: set<VirtualReg>, from: nat, i: nat, v: VirtualReg)
    requires Added(born, after, added, from, i) && v in born && born[v].start == i <= born[v].end
    ensures Covered(after, v, i)
  {
  }

  lemma BornEnds(before: Spans, born: Spans, i: nat, size: nat, def: Option<VirtualReg>)
    requires EndsFrom(before, i + 1, size) && i < size
    requires born == if def.Some? then Born(before, def.value, i) else before
    ensures EndsFrom(born, i, size)
    ensures def.Some? ==> def.value in born && born[def.value].start == i && i <= born[def.value].end
    ensures forall v: VirtualReg :: v in before && def != Some(v) ==> v in born && born[v] == before[v]
  {
  }

  lemma AddedEnds(before: Spans, after: Spans, added: set<VirtualReg>, from: nat, to: nat, size: nat)
    requires EndsFrom(before, to, size) && from <= to < size && Added(before, after, added, from, to)
    ensures EndsFrom(after, to, size)
  {
  }

  /** A birth at `i` uncovers nothing after it. */
  lemma BornCovers(cfg: Cfg, blocks: seq<LinearBlock>, before: Spans, v: VirtualReg, i: nat)
    requires Covers(cfg, blocks, before, i + 1)
    ensures Covers(cfg, blocks, Born(before, v, i), i + 1)
  {
    var born := Born(before, v, i);
    forall k: nat, j: nat, w: VirtualReg | k < |blocks| && Needed(cfg, blocks[k], j, w) && j >= i + 1
      ensures Covered(born, w, j)
    {
      assert Covered(before, w, j);
    }
    hide Needed;
  }

  /** The indices from `cur` on are those of this block from there, and of the blocks after it. */
  lemma CoversOneMore(cfg: Cfg, blocks: seq<LinearBlock>, full: nat, k: nat, i: nat, spans: Spans)
    requires 0 < full <= |blocks| && Tiles(blocks[..full], blocks[full - 1].end) && AllEmpty(blocks[full..])
    requires k < full && blocks[k].start <= i < blocks[k].end && Covers(cfg, blocks, spans, i + 1)
    requires forall v: VirtualReg :: Needed(cfg, blocks[k], i, v) ==> Covered(spans, v, i)
    ensures Covers(cfg, blocks, spans, i)
  {
    forall l: nat, j: nat, v: VirtualReg | l < |blocks| && Needed(cfg, blocks[l], j, v) && j >= i
      ensures Covered(spans, v, j)
    {
      if j == i {
        OneBlockPerIndex(blocks, full, k, l, i);
      }
    }
    hide Needed, Covered, Tiles, AllEmpty;
  }

  lemma {:induction false} TilesOrdered(blocks: seq<LinearBlock>, end: nat, k: nat, l: nat)
    requires Tiles(blocks, end) && k < l < |blocks|
    ensures blocks[k].end <= blocks[l].start
    decreases l
  {
    var j := l - 1;
    assert blocks[j].end == blocks[l].start;
    if k < j {
      TilesOrdered(blocks, end, k, j);
      assert blocks[j].start < blocks[j].end;
    }
  }

  lemma EmptyAfter(blocks: seq<LinearBlock>, full: nat, l: nat)
    requires full <= l < |blocks| && AllEmpty(blocks[full..])
    ensures blocks[l].start == blocks[l].end
  {
    assert blocks[full..][l - full] == blocks[l];
  }

  lemma OneBlockPerIndex(blocks: seq<LinearBlock>, full: nat, k: nat, l: nat, i: nat)
    requires 0 < full <= |blocks| && Tiles(blocks[..full], blocks[full - 1].end) && AllEmpty(blocks[full..])
    requires k < full && l < |blocks| && blocks[k].start <= i < blocks[k].end && blocks[l].start <= i < blocks[l].end
    ensures l == k
  {
    if l >= full {
      EmptyAfter(blocks, full, l);
    } else if k < l {
      TilesOrdered(blocks[..full], blocks[full - 1].end, k, l);
    } else if l < k {
      TilesOrdered(blocks[..full], blocks[full - 1].end, l, k);
    }
  }

  // ---- no wider than needed ----

  ghost predicate NeededSomewhere(cfg: Cfg, blocks: seq<LinearBlock>, i: nat, v: VirtualReg) {
    exists k: nat :: k < |blocks| && Needed(cfg, blocks[k], i, v)
  }

  /** Its value is needed where the span ends and where it begins, unless it begins with the block for the sake of
      what is live before index `cur` of it. */
  ghost predicate SpanTight(cfg: Cfg, blocks: seq<LinearBlock>, block: LinearBlock, cur: nat, spans: Spans,
                            v: VirtualReg)
    requires v in spans
  {
    && NeededSomewhere(cfg, blocks, spans[v].end, v)
    && (NeededSomewhere(cfg, blocks, spans[v].start, v)
        || (spans[v].start == block.start <= cur && Live(cfg, v, Point(block.name, cur - block.start))))
  }

  ghost predicate Tight(cfg: Cfg, blocks: seq<LinearBlock>, block: LinearBlock, cur: nat, spans: Spans) {
    forall v: VirtualReg :: v in spans ==> SpanTight(cfg, blocks, block, cur, spans, v)
  }

  ghost predicate AllTight(cfg: Cfg, blocks: seq<LinearBlock>, spans: Spans) {
    forall v: VirtualReg :: v in spans ==>
      NeededSomewhere(cfg, blocks, spans[v].start, v) && NeededSomewhere(cfg, blocks, spans[v].end, v)
  }

  /** Widening spans to the block's start, for values live there, and to where they are needed. */
  lemma AddedTight(cfg: Cfg, blocks: seq<LinearBlock>, k: nat, cur: nat, to: nat, before: Spans, after: Spans,
                   added: set<VirtualReg>)
    requires k < |blocks| && blocks[k].start <= cur && Tight(cfg, blocks, blocks[k], cur, before)
    requires Added(before, after, added, blocks[k].start, to)
    requires forall v: VirtualReg :: v in added ==>
               Live(cfg, v, Point(blocks[k].name, cur - blocks[k].start)) && Needed(cfg, blocks[k], to, v)
    ensures Tight(cfg, blocks, blocks[k], cur, after)
  {
    hide Needed, Live;
    forall v: VirtualReg | v in after ensures SpanTight(cfg, blocks, blocks[k], cur, after, v) {
      assert v in before ==> SpanTight(cfg, blocks, blocks[k], cur, before, v);
      if v in added {
        assert NeededSomewhere(cfg, blocks, to, v);
      }
      hide NeededSomewhere;
    }
  }

  /** A birth: what is live after the instruction and not defined by it is live before it. */
  lemma BornTight(cfg: Cfg, blocks: seq<LinearBlock>, k: nat, i: nat, before: Spans, born: Spans)
    requires k < |blocks| && blocks[k].start <= i < blocks[k].end
    requires blocks[k].end - blocks[k].start == |cfg.Body(blocks[k].name)|
    requires Tight(cfg, blocks, blocks[k], i + 1, before)
    requires var def := Def(cfg.Body(blocks[k].name)[i - blocks[k].start]);
             born == if def.Some? then Born(before, def.value, i) else before
    ensures Tight(cfg, blocks, blocks[k], i, born)
  {
    var def := Def(cfg.Body(blocks[k].name)[i - blocks[k].start]);
    hide Def, Cfg.Body, SpanTight;
    forall v: VirtualReg | v in born ensures SpanTight(cfg, blocks, blocks[k], i, born, v) {
      if def == Some(v) {
        DefinitionNeeded(cfg, blocks, k, i, v);
        BirthTight(cfg, blocks, blocks[k], i, before, v);
      } else {
        LivePast(cfg, blocks, k, i, v);
        StaysTight(cfg, blocks, blocks[k], i, before, born, v);
      }
    }
  }

  lemma BirthTight(cfg: Cfg, blocks: seq<LinearBlock>, block: LinearBlock, i: nat, before: Spans, v: VirtualReg)
    requires v in before ==> SpanTight(cfg, blocks, block, i + 1, before, v)
    requires NeededSomewhere(cfg, blocks, i, v)
    ensures v in Born(before, v, i) && SpanTight(cfg, blocks, block, i, Born(before, v, i), v)
  {
    hide NeededSomewhere, Live;
  }

  lemma StaysTight(cfg: Cfg, blocks: seq<LinearBlock>, block: LinearBlock, i: nat, before: Spans, born: Spans,
                   v: VirtualReg)
    requires v in before && v in born && born[v] == before[v] && block.start <= i
    requires SpanTight(cfg, blocks, block, i + 1, before, v)
    requires Live(cfg, v, Point(block.name, i + 1 - block.start)) ==> Live(cfg, v, Point(block.name, i - block.start))
    ensures SpanTight(cfg, blocks, block, i, born, v)
  {
    hide NeededSomewhere, Live;
  }

  lemma DefinitionNeeded(cfg: Cfg, blocks: seq<LinearBlock>, k: nat, i: nat, v: VirtualReg)
    requires k < |blocks| && blocks[k].start <= i < blocks[k].end
    requires blocks[k].end - blocks[k].start == |cfg.Body(blocks[k].name)|
    requires Def(cfg.Body(blocks[k].name)[i - blocks[k].start]) == Some(v)
    ensures NeededSomewhere(cfg, blocks, i, v)
  {
    assert DefinedAt(cfg, Point(blocks[k].name, i - blocks[k].start), v);
    assert Needed(cfg, blocks[k], i, v);
    hide Live, Def;
  }

  lemma LivePast(cfg: Cfg, blocks: seq<LinearBlock>, k: nat, i: nat, v: VirtualReg)
    requires k < |blocks| && blocks[k].start <= i < blocks[k].end
    requires blocks[k].end - blocks[k].start == |cfg.Body(blocks[k].name)|
    requires Def(cfg.Body(blocks[k].name)[i - blocks[k].start]) != Some(v)
    ensures Live(cfg, v, Point(blocks[k].name, i + 1 - blocks[k].start)) ==>
              Live(cfg, v, Point(blocks[k].name, i - blocks[k].start))
  {
    LiveAtRow(cfg, v, Point(blocks[k].name, i - blocks[k].start));
    hide Live, Def, Uses;
  }

  lemma ReadIsLive(cfg: Cfg, blocks: seq<LinearBlock>, k: nat, i: nat, v: VirtualReg)
    requires k < |blocks| && blocks[k].start <= i < blocks[k].end
    requires blocks[k].end - blocks[k].start == |cfg.Body(blocks[k].name)|
    requires v in Members(Uses(cfg.Body(blocks[k].name)[i - blocks[k].start]))
    ensures Live(cfg, v, Point(blocks[k].name, i - blocks[k].start)) && Needed(cfg, blocks[k], i, v)
  {
    hide Live, Uses, Def;
    var p := Point(blocks[k].name, i - blocks[k].start);
    assert ReadAt(cfg, p, v);
    LiveAtRow(cfg, v, p);
  }

  /** What is live at the end of a block is needed at its last instruction. */
  lemma LiveOutNeeded(cfg: Cfg, blocks: seq<LinearBlock>, k: nat, v: VirtualReg)
    requires k < |blocks| && blocks[k].start < blocks[k].end
    requires blocks[k].end - blocks[k].start == |cfg.Body(blocks[k].name)|
    requires Live(cfg, v, End(cfg, blocks[k].name))
    ensures Live(cfg, v, Point(blocks[k].name, blocks[k].end - blocks[k].start))
    ensures Needed(cfg, blocks[k], blocks[k].end - 1, v)
  {
    var last := blocks[k].end - 1;
    var p := Point(blocks[k].name, last - blocks[k].start);
    LiveAtRow(cfg, v, p);
    assert Point(p.name, p.row + 1) == End(cfg, blocks[k].name);
    hide Live, Uses;
  }

  lemma TightEnter(cfg: Cfg, blocks: seq<LinearBlock>, k: nat, before: Spans, spans: Spans, live: set<VirtualReg>)
    requires k < |blocks| && blocks[k].start < blocks[k].end
    requires blocks[k].end - blocks[k].start == |cfg.Body(blocks[k].name)|
    requires AllTight(cfg, blocks, before) && Added(before, spans, live, blocks[k].start, blocks[k].end - 1)
    requires forall v: VirtualReg :: v in live ==> Live(cfg, v, End(cfg, blocks[k].name))
    ensures Tight(cfg, blocks, blocks[k], blocks[k].end, spans)
  {
    hide Live, Needed, NeededSomewhere, Added, End;
    forall v: VirtualReg | v in live
      ensures Live(cfg, v, Point(blocks[k].name, blocks[k].end - blocks[k].start))
      ensures Needed(cfg, blocks[k], blocks[k].end - 1, v)
    {
      LiveOutNeeded(cfg, blocks, k, v);
    }
    AddedTight(cfg, blocks, k, blocks[k].end, blocks[k].end - 1, before, spans, live);
  }

  lemma TightStep(cfg: Cfg, blocks: seq<LinearBlock>, k: nat, i: nat, before: Spans, born: Spans, after: Spans)
    requires k < |blocks| && blocks[k].start <= i < blocks[k].end
    requires blocks[k].end - blocks[k].start == |cfg.Body(blocks[k].name)|
    requires Tight(cfg, blocks, blocks[k], i + 1, before)
    requires Stepped(cfg.Body(blocks[k].name)[i - blocks[k].start], blocks[k].start, i, before, born, after)
    ensures Tight(cfg, blocks, blocks[k], i, after)
  {
    hide Live, Needed, Tight, Added, Members, Uses, Def, Born;
    var instr := cfg.Body(blocks[k].name)[i - blocks[k].start];
    BornTight(cfg, blocks, k, i, before, born);
    forall v: VirtualReg | v in Members(Uses(instr))
      ensures Live(cfg, v, Point(blocks[k].name, i - blocks[k].start)) && Needed(cfg, blocks[k], i, v)
    {
      ReadIsLive(cfg, blocks, k, i, v);
    }
    AddedTight(cfg, blocks, k, i, i, born, after, Members(Uses(instr)));
  }

  /** At the block's start what is live is needed there. */
  lemma TightLeave(cfg: Cfg, blocks: seq<LinearBlock>, k: nat, spans: Spans)
    requires k < |blocks| && blocks[k].start < blocks[k].end && Tight(cfg, blocks, blocks[k], blocks[k].start, spans)
    ensures AllTight(cfg, blocks, spans)
  {
    forall v: VirtualReg | v in spans ensures NeededSomewhere(cfg, blocks, spans[v].start, v) {
      assert SpanTight(cfg, blocks, blocks[k], blocks[k].start, spans, v);
      if !NeededSomewhere(cfg, blocks, spans[v].start, v) {
        StartNeeded(cfg, blocks, k, v);
      }
    }
    hide NeededSomewhere, Live;
  }

  lemma StartNeeded(cfg: Cfg, blocks: seq<LinearBlock>, k: nat, v: VirtualReg)
    requires k < |blocks| && blocks[k].start < blocks[k].end && Live(cfg, v, Point(blocks[k].name, 0))
    ensures NeededSomewhere(cfg, blocks, blocks[k].start, v)
  {
    assert Needed(cfg, blocks[k], blocks[k].start, v);
    hide Live;
  }

  // ---- the walk over one block ----

  method WalkBlock(cfg: Cfg, linear: Linearized, ghost full: nat, k: nat, liveOut: set<VirtualReg>, before: Spans)
    returns (spans: Spans)
    requires IsLinear(cfg, linear, full) && k < full
    requires forall v: VirtualReg :: v in liveOut <==> Live(cfg, v, End(cfg, linear.blocks[k].name))
    requires Covers(cfg, linear.blocks, before, linear.blocks[k].end)
    requires EndsFrom(before, linear.blocks[k].end, |linear.instructions|) && AllTight(cfg, linear.blocks, before)
    ensures Covers(cfg, linear.blocks, spans, linear.blocks[k].start) && AllTight(cfg, linear.blocks, spans)
    ensures EndsFrom(spans, linear.blocks[k].start, |linear.instructions|)
  {
    hide Covers, EndsFrom, SpansBack, Added, IsLinear, Live, Tiles, AllEmpty, Needed, Covered, Uses, Def, Members, Born,
         Tight, AllTight;
    ghost var size := |linear.instructions|;
    BlockShape(cfg, linear, full, k);
    var block := linear.blocks[k];
    spans := ExtendSet(before, liveOut, block.start, block.end - 1);
    EnterBlock(cfg, linear.blocks, block, before, spans, liveOut, size);
    TightEnter(cfg, linear.blocks, k, before, spans, liveOut);
    var index := block.end;
    while index > block.start
      invariant block.start <= index <= block.end
      invariant Covers(cfg, linear.blocks, spans, index) && EndsFrom(spans, index, size) &&
                SpansBack(cfg, block, spans, index)
      invariant Tight(cfg, linear.blocks, block, index, spans)
    {
      index := index - 1;
      spans := StepBack(cfg, linear, full, k, index, spans);
    }
    TightLeave(cfg, linear.blocks, k, spans);
  }

  /** One instruction: its definition starts the interval here, its reads extend theirs to the block's start. */
  method StepBack(cfg: Cfg, linear: Linearized, ghost full: nat, k: nat, index: nat, before: Spans)
    returns (spans: Spans)
    requires IsLinear(cfg, linear, full) && k < full <= |linear.blocks|
    requires linear.blocks[k].start <= index < linear.blocks[k].end <= |linear.instructions|
    requires Covers(cfg, linear.blocks, before, index + 1) && EndsFrom(before, index + 1, |linear.instructions|)
    requires SpansBack(cfg, linear.blocks[k], before, index + 1)
    requires Tight(cfg, linear.blocks, linear.blocks[k], index + 1, before)
    ensures Tight(cfg, linear.blocks, linear.blocks[k], index, spans)
    ensures Covers(cfg, linear.blocks, spans, index) && EndsFrom(spans, index, |linear.instructions|)
    ensures SpansBack(cfg, linear.blocks[k], spans, index)
  {
    hide Covers, EndsFrom, SpansBack, Added, IsLinear, Live, Tiles, AllEmpty, Needed, Covered, Uses, Def, Members,
         Born, Widened, Tight;
    var block := linear.blocks[k];
    BlockShape(cfg, linear, full, k);
    InstrOf(cfg, linear, full, k, index);
    var instr := linear.instructions[index];
    var born := before;
    if Def(instr).Some? {
      BornCovers(cfg, linear.blocks, before, Def(instr).value, index);
      born := Born(before, Def(instr).value, index);
    }
    spans := ExtendUses(born, Uses(instr), block.start, index);
    StepSpans(cfg, block, index, before, born, spans, |linear.instructions|);
    TightStep(cfg, linear.blocks, k, index, before, born, spans);
    CoversWider(cfg, linear.blocks, born, spans, index + 1);
    CoversOneMore(cfg, linear.blocks, full, k, index, spans);
  }

  lemma AddedWidens(before: Spans, after: Spans, added: set<VirtualReg>, from: nat, to: nat)
    requires Added(before, after, added, from, to)
    ensures Widened(before, after)
  {
  }

  lemma InstrOf(cfg: Cfg, linear: Linearized, full: nat, k: nat, i: nat)
    requires IsLinear(cfg, linear, full) && k < |linear.blocks| && linear.blocks[k].start <= i < linear.blocks[k].end
    ensures linear.blocks[k].end <= |linear.instructions|
    ensures linear.blocks[k].end - linear.blocks[k].start == |cfg.Body(linear.blocks[k].name)|
    ensures linear.instructions[i] == cfg.Body(linear.blocks[k].name)[i - linear.blocks[k].start]
  {
    HoldsAt(cfg, linear, full, k);
    HoldsInstr(cfg, linear.instructions, linear.blocks[k], i);
    hide *;
  }

  lemma HoldsAt(cfg: Cfg, linear: Linearized, full: nat, k: nat)
    requires IsLinear(cfg, linear, full) && k < |linear.blocks|
    ensures Holds(cfg, linear.instructions, linear.blocks[k])
  {
    hide Holds, Tiles, AllEmpty, Reachable, Distinct;
  }

  lemma HoldsInstr(cfg: Cfg, instructions: seq<Instr>, block: LinearBlock, i: nat)
    requires Holds(cfg, instructions, block) && block.start <= i < block.end
    ensures block.end <= |instructions| && block.end - block.start == |cfg.Body(block.name)|
    ensures instructions[i] == cfg.Body(block.name)[i - block.start]
  {
    assert instructions[block.start..block.end][i - block.start] == instructions[i];
  }

  lemma BlockShape(cfg: Cfg, linear: Linearized, full: nat, k: nat)
    requires IsLinear(cfg, linear, full) && k < full
    ensures full <= |linear.blocks| && AllEmpty(linear.blocks[full..])
    ensures Tiles(linear.blocks[..full], linear.blocks[full - 1].end)
    ensures linear.blocks[full - 1].end == |linear.instructions| && linear.blocks[0].start == 0
    ensures linear.blocks[k].start < linear.blocks[k].end <= |linear.instructions|
    ensures linear.blocks[k].end - linear.blocks[k].start == |cfg.Body(linear.blocks[k].name)|
    ensures linear.blocks[k].name in cfg.blocks
    ensures k > 0 ==> linear.blocks[k - 1].end == linear.blocks[k].start
  {
    assert Holds(cfg, linear.instructions, linear.blocks[k]);
    TilesShape(linear.blocks, full, k, |linear.instructions|);
    hide Holds, AllEmpty, AllHold, Reachable;
  }

  lemma TilesShape(blocks: seq<LinearBlock>, full: nat, k: nat, size: nat)
    requires k < full <= |blocks| && Tiles(blocks[..full], size)
    ensures blocks[k].start < blocks[k].end && blocks[full - 1].end == size && blocks[0].start == 0
    ensures k > 0 ==> blocks[k - 1].end == blocks[k].start
  {
    var tiles := blocks[..full];
    assert tiles[k] == blocks[k] && tiles[full - 1] == blocks[full - 1] && tiles[0] == blocks[0];
    if k > 0 {
      var i := k - 1;
      assert tiles[i] == blocks[i];
    }
  }

  // ---- the intervals ----

  ghost predicate Sorted(intervals: seq<LiveInterval>) {
    forall i: nat, j: nat :: i < j < |intervals| ==> NotAfter(intervals[i], intervals[j])
  }

  /** Ascending start, then end. */
  predicate NotAfter(a: LiveInterval, b: LiveInterval) {
    a.start < b.start || (a.start == b.start && a.end <= b.end)
  }

  /** The list holds each value's span once. */
  ghost predicate ListsSpans(spans: Spans, intervals: seq<LiveInterval>) {
    && (forall i: nat, j: nat :: i < j < |intervals| ==> intervals[i].vreg != intervals[j].vreg)
    && (forall i: nat :: i < |intervals| ==>
          intervals[i].vreg in spans && spans[intervals[i].vreg] == Span(intervals[i].start, intervals[i].end))
    && (forall v: VirtualReg :: v in spans ==> exists i: nat :: i < |intervals| && intervals[i].vreg == v)
  }

  method InsertSorted(intervals: seq<LiveInterval>, one: LiveInterval, ghost spans: Spans)
    returns (r: seq<LiveInterval>)
    requires Sorted(intervals) && ListsSpans(spans, intervals) && one.vreg !in spans
    ensures Sorted(r) && ListsSpans(spans[one.vreg := Span(one.start, one.end)], r)
  {
    hide ListsSpans, Sorted, Inserted;
    var k := 0;
    while k < |intervals| && NotAfter(intervals[k], one)
      invariant k <= |intervals| && forall i: nat :: i < k ==> NotAfter(intervals[i], one)
    {
      k := k + 1;
    }
    r := intervals[..k] + [one] + intervals[k..];
    InsertedAt(intervals, k, one);
    InsertedSorted(intervals, k, one, r);
    InsertedLists(intervals, k, one, r, spans);
  }

  ghost predicate Inserted(intervals: seq<LiveInterval>, k: nat, one: LiveInterval, r: seq<LiveInterval>) {
    && k <= |intervals| && |r| == |intervals| + 1
    && (forall i: nat {:trigger r[i]} :: i < |r| ==>
          r[i] == if i < k then intervals[i] else if i == k then one else intervals[i - 1])
  }

  lemma InsertedAt(intervals: seq<LiveInterval>, k: nat, one: LiveInterval)
    requires k <= |intervals|
    ensures Inserted(intervals, k, one, intervals[..k] + [one] + intervals[k..])
  {
  }

  lemma InsertedSorted(intervals: seq<LiveInterval>, k: nat, one: LiveInterval, r: seq<LiveInterval>)
    requires Sorted(intervals) && Inserted(intervals, k, one, r)
    requires forall i: nat :: i < k ==> NotAfter(intervals[i], one)
    requires k < |intervals| ==> !NotAfter(intervals[k], one)
    ensures Sorted(r)
  {
    forall i: nat, j: nat | i < j < |r| ensures NotAfter(r[i], r[j]) {
      if i == k {
        assert j - 1 == k || NotAfter(intervals[k], intervals[j - 1]);
      }
    }
  }

  lemma InsertedLists(intervals: seq<LiveInterval>, k: nat, one: LiveInterval, r: seq<LiveInterval>, spans: Spans)
    requires ListsSpans(spans, intervals) && Inserted(intervals, k, one, r) && one.vreg !in spans
    ensures ListsSpans(spans[one.vreg := Span(one.start, one.end)], r)
  {
    var after := spans[one.vreg := Span(one.start, one.end)];
    forall v: VirtualReg | v in after ensures exists i: nat :: i < |r| && r[i].vreg == v {
      if v == one.vreg {
        assert r[k].vreg == v;
      } else {
        var i: nat :| i < |intervals| && intervals[i].vreg == v;
        assert r[if i < k then i else i + 1].vreg == v;
      }
    }
    forall i: nat, j: nat | i < j < |r| ensures r[i].vreg != r[j].vreg {
    }
  }

  method SortSpans(spans: Spans) returns (intervals: seq<LiveInterval>)
    ensures Sorted(intervals) && ListsSpans(spans, intervals)
  {
    intervals := [];
    var todo := spans.Keys;
    ghost var done: Spans := map[];
    while todo != {}
      invariant todo <= spans.Keys && done.Keys == spans.Keys - todo &&
                (forall v: VirtualReg :: v in done ==> done[v] == spans[v])
      invariant Sorted(intervals) && ListsSpans(done, intervals)
      decreases todo
    {
      var v :| v in todo;
      todo := todo - {v};
      intervals := InsertSorted(intervals, LiveInterval(v, spans[v].start, spans[v].end), done);
      done := done[v := spans[v]];
    }
    assert done == spans;
  }

  /** Every index at which a value is defined, or from which some path reads it first, is in its interval. */
  ghost predicate CoversLiveness(cfg: Cfg, linear: Linearized, intervals: seq<LiveInterval>) {
    forall k: nat, i: nat, v: VirtualReg :: k < |linear.blocks| && Needed(cfg, linear.blocks[k], i, v) ==>
      exists n: nat :: n < |intervals| && intervals[n].vreg == v && intervals[n].start <= i <= intervals[n].end
  }

  /** Every interval starts and ends at an index where its value is needed. */
  ghost predicate NoneWider(cfg: Cfg, linear: Linearized, intervals: seq<LiveInterval>) {
    forall n: nat :: n < |intervals| ==>
      && NeededSomewhere(cfg, linear.blocks, intervals[n].start, intervals[n].vreg)
      && NeededSomewhere(cfg, linear.blocks, intervals[n].end, intervals[n].vreg)
  }

  ghost predicate DistinctVregs(intervals: seq<LiveInterval>) {
    forall i: nat, j: nat :: i < j < |intervals| ==> intervals[i].vreg != intervals[j].vreg
  }

  ghost predicate LiveOuts(cfg: Cfg, liveOut: Sets) {
    && liveOut.Keys == cfg.blocks.Keys
    && forall b: LabelId, v: VirtualReg :: b in cfg.blocks ==> (v in liveOut[b] <==> Live(cfg, v, End(cfg, b)))
  }

  /** The reverse walk over all blocks. */
  method WalkBlocks(cfg: Cfg, linear: Linearized, ghost full: nat, liveOut: Sets) returns (spans: Spans)
    requires IsLinear(cfg, linear, full) && LiveOuts(cfg, liveOut)
    ensures Covers(cfg, linear.blocks, spans, 0) && EndsFrom(spans, 0, |linear.instructions|)
    ensures AllTight(cfg, linear.blocks, spans)
  {
    hide Covers, EndsFrom, IsLinear, Live, Needed, LiveOuts, BlocksEnd, NeededSomewhere;
    spans := map[];
    ghost var size := |linear.instructions|;
    ghost var cur := size;
    NothingNeeded(cfg, linear, full);
    var k := |linear.blocks|;
    while k > 0
      invariant 0 <= k <= |linear.blocks| && cur == BlocksEnd(linear, full, k)
      invariant Covers(cfg, linear.blocks, spans, cur) && EndsFrom(spans, cur, size)
      invariant AllTight(cfg, linear.blocks, spans)
    {
      k := k - 1;
      EmptyBlocks(cfg, linear, full, k);
      if linear.blocks[k].start != linear.blocks[k].end {
        LiveOutOf(cfg, linear, full, k, liveOut);
        spans := WalkBlock(cfg, linear, full, k, At(liveOut, linear.blocks[k].name), spans);
        cur := linear.blocks[k].start;
      }
    }
    NoBlocksEnd(linear, full);
  }

  lemma NoBlocksEnd(linear: Linearized, full: nat)
    ensures BlocksEnd(linear, full, 0) == 0
  {
  }

  lemma LiveOutOf(cfg: Cfg, linear: Linearized, full: nat, k: nat, liveOut: Sets)
    requires IsLinear(cfg, linear, full) && k < full && LiveOuts(cfg, liveOut)
    ensures k < |linear.blocks|
    ensures forall v: VirtualReg :: v in At(liveOut, linear.blocks[k].name) <==>
              Live(cfg, v, End(cfg, linear.blocks[k].name))
  {
    BlockShape(cfg, linear, full, k);
    hide IsLinear, Live;
  }

  /** One interval for each value mentioned, by rising start: it covers every index where the value is needed, and
      the value is needed where it starts and where it ends. */
  method ComputeLiveIntervals(cfg: Cfg, linear: Linearized, ghost full: nat) returns (intervals: seq<LiveInterval>)
    requires IsLinear(cfg, linear, full)
    ensures Sorted(intervals) && DistinctVregs(intervals)
    ensures forall n: nat :: n < |intervals| ==> intervals[n].start <= intervals[n].end < |linear.instructions|
    ensures CoversLiveness(cfg, linear, intervals) && NoneWider(cfg, linear, intervals)
  {
    hide Covers, EndsFrom, IsLinear, Live, Needed, ListsSpans, Sorted, CoversLiveness, DistinctVregs, NoneWider,
         AllTight;
    var liveOut := ComputeLiveOut(cfg);
    LiveOutsAre(cfg, liveOut);
    var spans := WalkBlocks(cfg, linear, full, liveOut);
    intervals := SortSpans(spans);
    SpansCover(cfg, linear, spans, intervals);
    SpansBounded(spans, intervals, |linear.instructions|);
    SpansTight(cfg, linear, spans, intervals);
  }

  lemma SpansTight(cfg: Cfg, linear: Linearized, spans: Spans, intervals: seq<LiveInterval>)
    requires AllTight(cfg, linear.blocks, spans) && ListsSpans(spans, intervals)
    ensures NoneWider(cfg, linear, intervals)
  {
    hide NeededSomewhere;
    forall n: nat | n < |intervals|
      ensures NeededSomewhere(cfg, linear.blocks, intervals[n].start, intervals[n].vreg)
      ensures NeededSomewhere(cfg, linear.blocks, intervals[n].end, intervals[n].vreg)
    {
      assert spans[intervals[n].vreg] == Span(intervals[n].start, intervals[n].end);
    }
  }

  lemma LiveOutsAre(cfg: Cfg, liveOut: Sets)
    requires liveOut.Keys == cfg.blocks.Keys
    requires forall b: LabelId, v: VirtualReg :: b in cfg.blocks ==> (v in liveOut[b] <==> Live(cfg, v, End(cfg, b)))
    ensures LiveOuts(cfg, liveOut)
  {
    hide Live;
  }

  lemma SpansBounded(spans: Spans, intervals: seq<LiveInterval>, size: nat)
    requires EndsFrom(spans, 0, size) && ListsSpans(spans, intervals)
    ensures DistinctVregs(intervals)
    ensures forall n: nat :: n < |intervals| ==> intervals[n].start <= intervals[n].end < size
  {
    forall n: nat | n < |intervals| ensures intervals[n].start <= intervals[n].end < size {
      assert intervals[n].vreg in spans;
    }
  }

  /** Where the instructions of the first `k` blocks end. */
  ghost function BlocksEnd(linear: Linearized, full: nat, k: nat): nat {
    if k == 0 || full == 0 then 0
    else if k <= full && k <= |linear.blocks| then linear.blocks[k - 1].end
    else |linear.instructions|
  }

  lemma EmptyBlocks(cfg: Cfg, linear: Linearized, full: nat, k: nat)
    requires IsLinear(cfg, linear, full) && k < |linear.blocks|
    ensures linear.blocks[k].start == linear.blocks[k].end <==> k >= full
    ensures k >= full ==> BlocksEnd(linear, full, k) == BlocksEnd(linear, full, k + 1)
    ensures k < full ==> BlocksEnd(linear, full, k + 1) == linear.blocks[k].end
    ensures k < full ==> BlocksEnd(linear, full, k) == linear.blocks[k].start
  {
    if k >= full {
      assert linear.blocks[full..][k - full] == linear.blocks[k];
      if full > 0 {
        BlockShape(cfg, linear, full, full - 1);
      }
    } else {
      BlockShape(cfg, linear, full, k);
    }
  }

  lemma NothingNeeded(cfg: Cfg, linear: Linearized, full: nat)
    requires IsLinear(cfg, linear, full)
    ensures Covers(cfg, linear.blocks, map[], |linear.instructions|)
    ensures BlocksEnd(linear, full, |linear.blocks|) == |linear.instructions|
    ensures EndsFrom(map[], |linear.instructions|, |linear.instructions|)
  {
    forall k: nat, i: nat, v: VirtualReg | k < |linear.blocks| && Needed(cfg, linear.blocks[k], i, v)
      ensures i < |linear.instructions|
    {
      assert Holds(cfg, linear.instructions, linear.blocks[k]);
    }
    if full > 0 {
      BlockShape(cfg, linear, full, full - 1);
    } else {
      assert linear.blocks[..full] == [];
    }
  }

  lemma SpansCover(cfg: Cfg, linear: Linearized, spans: Spans, intervals: seq<LiveInterval>)
    requires Covers(cfg, linear.blocks, spans, 0) && ListsSpans(spans, intervals)
    ensures CoversLiveness(cfg, linear, intervals)
  {
    forall k: nat, i: nat, v: VirtualReg | k < |linear.blocks| && Needed(cfg, linear.blocks[k], i, v)
      ensures exists n: nat :: n < |intervals| && intervals[n].vreg == v && intervals[n].start <= i <= intervals[n].end
    {
      assert Covered(spans, v, i);
      var n: nat :| n < |intervals| && intervals[n].vreg == v;
    }
    hide Needed;
  }

  ghost predicate CallAt(linear: Linearized, c: CallSite) {
    && c.position < |linear.instructions| && linear.instructions[c.position].opcode == Call
    && c.defines == Def(linear.instructions[c.position])
  }

  /** Every call of the sequence, in ascending position. */
  method FindCallSites(linear: Linearized) returns (calls: seq<CallSite>)
    ensures forall a: nat, b: nat :: a < b < |calls| ==> calls[a].position < calls[b].position
    ensures forall c: CallSite :: c in calls <==> CallAt(linear, c)
  {
    calls := [];
    for i := 0 to |linear.instructions|
      invariant forall a: nat :: a < |calls| ==> calls[a].position < i
      invariant forall a: nat, b: nat :: a < b < |calls| ==> calls[a].position < calls[b].position
      invariant forall c: CallSite :: c in calls <==> CallAt(linear, c) && c.position < i
    {
      if linear.instructions[i].opcode == Call {
        calls := calls + [CallSite(i, Def(linear.instructions[i]))];
      }
    }
  }
}
