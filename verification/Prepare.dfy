/** What promotion adds before renaming: empty phis where they were placed, and one undefined value.
    Both are new values, so the function still runs as it did. */
module Prepare {
  import opened Graphs
  import opened IdomTree
  import opened DomFixpoint
  import opened Frontiers
  import opened Ssa
  import opened Rewrites
  import opened SsaValid
  import opened RenameSpec
  import opened Promotion
  import opened RenameSteps
  import opened RenameBlocks
  import Uses = SlotUses

  /** A function as construction produces it: valid, with every variable in memory and so no phis. */
  ghost predicate MemoryForm(f: Func) {
    && ValidSsa(f)
    && (forall b: nat :: b < f.Size() ==> f.blocks[b].phis == [])
    && (forall v: ValueId, p: Point :: DefinedAt(f, v, p) ==> v < |f.sites|)
  }

  function WithUndef(insts: seq<Inst>, prologue: nat, undef: ValueId): seq<Inst>
    requires prologue <= |insts|
  {
    insts[..prologue] + [Inst(Some(undef), Undef)] + insts[prologue..]
  }

  ghost predicate SameButAdded(f: Func, c: Promo, prologue: nat, b: BlockId)
    requires b < f.Size() && b < c.f.Size()
  {
    && c.f.blocks[b].preds == f.blocks[b].preds && c.f.blocks[b].term == f.blocks[b].term
    && (b == f.entry ==> prologue <= |f.blocks[b].insts|
                         && c.f.blocks[b].insts == WithUndef(f.blocks[b].insts, prologue, c.undef))
    && (b != f.entry ==> c.f.blocks[b].insts == f.blocks[b].insts)
  }

  ghost predicate NewPhi(f: Func, c: Promo, b: BlockId, k: nat)
    requires b < c.f.Size() && k < |c.f.blocks[b].phis|
  {
    var phi := c.f.blocks[b].phis[k];
    && |f.sites| <= phi.dest < |c.f.sites| && phi.dest != c.undef
    && phi.args == seq(|c.f.blocks[b].preds|, _ => Value(phi.dest))
  }

  ghost predicate PhiAt(c: Promo, b: BlockId, k: nat, v: ValueId) {
    b < c.f.Size() && k < |c.f.blocks[b].phis| && c.f.blocks[b].phis[k].dest == v
  }

  /** `c.f` is `f` with new phis and a new undefined value after the incoming arguments. */
  ghost predicate Prepared(f: Func, c: Promo, prologue: nat) {
    && c.f.Size() == f.Size() && c.f.entry == f.entry && f.entry < f.Size()
    && |f.sites| <= c.undef < |c.f.sites|
    && (forall b: nat :: b < f.Size() ==> SameButAdded(f, c, prologue, b))
    && (forall i: nat :: i < prologue && i < |f.blocks[f.entry].insts| ==> f.blocks[f.entry].insts[i].op.GetParam?)
    && (forall b: nat, k: nat :: b < c.f.Size() && k < |c.f.blocks[b].phis| ==> NewPhi(f, c, b, k))
    && (forall b: nat, k: nat, a: nat, l: nat, v: ValueId :: PhiAt(c, b, k, v) && PhiAt(c, a, l, v) ==>
          a == b && k == l)
    && c.f.blocks[f.entry].phis == []
  }

  /** Where instruction `i` of `b` went. */
  function Moved(f: Func, prologue: nat, b: BlockId, i: nat): nat {
    if b == f.entry && i >= prologue then i + 1 else i
  }

  /** Where instruction `j` of `b` came from. */
  function Origin(f: Func, prologue: nat, b: BlockId, j: nat): nat {
    if b == f.entry && j > prologue then j - 1 else j
  }

  lemma InstMoves(f: Func, c: Promo, prologue: nat, b: BlockId, i: nat)
    requires Prepared(f, c, prologue) && b < f.Size() && i < |f.blocks[b].insts|
    ensures Moved(f, prologue, b, i) < |c.f.blocks[b].insts|
    ensures c.f.blocks[b].insts[Moved(f, prologue, b, i)] == f.blocks[b].insts[i]
  {
    assert SameButAdded(f, c, prologue, b);
  }

  lemma InstCame(f: Func, c: Promo, prologue: nat, b: BlockId, j: nat)
    requires Prepared(f, c, prologue) && b < f.Size() && j < |c.f.blocks[b].insts|
    ensures b == f.entry && j == prologue ==> c.f.blocks[b].insts[j] == Inst(Some(c.undef), Undef)
    ensures !(b == f.entry && j == prologue) ==>
              var i := Origin(f, prologue, b, j);
              i < |f.blocks[b].insts| && Moved(f, prologue, b, i) == j && c.f.blocks[b].insts[j] == f.blocks[b].insts[i]
  {
    assert SameButAdded(f, c, prologue, b);
  }

  // ---- definitions ----

  function Shift(f: Func, prologue: nat, p: Point): Point {
    if p.block == f.entry && p.row > prologue then Point(p.block, p.row + 1) else p
  }

  lemma OldDefinition(f: Func, c: Promo, prologue: nat, v: ValueId, p: Point)
    requires Prepared(f, c, prologue) && MemoryForm(f) && DefinedAt(f, v, p)
    ensures DefinedAt(c.f, v, Shift(f, prologue, p))
    ensures v < |f.sites|
  {
    assert f.blocks[p.block].phis == [];
    InstMoves(f, c, prologue, p.block, p.row - 1);
  }

  /** A value is defined where it was, or by a new phi, or it is the undefined one. */
  lemma DefinitionCame(f: Func, c: Promo, prologue: nat, v: ValueId, p: Point)
    requires Prepared(f, c, prologue) && MemoryForm(f) && DefinedAt(c.f, v, p)
    ensures v < |f.sites| ==> exists q: Point :: DefinedAt(f, v, q) && p == Shift(f, prologue, q)
    ensures v >= |f.sites| ==> (v == c.undef && p == Point(f.entry, prologue + 1))
                               || (v != c.undef && p.row == 0 && exists k: nat :: PhiAt(c, p.block, k, v))
  {
    if p.row == 0 {
      var k: nat :| k < |c.f.blocks[p.block].phis| && c.f.blocks[p.block].phis[k].dest == v;
      assert NewPhi(f, c, p.block, k);
      assert PhiAt(c, p.block, k, v);
    } else {
      var j := p.row - 1;
      InstCame(f, c, prologue, p.block, j);
      if p.block == f.entry && j == prologue {
      } else {
        var i := Origin(f, prologue, p.block, j);
        assert DefinedAt(f, v, Point(p.block, i + 1));
        assert p == Shift(f, prologue, Point(p.block, i + 1));
      }
    }
  }

  lemma PreparedSingle(f: Func, c: Promo, prologue: nat)
    requires Prepared(f, c, prologue) && MemoryForm(f)
    ensures SingleDefs(c.f)
  {
    forall v: ValueId, p: Point, q: Point | DefinedAt(c.f, v, p) && DefinedAt(c.f, v, q)
      ensures p == q
    {
      SameDefinition(f, c, prologue, v, p, q);
    }
    forall b: nat | b < c.f.Size() ensures DistinctDests(c.f.blocks[b].phis) {
      PhisDistinct(f, c, prologue, b);
    }
    forall b: nat, j: nat | b < c.f.Size() && j < |c.f.blocks[b].insts|
      ensures c.f.blocks[b].insts[j].dest.Some? <==> c.f.blocks[b].insts[j].op.DefinesValue()
    {
      InstCame(f, c, prologue, b, j);
    }
    hide MemoryForm, Prepared, DistinctDests, DefinedAt;
  }

  lemma SameDefinition(f: Func, c: Promo, prologue: nat, v: ValueId, p: Point, q: Point)
    requires Prepared(f, c, prologue) && MemoryForm(f) && DefinedAt(c.f, v, p) && DefinedAt(c.f, v, q)
    ensures p == q
  {
    DefinitionCame(f, c, prologue, v, p);
    DefinitionCame(f, c, prologue, v, q);
    if v >= |f.sites| && v != c.undef {
      var k: nat :| PhiAt(c, p.block, k, v);
      var l: nat :| PhiAt(c, q.block, l, v);
      assert p.block == q.block;
    }
  }

  lemma PhisDistinct(f: Func, c: Promo, prologue: nat, b: BlockId)
    requires Prepared(f, c, prologue) && b < c.f.Size()
    ensures DistinctDests(c.f.blocks[b].phis)
  {
    var phis := c.f.blocks[b].phis;
    forall k: nat, l: nat | k < l < |phis| ensures phis[k].dest != phis[l].dest {
      if phis[k].dest == phis[l].dest {
        assert PhiAt(c, b, k, phis[k].dest) && PhiAt(c, b, l, phis[k].dest);
      }
    }
  }

  // ---- uses ----

  lemma SameGraph(f: Func, c: Promo, prologue: nat)
    requires Prepared(f, c, prologue)
    ensures c.f.Adjacency() == f.Adjacency()
  {
    forall b: nat | b < f.Size()
      ensures c.f.Adjacency().preds[b] == f.Adjacency().preds[b] && c.f.Adjacency().succs[b] == f.Adjacency().succs[b]
    {
      assert SameButAdded(f, c, prologue, b);
    }
    assert c.f.Adjacency().preds == f.Adjacency().preds && c.f.Adjacency().succs == f.Adjacency().succs;
  }

  lemma OperandStaysOk(f: Func, c: Promo, prologue: nat, o: Operand, q: Point)
    requires Prepared(f, c, prologue) && MemoryForm(f) && OperandOk(f, o, q)
    ensures OperandOk(c.f, o, Shift(f, prologue, q))
    ensures o.Value? ==> o.id < |f.sites|
  {
    SameGraph(f, c, prologue);
    if o.Value? {
      var p: Point :| DefinedAt(f, o.id, p) && Before(f.Adjacency(), p, q);
      OldDefinition(f, c, prologue, o.id, p);
      assert Before(c.f.Adjacency(), Shift(f, prologue, p), Shift(f, prologue, q));
    }
  }

  ghost predicate OldOnly(f: Func, os: seq<Operand>) {
    forall i: nat :: i < |os| && os[i].Value? ==> os[i].id < |f.sites|
  }

  lemma AllStayOk(f: Func, c: Promo, prologue: nat, os: seq<Operand>, q: Point)
    requires Prepared(f, c, prologue) && MemoryForm(f) && AllOk(f, os, q)
    ensures AllOk(c.f, os, Shift(f, prologue, q)) && OldOnly(f, os)
  {
    forall i: nat | i < |os|
      ensures OperandOk(c.f, os[i], Shift(f, prologue, q)) && (os[i].Value? ==> os[i].id < |f.sites|)
    {
      assert OperandOk(f, os[i], q);
      OperandStaysOk(f, c, prologue, os[i], q);
    }
    hide Prepared, MemoryForm, OperandOk;
  }

  lemma InstReads(f: Func, c: Promo, prologue: nat, b: BlockId, j: nat)
    requires Prepared(f, c, prologue) && MemoryForm(f) && b < c.f.Size() && j < |c.f.blocks[b].insts|
    ensures AllOk(c.f, c.f.blocks[b].insts[j].op.Operands(), Point(b, j + 1))
    ensures OldOnly(f, c.f.blocks[b].insts[j].op.Operands())
  {
    InstCame(f, c, prologue, b, j);
    if b == f.entry && j == prologue {
      assert c.f.blocks[b].insts[j].op.Operands() == [];
    } else {
      var i := Origin(f, prologue, b, j);
      assert BlockUsesOk(f, b);
      assert AllOk(f, f.blocks[b].insts[i].op.Operands(), Point(b, i + 1));
      AllStayOk(f, c, prologue, f.blocks[b].insts[i].op.Operands(), Point(b, i + 1));
      assert Shift(f, prologue, Point(b, i + 1)) == Point(b, j + 1);
    }
  }

  lemma TermReads(f: Func, c: Promo, prologue: nat, b: BlockId)
    requires Prepared(f, c, prologue) && MemoryForm(f) && b < c.f.Size()
    ensures AllOk(c.f, c.f.blocks[b].term.Operands(), End(c.f, b))
    ensures OldOnly(f, c.f.blocks[b].term.Operands())
  {
    assert SameButAdded(f, c, prologue, b);
    assert BlockUsesOk(f, b);
    AllStayOk(f, c, prologue, f.blocks[b].term.Operands(), End(f, b));
    assert Shift(f, prologue, End(f, b)) == End(c.f, b);
  }

  lemma PreparedSound(f: Func, c: Promo, prologue: nat)
    requires Prepared(f, c, prologue) && MemoryForm(f) && IsDomTree(f.Adjacency(), c.tree)
    ensures c.Sound()
  {
    SameGraph(f, c, prologue);
    PreparedSingle(f, c, prologue);
    PreparedShape(f, c, prologue);
    forall b: nat, i: nat | b < c.f.Size() && i < |c.f.blocks[b].insts|
      ensures AllOk(c.f, c.f.blocks[b].insts[i].op.Operands(), Point(b, i + 1))
    {
      InstReads(f, c, prologue, b, i);
    }
    forall b: nat | b < c.f.Size() ensures AllOk(c.f, c.f.blocks[b].term.Operands(), End(c.f, b)) {
      TermReads(f, c, prologue, b);
    }
    hide Prepared, MemoryForm, AllOk, WellShaped, SingleDefs, IsDomTree;
  }

  lemma PreparedShape(f: Func, c: Promo, prologue: nat)
    requires Prepared(f, c, prologue) && WellShaped(f) && c.f.Adjacency() == f.Adjacency()
    ensures WellShaped(c.f)
  {
    assert SameButAdded(f, c, prologue, f.entry);
    forall b: nat, k: nat | b < c.f.Size() && k < |c.f.blocks[b].phis|
      ensures |c.f.blocks[b].phis[k].args| == |c.f.blocks[b].preds|
    {
      assert NewPhi(f, c, b, k);
    }
  }

  lemma PreparedUndef(f: Func, c: Promo, prologue: nat)
    requires Prepared(f, c, prologue)
    ensures UndefAt(c, prologue)
  {
    assert SameButAdded(f, c, prologue, f.entry);
  }

  // ---- what the walk starts from ----

  lemma OldAvoids(f: Func, c: Promo, os: seq<Operand>)
    requires OldOnly(f, os) && |f.sites| <= c.undef
    ensures AllAvoid(c.undef, os)
  {
  }

  lemma PreparedAvoids(f: Func, c: Promo, prologue: nat)
    requires Prepared(f, c, prologue) && MemoryForm(f)
    ensures FuncAvoids(c.undef, c.f)
    ensures forall b: nat :: b < c.f.Size() ==> !Writes(c.f.blocks[b].phis, c.undef)
  {
    forall b: nat | b < c.f.Size()
      ensures BlockAvoids(c.undef, c.f.blocks[b]) && !Writes(c.f.blocks[b].phis, c.undef)
    {
      forall j: nat | j < |c.f.blocks[b].insts| ensures AllAvoid(c.undef, c.f.blocks[b].insts[j].op.Operands()) {
        InstReads(f, c, prologue, b, j);
        OldAvoids(f, c, c.f.blocks[b].insts[j].op.Operands());
      }
      forall k: nat | k < |c.f.blocks[b].phis|
        ensures AllAvoid(c.undef, c.f.blocks[b].phis[k].args) && c.f.blocks[b].phis[k].dest != c.undef
      {
        assert NewPhi(f, c, b, k);
      }
      TermReads(f, c, prologue, b);
      OldAvoids(f, c, c.f.blocks[b].term.Operands());
    }
    hide MemoryForm, OldOnly, AllAvoid;
  }

  // ---- the prepared function runs as the original ----

  /** Everything defined that the original function does not have. */
  ghost function Added(f: Func, c: Promo): Dead {
    Dead(NewValues(|f.sites|, |c.f.sites|), {})
  }

  function NewValues(lo: nat, hi: nat): (r: set<ValueId>)
    ensures forall v: ValueId :: v in r <==> lo <= v < hi
    decreases hi
  {
    if hi <= lo then {} else NewValues(lo, hi - 1) + {hi - 1}
  }

  lemma OldUnread(f: Func, c: Promo, os: seq<Operand>)
    requires OldOnly(f, os)
    ensures Unread(Added(f, c), os)
  {
  }

  lemma PreparedErasable(f: Func, c: Promo, prologue: nat, private: set<SlotId>, b: BlockId)
    requires Prepared(f, c, prologue) && MemoryForm(f) && b < c.f.Size()
    ensures BlockErasable(private, Added(f, c), FilledBlock(c, b))
  {
    var dead := Added(f, c);
    forall j: nat | j < |c.f.blocks[b].insts|
      ensures InstErasable(private, dead, c.f.blocks[b].insts[j])
    {
      InstReads(f, c, prologue, b, j);
      OldUnread(f, c, c.f.blocks[b].insts[j].op.Operands());
      InstCame(f, c, prologue, b, j);
      OldKept(f, c, prologue, b, j);
    }
    forall k: nat | k < |c.f.blocks[b].phis|
      ensures PhiErasable(dead, FilledPhi(c, b, c.f.blocks[b].phis[k]))
    {
      assert NewPhi(f, c, b, k);
    }
    TermReads(f, c, prologue, b);
    OldUnread(f, c, c.f.blocks[b].term.Operands());
    hide MemoryForm, Unread, OldOnly, AllOk, Prepared;
  }

  lemma OldKept(f: Func, c: Promo, prologue: nat, b: BlockId, j: nat)
    requires Prepared(f, c, prologue) && MemoryForm(f) && b < c.f.Size() && j < |c.f.blocks[b].insts|
    ensures Keeps(Added(f, c), c.f.blocks[b].insts[j]) <==> !(b == f.entry && j == prologue)
  {
    InstCame(f, c, prologue, b, j);
    var inst := c.f.blocks[b].insts[j];
    if !(b == f.entry && j == prologue) && inst.dest.Some? {
      assert DefinedAt(f, inst.dest.value, Point(b, Origin(f, prologue, b, j) + 1));
    }
  }

  lemma {:induction false} EraseNothing(dead: Dead, insts: seq<Inst>)
    requires forall i: nat :: i < |insts| ==> Keeps(dead, insts[i])
    ensures EraseInsts(dead, insts) == insts
    decreases |insts|
  {
    if insts != [] {
      EraseNothing(dead, insts[..|insts| - 1]);
    }
  }

  lemma {:induction false} EraseOne(dead: Dead, insts: seq<Inst>, at: nat)
    requires at < |insts| && !Keeps(dead, insts[at])
    requires forall i: nat :: i < |insts| && i != at ==> Keeps(dead, insts[i])
    ensures EraseInsts(dead, insts) == insts[..at] + insts[at + 1..]
    decreases |insts|
  {
    var n := |insts| - 1;
    if at == n {
      EraseNothing(dead, insts[..n]);
    } else {
      EraseOne(dead, insts[..n], at);
      assert insts[..n][..at] == insts[..at];
    }
  }

  lemma {:induction false} EraseAllPhis(dead: Dead, phis: seq<Phi>)
    requires forall k: nat :: k < |phis| ==> phis[k].dest in dead.values
    ensures ErasePhis(dead, phis) == []
    decreases |phis|
  {
    if phis != [] {
      EraseAllPhis(dead, phis[..|phis| - 1]);
    }
  }

  lemma PreparedErases(f: Func, c: Promo, prologue: nat, b: BlockId)
    requires Prepared(f, c, prologue) && MemoryForm(f) && b < c.f.Size()
    ensures EraseBlock(Added(f, c), FilledBlock(c, b)) == f.blocks[b]
  {
    var dead := Added(f, c);
    var insts := c.f.blocks[b].insts;
    assert SameButAdded(f, c, prologue, b);
    forall j: nat | j < |insts|
      ensures Keeps(dead, insts[j]) <==> !(b == f.entry && j == prologue)
    {
      OldKept(f, c, prologue, b, j);
    }
    if b == f.entry {
      EraseOne(dead, insts, prologue);
      assert insts[..prologue] + insts[prologue + 1..] == f.blocks[b].insts;
    } else {
      EraseNothing(dead, insts);
    }
    var phis := FilledBlock(c, b).phis;
    forall k: nat | k < |phis| ensures phis[k].dest in dead.values {
      assert NewPhi(f, c, b, k);
    }
    EraseAllPhis(dead, phis);
    assert f.blocks[b].phis == [];
    hide EraseInsts, ErasePhis, Keeps, Added, Prepared;
  }

  lemma PreparingKeepsRuns(f: Func, c: Promo, prologue: nat, m: Machine, private: set<SlotId>, n: nat)
    requires Prepared(f, c, prologue) && MemoryForm(f)
    ensures SameBut(m, Added(f, c), Run(m, private, Filled(c), n), Run(m, private, f, n))
  {
    var dead := Added(f, c);
    forall b: nat | b < c.f.Size()
      ensures BlockErasable(private, dead, FilledBlock(c, b)) && EraseBlock(dead, FilledBlock(c, b)) == f.blocks[b]
    {
      PreparedErasable(f, c, prologue, private, b);
      PreparedErases(f, c, prologue, b);
    }
    FilledIs(c);
    assert f.blocks == EraseBlocks(dead, Filled(c).blocks);
    assert Erasable(private, dead, Filled(c)) by {
      hide BlockErasable, FilledBlock;
    }
    EraseKeepsRuns(m, private, dead, Filled(c), f, n);
    hide *;
  }

  lemma FilledIs(c: Promo)
    ensures Filled(c).Size() == c.f.Size() && Filled(c).entry == c.f.entry
    ensures forall b: nat :: b < c.f.Size() ==> Filled(c).blocks[b] == FilledBlock(c, b)
  {
  }

  // ---- the phis are where they have to be ----

  /** The phis of every block are those placed there. */
  ghost predicate PhisPlaced(c: Promo, placement: map<SlotId, set<BlockId>>) {
    && (forall b: BlockId, s: SlotId :: PhiFor(c, b, s) <==> b < c.f.Size() && s in placement && b in placement[s])
    && (forall b: nat, k: nat, l: nat :: b < c.f.Size() && k < l < |c.f.blocks[b].phis| ==>
          c.f.blocks[b].phis[k].slot != c.f.blocks[b].phis[l].slot)
  }

  ghost predicate FrontiersOf(g: Graph, frontiers: seq<set<nat>>) {
    && |frontiers| == g.Size()
    && forall a: nat, b: nat :: a < g.Size() && b < g.Size() && b != g.entry ==>
      (b in frontiers[a] <==> g.InFrontier(a, b))
  }

  lemma StoresCame(f: Func, c: Promo, prologue: nat, b: BlockId, s: SlotId)
    requires Prepared(f, c, prologue) && StoresIn(c, b, s)
    ensures b < f.Size() && Uses.Writes(f.blocks[b].insts, s)
  {
    var j: nat :| j < |c.f.blocks[b].insts| && c.f.blocks[b].insts[j].op.SlotStore? &&
      c.f.blocks[b].insts[j].op.slot == s;
    InstCame(f, c, prologue, b, j);
    assert Uses.StoresSlot(f.blocks[b].insts[Origin(f, prologue, b, j)], s);
  }

  lemma PlacedAsNeeded(f: Func, c: Promo, prologue: nat, usage: SlotUsage, frontiers: seq<set<nat>>,
                       placement: map<SlotId, set<BlockId>>)
    requires Prepared(f, c, prologue) && WellShaped(f) && FrontiersOf(f.Adjacency(), frontiers)
    requires Uses.UsageOf(f, c.slots, usage) && IsPlacement(frontiers, usage, placement) && PhisPlaced(c, placement)
    ensures Placed(c, usage.nonLocal)
  {
    SameGraph(f, c, prologue);
    var g := f.Adjacency();
    forall s: SlotId, a: nat, x: nat |
      s in usage.nonLocal && (StoresIn(c, a, s) || PhiFor(c, a, s)) && c.f.Adjacency().InFrontier(a, x)
      ensures PhiFor(c, x, s)
    {
      if StoresIn(c, a, s) {
        StoresCame(f, c, prologue, a, s);
        assert Uses.DefinedIn(usage, s, a);
      } else {
        assert a < c.f.Size() && s in placement && a in placement[s];
      }
      assert s in usage.definitions;
      assert x in frontiers[a] by {
        assert g.InFrontier(a, x);
        assert x != g.entry;
      }
      var placed := if s in placement then placement[s] else {};
      assert ClosedUnderFrontiers(frontiers, usage.definitions[s], placed);
      assert x in placed;
    }
  }

  lemma ReadsCovered(f: Func, c: Promo, prologue: nat, usage: SlotUsage)
    requires Prepared(f, c, prologue) && Uses.UsageOf(f, c.slots, usage)
    ensures CoversReads(c, usage.nonLocal) && usage.nonLocal <= c.slots
  {
    forall b: nat, j: nat | b < c.f.Size() && j < |c.f.blocks[b].insts| && c.Loads(c.f.blocks[b].insts[j])
      ensures c.f.blocks[b].insts[j].op.slot in usage.nonLocal || StoredBefore(c, b, j, c.f.blocks[b].insts[j].op.slot)
    {
      ReadCovered(f, c, prologue, usage, b, j);
    }
  }

  lemma ReadCovered(f: Func, c: Promo, prologue: nat, usage: SlotUsage, b: BlockId, j: nat)
    requires Prepared(f, c, prologue) && Uses.UsageOf(f, c.slots, usage)
    requires b < c.f.Size() && j < |c.f.blocks[b].insts| && c.Loads(c.f.blocks[b].insts[j])
    ensures c.f.blocks[b].insts[j].op.slot in usage.nonLocal || StoredBefore(c, b, j, c.f.blocks[b].insts[j].op.slot)
  {
    InstCame(f, c, prologue, b, j);
    var s := c.f.blocks[b].insts[j].op.slot;
    var i := Origin(f, prologue, b, j);
    var insts := f.blocks[b].insts;
    assert Uses.LoadsSlot(insts[i], s);
    if s !in usage.nonLocal {
      assert !Uses.ReadsFirst(insts, s);
      assert Uses.Writes(insts[..i], s);
      var k: nat :| k < i && Uses.StoresSlot(insts[..i][k], s);
      InstMoves(f, c, prologue, b, k);
      assert c.Stores(c.f.blocks[b].insts[Moved(f, prologue, b, k)]);
    }
  }

  /** All that renaming relies on. */
  lemma PreparedReady(f: Func, c: Promo, prologue: nat, usage: SlotUsage, frontiers: seq<set<nat>>,
                      placement: map<SlotId, set<BlockId>>)
    requires Prepared(f, c, prologue) && MemoryForm(f) && IsDomTree(f.Adjacency(), c.tree)
    requires FrontiersOf(f.Adjacency(), frontiers)
    requires Uses.UsageOf(f, c.slots, usage) && IsPlacement(frontiers, usage, placement) && PhisPlaced(c, placement)
    ensures Ready(c, usage.nonLocal, prologue) && Walkable(c)
  {
    PreparedSound(f, c, prologue);
    PreparedUndef(f, c, prologue);
    PreparedAvoids(f, c, prologue);
    PlacedAsNeeded(f, c, prologue, usage, frontiers, placement);
    ReadsCovered(f, c, prologue, usage);
    UndefIsNoLoad(c, prologue);
    hide Prepared, MemoryForm, IsDomTree, Promo.Sound, UndefAt, Placed, CoversReads, FuncAvoids, IsLoad;
  }
}
