/** Promotion of slots to values, in place: phi placement, renaming, and what the result means. */
module Mem2Reg {
  import opened Graphs
  import opened IdomTree
  import opened DomFixpoint
  import opened Dominators
  import opened Frontiers
  import opened Ssa
  import opened Rewrites
  import opened SsaValid
  import opened Functions
  import opened RenameSpec
  import opened Promotion
  import opened RenameSteps
  import opened RenameBlocks
  import opened RenameWalk
  import opened Renamer
  import opened Prepare
  import opened Promoted
  import opened PromotedShape
  import opened GraphEdits
  import opened Heads
  import Uses = SlotUses

  // ---- placing the phis ----

  ghost predicate PhiIn(f: Func, b: BlockId, s: SlotId) {
    b < f.Size() && exists k: nat :: k < |f.blocks[b].phis| && f.blocks[b].phis[k].slot == s
  }

  ghost predicate PhiOf(f: Func, b: BlockId, k: nat, v: ValueId) {
    b < f.Size() && k < |f.blocks[b].phis| && f.blocks[b].phis[k].dest == v
  }

  ghost predicate AddedPhi(f: Func, f1: Func, b: BlockId, k: nat)
    requires b < f1.Size() && k < |f1.blocks[b].phis|
  {
    var phi := f1.blocks[b].phis[k];
    |f.sites| <= phi.dest < |f1.sites| && phi.args == seq(|f1.blocks[b].preds|, _ => Value(phi.dest))
  }

  /** `f1` is `f` with a new phi for each pair of slot and block in `done`. */
  ghost predicate PhisAdded(f: Func, f1: Func, done: set<(SlotId, BlockId)>) {
    && f1.Size() == f.Size() && f1.entry == f.entry && |f.sites| <= |f1.sites|
    && (forall b: nat :: b < f.Size() ==>
          f1.blocks[b].preds == f.blocks[b].preds && f1.blocks[b].term == f.blocks[b].term &&
          f1.blocks[b].insts == f.blocks[b].insts)
    && (forall b: nat, k: nat :: b < f1.Size() && k < |f1.blocks[b].phis| ==> AddedPhi(f, f1, b, k))
    && (forall b: nat, k: nat, a: nat, l: nat, v: ValueId :: PhiOf(f1, b, k, v) && PhiOf(f1, a, l, v) ==>
          a == b && k == l)
    && (forall b: BlockId, s: SlotId :: PhiIn(f1, b, s) <==> b < f1.Size() && (s, b) in done)
    && (forall b: nat, k: nat, l: nat :: b < f1.Size() && k < l < |f1.blocks[b].phis| ==>
          f1.blocks[b].phis[k].slot != f1.blocks[b].phis[l].slot)
  }

  lemma NoPhisYet(f: Func)
    requires forall b: nat :: b < f.Size() ==> f.blocks[b].phis == []
    ensures PhisAdded(f, f, {})
  {
  }

  lemma AddOnePhi(f: Func, f1: Func, done: set<(SlotId, BlockId)>, b: BlockId, s: SlotId)
    requires PhisAdded(f, f1, done) && b < f1.Size() && (s, b) !in done
    ensures PhisAdded(f, WithPhi(f1, b, s), done + {(s, b)})
  {
    var f2 := WithPhi(f1, b, s);
    var n := |f1.blocks[b].phis|;
    assert !PhiIn(f1, b, s);
    forall a: nat | a < f1.Size()
      ensures f2.blocks[a].preds == f.blocks[a].preds && f2.blocks[a].term == f.blocks[a].term &&
              f2.blocks[a].insts == f.blocks[a].insts
      ensures |f1.blocks[a].phis| <= |f2.blocks[a].phis| &&
              f2.blocks[a].phis[..|f1.blocks[a].phis|] == f1.blocks[a].phis
      ensures a != b ==> f2.blocks[a].phis == f1.blocks[a].phis
    {
    }
    OnePhiSlots(f, f1, done, b, s);
    OnePhiDests(f, f1, done, b, s);
    forall a: nat, k: nat | a < f2.Size() && k < |f2.blocks[a].phis| ensures AddedPhi(f, f2, a, k) {
      if a != b || k < n {
        assert f2.blocks[a].phis[k] == f1.blocks[a].phis[k];
        assert AddedPhi(f, f1, a, k);
      }
    }
    hide PhiIn, PhiOf, AddedPhi;
  }

  lemma OnePhiSlots(f: Func, f1: Func, done: set<(SlotId, BlockId)>, b: BlockId, s: SlotId)
    requires PhisAdded(f, f1, done) && b < f1.Size() && (s, b) !in done
    ensures var f2 := WithPhi(f1, b, s);
            && (forall a: BlockId, r: SlotId :: PhiIn(f2, a, r) <==> a < f2.Size() && (r, a) in done + {(s, b)})
            && (forall a: nat, k: nat, l: nat :: a < f2.Size() && k < l < |f2.blocks[a].phis| ==>
                  f2.blocks[a].phis[k].slot != f2.blocks[a].phis[l].slot)
  {
    var f2 := WithPhi(f1, b, s);
    var n := |f1.blocks[b].phis|;
    assert !PhiIn(f1, b, s);
    forall a: BlockId, r: SlotId
      ensures PhiIn(f2, a, r) <==> a < f2.Size() && (r, a) in done + {(s, b)}
    {
      assert PhiIn(f1, a, r) <==> a < f1.Size() && (r, a) in done;
      if PhiIn(f1, a, r) {
        var k: nat :| k < |f1.blocks[a].phis| && f1.blocks[a].phis[k].slot == r;
        assert f2.blocks[a].phis[k].slot == r;
      }
      if a == b && r == s {
        assert f2.blocks[b].phis[n].slot == s;
      }
      if PhiIn(f2, a, r) && !(a == b && r == s) {
        var k: nat :| k < |f2.blocks[a].phis| && f2.blocks[a].phis[k].slot == r;
        assert f1.blocks[a].phis[k].slot == r;
      }
    }
  }

  lemma OnePhiDests(f: Func, f1: Func, done: set<(SlotId, BlockId)>, b: BlockId, s: SlotId)
    requires PhisAdded(f, f1, done) && b < f1.Size()
    ensures var f2 := WithPhi(f1, b, s);
            forall a: nat, k: nat, x: nat, l: nat, v: ValueId :: PhiOf(f2, a, k, v) && PhiOf(f2, x, l, v) ==>
              x == a && k == l
  {
    var f2 := WithPhi(f1, b, s);
    var n := |f1.blocks[b].phis|;
    forall a: nat, k: nat, v: ValueId | PhiOf(f2, a, k, v)
      ensures if a == b && k == n then v == |f1.sites| else PhiOf(f1, a, k, v) && v < |f1.sites|
    {
      if a != b || k != n {
        assert f2.blocks[a].phis[k] == f1.blocks[a].phis[k];
        assert AddedPhi(f, f1, a, k);
      }
    }
  }

  /** The pairs of slot and block a placement names. */
  ghost predicate NamesPairs(placement: map<SlotId, set<BlockId>>, pairs: set<(SlotId, BlockId)>) {
    forall s: SlotId, b: BlockId :: (s, b) in pairs <==> s in placement && b in placement[s]
  }

  /** Add a phi for every slot to every block of its placement. */
  method AddPhis(fn: Function, placement: map<SlotId, set<BlockId>>) returns (ghost done: set<(SlotId, BlockId)>)
    requires forall b: nat :: b < fn.View().Size() ==> fn.blocks[b].phis == []
    requires forall s: SlotId, b: BlockId :: s in placement && b in placement[s] ==> b < |fn.blocks|
    modifies fn
    ensures PhisAdded(old(fn.View()), fn.View(), done) && NamesPairs(placement, done)
    ensures old(fn.Valid()) ==> fn.Valid()
  {
    ghost var f := fn.View();
    done := {};
    NoPhisYet(f);
    var slots := placement.Keys;
    while slots != {}
      invariant slots <= placement.Keys && PhisAdded(f, fn.View(), done)
      invariant old(fn.Valid()) ==> fn.Valid()
      invariant forall s: SlotId, b: BlockId :: (s, b) in done <==> s in placement && s !in slots && b in placement[s]
      decreases slots
    {
      hide PhisAdded, WellFormed;
      var slot :| slot in slots;
      slots := slots - {slot};
      var blocks := placement[slot];
      while blocks != {}
        invariant blocks <= placement[slot] && PhisAdded(f, fn.View(), done)
        invariant old(fn.Valid()) ==> fn.Valid()
        invariant forall s: SlotId, b: BlockId :: (s, b) in done <==>
                    s in placement && s !in slots && b in placement[s] && !(s == slot && b in blocks)
        decreases blocks
      {
        var block :| block in blocks;
        blocks := blocks - {block};
        SameSize(f, fn.View(), done);
        AddOnePhi(f, fn.View(), done, block, slot);
        var _ := fn.AddPhi(block, slot);
        done := done + {(slot, block)};
      }
    }
  }

  lemma SameSize(f: Func, f1: Func, done: set<(SlotId, BlockId)>)
    requires PhisAdded(f, f1, done)
    ensures f1.Size() == f.Size() && f1.entry == f.entry
    ensures forall b: nat :: b < f.Size() ==> f1.blocks[b].insts == f.blocks[b].insts
  {
  }

  // ---- the undefined value ----

  /** The length of the longest run of argument reads the block starts with. */
  method Prologue(insts: seq<Inst>) returns (n: nat)
    ensures n <= |insts| && (forall i: nat :: i < n ==> insts[i].op.GetParam?)
    ensures n < |insts| ==> !insts[n].op.GetParam?
  {
    n := 0;
    while n < |insts| && insts[n].op.GetParam?
      invariant n <= |insts| && forall i: nat :: i < n ==> insts[i].op.GetParam?
    {
      n := n + 1;
    }
  }

  lemma IsPrepared(f: Func, f1: Func, done: set<(SlotId, BlockId)>, c: Promo, prologue: nat)
    requires PhisAdded(f, f1, done) && f.entry < f.Size()
    requires prologue <= |f1.blocks[f.entry].insts|
    requires forall i: nat :: i < prologue ==> f1.blocks[f.entry].insts[i].op.GetParam?
    requires c.f == WithInst(f1, f.entry, prologue, Undef) && c.undef == |f1.sites|
    requires forall s: SlotId :: (s, f.entry) !in done
    ensures Prepared(f, c, prologue)
  {
    forall b: nat | b < f.Size()
      ensures c.f.blocks[b].phis == f1.blocks[b].phis && SameButAdded(f, c, prologue, b)
    {
    }
    forall b: nat, k: nat | b < c.f.Size() && k < |c.f.blocks[b].phis| ensures NewPhi(f, c, b, k) {
      assert AddedPhi(f, f1, b, k);
    }
    forall b: nat, k: nat, a: nat, l: nat, v: ValueId | PhiAt(c, b, k, v) && PhiAt(c, a, l, v)
      ensures a == b && k == l
    {
      assert PhiOf(f1, b, k, v) && PhiOf(f1, a, l, v);
    }
    if f1.blocks[f.entry].phis != [] {
      assert f1.blocks[f.entry].phis[0].slot == f1.blocks[f.entry].phis[0].slot;
      assert PhiIn(f1, f.entry, f1.blocks[f.entry].phis[0].slot);
    }
  }

  lemma IsPlaced(f: Func, f1: Func, done: set<(SlotId, BlockId)>, c: Promo, prologue: nat, placement: map<SlotId,
                 set<BlockId>>,
                 frontiers: seq<set<nat>>, usage: SlotUsage)
    requires PhisAdded(f, f1, done) && NamesPairs(placement, done) && f.entry < f.Size()
    requires prologue <= |f1.blocks[f.entry].insts|
    requires c.f == WithInst(f1, f.entry, prologue, Undef) && IsPlacement(frontiers, usage, placement)
    ensures PhisPlaced(c, placement) && PhisNonLocal(c, usage.nonLocal)
  {
    forall b: nat | b < f.Size() ensures c.f.blocks[b].phis == f1.blocks[b].phis {
    }
    forall b: BlockId, s: SlotId
      ensures PhiFor(c, b, s) <==> b < c.f.Size() && s in placement && b in placement[s]
    {
      assert PhiFor(c, b, s) <==> PhiIn(f1, b, s);
    }
    forall b: nat, k: nat | b < c.f.Size() && k < |c.f.blocks[b].phis|
      ensures c.f.blocks[b].phis[k].slot in usage.nonLocal
    {
      assert PhiIn(f1, b, c.f.blocks[b].phis[k].slot);
    }
  }

  lemma PhisPlacedAtJoins(f: Func, f1: Func, done: set<(SlotId, BlockId)>, c: Promo, prologue: nat,
                          placement: map<SlotId, set<BlockId>>, frontiers: seq<set<nat>>, usage: SlotUsage, t: Tree)
    requires PhisAdded(f, f1, done) && NamesPairs(placement, done) && f.entry < f.Size()
    requires prologue <= |f1.blocks[f.entry].insts|
    requires c.f == WithInst(f1, f.entry, prologue, Undef) && IsPlacement(frontiers, usage, placement)
    requires AreClimbed(f.Adjacency(), t, frontiers, f.Size())
    ensures PhisJoin(c.f)
  {
    forall b: nat | b < c.f.Size() && c.f.blocks[b].phis != [] ensures |c.f.blocks[b].preds| >= 2 {
      assert c.f.blocks[b].phis == f1.blocks[b].phis && c.f.blocks[b].preds == f.blocks[b].preds;
      var s := f1.blocks[b].phis[0].slot;
      assert PhiIn(f1, b, s);
      PlacedAtJoins(f, t, frontiers, usage.definitions[s], placement[s], b);
    }
  }

  /** No definition or phi of a slot has the entry in its frontier: nothing branches there. */
  lemma EntryNeedsNoPhi(f: Func, frontiers: seq<set<nat>>, usage: SlotUsage, placement: map<SlotId, set<BlockId>>,
                        pairs: set<(SlotId, BlockId)>)
    requires WellShaped(f) && IsPlacement(frontiers, usage, placement) && NamesPairs(placement, pairs)
    requires |frontiers| == f.Size()
    requires forall a: nat :: a < |frontiers| ==> f.entry !in frontiers[a]
    ensures forall s: SlotId :: (s, f.entry) !in pairs
  {
    forall s: SlotId ensures (s, f.entry) !in pairs {
      if s in placement {
        var placed := placement[s];
        assert ClosedUnderFrontiers(frontiers, usage.definitions[s], placed - {f.entry});
        assert placed <= placed - {f.entry};
      }
    }
  }

  lemma NoClimbToEntry(f: Func, t: Tree, frontiers: seq<set<nat>>)
    requires WellShaped(f) && AreClimbed(f.Adjacency(), t, frontiers, f.Size())
    ensures forall a: nat :: a < |frontiers| ==> f.entry !in frontiers[a]
  {
    assert f.Adjacency().preds[f.entry] == [];
    assert !exists a: nat :: Climbed(f.Adjacency(), t, f.entry, a);
  }

  // ---- dropping the undefined value ----

  lemma RemoveIsSlimmer(f: Func, c: Promo, prologue: nat)
    requires c.Sound() && UndefAt(c, prologue) && f == Slim(c)
    requires forall b: nat :: b < c.f.Size() ==> !Writes(c.f.blocks[b].phis, c.undef)
    ensures f.entry < f.Size()
    ensures f.blocks[f.entry :=
                     f.blocks[f.entry].(insts := EraseInsts(Dead({c.undef}, {}), f.blocks[f.entry].insts))] ==
                       Slimmer(c).blocks
  {
    SlimIs(c);
    var dead := OnlyUndef(c);
    forall b: nat | b < f.Size()
      ensures EraseBlock(dead, f.blocks[b]) ==
              if b == f.entry then f.blocks[b].(insts := EraseInsts(dead, f.blocks[b].insts)) else f.blocks[b]
    {
      SlimPhisKept(c, b);
      if b != f.entry {
        SlimInstsKept(c, prologue, b);
      }
    }
    hide Slim, EraseInsts, ErasePhis, Promo.Sound, RenamedBlock;
  }

  lemma SlimPhisKept(c: Promo, b: BlockId)
    requires b < c.f.Size() && !Writes(c.f.blocks[b].phis, c.undef)
    ensures ErasePhis(OnlyUndef(c), EraseBlock(Gone(c), RenamedBlock(c, b)).phis) ==
              EraseBlock(Gone(c), RenamedBlock(c, b)).phis
  {
    var phis := EraseBlock(Gone(c), RenamedBlock(c, b)).phis;
    forall k: nat | k < |phis| ensures phis[k].dest !in OnlyUndef(c).values {
      var i := Erasure.ErasedPhiWas(Gone(c), FilledBlock(c, b).phis, k);
      assert c.f.blocks[b].phis[i].dest == phis[k].dest;
    }
    EraseNoPhis(OnlyUndef(c), phis);
  }

  lemma SlimInstsKept(c: Promo, prologue: nat, b: BlockId)
    requires c.Sound() && UndefAt(c, prologue) && b < c.f.Size() && b != c.f.entry
    ensures EraseInsts(OnlyUndef(c), EraseBlock(Gone(c), RenamedBlock(c, b)).insts) ==
              EraseBlock(Gone(c), RenamedBlock(c, b)).insts
  {
    var insts := EraseBlock(Gone(c), RenamedBlock(c, b)).insts;
    forall i: nat | i < |insts| ensures Keeps(OnlyUndef(c), insts[i]) {
      var j := Erasure.Origin(Gone(c), RenamedInsts(c, b), i);
      assert insts[i].dest == c.f.blocks[b].insts[j].dest;
      OnlyUndefIsUndef(c, prologue, b, j);
    }
    EraseNothing(OnlyUndef(c), insts);
  }

  lemma DefinitionsInside(f: Func, promotable: set<SlotId>, usage: SlotUsage, frontiers: seq<set<nat>>)
    requires Uses.UsageOf(f, promotable, usage) && |frontiers| == f.Size()
    requires forall a: nat, b: nat :: a < f.Size() && b in frontiers[a] ==> b < f.Size()
    ensures Inside(frontiers)
    ensures forall s: SlotId, b: nat :: s in usage.definitions && b in usage.definitions[s] ==> b < |frontiers|
  {
    forall s: SlotId, b: nat | s in usage.definitions && b in usage.definitions[s] ensures b < |frontiers| {
      assert Uses.DefinedIn(usage, s, b);
    }
  }

  lemma EntryInside(f: Func)
    requires MemoryForm(f)
    ensures f.entry < f.Size() && f.Adjacency().Valid() && f.Adjacency().AllReachable()
  {
    assert f.entry < f.Adjacency().Size();
  }

  lemma TreeIsDomTree(g: Graph, tree: DomTree)
    requires tree.Describes(g)
    ensures IsDomTree(g, tree.AsTree(g))
  {
  }

  // ---- the pass ----

  /** The function with its phis and its undefined value, ready to be renamed. */
  method PreparePromotion(fn: Function, promotable: set<SlotId>)
    returns (tree: DomTree, undefined: ValueId, ghost c: Promo, ghost prologue: nat, ghost nonLocal: set<SlotId>)
    requires MemoryForm(fn.View())
    modifies fn
    ensures c.f == fn.View() && c.slots == promotable && c.undef == undefined
    ensures Prepared(old(fn.View()), c, prologue) && Ready(c, nonLocal, prologue) && Walkable(c) &&
            PhisNonLocal(c, nonLocal)
    ensures tree.Describes(c.f.Adjacency()) && c.tree == tree.AsTree(c.f.Adjacency())
    ensures PhisJoin(c.f) && (old(fn.Valid()) ==> fn.Valid())
  {
    hide WellFormed;
    ghost var f := fn.View();
    var view := Func(fn.blocks, fn.sites, fn.entry);
    var usage := Uses.Compute(view, promotable);
    nonLocal := usage.nonLocal;
    var graph := view.Adjacency();
    tree := Build(graph);
    var frontiers := ComputeFrontiers(graph, tree);
    DefinitionsInside(f, promotable, usage, frontiers);
    var placement := PhiPlacement(frontiers, usage);
    ghost var done := AddPhis(fn, placement);
    ghost var f1 := fn.View();
    SameSize(f, f1, done);
    EntryInside(f);
    var position := Prologue(fn.blocks[fn.entry].insts);
    prologue := position;
    var dest := fn.Insert(fn.entry, position, Undef);
    undefined := dest.value;
    c := Promo(fn.View(), promotable, undefined, tree.AsTree(graph));
    NoClimbToEntry(f, tree.AsTree(graph), frontiers);
    EntryNeedsNoPhi(f, frontiers, usage, placement, done);
    IsPrepared(f, f1, done, c, prologue);
    IsPlaced(f, f1, done, c, prologue, placement, frontiers, usage);
    PhisPlacedAtJoins(f, f1, done, c, prologue, placement, frontiers, usage, tree.AsTree(graph));
    TreeIsDomTree(graph, tree);
    hide *;
    PreparedReady(f, c, prologue, usage, frontiers, placement);
    SameGraph(f, c, prologue);
  }

  /** Replace every slot in `promotable` with values: afterwards nothing loads or stores it. */
  method PromoteSlots(fn: Function, promotable: set<SlotId>)
    requires MemoryForm(fn.View())
    modifies fn
    ensures promotable == {} ==> fn.View() == old(fn.View())
    ensures promotable != {} ==> exists c: Promo, prologue: nat, nonLocal: set<SlotId> ::
              PromotedBy(old(fn.View()), fn.View(), promotable, c, prologue, nonLocal)
    ensures ValidSsa(fn.View()) && (old(fn.Valid()) ==> fn.Valid()) && NeverTouches(fn.View(), promotable)
    ensures fn.View().Adjacency() == old(fn.View()).Adjacency() && PhisJoin(fn.View())
    ensures forall m: Machine, private: set<SlotId>, n: nat :: promotable <= private ==>
              SameBut(m, Replaced(old(fn.View()), fn.View(), promotable),
                      Run(m, private, old(fn.View()), n), Run(m, private, fn.View(), n))
  {
    hide WellFormed;
    ghost var f := fn.View();
    if promotable == {} {
      forall m: Machine, private: set<SlotId>, n: nat
        ensures SameBut(m, Replaced(f, f, promotable), Run(m, private, f, n), Run(m, private, f, n))
      {
        SameAlready(m, Replaced(f, f, promotable), Run(m, private, f, n));
      }
      return;
    }
    var tree, undefined;
    ghost var c, prologue, nonLocal;
    tree, undefined, c, prologue, nonLocal := PreparePromotion(fn, promotable);
    var renaming := new Renaming(fn, promotable, undefined);
    WalkBegins(c, renaming.Now());
    renaming.Walk(tree, c);
    WalkEnded(c, fn.View(), renaming.Now());
    SlimKeeps(f, c, prologue);
    ghost var slim := fn.View();
    if !renaming.undefinedUsed {
      RemoveIsSlimmer(fn.View(), c, prologue);
      fn.Remove(fn.entry, {undefined});
      InstsShapesKeep(slim, fn.View(), fn.entry, fn.blocks[fn.entry].insts);
    }
    ghost var f' := fn.View();
    assert PromotedBy(f, f', promotable, c, prologue, nonLocal) by {
      IsPromoted(f, f', c, prologue, nonLocal);
    }
    hide *;
    PromotionIsValid(f, f', promotable, c, prologue, nonLocal);
    AllAreGone(f, f', promotable, c, prologue, nonLocal);
    forall m: Machine, private: set<SlotId>, n: nat | promotable <= private
      ensures SameBut(m, Replaced(f, f', promotable), Run(m, private, f, n), Run(m, private, f', n))
    {
      PromotionKeepsRuns(f, f', promotable, c, prologue, nonLocal, m, private, n);
    }
  }

  lemma SameAlready(m: Machine, d: Dead, a: Status)
    ensures SameBut(m, d, a, a)
  {
    if a.At? {
      AgreesWithItself(m, d, a.st);
    }
  }

  /** Before the walk nothing is renamed and nothing has a name. */
  lemma WalkBegins(c: Promo, n: Names)
    requires Walkable(c) && n == Names(map[], map[], false)
    ensures Walked(c, c.f, n, {})
  {
    StartsRenamed(c);
  }

  /** After it every block is. */
  lemma WalkEnded(c: Promo, f: Func, n: Names)
    requires Walkable(c) && Walked(c, f, n, Blocks(c))
    ensures f == Slim(c) && (!n.used ==> FuncAvoids(c.undef, Slim(c)))
    ensures c.Sound() && forall b: nat :: b < c.f.Size() ==> !Writes(c.f.blocks[b].phis, c.undef)
  {
    EndsRenamed(c, f, Blocks(c));
    hide FuncAvoids, Promo.Sound, EraseBlocks, Renamed, SubsKnown, UndefTracked;
  }

  lemma IsPromoted(f: Func, f': Func, c: Promo, prologue: nat, nonLocal: set<SlotId>)
    requires MemoryForm(f) && Prepared(f, c, prologue) && Ready(c, nonLocal, prologue) && PhisNonLocal(c, nonLocal)
    requires f' == Slim(c) || (f' == Slimmer(c) && FuncAvoids(c.undef, Slim(c)))
    ensures PromotedBy(f, f', c.slots, c, prologue, nonLocal)
  {
    hide MemoryForm, Prepared, Ready, PhisNonLocal, Slim, Slimmer, FuncAvoids;
  }

  // ---- what the promoted function's phis hold, and what it no longer does ----

  /** A surviving phi is one of those placed. */
  lemma PromotedPhi(f: Func, f': Func, slots: set<SlotId>, c: Promo, prologue: nat, nonLocal: set<SlotId>, b: BlockId,
                    k: nat)
    returns (i: nat)
    requires PromotedBy(f, f', slots, c, prologue, nonLocal) && b < f'.Size() && k < |f'.blocks[b].phis|
    ensures b < c.f.Size() && i < |c.f.blocks[b].phis|
    ensures f'.blocks[b].phis[k].dest == c.f.blocks[b].phis[i].dest &&
            f'.blocks[b].phis[k].slot == c.f.blocks[b].phis[i].slot
    ensures f'.blocks[b].phis[k].dest !in Gone(c).values
    ensures f' != Slim(c) ==> f'.blocks[b].phis[k].dest != c.undef
  {
    SlimIs(c);
    hide MemoryForm, Prepared, Ready, PhisNonLocal, FuncAvoids, Slim, LoadResults;
    var phis := FilledBlock(c, b).phis;
    assert |f'.blocks| == c.f.Size();
    var j := k;
    if f' != Slim(c) {
      j := Erasure.ErasedPhiWas(OnlyUndef(c), Slim(c).blocks[b].phis, k);
    }
    i := Erasure.ErasedPhiWas(Gone(c), phis, j);
    assert phis[i] == FilledPhi(c, b, c.f.blocks[b].phis[i]);
  }

  /** Entering a block, a phi holds what its slot's memory holds. */
  lemma PhiHolds(c: Promo, m: Machine, nonLocal: set<SlotId>, prologue: nat, b: BlockId, st: State, i: nat)
    requires Ready(c, nonLocal, prologue) && PhisNonLocal(c, nonLocal) && RunHolds(c, m, nonLocal, At(b, st))
    requires b < c.f.Size() && i < |c.f.blocks[b].phis|
    ensures st.Slot(m, c.f.blocks[b].phis[i].slot) == st.Read(Value(c.f.blocks[b].phis[i].dest))
  {
    assert b != c.f.entry;
    var s := c.f.blocks[b].phis[i].slot;
    assert c.f.blocks[b].insts[..0] == [];
    assert Tracked(c, nonLocal, b, 0, s);
    assert SlotHolds(c, m, c.Start(b), st, s);
    PhiNames(c, c.In(b), c.f.blocks[b].phis, i);
  }

  lemma ReadsThrough(m: Machine, d: Dead, a: Status, b: Status, v: ValueId)
    requires SameBut(m, d, a, b) && b.At? && v !in d.values
    ensures a.At? && a.block == b.block && a.st.Read(Value(v)) == b.st.Read(Value(v))
  {
  }

  lemma SlotsThrough(m: Machine, d: Dead, a: Status, b: Status, s: SlotId)
    requires SameBut(m, d, a, b) && a.At? && s !in d.slots
    ensures b.At? && b.block == a.block && a.st.Slot(m, s) == b.st.Slot(m, s)
  {
  }

  /** In every run each phi of the promoted function holds what its slot's memory holds at that point
      of the original function's run. */
  lemma PhisHoldMemory(f: Func, f': Func, slots: set<SlotId>, c: Promo, prologue: nat, nonLocal: set<SlotId>,
                       m: Machine, private: set<SlotId>, n: nat, b: BlockId, t: State, k: nat)
    requires PromotedBy(f, f', slots, c, prologue, nonLocal) && slots <= private
    requires Run(m, private, f', n) == At(b, t) && b < f'.Size() && k < |f'.blocks[b].phis|
    ensures Run(m, private, f, n).At? && Run(m, private, f, n).block == b
    ensures t.Read(Value(f'.blocks[b].phis[k].dest)) == Run(m, private, f, n).st.Slot(m, f'.blocks[b].phis[k].slot)
  {
    PromotedParts(f, f', slots, c, prologue, nonLocal);
    var i := PromotedPhi(f, f', slots, c, prologue, nonLocal, b, k);
    var v, s := f'.blocks[b].phis[k].dest, f'.blocks[b].phis[k].slot;
    assert v !in OnlyUndef(c).values || f' == Slim(c);
    assert s !in Added(f, c).slots;
    hide *;
    if f' != Slim(c) {
      SlimmerRuns(c, m, private, nonLocal, prologue, n);
      ReadsThrough(m, OnlyUndef(c), Run(m, private, Slim(c), n), Run(m, private, f', n), v);
    }
    SlimRuns(c, m, private, nonLocal, prologue, n);
    ReadsThrough(m, Gone(c), Run(m, private, Filled(c), n), Run(m, private, Slim(c), n), v);
    var filled := Run(m, private, Filled(c), n);
    RunsHold(c, m, private, nonLocal, prologue, n);
    PhiHolds(c, m, nonLocal, prologue, b, filled.st, i);
    PreparingKeepsRuns(f, c, prologue, m, private, n);
    SlotsThrough(m, Added(f, c), filled, Run(m, private, f, n), s);
  }

  lemma SlimTouchesNone(c: Promo, b: BlockId, i: nat)
    requires SingleDefs(c.f) && b < c.f.Size() && i < |EraseInsts(Gone(c), RenamedInsts(c, b))|
    ensures !Touches(EraseInsts(Gone(c), RenamedInsts(c, b))[i].op, c.slots)
  {
    var was := Erasure.Origin(Gone(c), RenamedInsts(c, b), i);
    RenamedKind(c, b, was);
    KeptUnlessPromoted(c, b, was);
    hide LoadResults, RenamedInst, EraseInsts;
  }

  /** Nothing loads or stores a promoted slot any more. */
  lemma SlotsAreGone(f: Func, f': Func, slots: set<SlotId>, c: Promo, prologue: nat, nonLocal: set<SlotId>, b: BlockId,
                     j: nat)
    requires PromotedBy(f, f', slots, c, prologue, nonLocal) && b < f'.Size() && j < |f'.blocks[b].insts|
    ensures !Touches(f'.blocks[b].insts[j].op, slots)
  {
    PromotedParts(f, f', slots, c, prologue, nonLocal);
    SlimIs(c);
    SlimmerIs(c);
    assert SingleDefs(c.f);
    hide PromotedBy, Slim, Slimmer, Promo.Sound, UndefAt, Touches, IsLoad, EraseInsts, RenamedInsts, Gone;
    var i := j;
    if f' != Slim(c) {
      i := Erasure.Origin(OnlyUndef(c), Slim(c).blocks[b].insts, j);
    }
    SlimTouchesNone(c, b, i);
  }

  lemma AllAreGone(f: Func, f': Func, slots: set<SlotId>, c: Promo, prologue: nat, nonLocal: set<SlotId>)
    requires PromotedBy(f, f', slots, c, prologue, nonLocal)
    ensures NeverTouches(f', slots)
  {
    hide PromotedBy, Touches;
    forall b: nat, j: nat | b < f'.Size() && j < |f'.blocks[b].insts|
      ensures !Touches(f'.blocks[b].insts[j].op, slots)
    {
      SlotsAreGone(f, f', slots, c, prologue, nonLocal, b, j);
    }
  }

  lemma SlimmerIs(c: Promo)
    ensures Slimmer(c).Size() == Slim(c).Size()
    ensures forall b: nat :: b < Slim(c).Size() ==> Slimmer(c).blocks[b] == EraseBlock(OnlyUndef(c), Slim(c).blocks[b])
  {
    hide Slim, EraseBlock;
  }

  lemma RenamedKind(c: Promo, b: BlockId, j: nat)
    requires SingleDefs(c.f) && b < c.f.Size() && j < |c.f.blocks[b].insts|
    ensures var op, op' := c.f.blocks[b].insts[j].op, RenamedInst(c, b, j).op;
            && (op'.SlotLoad? ==> op.SlotLoad? && op'.slot == op.slot && c.f.blocks[b].insts[j].dest.Some?)
            && (op'.SlotStore? ==> op.SlotStore? && op'.slot == op.slot)
  {
    OpKinds(c.EnvBefore(b, j).sub, c.f.blocks[b].insts[j].op);
  }
}
