/** One block of the renaming walk: what entering it does to the function and to the names. */
module RenameBlocks {
  import opened Graphs
  import opened IdomTree
  import opened DomFixpoint
  import opened Ssa
  import opened Rewrites
  import opened SsaValid
  import opened RenameSpec
  import opened Promotion
  import opened RenameSteps

  // ---- filling in phi arguments ----

  /** `args` with `o` at every position `pred` arrives at. */
  function Put(args: seq<Operand>, preds: seq<BlockId>, pred: BlockId, o: Operand): (r: seq<Operand>)
    ensures |r| == |args|
    ensures forall i: nat :: i < |args| ==> r[i] == if i < |preds| && preds[i] == pred then o else args[i]
  {
    seq(|args|, i requires 0 <= i < |args| => if i < |preds| && preds[i] == pred then o else args[i])
  }

  function FillPhi(phi: Phi, preds: seq<BlockId>, pred: BlockId, n: Names, undef: ValueId): Phi {
    phi.(args := Put(phi.args, preds, pred, n.Top(undef, phi.slot)))
  }

  function FillPhis(phis: seq<Phi>, preds: seq<BlockId>, pred: BlockId, n: Names, undef: ValueId): (r: seq<Phi>)
    ensures |r| == |phis| && forall k: nat :: k < |phis| ==> r[k] == FillPhi(phis[k], preds, pred, n, undef)
  {
    seq(|phis|, k requires 0 <= k < |phis| => FillPhi(phis[k], preds, pred, n, undef))
  }

  /** A successor once the arguments `pred` owes it are in. */
  function FilledFrom(block: Block, pred: BlockId, n: Names, undef: ValueId): Block {
    block.(phis := FillPhis(block.phis, block.preds, pred, n, undef))
  }

  /** Every phi of the block found a name for its slot. */
  ghost predicate PhisHaveNames(block: Block, n: Names) {
    forall k: nat :: k < |block.phis| ==> StackOf(n.stacks, block.phis[k].slot) != []
  }

  lemma FillTwice(block: Block, pred: BlockId, n: Names, undef: ValueId)
    ensures FilledFrom(FilledFrom(block, pred, n, undef), pred, n, undef) == FilledFrom(block, pred, n, undef)
  {
    var once := FilledFrom(block, pred, n, undef);
    var twice := FilledFrom(once, pred, n, undef);
    forall k: nat | k < |block.phis| ensures twice.phis[k] == once.phis[k] {
      assert twice.phis[k].args == once.phis[k].args;
    }
    assert twice.phis == once.phis;
  }

  // ---- the whole block ----

  /** What the walk relies on throughout: nothing reads the undefined value before it starts, and no
      phi or load defines it. */
  ghost predicate Walkable(c: Promo) {
    && c.Sound() && FuncAvoids(c.undef, c.f) && !IsLoad(c, c.undef)
    && forall b: nat :: b < c.f.Size() ==> !Writes(c.f.blocks[b].phis, c.undef)
  }

  /** The function and the names when the blocks in `entered` have been renamed. */
  ghost predicate Walked(c: Promo, f: Func, n: Names, entered: set<BlockId>) {
    && RenamedUpTo(c, f, entered)
    && SubsKnown(c, n.subs, entered)
    && UndefTracked(c.undef, n)
    && (!n.used ==> FuncAvoids(c.undef, f))
  }

  /** `b` may be entered next: it was not, and its immediate dominator was. */
  ghost predicate Enterable(c: Promo, entered: set<BlockId>, b: BlockId) {
    && b < c.f.Size() && b !in entered
    && (b == c.f.entry || c.tree.Up(b) in entered)
  }

  /** What entering `b` makes of block `x`. */
  function Entered(b: BlockId, x: BlockId, block: Block, succs: seq<BlockId>, n: Names, kept: seq<Inst>,
                   undef: ValueId): Block {
    var own := if x == b then block.(insts := kept, term := SubTerm(n.subs, block.term)) else block;
    if x in succs then FilledFrom(own, b, n, undef) else own
  }

  lemma {:induction false} AfterSamePhis(c: Promo, env: Env, phis: seq<Phi>, phis': seq<Phi>)
    requires |phis| == |phis'|
    requires forall k: nat :: k < |phis| ==> phis'[k].slot == phis[k].slot && phis'[k].dest == phis[k].dest
    ensures c.AfterPhis(env, phis') == c.AfterPhis(env, phis)
    decreases |phis|
  {
    if phis != [] {
      AfterSamePhis(c, env, phis[..|phis| - 1], phis'[..|phis| - 1]);
    }
  }

  /** The phis found in the function name what the phis it started with name. */
  lemma PhisStartBlock(c: Promo, f: Func, entered: set<BlockId>, b: BlockId)
    requires RenamedUpTo(c, f, entered) && b < c.f.Size()
    ensures b < f.Size() && c.AfterPhis(c.In(b), f.blocks[b].phis) == c.Start(b)
    ensures !Writes(c.f.blocks[b].phis, c.undef) ==>
              forall k: nat :: k < |f.blocks[b].phis| ==> f.blocks[b].phis[k].dest != c.undef
  {
    var phis, phis' := c.f.blocks[b].phis, f.blocks[b].phis;
    assert PhisFilled(c, b, phis', entered);
    forall k: nat | k < |phis|
      ensures phis'[k].slot == phis[k].slot && phis'[k].dest == phis[k].dest
    {
      assert PhiFilled(c, b, phis[k], phis'[k], entered);
    }
    AfterSamePhis(c, c.In(b), phis, phis');
  }

  /** With the phis named, the walk stands before the first instruction. */
  lemma MidwayStarts(c: Promo, f: Func, entered: set<BlockId>, b: BlockId, before: Names, n: Names)
    requires Walkable(c) && Walked(c, f, before, entered) && Enterable(c, entered, b)
    requires n == before.(stacks := n.stacks) && TopsAre(n.stacks, c.Start(b)) && UndefTracked(c.undef, n)
    ensures Midway(c, b, 0, n, n, [], [])
  {
    SubsReachBlock(c, entered, b, before.subs);
    MidwayAtRest(c, b, n);
    hide *;
  }

  /** The substitutions so far include those a block to enter inherits, and none of its own. */
  lemma SubsReachBlock(c: Promo, entered: set<BlockId>, b: BlockId, subs: Substitution)
    requires c.Sound() && SubsKnown(c, subs, entered) && Enterable(c, entered, b)
    ensures SubsAreLoads(c, subs) && SubsInclude(subs, c.Start(b).sub) && SubsGrow(c, b, subs, subs)
  {
    InsideGrows(c, b);
    assert c.tree.entry == c.f.entry;
    assert b == c.tree.entry || c.In(b) == NoEnv || c.In(b) == c.Out(c.tree.Up(b));
    hide Promo.Sound, Promo.Out, Promo.Start;
  }

  lemma MidwayAtRest(c: Promo, b: BlockId, n: Names)
    requires b < c.f.Size() && TopsAre(n.stacks, c.Start(b)) && UndefTracked(c.undef, n)
    requires SubsAreLoads(c, n.subs) && SubsInclude(n.subs, c.Start(b).sub) && SubsGrow(c, b, n.subs, n.subs)
    ensures Midway(c, b, 0, n, n, [], [])
  {
    assert c.f.blocks[b].insts[..0] == [];
    assert RenamedInsts(c, b)[..0] == [];
    hide TopsAre, UndefTracked, SubsAreLoads, SubsInclude, SubsGrow, RenamedInsts, Promo.Start;
  }

  lemma PushedInTurn(a: Stacks, b: Stacks, d: Stacks, p: seq<SlotId>, q: seq<SlotId>)
    requires Pushed(a, b, p) && Pushed(b, d, q)
    ensures Pushed(a, d, p + q)
  {
    forall s: SlotId
      ensures StackOf(a, s) <= StackOf(d, s) && |StackOf(d, s)| == |StackOf(a, s)| + multiset(p + q)[s]
    {
      assert StackOf(a, s) <= StackOf(b, s) && StackOf(b, s) <= StackOf(d, s);
      assert multiset(p + q) == multiset(p) + multiset(q);
    }
  }

  /** At the end of a block everything it defines is known. */
  lemma SubsKnownMore(c: Promo, b: BlockId, entered: set<BlockId>, before: Names, n: Names, kept: seq<Inst>,
                      pushed: seq<SlotId>)
    requires b < c.f.Size() && SubsKnown(c, before.subs, entered)
    requires Midway(c, b, |c.f.blocks[b].insts|, before, n, kept, pushed)
    ensures SubsKnown(c, n.subs, entered + {b})
    ensures TopsAre(n.stacks, c.Out(b))
  {
    var insts := c.f.blocks[b].insts;
    assert insts[..|insts|] == insts;
    forall x: BlockId | x in entered + {b}
      ensures SubsInclude(n.subs, c.Out(x).sub)
    {
      if x in entered {
        assert SubsInclude(before.subs, c.Out(x).sub);
      }
    }
  }

  lemma TermHere(c: Promo, subs: Substitution, b: BlockId)
    requires c.Sound() && b < c.f.Size() && SubsAreLoads(c, subs) && SubsInclude(subs, c.Out(b).sub)
    ensures SubTerm(subs, c.f.blocks[b].term) == SubTerm(c.Out(b).sub, c.f.blocks[b].term)
  {
    var insts := c.f.blocks[b].insts;
    var os := c.f.blocks[b].term.Operands();
    assert insts[..|insts|] == insts;
    assert AllOk(c.f, os, End(c.f, b));
    SubsAgree(c, subs, b, |insts|, os);
    assert SubAll(subs, os) == SubAll(c.Out(b).sub, os);
  }

  /** A successor's phis have one more predecessor's arguments; no other block has phis reading `b`. */
  lemma PhisFilledMore(c: Promo, b: BlockId, x: BlockId, block: Block, entered: set<BlockId>, n: Names)
    requires c.f.Adjacency().Valid() && b < c.f.Size() && x < c.f.Size() && TopsAre(n.stacks, c.Out(b))
    requires block.preds == c.f.blocks[x].preds && PhisFilled(c, x, block.phis, entered)
    ensures x in c.f.blocks[b].term.Successors() ==>
              PhisFilled(c, x, FilledFrom(block, b, n, c.undef).phis, entered + {b})
    ensures x !in c.f.blocks[b].term.Successors() ==> PhisFilled(c, x, block.phis, entered + {b})
  {
    var g := c.f.Adjacency();
    assert b in g.preds[x] <==> x in g.succs[b];
    var filled := FilledFrom(block, b, n, c.undef).phis;
    forall k: nat | k < |block.phis|
      ensures PhiFilled(c, x, c.f.blocks[x].phis[k], filled[k], entered + {b})
      ensures x !in g.succs[b] ==> PhiFilled(c, x, c.f.blocks[x].phis[k], block.phis[k], entered + {b})
    {
      var phi := block.phis[k];
      assert PhiFilled(c, x, c.f.blocks[x].phis[k], phi, entered);
      TopIsCur(c, n, c.Out(b), phi.slot);
      assert filled[k] == FillPhi(phi, block.preds, b, n, c.undef);
    }
  }

  lemma EnteredRenamed(c: Promo, f: Func, f': Func, b: BlockId, entered: set<BlockId>, n: Names, kept: seq<Inst>)
    requires c.Sound() && b < c.f.Size() && b !in entered && RenamedUpTo(c, f, entered)
    requires TopsAre(n.stacks, c.Out(b)) && SubsAreLoads(c, n.subs) && SubsInclude(n.subs, c.Out(b).sub)
    requires kept == EraseInsts(Gone(c), RenamedInsts(c, b))
    requires f' == f.(blocks := f'.blocks) && f'.Size() == f.Size()
    requires forall x: nat :: x < f.Size() ==>
               f'.blocks[x] == Entered(b, x, f.blocks[x], c.f.blocks[b].term.Successors(), n, kept, c.undef)
    ensures RenamedUpTo(c, f', entered + {b})
  {
    TermHere(c, n.subs, b);
    var succs := c.f.blocks[b].term.Successors();
    hide Promo.Sound, TopsAre, SubsAreLoads, SubsInclude, EraseInsts, RenamedInsts, SubTerm, PhisFilled, FilledFrom;
    forall x: nat | x < f'.Size()
      ensures f'.blocks[x].preds == c.f.blocks[x].preds && PhisFilled(c, x, f'.blocks[x].phis, entered + {b})
      ensures x in entered + {b} ==> BlockRenamed(c, x, f'.blocks[x])
      ensures x !in entered + {b} ==>
                f'.blocks[x].insts == c.f.blocks[x].insts && f'.blocks[x].term == c.f.blocks[x].term
    {
      EnteredRenamedAt(c, f, b, entered, n, kept, x);
    }
  }

  lemma EnteredRenamedAt(c: Promo, f: Func, b: BlockId, entered: set<BlockId>, n: Names, kept: seq<Inst>, x: BlockId)
    requires c.Sound() && b < c.f.Size() && b !in entered && RenamedUpTo(c, f, entered)
    requires TopsAre(n.stacks, c.Out(b))
    requires SubTerm(n.subs, c.f.blocks[b].term) == SubTerm(c.Out(b).sub, c.f.blocks[b].term)
    requires kept == EraseInsts(Gone(c), RenamedInsts(c, b)) && x < f.Size()
    ensures x < c.f.Size()
    ensures var block' := Entered(b, x, f.blocks[x], c.f.blocks[b].term.Successors(), n, kept, c.undef);
            && block'.preds == c.f.blocks[x].preds && PhisFilled(c, x, block'.phis, entered + {b})
            && (x in entered + {b} ==> BlockRenamed(c, x, block'))
            && (x !in entered + {b} ==> block'.insts == c.f.blocks[x].insts && block'.term == c.f.blocks[x].term)
  {
    PhisFilledMore(c, b, x, f.blocks[x], entered, n);
    hide Promo.Sound, TopsAre, EraseInsts, RenamedInsts, SubTerm, PhisFilled, FillPhis;
  }

  /** If the undefined value was not handed out, the block's new contents do not read it. */
  lemma EnteredAvoids(c: Promo, b: BlockId, x: BlockId, block: Block, succs: seq<BlockId>, n: Names, kept: seq<Inst>)
    requires BlockAvoids(c.undef, block) && UndefTracked(c.undef, n) && !n.used && InstsAvoid(c.undef, kept)
    requires x in succs ==> PhisHaveNames(block, n)
    ensures BlockAvoids(c.undef, Entered(b, x, block, succs, n, kept, c.undef))
  {
    SubAvoids(c.undef, n, block.term.Operands());
    assert SubTerm(n.subs, block.term).Operands() == SubAll(n.subs, block.term.Operands());
    var filled := FilledFrom(block, b, n, c.undef).phis;
    if x in succs {
      forall k: nat | k < |block.phis| ensures AllAvoid(c.undef, filled[k].args) {
        assert StackOf(n.stacks, block.phis[k].slot) != [];
        assert AllAvoid(c.undef, StackOf(n.stacks, block.phis[k].slot));
        assert AllAvoid(c.undef, block.phis[k].args);
        assert filled[k] == FillPhi(block.phis[k], block.preds, b, n, c.undef);
      }
    }
  }

  /** Entering a block keeps what the walk knows.  `mid` are the names after its phis, `end` after its
      instructions, `n` after its successors' phis were filled. */
  lemma WalkedMore(c: Promo, f: Func, f': Func, b: BlockId, entered: set<BlockId>, before: Names, mid: Names,
                   end: Names, n: Names,
                   kept: seq<Inst>, pushed: seq<SlotId>)
    requires Walkable(c) && Walked(c, f, before, entered) && Enterable(c, entered, b)
    requires before.subs == mid.subs && before.used == mid.used
    requires Midway(c, b, |c.f.blocks[b].insts|, mid, end, kept, pushed)
    requires n == end.(used := n.used) && (end.used ==> n.used)
    requires f' == f.(blocks := f'.blocks) && f'.Size() == f.Size()
    requires forall x: nat :: x < f.Size() ==>
               f'.blocks[x] == Entered(b, x, f.blocks[x], c.f.blocks[b].term.Successors(), n, kept, c.undef)
    requires !n.used ==> forall x: nat :: x < f.Size() && x in c.f.blocks[b].term.Successors() ==>
               PhisHaveNames(f.blocks[x], n)
    ensures Walked(c, f', n, entered + {b})
    ensures TopsAre(n.stacks, c.Out(b)) && Pushed(mid.stacks, n.stacks, pushed)
  {
    hide *;
    WalkedParts(c, f, before, entered);
    EnterableParts(c, entered, b);
    SubsKnownMore(c, b, entered, mid, end, kept, pushed);
    MidwayEnds(c, b, mid, end, n, kept, pushed);
    SubsKnownHere(c, n.subs, entered, b);
    EnteredRenamed(c, f, f', b, entered, n, kept);
    if !n.used {
      EnteredAllAvoid(c, b, f, f', n, kept);
    }
    WalkedWhole(c, f', n, entered + {b});
  }

  lemma WalkedParts(c: Promo, f: Func, n: Names, entered: set<BlockId>)
    requires Walkable(c) && Walked(c, f, n, entered)
    ensures c.Sound() && RenamedUpTo(c, f, entered) && SubsKnown(c, n.subs, entered) &&
            (!n.used ==> FuncAvoids(c.undef, f))
  {
    hide Promo.Sound, RenamedUpTo, SubsKnown, FuncAvoids;
  }

  lemma WalkedWhole(c: Promo, f: Func, n: Names, entered: set<BlockId>)
    requires RenamedUpTo(c, f, entered) && SubsKnown(c, n.subs, entered) && UndefTracked(c.undef, n)
    requires !n.used ==> FuncAvoids(c.undef, f)
    ensures Walked(c, f, n, entered)
  {
    hide RenamedUpTo, SubsKnown, FuncAvoids, UndefTracked;
  }

  lemma EnterableParts(c: Promo, entered: set<BlockId>, b: BlockId)
    requires Enterable(c, entered, b)
    ensures b < c.f.Size() && b !in entered
  {
  }

  lemma SubsKnownHere(c: Promo, subs: Substitution, entered: set<BlockId>, b: BlockId)
    requires SubsKnown(c, subs, entered + {b})
    ensures SubsAreLoads(c, subs) && SubsInclude(subs, c.Out(b).sub)
  {
  }

  lemma MidwayEnds(c: Promo, b: BlockId, mid: Names, end: Names, n: Names, kept: seq<Inst>, pushed: seq<SlotId>)
    requires b < c.f.Size() && Midway(c, b, |c.f.blocks[b].insts|, mid, end, kept, pushed)
    requires n == end.(used := n.used) && (end.used ==> n.used)
    ensures kept == EraseInsts(Gone(c), RenamedInsts(c, b))
    ensures UndefTracked(c.undef, n) && (!n.used ==> InstsAvoid(c.undef, kept))
    ensures mid.used ==> n.used
    ensures Pushed(mid.stacks, n.stacks, pushed)
  {
    assert RenamedInsts(c, b)[..|c.f.blocks[b].insts|] == RenamedInsts(c, b);
    hide TopsAre, SubsAreLoads, SubsInclude, SubsGrow, RenamedInsts, EraseInsts, Pushed, Gone, InstsAvoid, Promo.Steps;
  }

  lemma EnteredAllAvoid(c: Promo, b: BlockId, f: Func, f': Func, n: Names, kept: seq<Inst>)
    requires FuncAvoids(c.undef, f) && UndefTracked(c.undef, n) && !n.used && InstsAvoid(c.undef, kept)
    requires b < c.f.Size() && f'.Size() == f.Size()
    requires forall x: nat :: x < f.Size() ==>
               f'.blocks[x] == Entered(b, x, f.blocks[x], c.f.blocks[b].term.Successors(), n, kept, c.undef)
    requires forall x: nat :: x < f.Size() && x in c.f.blocks[b].term.Successors() ==> PhisHaveNames(f.blocks[x], n)
    ensures FuncAvoids(c.undef, f')
  {
    hide BlockAvoids, UndefTracked, InstsAvoid, PhisHaveNames, Entered;
    forall x: nat | x < f'.Size() ensures BlockAvoids(c.undef, f'.blocks[x]) {
      EnteredAvoids(c, b, x, f.blocks[x], c.f.blocks[b].term.Successors(), n, kept);
    }
  }

  /** What a block to enter looks like: as it did at the start, with its phis' arguments underway. */
  lemma BlockToEnter(c: Promo, f: Func, n: Names, entered: set<BlockId>, b: BlockId)
    requires Walkable(c) && Walked(c, f, n, entered) && Enterable(c, entered, b)
    ensures b < f.Size() == c.f.Size()
    ensures f.blocks[b].insts == c.f.blocks[b].insts && f.blocks[b].term == c.f.blocks[b].term
    ensures InstsAvoid(c.undef, c.f.blocks[b].insts) && UndefTracked(c.undef, n)
    ensures c.AfterPhis(c.In(b), f.blocks[b].phis) == c.Start(b)
    ensures forall k: nat :: k < |f.blocks[b].phis| ==> f.blocks[b].phis[k].dest != c.undef
    ensures forall x: nat :: x in f.blocks[b].term.Successors() ==> x < f.Size()
  {
    PhisStartBlock(c, f, entered, b);
    assert BlockAvoids(c.undef, c.f.blocks[b]);
    SuccessorsInside(c.f, b);
    hide Promo.Sound, PhisFilled, BlockRenamed, UndefTracked, InstsAvoid, SubsKnown, Promo.Start, Promo.In;
  }

  lemma SuccessorsInside(f: Func, b: BlockId)
    requires f.Adjacency().Valid() && b < f.Size()
    ensures forall x: nat :: x in f.blocks[b].term.Successors() ==> x < f.Size()
  {
    assert f.Adjacency().succs[b] == f.blocks[b].term.Successors();
    forall x: nat | x in f.blocks[b].term.Successors() ensures x < f.Size() {
      var k: nat :| k < |f.blocks[b].term.Successors()| && f.blocks[b].term.Successors()[k] == x;
      assert f.Adjacency().succs[b][k] < f.Adjacency().Size();
    }
  }

  ghost predicate PhiArity(f: Func) {
    forall x: nat, k: nat :: x < f.Size() && k < |f.blocks[x].phis| ==>
      |f.blocks[x].phis[k].args| == |f.blocks[x].preds|
  }

  lemma RenamedArity(c: Promo, f: Func, entered: set<BlockId>)
    requires RenamedUpTo(c, f, entered)
    ensures PhiArity(f)
  {
    forall x: nat, k: nat | x < f.Size() && k < |f.blocks[x].phis|
      ensures |f.blocks[x].phis[k].args| == |f.blocks[x].preds|
    {
      assert PhisFilled(c, x, f.blocks[x].phis, entered);
      assert PhiFilled(c, x, c.f.blocks[x].phis[k], f.blocks[x].phis[k], entered);
    }
  }

  /** Storing a block's contents back and then filling its successors' phis is entering it. */
  lemma EnteredInTurn(b: BlockId, f: Func, own: seq<Block>, filled: seq<Block>, end: Names, n: Names, kept: seq<Inst>,
                      undef: ValueId)
    requires b < f.Size() && n == end.(used := n.used)
    requires own == f.blocks[b := f.blocks[b].(insts := kept, term := SubTerm(end.subs, f.blocks[b].term))]
    requires |filled| == |own|
    requires forall x: nat :: x < |own| ==>
               filled[x] == if x in own[b].term.Successors() then FilledFrom(own[x], b, end, undef) else own[x]
    requires !n.used ==> forall x: nat :: x < |own| && x in own[b].term.Successors() ==> PhisHaveNames(own[x], end)
    ensures own[b].term.Successors() == f.blocks[b].term.Successors()
    ensures forall x: nat :: x < f.Size() ==>
              filled[x] == Entered(b, x, f.blocks[x], f.blocks[b].term.Successors(), n, kept, undef)
    ensures !n.used ==> forall x: nat :: x < f.Size() && x in f.blocks[b].term.Successors() ==>
              PhisHaveNames(f.blocks[x], n)
  {
    forall x: nat | x < f.Size()
      ensures filled[x] == Entered(b, x, f.blocks[x], f.blocks[b].term.Successors(), n, kept, undef)
      ensures !n.used && x in f.blocks[b].term.Successors() ==> PhisHaveNames(f.blocks[x], n)
    {
      NamesForFilled(own[x], b, end, n, undef);
    }
    hide FilledFrom, SubTerm;
  }

  /** Whether every phi has a name, and which, does not depend on whether it was filled already. */
  lemma NamesForFilled(block: Block, pred: BlockId, n: Names, n': Names, undef: ValueId)
    requires n' == n.(used := n'.used)
    ensures FilledFrom(block, pred, n', undef) == FilledFrom(block, pred, n, undef)
    ensures FilledFrom(FilledFrom(block, pred, n, undef), pred, n', undef) == FilledFrom(block, pred, n, undef)
    ensures PhisHaveNames(block, n') <==> PhisHaveNames(block, n)
    ensures PhisHaveNames(FilledFrom(block, pred, n, undef), n') <==> PhisHaveNames(block, n)
  {
    var filled := FilledFrom(block, pred, n, undef).phis;
    assert FilledFrom(block, pred, n', undef).phis == filled by {
      forall k: nat | k < |filled| ensures FilledFrom(block, pred, n', undef).phis[k] == filled[k] {
        assert n'.Top(undef, block.phis[k].slot) == n.Top(undef, block.phis[k].slot);
      }
    }
    FillTwice(block, pred, n', undef);
    forall k: nat | k < |filled| ensures filled[k].slot == block.phis[k].slot {
      assert filled[k] == FillPhi(block.phis[k], block.preds, pred, n, undef);
    }
  }
}
