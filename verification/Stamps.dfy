/** Preorder stamps over a tree: one block is above another exactly when its stamps enclose the other's. */
module Stamps {
  import opened IdomTree
  import opened Lists

  ghost function Wrap(immediate: seq<nat>): Idoms {
    seq(|immediate|, i requires 0 <= i < |immediate| => Some(immediate[i]))
  }

  /** A complete tree: every block is recorded. */
  ghost predicate Complete(t: Tree) {
    t.Valid() && forall v: nat :: v < |t.imm| ==> t.Has(v)
  }

  /** `children[b]` lists the blocks directly below `b`, each once. */
  ghost predicate ListsChildren(t: Tree, children: seq<seq<nat>>) {
    && |children| == |t.imm|
    && forall b: nat :: b < |children| ==>
         Distinct(children[b]) && forall c: nat :: c in children[b] <==> IsChild(t, b, c)
  }

  ghost predicate IsChild(t: Tree, b: nat, c: nat) {
    t.Has(c) && c != t.entry && t.Up(c) == b
  }

  /** The dominator tree as child lists, each in the order of `order`. */
  method Children(immediate: seq<nat>, order: seq<nat>, entry: nat) returns (children: seq<seq<nat>>)
    requires Distinct(order)
    requires forall b: nat :: b in order <==> b < |immediate|
    requires forall b: nat :: b < |immediate| ==> immediate[b] < |immediate|
    ensures |children| == |immediate|
    ensures forall b: nat :: b < |children| ==>
              Distinct(children[b]) &&
              forall c: nat :: c in children[b] <==> c < |immediate| && c != entry && immediate[c] == b
  {
    children := seq(|immediate|, _ => []);
    for i := 0 to |order|
      invariant |children| == |immediate|
      invariant forall b: nat :: b < |children| ==>
                  Distinct(children[b]) &&
                  forall c: nat :: c in children[b] <==>
                    c in order[..i] && c < |immediate| && c != entry && immediate[c] == b
    {
      var block := order[i];
      assert order[..i + 1] == order[..i] + [block];
      assert block in order && block !in order[..i];
      if block != entry {
        var idom := immediate[block];
        assert block !in children[idom];
        children := children[idom := children[idom] + [block]];
      }
    }
    assert order[..|order|] == order;
  }

  datatype Frame = Frame(block: nat, next: nat)

  /** The walk between two steps: the blocks entered and not yet left, and those left. */
  datatype Walk = Walk(stack: seq<Frame>, open: set<nat>, closed: set<nat>)
  {
    ghost predicate Saw(x: nat) { x in open || x in closed }
  }

  ghost predicate StackIsChain(t: Tree, w: Walk) {
    && (forall i :: 0 <= i < |w.stack| ==> t.Has(w.stack[i].block) && w.stack[i].block in w.open)
    && (|w.stack| > 0 ==> w.stack[0].block == t.entry)
    && (forall i, j :: 0 <= i < j < |w.stack| && j == i + 1 ==> IsChild(t, w.stack[i].block, w.stack[j].block))
    && (forall x: nat :: x in w.open <==> |w.stack| > 0 && t.Anc(x, w.stack[|w.stack| - 1].block))
  }

  ghost predicate EnteredIsClosed(t: Tree, w: Walk) {
    && w.open !! w.closed
    && (forall x: nat :: w.Saw(x) ==> t.Has(x))
    && (forall b: nat, c: nat :: b in w.closed && IsChild(t, b, c) ==> c in w.closed)
    && (forall c: nat :: w.Saw(c) && c != t.entry ==> w.Saw(t.Up(c)))
    && w.Saw(t.entry)
  }

  /** The children of `f` before its `next` are done, but perhaps for the one being walked. */
  ghost predicate FrameScanned(children: seq<seq<nat>>, w: Walk, f: Frame, walked: nat) {
    && f.block < |children| && f.next <= |children[f.block]|
    && (forall k :: 0 <= k < f.next ==> children[f.block][k] in w.closed || children[f.block][k] == walked)
    && (forall k :: f.next <= k < |children[f.block]| ==> !w.Saw(children[f.block][k]))
  }

  ghost predicate ChildrenScanned(children: seq<seq<nat>>, w: Walk, entry: nat) {
    && (forall i, j :: 0 <= i < j < |w.stack| && j == i + 1 ==> FrameScanned(children, w, w.stack[i], w.stack[j].block))
    && (|w.stack| > 0 ==> FrameScanned(children, w, w.stack[|w.stack| - 1], entry))
  }

  /** What the stamps given out so far say. */
  ghost predicate StampsTell(t: Tree, w: Walk, enter: seq<nat>, exit: seq<nat>, clock: nat) {
    && |enter| == |exit| == |t.imm|
    && (forall x: nat :: w.Saw(x) ==> At(enter, x) < clock)
    && (forall x: nat :: x in w.closed ==> At(exit, x) < clock)
    && (forall a: nat, b: nat :: a in w.open && w.Saw(b) ==> (At(enter, a) <= At(enter, b) <==> t.Anc(a, b)))
    && (forall a: nat, b: nat :: a in w.closed && b in w.closed ==> (Inside(enter, exit, a, b) <==> t.Anc(a, b)))
  }

  function At(stamps: seq<nat>, b: nat): nat {
    if b < |stamps| then stamps[b] else 0
  }

  predicate Inside(enter: seq<nat>, exit: seq<nat>, a: nat, b: nat) {
    At(enter, a) <= At(enter, b) && At(exit, b) <= At(exit, a)
  }

  ghost predicate Walking(t: Tree, children: seq<seq<nat>>, w: Walk, enter: seq<nat>, exit: seq<nat>, clock: nat) {
    && Complete(t) && ListsChildren(t, children)
    && StackIsChain(t, w) && EnteredIsClosed(t, w) && ChildrenScanned(children, w, t.entry)
    && StampsTell(t, w, enter, exit, clock)
  }

  // ---- entering a child ----

  ghost function Entered(w: Walk, c: nat): Walk
    requires |w.stack| > 0
  {
    var top := w.stack[|w.stack| - 1];
    Walk(w.stack[|w.stack| - 1 := Frame(top.block, top.next + 1)] + [Frame(c, 0)], w.open + {c}, w.closed)
  }

  ghost predicate CanEnter(t: Tree, children: seq<seq<nat>>, w: Walk, c: nat) {
    && Complete(t) && ListsChildren(t, children)
    && StackIsChain(t, w) && EnteredIsClosed(t, w) && ChildrenScanned(children, w, t.entry)
    && |w.stack| > 0
    && var top := w.stack[|w.stack| - 1];
       top.block < |children| && top.next < |children[top.block]| && children[top.block][top.next] == c
  }

  lemma EnterIsChild(t: Tree, children: seq<seq<nat>>, w: Walk, c: nat)
    requires CanEnter(t, children, w, c)
    ensures IsChild(t, w.stack[|w.stack| - 1].block, c) && !w.Saw(c)
    ensures w.stack[|w.stack| - 1].block in w.open
    ensures forall x: nat :: t.Anc(x, c) <==> x == c || x in w.open
  {
    var top := w.stack[|w.stack| - 1];
    assert FrameScanned(children, w, top, t.entry);
    assert c in children[top.block];
    assert t.Rises(c);
  }

  lemma EnterKeepsChain(t: Tree, children: seq<seq<nat>>, w: Walk, c: nat)
    requires CanEnter(t, children, w, c)
    ensures StackIsChain(t, Entered(w, c))
  {
    EnterIsChild(t, children, w, c);
    hide ChildrenScanned, ListsChildren, EnteredIsClosed, Complete;
    var w' := Entered(w, c);
    forall i | 0 <= i < |w'.stack|
      ensures t.Has(w'.stack[i].block) && w'.stack[i].block in w'.open
    {
      if i < |w.stack| {
        assert w'.stack[i].block == w.stack[i].block;
      }
    }
  }

  lemma EnterKeepsClosed(t: Tree, children: seq<seq<nat>>, w: Walk, c: nat)
    requires CanEnter(t, children, w, c)
    ensures EnteredIsClosed(t, Entered(w, c))
  {
    EnterIsChild(t, children, w, c);
    hide ChildrenScanned, ListsChildren, StackIsChain, Complete;
  }

  lemma EnterKeepsFrame(t: Tree, children: seq<seq<nat>>, w: Walk, c: nat, f: Frame, walked: nat)
    requires ListsChildren(t, children) && FrameScanned(children, w, f, walked)
    requires |w.stack| > 0 && !w.Saw(c) && !IsChild(t, f.block, c)
    ensures FrameScanned(children, Entered(w, c), f, walked)
  {
    assert c !in children[f.block];
  }

  lemma EnterAdvancesTop(t: Tree, children: seq<seq<nat>>, w: Walk, c: nat)
    requires CanEnter(t, children, w, c)
    ensures var top := w.stack[|w.stack| - 1];
            FrameScanned(children, Entered(w, c), Frame(top.block, top.next + 1), c)
  {
    EnterIsChild(t, children, w, c);
    var top := w.stack[|w.stack| - 1];
    assert Distinct(children[top.block]);
    assert FrameScanned(children, w, top, t.entry);
    hide StackIsChain, EnteredIsClosed, ChildrenScanned, Complete;
    forall k | 0 <= k < top.next
      ensures children[top.block][k] in w.closed
    {
      assert children[top.block][k] in children[top.block];
      assert IsChild(t, top.block, children[top.block][k]);
    }
  }

  lemma EnterOpensFrame(t: Tree, children: seq<seq<nat>>, w: Walk, c: nat)
    requires CanEnter(t, children, w, c)
    ensures FrameScanned(children, Entered(w, c), Frame(c, 0), t.entry)
  {
    EnterIsChild(t, children, w, c);
    hide StackIsChain, ChildrenScanned, Distinct;
    forall k | 0 <= k < |children[c]|
      ensures !Entered(w, c).Saw(children[c][k])
    {
      assert children[c][k] in children[c];
      assert IsChild(t, c, children[c][k]);
      assert t.Rises(children[c][k]);
    }
  }

  lemma EnterKeepsScanned(t: Tree, children: seq<seq<nat>>, w: Walk, c: nat)
    requires CanEnter(t, children, w, c)
    ensures ChildrenScanned(children, Entered(w, c), t.entry)
  {
    EnterIsChild(t, children, w, c);
    var w' := Entered(w, c);
    var n := |w.stack|;
    EnterAdvancesTop(t, children, w, c);
    EnterOpensFrame(t, children, w, c);
    forall i | 0 <= i < n - 1
      ensures FrameScanned(children, w', w.stack[i], w.stack[i + 1].block)
    {
      assert FrameScanned(children, w, w.stack[i], w.stack[i + 1].block);
      ChainHasNoRepeat(t, w, i, n - 1);
      hide Complete, ListsChildren, StackIsChain, EnteredIsClosed, ChildrenScanned, FrameScanned;
      EnterKeepsFrame(t, children, w, c, w.stack[i], w.stack[i + 1].block);
    }
    hide Complete, ListsChildren, StackIsChain, EnteredIsClosed, FrameScanned;
    assert forall i :: 0 <= i < n - 1 ==> w'.stack[i] == w.stack[i];
  }

  /** Frames further down the stack are higher in the tree, so no block is on it twice. */
  lemma {:induction false} ChainHasNoRepeat(t: Tree, w: Walk, i: nat, j: nat)
    requires t.Valid() && StackIsChain(t, w) && i < j < |w.stack|
    ensures t.Num(w.stack[i].block) < t.Num(w.stack[j].block)
    decreases j
  {
    assert IsChild(t, w.stack[j - 1].block, w.stack[j].block);
    assert t.Rises(w.stack[j].block);
    if i < j - 1 {
      ChainHasNoRepeat(t, w, i, j - 1);
    }
  }

  lemma EnterKeepsOpenStamps(t: Tree, w: Walk, c: nat, enter: seq<nat>, exit: seq<nat>, clock: nat, a: nat, b: nat)
    requires t.Valid() && EnteredIsClosed(t, w) && StampsTell(t, w, enter, exit, clock)
    requires !w.Saw(c) && c < |enter|
    requires forall x: nat :: t.Anc(x, c) <==> x == c || x in w.open
    requires (a == c || a in w.open) && (b == c || w.Saw(b))
    ensures At(enter[c := clock], a) <= At(enter[c := clock], b) <==> t.Anc(a, b)
  {
    if a == c && b != c {
      EnteredHasEnteredAbove(t, w, c, b);
    }
  }

  lemma EnterKeepsStamps(t: Tree, children: seq<seq<nat>>, w: Walk, c: nat, enter: seq<nat>, exit: seq<nat>, clock: nat)
    requires CanEnter(t, children, w, c) && StampsTell(t, w, enter, exit, clock) && c < |enter|
    ensures StampsTell(t, Entered(w, c), enter[c := clock], exit, clock + 1)
  {
    EnterIsChild(t, children, w, c);
    EnterKeepsClosedStamps(t, w, c, enter, exit, clock);
    forall a: nat, b: nat | (a == c || a in w.open) && (b == c || w.Saw(b))
      ensures At(enter[c := clock], a) <= At(enter[c := clock], b) <==> t.Anc(a, b)
    {
      EnterKeepsOpenStamps(t, w, c, enter, exit, clock, a, b);
    }
    assert forall b: nat :: Entered(w, c).Saw(b) <==> b == c || w.Saw(b);
    assert |enter| == |exit| == |t.imm| && forall x: nat :: x in w.closed ==> At(exit, x) < clock;
    hide CanEnter, Complete, IsChild;
  }

  lemma EnterKeepsClosedStamps(t: Tree, w: Walk, c: nat, enter: seq<nat>, exit: seq<nat>, clock: nat)
    requires StampsTell(t, w, enter, exit, clock) && c < |enter| && !w.Saw(c)
    ensures forall x: nat :: x == c || w.Saw(x) ==> At(enter[c := clock], x) < clock + 1
    ensures forall a: nat, b: nat :: a in w.closed && b in w.closed ==>
              (Inside(enter[c := clock], exit, a, b) <==> t.Anc(a, b))
  {
    forall a: nat, b: nat | a in w.closed && b in w.closed
      ensures Inside(enter[c := clock], exit, a, b) <==> t.Anc(a, b)
    {
      assert Inside(enter, exit, a, b) <==> t.Anc(a, b);
    }
  }

  lemma {:induction false} EnteredHasEnteredAbove(t: Tree, w: Walk, c: nat, b: nat)
    requires t.Valid() && EnteredIsClosed(t, w) && !w.Saw(c) && w.Saw(b)
    ensures !t.Anc(c, b)
    decreases t.Num(b)
  {
    if b != t.entry {
      assert t.Rises(b);
      EnteredHasEnteredAbove(t, w, c, t.Up(b));
    }
  }

  // ---- leaving the block on top ----

  ghost function Left(w: Walk): Walk
    requires |w.stack| > 0
  {
    var top := w.stack[|w.stack| - 1];
    Walk(w.stack[..|w.stack| - 1], w.open - {top.block}, w.closed + {top.block})
  }

  ghost predicate CanLeave(t: Tree, children: seq<seq<nat>>, w: Walk) {
    && Complete(t) && ListsChildren(t, children)
    && StackIsChain(t, w) && EnteredIsClosed(t, w) && ChildrenScanned(children, w, t.entry)
    && |w.stack| > 0
    && var top := w.stack[|w.stack| - 1];
       top.block < |children| && top.next >= |children[top.block]|
  }

  lemma LeaveClosesTop(t: Tree, children: seq<seq<nat>>, w: Walk)
    requires CanLeave(t, children, w)
    ensures EnteredIsClosed(t, Left(w))
  {
    var top := w.stack[|w.stack| - 1];
    assert FrameScanned(children, w, top, t.entry);
    assert top.block in w.open;
    forall c: nat | IsChild(t, top.block, c)
      ensures c in w.closed
    {
      assert c in children[top.block];
      var k :| 0 <= k < |children[top.block]| && children[top.block][k] == c;
    }
    hide ChildrenScanned, ListsChildren, Distinct, StackIsChain, Complete;
    assert forall x: nat :: Left(w).Saw(x) <==> w.Saw(x);
  }

  lemma LeaveKeepsFrames(t: Tree, w: Walk)
    requires t.Valid() && StackIsChain(t, w) && |w.stack| > 0
    ensures forall i :: 0 <= i < |w.stack| - 1 ==> w.stack[i].block in Left(w).open
  {
    var n := |w.stack|;
    forall i | 0 <= i < n - 1
      ensures w.stack[i].block in Left(w).open
    {
      ChainHasNoRepeat(t, w, i, n - 1);
    }
  }

  lemma LeaveKeepsOpen(t: Tree, w: Walk, x: nat)
    requires t.Valid() && StackIsChain(t, w) && |w.stack| > 0
    ensures x in Left(w).open <==> |w.stack| > 1 && t.Anc(x, w.stack[|w.stack| - 2].block)
  {
    var n := |w.stack|;
    var b := w.stack[n - 1].block;
    assert x in w.open <==> t.Anc(x, b);
    if n > 1 {
      assert IsChild(t, w.stack[n - 2].block, b);
      assert t.Rises(b);
      NotAboveSelf(t, b);
    }
  }

  lemma LeaveKeepsChain(t: Tree, children: seq<seq<nat>>, w: Walk)
    requires CanLeave(t, children, w)
    ensures StackIsChain(t, Left(w))
  {
    hide ChildrenScanned, ListsChildren, Distinct, EnteredIsClosed, IsChild;
    LeaveKeepsFrames(t, w);
    forall x: nat
      ensures x in Left(w).open <==> |w.stack| > 1 && t.Anc(x, w.stack[|w.stack| - 2].block)
    {
      LeaveKeepsOpen(t, w, x);
    }
    hide Complete;
  }

  lemma NotAboveSelf(t: Tree, v: nat)
    requires t.Valid() && t.Has(v) && t.Rises(v)
    ensures !t.Anc(v, t.Up(v))
  {
    if t.Anc(v, t.Up(v)) {
      AncIsRecorded(t, v, t.Up(v));
    }
  }

  lemma LeaveKeepsScanned(t: Tree, children: seq<seq<nat>>, w: Walk)
    requires CanLeave(t, children, w)
    ensures ChildrenScanned(children, Left(w), t.entry)
  {
    var w' := Left(w);
    var n := |w.stack|;
    var top := w.stack[n - 1];
    assert top.block in w.open;
    assert forall x: nat :: w'.Saw(x) <==> w.Saw(x);
    forall i | 0 <= i < n - 1
      ensures FrameScanned(children, w', w.stack[i], if i == n - 2 then t.entry else w.stack[i + 1].block)
    {
      assert FrameScanned(children, w, w.stack[i], w.stack[i + 1].block);
      hide Complete, ListsChildren, StackIsChain, ChildrenScanned;
    }
  }

  lemma LeaveKeepsStamps(t: Tree, children: seq<seq<nat>>, w: Walk, enter: seq<nat>, exit: seq<nat>, clock: nat)
    requires CanLeave(t, children, w) && StampsTell(t, w, enter, exit, clock)
    requires w.stack[|w.stack| - 1].block < |exit|
    ensures StampsTell(t, Left(w), enter, exit[w.stack[|w.stack| - 1].block := clock], clock + 1)
  {
    var w' := Left(w);
    var b := w.stack[|w.stack| - 1].block;
    var exit' := exit[b := clock];
    assert b in w.open;
    forall x: nat, y: nat | x in w'.closed && y in w'.closed
      ensures Inside(enter, exit', x, y) <==> t.Anc(x, y)
    {
      hide ChildrenScanned, ListsChildren, Complete;
      if x == b {
        assert At(enter, b) <= At(enter, y) <==> t.Anc(b, y);
      } else if y == b {
        assert x !in w.open;
        assert !t.Anc(x, b);
      } else {
        assert Inside(enter, exit, x, y) <==> t.Anc(x, y);
      }
    }
  }

  // ---- the whole walk ----

  lemma {:induction false} ClosedHoldsSubtree(t: Tree, w: Walk, v: nat)
    requires Complete(t) && EnteredIsClosed(t, w) && w.open == {} && v < |t.imm|
    ensures v in w.closed
    decreases t.Num(v)
  {
    if v != t.entry {
      assert t.Rises(v);
      ClosedHoldsSubtree(t, w, t.Up(v));
      assert IsChild(t, t.Up(v), v);
    }
  }

  lemma FinishedWalk(t: Tree, w: Walk, enter: seq<nat>, exit: seq<nat>, clock: nat)
    requires Complete(t) && StackIsChain(t, w) && EnteredIsClosed(t, w) && |w.stack| == 0
    requires StampsTell(t, w, enter, exit, clock)
    ensures |enter| == |exit| == |t.imm|
    ensures forall a: nat, b: nat :: a < |enter| && b < |enter| ==> (Inside(enter, exit, a, b) <==> t.Anc(a, b))
  {
    forall v: nat | v < |t.imm|
      ensures v in w.closed
    {
      ClosedHoldsSubtree(t, w, v);
    }
  }

  lemma StartWalk(t: Tree, children: seq<seq<nat>>, enter: seq<nat>, exit: seq<nat>)
    requires Complete(t) && ListsChildren(t, children) && |enter| == |exit| == |t.imm|
    requires enter[t.entry] == 0
    ensures Walking(t, children, Walk([Frame(t.entry, 0)], {t.entry}, {}), enter, exit, 1)
  {
    var w := Walk([Frame(t.entry, 0)], {t.entry}, {});
    assert t.Anc(t.entry, t.entry);
    forall k | 0 <= k < |children[t.entry]|
      ensures children[t.entry][k] !in w.open
    {
      assert children[t.entry][k] in children[t.entry];
    }
  }

  /** What the loop needs to know to take its next step. */
  lemma TopInRange(t: Tree, children: seq<seq<nat>>, w: Walk, enter: seq<nat>, exit: seq<nat>, clock: nat)
    requires Walking(t, children, w, enter, exit, clock) && |w.stack| > 0
    ensures |children| == |enter| == |exit| == |t.imm| && w.stack[|w.stack| - 1].block < |children|
    ensures forall x: nat :: w.Saw(x) ==> x < |t.imm|
    ensures forall b: nat, k: nat :: b < |children| && k < |children[b]| ==> children[b][k] < |children|
    ensures w.stack[|w.stack| - 1].next < |children[w.stack[|w.stack| - 1].block]| ==>
              !w.Saw(children[w.stack[|w.stack| - 1].block][w.stack[|w.stack| - 1].next])
  {
    forall b: nat, k: nat | b < |children| && k < |children[b]|
      ensures children[b][k] < |children|
    {
      assert children[b][k] in children[b];
    }
    assert FrameScanned(children, w, w.stack[|w.stack| - 1], t.entry);
  }

  lemma WalkEnter(t: Tree, children: seq<seq<nat>>, w: Walk, enter: seq<nat>, exit: seq<nat>, clock: nat, c: nat)
    requires Walking(t, children, w, enter, exit, clock) && CanEnter(t, children, w, c) && c < |enter|
    ensures Walking(t, children, Entered(w, c), enter[c := clock], exit, clock + 1)
  {
    hide StackIsChain, EnteredIsClosed, ChildrenScanned, StampsTell, ListsChildren;
    EnterKeepsChain(t, children, w, c);
    EnterKeepsClosed(t, children, w, c);
    EnterKeepsScanned(t, children, w, c);
    EnterKeepsStamps(t, children, w, c, enter, exit, clock);
  }

  lemma WalkLeave(t: Tree, children: seq<seq<nat>>, w: Walk, enter: seq<nat>, exit: seq<nat>, clock: nat)
    requires Walking(t, children, w, enter, exit, clock) && CanLeave(t, children, w)
    requires w.stack[|w.stack| - 1].block < |exit|
    ensures Walking(t, children, Left(w), enter, exit[w.stack[|w.stack| - 1].block := clock], clock + 1)
  {
    hide StackIsChain, EnteredIsClosed, ChildrenScanned, StampsTell, ListsChildren;
    LeaveKeepsChain(t, children, w);
    LeaveClosesTop(t, children, w);
    LeaveKeepsScanned(t, children, w);
    LeaveKeepsStamps(t, children, w, enter, exit, clock);
  }

  /** Number the tree in preorder; afterwards one block is above another exactly when the other's
      stamps lie inside its own. */
  method StampPreorder(immediate: seq<nat>, order: seq<nat>, entry: nat, ghost t: Tree)
    returns (enter: seq<nat>, exit: seq<nat>)
    requires Complete(t) && t.imm == Wrap(immediate) && t.entry == entry
    requires Distinct(order) && forall b: nat :: b in order <==> b < |immediate|
    ensures |enter| == |exit| == |immediate|
    ensures forall a: nat, b: nat :: a < |enter| && b < |enter| ==> (Inside(enter, exit, a, b) <==> t.Anc(a, b))
  {
    hide StackIsChain, EnteredIsClosed, ChildrenScanned, StampsTell;
    var children := WrappedChildren(immediate, order, entry, t);
    enter := seq(|immediate|, _ => 0);
    exit := seq(|immediate|, _ => 0);
    var clock := 1;
    var stack := [Frame(entry, 0)];
    StartWalk(t, children, enter, exit);
    hide Complete, ListsChildren;
    ghost var w := Walk(stack, {entry}, {});
    ghost var all := set x: nat | x in order;

    while |stack| > 0
      invariant Walking(t, children, w, enter, exit, clock) && w.stack == stack
      invariant |enter| == |exit| == |immediate| == |t.imm|
      decreases all - (w.open + w.closed), |stack|
    {
      TopInRange(t, children, w, enter, exit, clock);
      var top := |stack| - 1;
      var Frame(block, next) := stack[top];
      if next < |children[block]| {
        var child := children[block][next];
        WalkEnter(t, children, w, enter, exit, clock, child);
        assert child in all;
        w := Entered(w, child);
        stack := stack[top := Frame(block, next + 1)];
        enter := enter[child := clock];
        clock := clock + 1;
        stack := stack + [Frame(child, 0)];
      } else {
        WalkLeave(t, children, w, enter, exit, clock);
        assert Left(w).open + Left(w).closed >= w.open + w.closed;
        w := Left(w);
        exit := exit[block := clock];
        clock := clock + 1;
        stack := stack[..top];
      }
    }
    FinishedWalk(t, w, enter, exit, clock);
  }

  method WrappedChildren(immediate: seq<nat>, order: seq<nat>, entry: nat, ghost t: Tree)
    returns (children: seq<seq<nat>>)
    requires Complete(t) && t.imm == Wrap(immediate) && t.entry == entry
    requires Distinct(order) && forall b: nat :: b in order <==> b < |immediate|
    ensures ListsChildren(t, children)
  {
    forall b: nat | b < |immediate| ensures immediate[b] < |immediate| {
      assert t.Has(b);
      assert b != entry ==> t.Rises(b);
    }
    children := Children(immediate, order, entry);
  }
}
