/** Reverse postorder by depth-first search with an explicit stack. */
module Postorder {
  import opened Graphs
  import opened Lists

  /** A list of every reachable block, each once. */
  ghost predicate Enumerates(g: Graph, order: seq<nat>) {
    && Distinct(order)
    && (forall b :: b in order ==> b < g.Size() && g.Reachable(b))
    && (forall b :: 0 <= b < g.Size() && g.Reachable(b) ==> b in order)
  }

  /** `parent` names, for every listed block but the entry, a predecessor listed before it. */
  ghost predicate ParentsFirst(g: Graph, order: seq<nat>, parent: map<nat, nat>) {
    && |order| > 0 && order[0] == g.entry
    && forall i :: 0 < i < |order| ==> HasParent(g, order[i], parent) && parent[order[i]] in order[..i]
  }

  ghost predicate HasParent(g: Graph, b: nat, parent: map<nat, nat>) {
    b in parent && g.Edge(parent[b], b)
  }

  /** One entry of the search stack: a block, and how many of its successors were dealt with. */
  datatype Frame = Frame(block: nat, next: nat)

  /** `line` lists the finished blocks, in the order they finished, and then the blocks on the
      stack, innermost first: the order in which everything seen so far will have finished. */
  ghost predicate Line(g: Graph, visited: seq<bool>, line: seq<nat>, parent: map<nat, nat>) {
    && Distinct(line)
    && LineIsVisited(g, visited, line)
    && |line| > 0 && line[|line| - 1] == g.entry
    && forall i :: 0 <= i < |line| - 1 ==> ParentFollows(g, line, parent, i)
  }

  ghost predicate LineIsVisited(g: Graph, visited: seq<bool>, line: seq<nat>) {
    && |visited| == g.Size()
    && (forall b :: b in line ==> b < g.Size() && visited[b] && g.Reachable(b))
    && (forall b :: 0 <= b < g.Size() && visited[b] ==> b in line)
  }

  ghost predicate ParentFollows(g: Graph, line: seq<nat>, parent: map<nat, nat>, i: nat)
    requires i < |line|
  {
    HasParent(g, line[i], parent) && parent[line[i]] in line[i + 1..]
  }

  ghost predicate StackEndsLine(g: Graph, line: seq<nat>, stack: seq<Frame>) {
    && |stack| <= |line|
    && forall i :: 0 <= i < |stack| ==>
         stack[i].block == line[|line| - 1 - i] && stack[i].block < g.Size()
         && stack[i].next <= |g.succs[stack[i].block]|
  }

  ghost predicate SeenUpTo(g: Graph, visited: seq<bool>, b: nat, k: nat)
    requires |visited| == g.Size()
  {
    b < g.Size() && k <= |g.succs[b]| &&
    forall s :: s in g.succs[b][..k] ==> s < g.Size() && visited[s]
  }

  /** Finished blocks have no unvisited successor; those on the stack none before `next`. */
  ghost predicate Scanned(g: Graph, visited: seq<bool>, done: seq<nat>, stack: seq<Frame>)
    requires |visited| == g.Size()
  {
    && (forall b :: b in done ==> b < g.Size() && SeenUpTo(g, visited, b, |g.succs[b]|))
    && (forall i :: 0 <= i < |stack| ==> SeenUpTo(g, visited, stack[i].block, stack[i].next))
  }

  function Reversed(s: seq<nat>): (r: seq<nat>)
    ensures |r| == |s|
    ensures forall i :: 0 <= i < |s| ==> r[i] == s[|s| - 1 - i]
  {
    seq(|s|, i requires 0 <= i < |s| => s[|s| - 1 - i])
  }

  ghost function Unvisited(visited: seq<bool>): nat {
    if visited == [] then 0
    else (if visited[|visited| - 1] then 0 else 1) + Unvisited(visited[..|visited| - 1])
  }

  lemma {:induction false} VisitOne(visited: seq<bool>, b: nat)
    requires b < |visited| && !visited[b]
    ensures Unvisited(visited[b := true]) == Unvisited(visited) - 1
  {
    var last := |visited| - 1;
    if b == last {
      assert visited[b := true][..last] == visited[..last];
    } else {
      assert visited[b := true][..last] == visited[..last][b := true];
      VisitOne(visited[..last], b);
    }
  }

  /** Work left on the stack: unexamined successors plus the pops to come. */
  ghost function Pending(g: Graph, stack: seq<Frame>): nat
    requires forall i :: 0 <= i < |stack| ==> stack[i].block < |g.succs| && stack[i].next <= |g.succs[stack[i].block]|
  {
    if |stack| == 0 then 0
    else
      1 + |g.succs[stack[|stack| - 1].block]| - stack[|stack| - 1].next + Pending(g, stack[..|stack| - 1])
  }

  lemma InsertKeepsDistinct(line: seq<nat>, k: nat, s: nat)
    requires k <= |line| && Distinct(line) && s !in line
    ensures Distinct(line[..k] + [s] + line[k..])
    ensures forall b :: b in line[..k] + [s] + line[k..] <==> b == s || b in line
  {
    var line' := line[..k] + [s] + line[k..];
    forall i, j | 0 <= i < j < |line'|
      ensures line'[i] != line'[j]
    {
      var i' := if i <= k then i else i - 1;
      var j' := if j <= k then j else j - 1;
      assert line'[i] == if i == k then s else line[i'];
      assert line'[j] == if j == k then s else line[j'];
    }
    assert line == line[..k] + line[k..];
  }

  /** Blocks keep their parent further along when a block is slotted into the line. */
  lemma InsertKeepsParent(line: seq<nat>, k: nat, s: nat, i: nat, q: nat)
    requires k < |line| && i < |line| && q in line[i + 1..]
    ensures q in (line[..k] + [s] + line[k..])[(if i < k then i else i + 1) + 1..]
  {
    var line' := line[..k] + [s] + line[k..];
    var m :| i + 1 <= m < |line| && line[m] == q;
    assert line'[if m < k then m else m + 1] == q;
  }

  /** Discovering `s` from the block on top of the stack slots it in just before that block. */
  lemma DiscoverKeepsLine(g: Graph, visited: seq<bool>, line: seq<nat>, parent: map<nat, nat>,
                          k: nat, s: nat)
    requires Line(g, visited, line, parent)
    requires k < |line| && g.Edge(line[k], s) && !visited[s]
    ensures Line(g, visited[s := true], line[..k] + [s] + line[k..], parent[s := line[k]])
  {
    var line' := line[..k] + [s] + line[k..];
    var parent' := parent[s := line[k]];
    assert LineIsVisited(g, visited, line);
    assert line[k] in line && s !in line;
    ReachableStep(g, line[k], s);
    InsertKeepsDistinct(line, k, s);
    assert LineIsVisited(g, visited[s := true], line') by {
      hide ParentFollows, Distinct;
    }
    forall i | 0 <= i < |line'| - 1
      ensures ParentFollows(g, line', parent', i)
    {
      hide Distinct, LineIsVisited;
      if i == k {
        assert line'[k + 1] == line[k];
      } else {
        DiscoverKeepsParent(g, line, parent, k, s, if i < k then i else i - 1);
      }
    }
  }

  lemma DiscoverKeepsParent(g: Graph, line: seq<nat>, parent: map<nat, nat>, k: nat, s: nat, i: nat)
    requires k < |line| && i < |line| && ParentFollows(g, line, parent, i) && line[i] != s
    ensures ParentFollows(g, line[..k] + [s] + line[k..], parent[s := line[k]], if i < k then i else i + 1)
  {
    InsertKeepsParent(line, k, s, i, parent[line[i]]);
  }

  /** Stepping over the next successor of the block on top, once that is visited. */
  lemma AdvanceKeepsScanned(g: Graph, visited: seq<bool>, done: seq<nat>, stack: seq<Frame>)
    requires g.Valid() && |visited| == g.Size() && Scanned(g, visited, done, stack) && |stack| > 0
    requires var top := stack[|stack| - 1];
             top.block < g.Size() && top.next < |g.succs[top.block]| && visited[g.succs[top.block][top.next]]
    ensures var top := stack[|stack| - 1];
            Scanned(g, visited, done, stack[|stack| - 1 := Frame(top.block, top.next + 1)])
  {
    var Frame(block, next) := stack[|stack| - 1];
    assert SeenUpTo(g, visited, block, next);
    assert g.succs[block][..next + 1] == g.succs[block][..next] + [g.succs[block][next]];
  }

  lemma VisitKeepsScanned(g: Graph, visited: seq<bool>, done: seq<nat>, stack: seq<Frame>, s: nat)
    requires g.Valid() && |visited| == g.Size() && Scanned(g, visited, done, stack) && s < g.Size()
    ensures Scanned(g, visited[s := true], done, stack)
  {
    forall b, k | 0 <= b < g.Size() && SeenUpTo(g, visited, b, k)
      ensures SeenUpTo(g, visited[s := true], b, k)
    {
    }
  }

  lemma DiscoverKeepsStack(g: Graph, line: seq<nat>, stack: seq<Frame>, s: nat)
    requires g.Valid() && StackEndsLine(g, line, stack) && 0 < |stack| && s < g.Size()
    ensures var k := |line| - |stack|;
            StackEndsLine(g, line[..k] + [s] + line[k..], stack + [Frame(s, 0)])
  {
    var k := |line| - |stack|;
    var line' := line[..k] + [s] + line[k..];
    assert line'[k + 1..] == line[k..];
  }

  /** A set of blocks holding the entry and closed under successors holds every reachable block. */
  lemma {:induction false} ClosedHoldsPath(g: Graph, visited: seq<bool>, p: seq<nat>, b: nat)
    requires g.Valid() && |visited| == g.Size() && visited[g.entry]
    requires forall a, s :: 0 <= a < g.Size() && visited[a] && s in g.succs[a] ==> s < g.Size() && visited[s]
    requires g.PathTo(p, b)
    ensures b < g.Size() && visited[b]
    decreases |p|
  {
    if |p| > 1 {
      PathPrefix(g, p, b, |p| - 2);
      ClosedHoldsPath(g, visited, p[..|p| - 1], p[|p| - 2]);
      assert g.Edge(p[|p| - 2], p[|p| - 2 + 1]);
    }
  }

  /** What the finished search says about the reversed list. */
  lemma Finish(g: Graph, visited: seq<bool>, done: seq<nat>, parent: map<nat, nat>)
    requires g.Valid() && Line(g, visited, done, parent) && Scanned(g, visited, done, [])
    ensures Enumerates(g, Reversed(done)) && ParentsFirst(g, Reversed(done), parent)
  {
    var order := Reversed(done);
    forall b | b in done ensures b in order {
      var i :| 0 <= i < |done| && done[i] == b;
      assert order[|done| - 1 - i] == b;
    }
    forall a, s | 0 <= a < g.Size() && visited[a] && s in g.succs[a]
      ensures s < g.Size() && visited[s]
    {
      assert g.succs[a][..|g.succs[a]|] == g.succs[a];
      assert SeenUpTo(g, visited, a, |g.succs[a]|);
    }
    forall b | 0 <= b < g.Size() && g.Reachable(b)
      ensures b in order
    {
      var p :| g.PathTo(p, b);
      ClosedHoldsPath(g, visited, p, b);
    }
    forall i | 0 < i < |order|
      ensures HasParent(g, order[i], parent) && parent[order[i]] in order[..i]
    {
      var k := |done| - 1 - i;
      assert ParentFollows(g, done, parent, k);
      var m :| k + 1 <= m < |done| && done[m] == parent[done[k]];
      assert order[..i][|done| - 1 - m] == parent[order[i]];
    }
  }

  /** The search between two steps. */
  ghost predicate Searching(g: Graph, visited: seq<bool>, done: seq<nat>, stack: seq<Frame>,
                            line: seq<nat>, parent: map<nat, nat>)
  {
    && g.Valid()
    && Line(g, visited, line, parent)
    && StackEndsLine(g, line, stack)
    && done == line[..|line| - |stack|]
    && Scanned(g, visited, done, stack)
  }

  lemma SkipStep(g: Graph, visited: seq<bool>, done: seq<nat>, stack: seq<Frame>,
                 line: seq<nat>, parent: map<nat, nat>)
    requires Searching(g, visited, done, stack, line, parent) && |stack| > 0
    requires var top := stack[|stack| - 1];
             top.next < |g.succs[top.block]| && visited[g.succs[top.block][top.next]]
    ensures var top := stack[|stack| - 1];
            Searching(g, visited, done, stack[|stack| - 1 := Frame(top.block, top.next + 1)], line, parent)
  {
    AdvanceKeepsScanned(g, visited, done, stack);
  }

  lemma PushStep(g: Graph, visited: seq<bool>, done: seq<nat>, stack: seq<Frame>,
                 line: seq<nat>, parent: map<nat, nat>, k: nat)
    requires Searching(g, visited, done, stack, line, parent) && |stack| > 0 && k == |line| - |stack|
    requires var top := stack[|stack| - 1];
             top.next < |g.succs[top.block]| && !visited[g.succs[top.block][top.next]]
    ensures var top := stack[|stack| - 1];
            var s := g.succs[top.block][top.next];
            Searching(g, visited[s := true], done,
                      stack[|stack| - 1 := Frame(top.block, top.next + 1)] + [Frame(s, 0)],
                      line[..k] + [s] + line[k..], parent[s := top.block])
  {
    var top := stack[|stack| - 1];
    var s := g.succs[top.block][top.next];
    assert top.block == line[k];
    assert g.Edge(top.block, s);
    var advanced := stack[|stack| - 1 := Frame(top.block, top.next + 1)];
    DiscoverKeepsLine(g, visited, line, parent, k, s);
    VisitKeepsScanned(g, visited, done, stack, s);
    AdvanceKeepsScanned(g, visited[s := true], done, stack);
    assert StackEndsLine(g, line, advanced);
    DiscoverKeepsStack(g, line, advanced, s);
  }

  lemma PopStep(g: Graph, visited: seq<bool>, done: seq<nat>, stack: seq<Frame>,
                line: seq<nat>, parent: map<nat, nat>)
    requires Searching(g, visited, done, stack, line, parent) && |stack| > 0
    requires var top := stack[|stack| - 1]; top.next >= |g.succs[top.block]|
    ensures Searching(g, visited, done + [stack[|stack| - 1].block], stack[..|stack| - 1], line, parent)
  {
    var k := |line| - |stack|;
    assert line[..k + 1] == line[..k] + [line[k]];
  }

  lemma StartsSearching(g: Graph, visited: seq<bool>)
    requires g.Valid() && visited == seq(g.Size(), _ => false)[g.entry := true]
    ensures Searching(g, visited, [], [Frame(g.entry, 0)], [g.entry], map[])
  {
    assert g.PathTo([g.entry], g.entry);
  }

  /** Every block on the stack is a block of the graph, scanned no further than its successors. */
  lemma StackInRange(g: Graph, visited: seq<bool>, done: seq<nat>, stack: seq<Frame>,
                     line: seq<nat>, parent: map<nat, nat>)
    requires Searching(g, visited, done, stack, line, parent)
    ensures |visited| == |g.succs| && |stack| <= |line|
    ensures forall i :: 0 <= i < |stack| ==>
              stack[i].block < |g.succs| && stack[i].next <= |g.succs[stack[i].block]|
    ensures forall i :: 0 <= i < |stack| ==>
              forall k :: 0 <= k < |g.succs[stack[i].block]| ==> g.succs[stack[i].block][k] < |g.succs|
  {
  }

  // ---- edges against the order ----

  /** From `a` down to `b` by the tree `parent` describes. */
  ghost predicate IsChain(parent: map<nat, nat>, chain: seq<nat>, a: nat, b: nat) {
    && |chain| > 0 && chain[0] == a && chain[|chain| - 1] == b
    && forall i: nat :: i < |chain| - 1 ==> Below(parent, chain, i)
  }

  /** The block after position `i` has that position's block as its parent. */
  ghost predicate Below(parent: map<nat, nat>, chain: seq<nat>, i: nat)
    requires i < |chain| - 1
  {
    chain[i + 1] in parent && parent[chain[i + 1]] == chain[i]
  }

  ghost predicate Ancestor(parent: map<nat, nat>, a: nat, b: nat) {
    exists chain: seq<nat> :: IsChain(parent, chain, a, b)
  }

  lemma AncestorDown(parent: map<nat, nat>, a: nat, b: nat, c: nat)
    requires Ancestor(parent, a, b) && c in parent && parent[c] == b
    ensures Ancestor(parent, a, c)
  {
    var chain: seq<nat> :| IsChain(parent, chain, a, b);
    var longer := chain + [c];
    forall i: nat | i < |longer| - 1 ensures Below(parent, longer, i) {
      if i < |chain| - 1 {
        assert Below(parent, chain, i);
      }
    }
    assert IsChain(parent, longer, a, c);
  }

  lemma AncestorItself(parent: map<nat, nat>, a: nat)
    ensures Ancestor(parent, a, a)
  {
    assert IsChain(parent, [a], a, a);
  }

  lemma AncestorStays(parent: map<nat, nat>, s: nat, p: nat, a: nat, b: nat)
    requires Ancestor(parent, a, b) && s !in parent
    ensures Ancestor(parent[s := p], a, b)
  {
    var chain: seq<nat> :| IsChain(parent, chain, a, b);
    var parent' := parent[s := p];
    forall i: nat | i < |chain| - 1 ensures Below(parent', chain, i) {
      assert Below(parent, chain, i);
    }
    assert IsChain(parent', chain, a, b);
  }

  /** Each successor of the block finished at `i` finished before it, or is above it in the tree. */
  ghost predicate EarlierOrAbove(g: Graph, done: seq<nat>, parent: map<nat, nat>, i: nat)
    requires i < |done|
  {
    forall s: nat :: g.Edge(done[i], s) ==> s in done[..i] || Ancestor(parent, s, done[i])
  }

  ghost predicate StackIsPath(stack: seq<Frame>, parent: map<nat, nat>) {
    forall i: nat :: i < |stack| - 1 ==> OnTop(stack, parent, i)
  }

  ghost predicate OnTop(stack: seq<Frame>, parent: map<nat, nat>, i: nat)
    requires i < |stack| - 1
  {
    stack[i + 1].block in parent && parent[stack[i + 1].block] == stack[i].block
  }

  /** The tree so far: its blocks are visited, the stack is a path in it, and finished blocks branch to blocks finished
      before them or above them. */
  ghost predicate Growing(g: Graph, visited: seq<bool>, done: seq<nat>, stack: seq<Frame>, parent: map<nat, nat>) {
    && (forall b: nat :: b in parent ==> b < |visited| && visited[b])
    && StackIsPath(stack, parent)
    && forall i: nat :: i < |done| ==> EarlierOrAbove(g, done, parent, i)
  }

  lemma {:induction false} StackAbove(stack: seq<Frame>, parent: map<nat, nat>, i: nat, j: nat)
    requires StackIsPath(stack, parent) && i <= j < |stack|
    ensures Ancestor(parent, stack[i].block, stack[j].block)
    decreases j
  {
    hide Ancestor;
    if i == j {
      AncestorItself(parent, stack[i].block);
    } else {
      var k := j - 1;
      StackAbove(stack, parent, i, k);
      assert OnTop(stack, parent, k);
      AncestorDown(parent, stack[i].block, stack[k].block, stack[j].block);
    }
  }

  lemma SkipGrows(g: Graph, visited: seq<bool>, done: seq<nat>, stack: seq<Frame>, parent: map<nat, nat>, top: nat,
                  frame: Frame)
    requires Growing(g, visited, done, stack, parent) && top < |stack| && frame.block == stack[top].block
    ensures Growing(g, visited, done, stack[top := frame], parent)
  {
    var stack' := stack[top := frame];
    forall i: nat | i < |stack'| - 1 ensures OnTop(stack', parent, i) {
      assert OnTop(stack, parent, i);
    }
    hide EarlierOrAbove;
  }

  lemma PushGrows(g: Graph, visited: seq<bool>, done: seq<nat>, stack: seq<Frame>, parent: map<nat, nat>, s: nat)
    requires Growing(g, visited, done, stack, parent) && stack != [] && s < |visited| && !visited[s]
    ensures Growing(g, visited[s := true], done, stack + [Frame(s, 0)], parent[s := stack[|stack| - 1].block])
  {
    var p := stack[|stack| - 1].block;
    var parent' := parent[s := p];
    forall i: nat | i < |done| ensures EarlierOrAbove(g, done, parent', i) {
      assert EarlierOrAbove(g, done, parent, i);
      forall t: nat | g.Edge(done[i], t) && t !in done[..i] ensures Ancestor(parent', t, done[i]) {
        AncestorStays(parent, s, p, t, done[i]);
      }
    }
    var stack' := stack + [Frame(s, 0)];
    forall i: nat | i < |stack'| - 1 ensures OnTop(stack', parent', i) {
      if i < |stack| - 1 {
        assert OnTop(stack, parent, i);
      }
    }
    hide EarlierOrAbove;
  }

  lemma PopGrows(g: Graph, visited: seq<bool>, done: seq<nat>, stack: seq<Frame>, line: seq<nat>,
                 parent: map<nat, nat>)
    requires Searching(g, visited, done, stack, line, parent) && Growing(g, visited, done, stack, parent)
    requires |stack| > 0 && stack[|stack| - 1].block < g.Size()
    requires stack[|stack| - 1].next >= |g.succs[stack[|stack| - 1].block]|
    ensures Growing(g, visited, done + [stack[|stack| - 1].block], stack[..|stack| - 1], parent)
  {
    var top := stack[|stack| - 1];
    var done' := done + [top.block];
    forall i: nat | i < |done'| ensures EarlierOrAbove(g, done', parent, i) {
      if i < |done| {
        assert EarlierOrAbove(g, done, parent, i);
        assert done'[..i] == done[..i];
      } else {
        forall s: nat | g.Edge(top.block, s) && s !in done ensures Ancestor(parent, s, top.block) {
          var j := OnStack(g, visited, done, stack, line, parent, s);
          StackAbove(stack, parent, j, |stack| - 1);
        }
        assert done'[..i] == done;
      }
    }
    hide EarlierOrAbove, Searching;
    var stack' := stack[..|stack| - 1];
    forall i: nat | i < |stack'| - 1 ensures OnTop(stack', parent, i) {
      assert OnTop(stack, parent, i);
    }
  }

  /** Where the block on top has nothing left, each of its successors is finished or on the stack. */
  lemma OnStack(g: Graph, visited: seq<bool>, done: seq<nat>, stack: seq<Frame>, line: seq<nat>,
                parent: map<nat, nat>, s: nat) returns (j: nat)
    requires Searching(g, visited, done, stack, line, parent)
    requires |stack| > 0 && stack[|stack| - 1].block < g.Size()
    requires stack[|stack| - 1].next >= |g.succs[stack[|stack| - 1].block]|
    requires g.Edge(stack[|stack| - 1].block, s) && s !in done
    ensures j < |stack| && stack[j].block == s
  {
    var top := stack[|stack| - 1];
    TopSeen(g, visited, done, stack, top);
    assert s in g.succs[top.block][..|g.succs[top.block]|];
    assert s in line by {
      hide Distinct, ParentFollows, SeenUpTo;
    }
    var m :| 0 <= m < |line| && line[m] == s;
    j := |line| - 1 - m;
    hide Line, Scanned;
  }

  lemma TopSeen(g: Graph, visited: seq<bool>, done: seq<nat>, stack: seq<Frame>, top: Frame)
    requires |visited| == g.Size() && Scanned(g, visited, done, stack) && |stack| > 0 && top == stack[|stack| - 1]
    requires top.block < g.Size() && top.next >= |g.succs[top.block]|
    ensures SeenUpTo(g, visited, top.block, |g.succs[top.block]|)
  {
  }

  /** An edge that does not go forward in the order goes to a block above its source in the tree. */
  ghost predicate RetreatsUp(g: Graph, order: seq<nat>, parent: map<nat, nat>) {
    forall i: nat, j: nat :: j <= i < |order| && g.Edge(order[i], order[j]) ==> Ancestor(parent, order[j], order[i])
  }

  lemma FinishRetreats(g: Graph, done: seq<nat>, parent: map<nat, nat>)
    requires Distinct(done) && forall i: nat :: i < |done| ==> EarlierOrAbove(g, done, parent, i)
    ensures RetreatsUp(g, Reversed(done), parent)
  {
    var order, n := Reversed(done), |done|;
    hide Ancestor;
    forall i: nat, j: nat | j <= i < |order| && g.Edge(order[i], order[j])
      ensures Ancestor(parent, order[j], order[i])
    {
      var a, b := n - 1 - i, n - 1 - j;
      assert EarlierOrAbove(g, done, parent, a) && order[i] == done[a] && order[j] == done[b];
      assert done[b] !in done[..a];
    }
  }

  /** An order listing each reachable block once, in which some predecessor, its `parent`, precedes every block but
      the entry. */
  method ReversePostorder(g: Graph) returns (order: seq<nat>, ghost parent: map<nat, nat>)
    requires g.Valid()
    ensures Enumerates(g, order)
    ensures ParentsFirst(g, order, parent) && RetreatsUp(g, order, parent)
  {
    hide Line, StackEndsLine, Scanned, Growing, RetreatsUp;
    var visited := seq(g.Size(), _ => false)[g.entry := true];
    var done: seq<nat> := [];
    var stack := [Frame(g.entry, 0)];
    parent := map[];
    ghost var line := [g.entry];
    StartsSearching(g, visited);
    assert Growing(g, visited, done, stack, parent) by {
      NothingGrown(g, visited);
    }
    StackInRange(g, visited, done, stack, line, parent);

    while |stack| > 0
      invariant Searching(g, visited, done, stack, line, parent) && Growing(g, visited, done, stack, parent)
      invariant forall i :: 0 <= i < |stack| ==>
                  stack[i].block < |g.succs| && stack[i].next <= |g.succs[stack[i].block]|
      decreases Unvisited(visited), Pending(g, stack)
    {
      StackInRange(g, visited, done, stack, line, parent);
      var top := |stack| - 1;
      var Frame(block, next) := stack[top];
      assert stack[top := Frame(block, next + 1)][..top] == stack[..top];
      if next < |g.succs[block]| {
        var successor := g.succs[block][next];
        if !visited[successor] {
          VisitOne(visited, successor);
          ghost var k := |line| - |stack|;
          PushStep(g, visited, done, stack, line, parent, k);
          SkipGrows(g, visited, done, stack, parent, top, Frame(block, next + 1));
          PushGrows(g, visited, done, stack[top := Frame(block, next + 1)], parent, successor);
          line, parent := line[..k] + [successor] + line[k..], parent[successor := block];
          visited := visited[successor := true];
          stack := stack[top := Frame(block, next + 1)] + [Frame(successor, 0)];
        } else {
          SkipStep(g, visited, done, stack, line, parent);
          SkipGrows(g, visited, done, stack, parent, top, Frame(block, next + 1));
          stack := stack[top := Frame(block, next + 1)];
        }
      } else {
        PopStep(g, visited, done, stack, line, parent);
        PopGrows(g, visited, done, stack, line, parent);
        done := done + [block];
        stack := stack[..top];
      }
      StackInRange(g, visited, done, stack, line, parent);
    }

    order := Reversed(done);
    assert line[..|line|] == line;
    Finish(g, visited, done, parent);
    GrownRetreats(g, visited, done, line, parent);
  }

  lemma NothingGrown(g: Graph, visited: seq<bool>)
    ensures Growing(g, visited, [], [Frame(g.entry, 0)], map[])
  {
  }

  lemma GrownRetreats(g: Graph, visited: seq<bool>, done: seq<nat>, line: seq<nat>, parent: map<nat, nat>)
    requires Searching(g, visited, done, [], line, parent) && Growing(g, visited, done, [], parent)
    ensures RetreatsUp(g, Reversed(done), parent)
  {
    assert line[..|line|] == line;
    hide EarlierOrAbove, RetreatsUp, LineIsVisited, ParentFollows;
    FinishRetreats(g, done, parent);
  }
}
