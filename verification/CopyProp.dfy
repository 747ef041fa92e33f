/** Copies and phis of a single value taken out, their readers reading the end of the chain instead. */
module CopyProp {
  import opened Graphs
  import opened IdomTree
  import opened Ssa
  import opened Rewrites
  import opened SsaValid
  import opened Functions
  import opened Erasure

  // ---- which values are copies ----

  /** Every argument is `o` or the phi's own result, and at least one is `o`. */
  ghost predicate StandsFor(phi: Phi, o: Operand) {
    && o != Value(phi.dest)
    && o in phi.args
    && forall i: nat :: i < |phi.args| ==> phi.args[i] == o || phi.args[i] == Value(phi.dest)
  }

  /** Finds `o` exactly when the phi takes it, and nothing but it and itself, as arguments. */
  method PhiSource(phi: Phi) returns (source: Option<Operand>)
    ensures source.Some? ==> StandsFor(phi, source.value)
    ensures source.None? ==> forall o :: !StandsFor(phi, o)
  {
    source := None;
    for i := 0 to |phi.args|
      invariant source.None? ==> forall j :: 0 <= j < i ==> phi.args[j] == Value(phi.dest)
      invariant source.Some? ==>
                  && source.value != Value(phi.dest) && source.value in phi.args[..i]
                  && forall j :: 0 <= j < i ==> phi.args[j] == source.value || phi.args[j] == Value(phi.dest)
    {
      assert phi.args[..i + 1] == phi.args[..i] + [phi.args[i]];
      if phi.args[i] != Value(phi.dest) {
        if source.None? {
          source := Some(phi.args[i]);
        } else if source.value != phi.args[i] {
          assert phi.args[i] in phi.args && source.value in phi.args;
          return None;
        }
      }
    }
    assert phi.args[..|phi.args|] == phi.args;
  }

  /** The definition of `v` at `p` copies `o`: an explicit copy, or a phi standing for it. */
  ghost predicate CopiesAt(f: Func, p: Point, v: ValueId, o: Operand) {
    p.block < f.Size() &&
    if p.row == 0 then
      exists k: nat :: k < |f.blocks[p.block].phis| && f.blocks[p.block].phis[k].dest == v
                       && StandsFor(f.blocks[p.block].phis[k], o)
    else
      p.row - 1 < |f.blocks[p.block].insts| && f.blocks[p.block].insts[p.row - 1] == Inst(Some(v), Copy(o))
  }

  ghost predicate IsCopy(f: Func, v: ValueId, o: Operand) {
    exists p: Point :: CopiesAt(f, p, v, o)
  }

  type Copies = map<ValueId, Operand>

  /** `direct` maps exactly the copies to what they copy. */
  ghost predicate AreDirect(f: Func, direct: Copies) {
    && (forall v: ValueId :: v in direct ==> IsCopy(f, v, direct[v]))
    && (forall v: ValueId, o: Operand :: IsCopy(f, v, o) ==> v in direct)
  }

  /** Points of the blocks before `b`, and of block `b` up to `row`. */
  ghost predicate Scanned(p: Point, b: BlockId, row: nat) {
    p.block < b || (p.block == b && p.row < row)
  }

  ghost predicate DirectUpTo(f: Func, direct: Copies, b: BlockId, row: nat) {
    && (forall v: ValueId :: v in direct ==> IsCopy(f, v, direct[v]))
    && (forall v: ValueId, o: Operand, p: Point :: CopiesAt(f, p, v, o) && Scanned(p, b, row) ==> v in direct)
  }

  method DirectCopies(fn: Function) returns (direct: Copies)
    requires SingleDefs(fn.View())
    ensures AreDirect(fn.View(), direct)
  {
    ghost var f := fn.View();
    direct := map[];
    for b := 0 to |fn.blocks|
      invariant DirectUpTo(f, direct, b, 0)
    {
      direct := PhiCopies(f, fn.blocks[b].phis, b, direct);
      direct := InstCopies(f, fn.blocks[b].insts, b, direct);
      assert DirectUpTo(f, direct, b + 1, 0) by {
        forall v: ValueId, o: Operand, p: Point | CopiesAt(f, p, v, o) && Scanned(p, b + 1, 0)
          ensures v in direct
        {
          assert Scanned(p, b, |f.blocks[b].insts| + 1);
        }
      }
    }
    forall v: ValueId, o: Operand | IsCopy(f, v, o)
      ensures v in direct
    {
      var p: Point :| CopiesAt(f, p, v, o);
      assert Scanned(p, f.Size(), 0);
    }
  }

  method PhiCopies(ghost f: Func, phis: seq<Phi>, ghost b: BlockId, direct0: Copies) returns (direct: Copies)
    requires SingleDefs(f) && b < f.Size() && phis == f.blocks[b].phis && DirectUpTo(f, direct0, b, 0)
    ensures DirectUpTo(f, direct, b, 1)
  {
    direct := direct0;
    for k := 0 to |phis|
      invariant DirectUpTo(f, direct, b, 0)
      invariant forall j: nat, o: Operand :: j < k && StandsFor(phis[j], o) ==> phis[j].dest in direct
    {
      var source := PhiSource(phis[k]);
      if source.Some? {
        assert CopiesAt(f, Point(b, 0), phis[k].dest, source.value);
        direct := direct[phis[k].dest := source.value];
      }
    }
  }

  method InstCopies(ghost f: Func, insts: seq<Inst>, ghost b: BlockId, direct0: Copies) returns (direct: Copies)
    requires SingleDefs(f) && b < f.Size() && insts == f.blocks[b].insts && DirectUpTo(f, direct0, b, 1)
    ensures DirectUpTo(f, direct, b, |insts| + 1)
  {
    direct := direct0;
    for i := 0 to |insts|
      invariant DirectUpTo(f, direct, b, i + 1)
    {
      hide SingleDefs, DirectUpTo;
      InstRowScanned(f, direct, b, i);
      if insts[i].op.Copy? && insts[i].dest.Some? {
        direct := direct[insts[i].dest.value := insts[i].op.source];
      }
    }
  }

  lemma InstRowScanned(f: Func, direct: Copies, b: BlockId, i: nat)
    requires SingleDefs(f) && b < f.Size() && i < |f.blocks[b].insts| && DirectUpTo(f, direct, b, i + 1)
    ensures var inst := f.blocks[b].insts[i];
            var direct' := if inst.op.Copy? && inst.dest.Some? then direct[inst.dest.value := inst.op.source]
                           else direct;
            DirectUpTo(f, direct', b, i + 2)
  {
    var inst := f.blocks[b].insts[i];
    var direct' := if inst.op.Copy? && inst.dest.Some? then direct[inst.dest.value := inst.op.source] else direct;
    if inst.op.Copy? && inst.dest.Some? {
      assert CopiesAt(f, Point(b, i + 1), inst.dest.value, inst.op.source);
    }
    forall v: ValueId, o: Operand, p: Point | CopiesAt(f, p, v, o) && Scanned(p, b, i + 2)
      ensures v in direct'
    {
      assert Scanned(p, b, i + 1) || p == Point(b, i + 1);
    }
  }

  // ---- following a chain of copies ----

  /** What `v` reads after `k` links. */
  ghost function Follow(direct: Copies, v: ValueId, k: nat): Operand
    decreases k
  {
    if k == 0 then Value(v)
    else
      var o := Follow(direct, v, k - 1);
      if o.Value? && o.id in direct then direct[o.id] else o
  }

  ghost predicate IsChainEnd(direct: Copies, o: Operand) {
    !(o.Value? && o.id in direct)
  }

  /** The chain from `v` ends at `o`. */
  ghost predicate EndOf(direct: Copies, v: ValueId, o: Operand) {
    v in direct && IsChainEnd(direct, o) && exists k: nat :: Follow(direct, v, k) == o
  }

  lemma {:induction false} CycleNeverEnds(direct: Copies, start: ValueId, seen: set<ValueId>, k: nat)
    requires start in seen
    requires forall v :: v in seen ==> v in direct && direct[v].Value? && direct[v].id in seen
    ensures Follow(direct, start, k).Value? && Follow(direct, start, k).id in seen
    decreases k
  {
    if k > 0 {
      CycleNeverEnds(direct, start, seen, k - 1);
    }
  }

  /** Follow a chain of copies to its end; nothing when it closes on itself. */
  method Resolve(start: ValueId, direct: Copies) returns (r: Option<Operand>)
    ensures r.Some? ==> EndOf(direct, start, r.value)
    ensures r.None? ==> forall o: Operand :: !EndOf(direct, start, o)
  {
    if start !in direct {
      return None;
    }
    var seen := {start};
    var current := direct[start];
    ghost var k := 1;
    assert Follow(direct, start, 0) == Value(start);
    while current.Value?
      invariant Follow(direct, start, k) == current
      invariant start in seen && seen <= direct.Keys
      invariant forall v :: v in seen ==> direct[v].Value? ==> direct[v].id in seen || direct[v] == current
      invariant forall v :: v in seen ==> direct[v].Value? || direct[v] == current
      decreases direct.Keys - seen, 1
    {
      var value := current.id;
      if value in seen {
        forall o: Operand | EndOf(direct, start, o)
          ensures false
        {
          var i: nat :| Follow(direct, start, i) == o;
          CycleNeverEnds(direct, start, seen, i);
        }
        return None;
      }
      if value !in direct {
        break;
      }
      seen := seen + {value};
      current := direct[value];
      k := k + 1;
    }
    r := Some(current);
  }

  /** `resolved` maps exactly the copies whose chain ends to its end. */
  ghost predicate AreResolved(direct: Copies, resolved: Copies) {
    && (forall v: ValueId :: v in resolved ==> EndOf(direct, v, resolved[v]))
    && (forall v: ValueId, o: Operand :: EndOf(direct, v, o) ==> v in resolved)
  }

  method ResolveAll(direct: Copies) returns (resolved: Copies)
    ensures AreResolved(direct, resolved)
  {
    resolved := map[];
    var left := direct.Keys;
    while left != {}
      invariant left <= direct.Keys
      invariant forall v: ValueId :: v in resolved ==> EndOf(direct, v, resolved[v])
      invariant forall v: ValueId, o: Operand :: EndOf(direct, v, o) && v !in left ==> v in resolved
      decreases left
    {
      var v :| v in left;
      left := left - {v};
      var end := Resolve(v, direct);
      if end.Some? {
        resolved := resolved[v := end.value];
      }
    }
  }

  // ---- what a copy copies is defined before it ----

  /** The first time a path reaches `b`. */
  lemma {:induction false} FirstArrival(g: Graph, p: seq<nat>, b: BlockId) returns (t: nat)
    requires g.PathTo(p, b) && b != g.entry
    ensures 0 < t < |p| && p[t] == b && b !in p[..t]
    ensures g.Edge(p[t - 1], b) && g.PathTo(p[..t], p[t - 1])
    decreases |p|
  {
    if b in p[..|p| - 1] {
      var k :| 0 <= k < |p| - 1 && p[k] == b;
      PathPrefix(g, p, b, k);
      t := FirstArrival(g, p[..k + 1], b);
      assert p[..k + 1][..t] == p[..t];
    } else {
      t := |p| - 1;
      assert g.Edge(p[t - 1], p[t - 1 + 1]);
      PathPrefix(g, p, b, t - 1);
    }
  }

  /** A value a phi stands for is defined in a block that strictly dominates the phi's. */
  lemma PhiSourceDominates(f: Func, b: BlockId, k: nat, y: ValueId, path: seq<nat>)
    requires ValidSsa(f) && b < f.Size() && k < |f.blocks[b].phis|
    requires StandsFor(f.blocks[b].phis[k], Value(y))
    requires f.Adjacency().PathTo(path, b)
    ensures DefinedAt(f, y, SiteOf(f, y)) && SiteOf(f, y).block in path && SiteOf(f, y).block != b
  {
    var g := f.Adjacency();
    var phi := f.blocks[b].phis[k];
    assert b != f.entry;
    var t := FirstArrival(g, path, b);
    var a := path[t - 1];
    assert a in g.preds[b];
    var j: nat :| j < |f.blocks[b].preds| && f.blocks[b].preds[j] == a;
    assert BlockUsesOk(f, b);
    assert OperandOk(f, phi.args[j], End(f, a));
    ScopeIsAvailability(f, phi.args[j].id, End(f, a));
    if phi.args[j] == Value(y) {
      assert SiteOf(f, y).block in path[..t];
    } else {
      assert Writes(f.blocks[b].phis, phi.dest);
      SiteIs(f, phi.dest, Point(b, 0));
    }
  }

  /** The source of a copy comes before the copy. */
  lemma SourceComesBefore(f: Func, p: Point, v: ValueId, y: ValueId)
    requires ValidSsa(f) && CopiesAt(f, p, v, Value(y))
    ensures DefinedAt(f, v, p) && InScope(f, y, p)
    ensures p.row == 0 ==> SiteOf(f, y).block != p.block
  {
    var g := f.Adjacency();
    assert BlockUsesOk(f, p.block);
    if p.row == 0 {
      var k: nat :| k < |f.blocks[p.block].phis| && f.blocks[p.block].phis[k].dest == v
                    && StandsFor(f.blocks[p.block].phis[k], Value(y));
      assert g.Reachable(p.block);
      var path :| g.PathTo(path, p.block);
      PhiSourceDominates(f, p.block, k, y, path);
      forall q | g.PathTo(q, p.block)
        ensures SiteOf(f, y).block in q
      {
        PhiSourceDominates(f, p.block, k, y, q);
      }
    } else {
      var inst := f.blocks[p.block].insts[p.row - 1];
      assert AllOk(f, inst.op.Operands(), Point(p.block, p.row - 1 + 1));
      assert OperandOk(f, inst.op.Operands()[0], p);
      ScopeIsAvailability(f, y, p);
    }
  }

  // ---- in every run, a copy in scope equals its source ----

  ghost predicate CopiesHold(f: Func, direct: Copies, p: Point, st: State) {
    forall v: ValueId :: v in direct && InScope(f, v, p) ==> st.Read(Value(v)) == st.Read(direct[v])
  }

  lemma InstKeepsCopies(m: Machine, private: set<SlotId>, f: Func, direct: Copies, b: BlockId, i: nat, st: State)
    requires ValidSsa(f) && AreDirect(f, direct) && b < f.Size() && i < |f.blocks[b].insts|
    requires CopiesHold(f, direct, Point(b, i + 1), st)
    ensures CopiesHold(f, direct, Point(b, i + 2), Exec(m, private, f.blocks[b].insts[i], st))
  {
    var inst := f.blocks[b].insts[i];
    var st' := Exec(m, private, inst, st);
    var here := Point(b, i + 1);
    forall v: ValueId | v in direct && InScope(f, v, Point(b, i + 2))
      ensures st'.Read(Value(v)) == st'.Read(direct[v])
    {
      CopyAfterInst(m, private, f, direct, b, i, st, v);
    }
  }

  /** An instruction leaves alone what is defined before it. */
  lemma ExecSpares(m: Machine, private: set<SlotId>, f: Func, b: BlockId, i: nat, st: State, o: Operand)
    requires SingleDefs(f) && b < f.Size() && i < |f.blocks[b].insts|
    requires o.Value? ==> DefinedAt(f, o.id, SiteOf(f, o.id)) && SiteOf(f, o.id) != Point(b, i + 1)
    ensures Exec(m, private, f.blocks[b].insts[i], st).Read(o) == st.Read(o)
  {
    if o.Value? && f.blocks[b].insts[i].dest == Some(o.id) {
      SiteIs(f, o.id, Point(b, i + 1));
    }
  }

  lemma SourceSite(f: Func, direct: Copies, v: ValueId) returns (p: Point)
    requires ValidSsa(f) && AreDirect(f, direct) && v in direct
    ensures CopiesAt(f, p, v, direct[v]) && DefinedAt(f, v, p) && p == SiteOf(f, v)
    ensures f.Adjacency().Reachable(p.block)
    ensures direct[v].Value? ==> InScope(f, direct[v].id, p) && SiteOf(f, direct[v].id) != p
    ensures direct[v].Value? ==> !Before(f.Adjacency(), p, SiteOf(f, direct[v].id))
  {
    assert IsCopy(f, v, direct[v]);
    p :| CopiesAt(f, p, v, direct[v]);
    if direct[v].Value? {
      SourceComesBefore(f, p, v, direct[v].id);
      BeforeAntisymmetric(f.Adjacency(), SiteOf(f, direct[v].id), p);
    }
    SiteIs(f, v, p);
  }

  lemma CopyAfterInst(m: Machine, private: set<SlotId>, f: Func, direct: Copies, b: BlockId, i: nat, st: State,
                      v: ValueId)
    requires ValidSsa(f) && AreDirect(f, direct) && b < f.Size() && i < |f.blocks[b].insts|
    requires CopiesHold(f, direct, Point(b, i + 1), st)
    requires v in direct && InScope(f, v, Point(b, i + 2))
    ensures var st' := Exec(m, private, f.blocks[b].insts[i], st); st'.Read(Value(v)) == st'.Read(direct[v])
  {
    var here := Point(b, i + 1);
    var p := SourceSite(f, direct, v);
    hide WellShaped, UsesOk, IsCopy, AreDirect;
    ExecSpares(m, private, f, b, i, st, direct[v]);
    if p != here {
      ExecSpares(m, private, f, b, i, st, Value(v));
      assert InScope(f, v, here);
    }
  }

  lemma EdgeKeepsCopies(f: Func, direct: Copies, b: BlockId, c: BlockId, st: State)
    requires ValidSsa(f) && AreDirect(f, direct) && b < f.Size() && c < f.Size()
    requires f.Adjacency().Edge(b, c)
    requires CopiesHold(f, direct, End(f, b), st)
    ensures CopiesHold(f, direct, Point(c, 1), Cross(f.blocks[c], b, st))
  {
    assert b in f.Adjacency().preds[c];
    forall v: ValueId | v in direct && InScope(f, v, Point(c, 1))
      ensures Cross(f.blocks[c], b, st).Read(Value(v)) == Cross(f.blocks[c], b, st).Read(direct[v])
    {
      if SiteOf(f, v).block == c {
        CopyPhiAfterEdge(f, direct, b, c, st, v);
      } else {
        CopyAfterEdge(f, direct, b, c, st, v);
      }
    }
  }

  /** What the phis of `c` do not define they leave alone. */
  lemma CrossSpares(f: Func, b: BlockId, c: BlockId, st: State, o: Operand)
    requires SingleDefs(f) && c < f.Size()
    requires o.Value? ==> DefinedAt(f, o.id, SiteOf(f, o.id)) && SiteOf(f, o.id) != Point(c, 0)
    ensures Cross(f.blocks[c], b, st).Read(o) == st.Read(o)
  {
    if o.Value? {
      if Writes(f.blocks[c].phis, o.id) {
        SiteIs(f, o.id, Point(c, 0));
      }
      AssignSpares(f.blocks[c].phis, f.blocks[c].preds, b, st, st.vals, o.id);
    }
  }

  lemma CopyPhiAfterEdge(f: Func, direct: Copies, b: BlockId, c: BlockId, st: State, v: ValueId)
    requires ValidSsa(f) && AreDirect(f, direct) && b < f.Size() && c < f.Size()
    requires f.Adjacency().Edge(b, c) && b in f.blocks[c].preds
    requires CopiesHold(f, direct, End(f, b), st)
    requires v in direct && InScope(f, v, Point(c, 1)) && SiteOf(f, v).block == c
    ensures Cross(f.blocks[c], b, st).Read(Value(v)) == Cross(f.blocks[c], b, st).Read(direct[v])
  {
    var block := f.blocks[c];
    var p := SourceSite(f, direct, v);
    var k: nat :| k < |block.phis| && block.phis[k].dest == v && StandsFor(block.phis[k], direct[v]);
    CrossSpares(f, b, c, st, direct[v]);
    AssignWrites(block.phis, block.preds, b, st, st.vals, k);
    var j := Position(block.preds, b);
    var arg := block.phis[k].args[j];
    assert arg == Arrival(block.phis[k], block.preds, b);
    if arg == Value(v) {
      assert BlockUsesOk(f, c);
      assert OperandOk(f, block.phis[k].args[j], End(f, block.preds[j]));
      ScopeIsAvailability(f, v, End(f, b));
    }
  }

  lemma CopyAfterEdge(f: Func, direct: Copies, b: BlockId, c: BlockId, st: State, v: ValueId)
    requires ValidSsa(f) && AreDirect(f, direct) && b < f.Size() && c < f.Size()
    requires f.Adjacency().Edge(b, c)
    requires CopiesHold(f, direct, End(f, b), st)
    requires v in direct && InScope(f, v, Point(c, 1)) && SiteOf(f, v).block != c
    ensures Cross(f.blocks[c], b, st).Read(Value(v)) == Cross(f.blocks[c], b, st).Read(direct[v])
  {
    var g := f.Adjacency();
    var p := SourceSite(f, direct, v);
    BeforeEdge(f, p, b, c, v);
    CrossSpares(f, b, c, st, Value(v));
    if direct[v].Value? && SiteOf(f, direct[v].id) == Point(c, 0) {
      assert Before(g, p, Point(c, 0));
    }
    CrossSpares(f, b, c, st, direct[v]);
  }

  lemma {:induction false} BodyKeepsCopies(m: Machine, private: set<SlotId>, f: Func, direct: Copies, b: BlockId,
                                           st: State, j: nat)
    requires ValidSsa(f) && AreDirect(f, direct) && b < f.Size() && j <= |f.blocks[b].insts|
    requires CopiesHold(f, direct, Point(b, 1), st)
    ensures CopiesHold(f, direct, Point(b, j + 1), ExecAll(m, private, f.blocks[b].insts[..j], st))
    decreases j
  {
    hide WellShaped, UsesOk, SingleDefs, AreDirect, CopiesHold;
    if j == 0 {
      assert f.blocks[b].insts[..0] == [];
    } else {
      BodyKeepsCopies(m, private, f, direct, b, st, j - 1);
      ExecAllStep(m, private, f.blocks[b].insts, j - 1, st);
      InstKeepsCopies(m, private, f, direct, b, j - 1, ExecAll(m, private, f.blocks[b].insts[..j - 1], st));
    }
  }

  lemma NothingBeforeEntry(f: Func, direct: Copies, v: ValueId)
    requires ValidSsa(f) && AreDirect(f, direct) && v in direct
    ensures !InScope(f, v, Point(f.entry, 1))
  {
    var g := f.Adjacency();
    if InScope(f, v, Point(f.entry, 1)) {
      assert g.PathTo([f.entry], f.entry);
      assert IsCopy(f, v, direct[v]);
      var p: Point :| CopiesAt(f, p, v, direct[v]);
      assert DefinedAt(f, v, p);
      SiteIs(f, v, p);
    }
  }

  /** In every run, at every block reached, every copy in scope equals what it copies. */
  lemma {:induction false} RunKeepsCopies(m: Machine, private: set<SlotId>, f: Func, direct: Copies, n: nat)
    requires ValidSsa(f) && AreDirect(f, direct)
    ensures var s := Run(m, private, f, n);
            !s.Stuck? && (s.At? ==> s.block < f.Size() && CopiesHold(f, direct, Point(s.block, 1), s.st))
    decreases n
  {
    if n == 0 {
      forall v: ValueId | v in direct ensures !InScope(f, v, Point(f.entry, 1)) {
        NothingBeforeEntry(f, direct, v);
      }
    } else {
      RunKeepsCopies(m, private, f, direct, n - 1);
      var s := Run(m, private, f, n - 1);
      if s.At? {
        var last := LastState(m, private, f, direct, s.block, s.st);
        if !f.blocks[s.block].term.Return? {
          TargetIsEdge(f, s.block, last);
          EdgeKeepsCopies(f, direct, s.block, Target(f.blocks[s.block].term, last), last);
        }
      }
    }
  }

  lemma LastState(m: Machine, private: set<SlotId>, f: Func, direct: Copies, b: BlockId, st: State)
    returns (last: State)
    requires ValidSsa(f) && AreDirect(f, direct) && b < f.Size()
    requires CopiesHold(f, direct, Point(b, 1), st)
    ensures last == ExecAll(m, private, f.blocks[b].insts, st) && CopiesHold(f, direct, End(f, b), last)
  {
    var insts := f.blocks[b].insts;
    BodyKeepsCopies(m, private, f, direct, b, st, |insts|);
    assert insts[..|insts|] == insts;
    last := ExecAll(m, private, insts, st);
  }

  // ---- so reading the end of the chain instead reads the same ----

  /** Every link of the chain from a copy in scope is in scope and equal to it. */
  lemma {:induction false} ChainHolds(f: Func, direct: Copies, p: Point, st: State, v: ValueId, k: nat)
    requires ValidSsa(f) && AreDirect(f, direct) && CopiesHold(f, direct, p, st)
    requires InScope(f, v, p) && f.Adjacency().Reachable(p.block)
    ensures var o := Follow(direct, v, k);
            st.Read(o) == st.Read(Value(v)) && (o.Value? ==> InScope(f, o.id, p))
    decreases k
  {
    if k > 0 {
      ChainHolds(f, direct, p, st, v, k - 1);
      var o := Follow(direct, v, k - 1);
      if o.Value? && o.id in direct {
        var q := SourceSite(f, direct, o.id);
        if direct[o.id].Value? {
          BeforeTransitive(f.Adjacency(), SiteOf(f, direct[o.id].id), q, p);
        }
      }
    }
  }

  lemma SubstituteReadsSame(f: Func, direct: Copies, resolved: Copies, p: Point, st: State, o: Operand)
    requires ValidSsa(f) && AreDirect(f, direct) && AreResolved(direct, resolved) && CopiesHold(f, direct, p, st)
    requires OperandOk(f, o, p) && f.Adjacency().Reachable(p.block)
    ensures st.Read(SubOperand(resolved, o)) == st.Read(o)
    ensures SubOperand(resolved, o).Value? ==> InScope(f, SubOperand(resolved, o).id, p)
  {
    if o.Value? {
      ScopeIsAvailability(f, o.id, p);
      if o.id in resolved {
        assert EndOf(direct, o.id, resolved[o.id]);
        var k: nat :| Follow(direct, o.id, k) == resolved[o.id];
        ChainHolds(f, direct, p, st, o.id, k);
      }
    }
  }

  lemma SubstituteReadsAlike(f: Func, direct: Copies, resolved: Copies, p: Point, st: State, os: seq<Operand>)
    requires ValidSsa(f) && AreDirect(f, direct) && AreResolved(direct, resolved) && CopiesHold(f, direct, p, st)
    requires AllOk(f, os, p) && f.Adjacency().Reachable(p.block)
    ensures ReadAlike(os, SubAll(resolved, os), st)
  {
    forall i: nat | i < |os| ensures st.Read(SubAll(resolved, os)[i]) == st.Read(os[i]) {
      assert OperandOk(f, os[i], p);
      SubstituteReadsSame(f, direct, resolved, p, st, os[i]);
    }
  }

  function Substituted(f: Func, resolved: Copies): Func {
    f.(blocks := SubBlocks(resolved, f.blocks))
  }

  lemma SubTermLike(sub: Copies, term: Terminator, st: State)
    requires ReadAlike(term.Operands(), SubAll(sub, term.Operands()), st)
    ensures TermLike(term, SubTerm(sub, term), st)
  {
    assert SubTerm(sub, term).Operands() == SubAll(sub, term.Operands());
  }

  lemma SubPhisLike(f: Func, direct: Copies, resolved: Copies, b: BlockId, c: BlockId, st: State)
    requires ValidSsa(f) && AreDirect(f, direct) && AreResolved(direct, resolved)
    requires b < f.Size() && c < f.Size() && b in f.blocks[c].preds && CopiesHold(f, direct, End(f, b), st)
    ensures PhisLike(f.blocks[c].phis, SubBlock(resolved, f.blocks[c]).phis, f.blocks[c].preds, b, st)
  {
    var block := f.blocks[c];
    var j := Position(block.preds, b);
    forall k: nat | k < |block.phis|
      ensures st.Read(Arrival(SubPhi(resolved, block.phis[k]), block.preds, b)) ==
                st.Read(Arrival(block.phis[k], block.preds, b))
    {
      assert BlockUsesOk(f, c);
      assert OperandOk(f, block.phis[k].args[j], End(f, block.preds[j]));
      SubstituteReadsSame(f, direct, resolved, End(f, b), st, block.phis[k].args[j]);
    }
  }

  lemma SubInstLike(m: Machine, private: set<SlotId>, f: Func, direct: Copies, resolved: Copies, b: BlockId, st: State,
                    j: nat)
    requires ValidSsa(f) && AreDirect(f, direct) && AreResolved(direct, resolved)
    requires b < f.Size() && j < |f.blocks[b].insts| && CopiesHold(f, direct, Point(b, 1), st)
    ensures InstLike(f.blocks[b].insts[j], SubInst(resolved, f.blocks[b].insts[j]),
                     ExecAll(m, private, f.blocks[b].insts[..j], st))
  {
    var inst := f.blocks[b].insts[j];
    var at := ExecAll(m, private, f.blocks[b].insts[..j], st);
    BodyKeepsCopies(m, private, f, direct, b, st, j);
    assert BlockUsesOk(f, b);
    SubstituteReadsAlike(f, direct, resolved, Point(b, j + 1), at, inst.op.Operands());
    OnReads(inst.op, SubAll(resolved, inst.op.Operands()));
  }

  lemma SubBlockLike(m: Machine, private: set<SlotId>, f: Func, direct: Copies, resolved: Copies, b: BlockId, st: State)
    requires ValidSsa(f) && AreDirect(f, direct) && AreResolved(direct, resolved)
    requires b < f.Size() && CopiesHold(f, direct, Point(b, 1), st)
    ensures BlockLike(m, private, f, Substituted(f, resolved), b, st)
  {
    var block := f.blocks[b];
    forall j: nat | j < |block.insts|
      ensures InstLike(block.insts[j], SubInst(resolved, block.insts[j]), ExecAll(m, private, block.insts[..j], st))
    {
      SubInstLike(m, private, f, direct, resolved, b, st, j);
    }
    var last := LastState(m, private, f, direct, b, st);
    assert BlockUsesOk(f, b);
    SubstituteReadsAlike(f, direct, resolved, End(f, b), last, block.term.Operands());
    SubTermLike(resolved, block.term, last);
    forall c: nat | c < f.Size() && c in block.term.Successors()
      ensures PhisLike(f.blocks[c].phis, SubBlock(resolved, f.blocks[c]).phis, f.blocks[c].preds, b, last)
    {
      assert c in f.Adjacency().succs[b];
      assert b in f.Adjacency().preds[c];
      SubPhisLike(f, direct, resolved, b, c, last);
    }
    hide WellShaped, SingleDefs, UsesOk, AreDirect, AreResolved, CopiesHold, InstLike, PhisLike, TermLike;
  }

  lemma SubstituteNext(m: Machine, private: set<SlotId>, f: Func, direct: Copies, resolved: Copies, s: Status)
    requires ValidSsa(f) && AreDirect(f, direct) && AreResolved(direct, resolved)
    requires s.At? ==> s.block < f.Size() && CopiesHold(f, direct, Point(s.block, 1), s.st)
    ensures Next(m, private, Substituted(f, resolved), s) == Next(m, private, f, s)
  {
    if s.At? {
      SubBlockLike(m, private, f, direct, resolved, s.block, s.st);
      LikeNext(m, private, f, Substituted(f, resolved), s.block, s.st);
    }
  }

  lemma SubstitutedEntry(f: Func, resolved: Copies)
    ensures Substituted(f, resolved).entry == f.entry
  {
  }

  /** Substituting the ends of the chains changes no run at all. */
  lemma {:induction false} SubstituteKeepsRuns(m: Machine, private: set<SlotId>, f: Func, direct: Copies,
                                               resolved: Copies, n: nat)
    requires ValidSsa(f) && AreDirect(f, direct) && AreResolved(direct, resolved)
    ensures Run(m, private, Substituted(f, resolved), n) == Run(m, private, f, n)
    decreases n
  {
    hide *;
    var f' := Substituted(f, resolved);
    SubstitutedEntry(f, resolved);
    if n == 0 {
      RunStart(m, private, f);
      RunStart(m, private, f');
    } else {
      RunStep(m, private, f, n);
      RunStep(m, private, f', n);
      SubstituteKeepsRuns(m, private, f, direct, resolved, n - 1);
      RunKeepsCopies(m, private, f, direct, n - 1);
      SubstituteNext(m, private, f, direct, resolved, Run(m, private, f, n - 1));
    }
  }

  // ---- dropping the copies ----

  /** The function after the pass: the chains' ends read instead, and the resolved copies gone. */
  function Propagated(f: Func, resolved: Copies): seq<Block> {
    EraseBlocks(Dead(resolved.Keys, {}), SubBlocks(resolved, f.blocks))
  }

  lemma SubstitutedUnread(direct: Copies, resolved: Copies, os: seq<Operand>)
    requires AreResolved(direct, resolved)
    ensures Unread(Dead(resolved.Keys, {}), SubAll(resolved, os))
  {
    forall i: nat | i < |os|
      ensures !(SubAll(resolved, os)[i].Value? && SubAll(resolved, os)[i].id in resolved)
    {
      if os[i].Value? && os[i].id in resolved {
        assert EndOf(direct, os[i].id, resolved[os[i].id]);
        if resolved[os[i].id].Value? && resolved[os[i].id].id in resolved {
          assert EndOf(direct, resolved[os[i].id].id, resolved[resolved[os[i].id].id]);
        }
      }
    }
  }

  /** The instruction defining a resolved value is a copy. */
  lemma ResolvedIsCopy(f: Func, direct: Copies, resolved: Copies, b: BlockId, i: nat)
    requires ValidSsa(f) && AreDirect(f, direct) && AreResolved(direct, resolved)
    requires b < f.Size() && i < |f.blocks[b].insts|
    requires f.blocks[b].insts[i].dest.Some? && f.blocks[b].insts[i].dest.value in resolved
    ensures f.blocks[b].insts[i].op.Copy?
  {
    var v := f.blocks[b].insts[i].dest.value;
    assert EndOf(direct, v, resolved[v]);
    var p := SourceSite(f, direct, v);
    SiteIs(f, v, Point(b, i + 1));
  }

  lemma PropagatedInstErasable(private: set<SlotId>, f: Func, direct: Copies, resolved: Copies, b: BlockId, i: nat)
    requires ValidSsa(f) && AreDirect(f, direct) && AreResolved(direct, resolved)
    requires b < f.Size() && i < |f.blocks[b].insts|
    ensures InstErasable(private, Dead(resolved.Keys, {}), SubInst(resolved, f.blocks[b].insts[i]))
  {
    var inst := f.blocks[b].insts[i];
    OnReads(inst.op, SubAll(resolved, inst.op.Operands()));
    SubstitutedUnread(direct, resolved, inst.op.Operands());
    if inst.dest.Some? && inst.dest.value in resolved {
      ResolvedIsCopy(f, direct, resolved, b, i);
    }
  }

  lemma PropagatedErasable(private: set<SlotId>, f: Func, direct: Copies, resolved: Copies)
    requires ValidSsa(f) && AreDirect(f, direct) && AreResolved(direct, resolved)
    ensures Erasable(private, Dead(resolved.Keys, {}), Substituted(f, resolved))
  {
    hide ValidSsa, AreDirect, AreResolved, InstErasable;
    var dead := Dead(resolved.Keys, {});
    forall b: nat | b < f.Size()
      ensures BlockErasable(private, dead, SubBlock(resolved, f.blocks[b]))
    {
      var block := f.blocks[b];
      forall i: nat | i < |block.insts|
        ensures InstErasable(private, dead, SubInst(resolved, block.insts[i]))
      {
        PropagatedInstErasable(private, f, direct, resolved, b, i);
      }
      forall k: nat | k < |block.phis|
        ensures PhiErasable(dead, SubPhi(resolved, block.phis[k]))
      {
        SubstitutedUnread(direct, resolved, block.phis[k].args);
      }
      SubstitutedUnread(direct, resolved, block.term.Operands());
      assert SubTerm(resolved, block.term).Operands() == SubAll(resolved, block.term.Operands());
    }
  }

  /** Copy propagation preserves meaning: every run takes the same blocks with the same events and
      result, and every value but the dropped copies is what it was. */
  lemma PropagationKeepsRuns(m: Machine, private: set<SlotId>, f: Func, direct: Copies, resolved: Copies, f': Func,
                             n: nat)
    requires ValidSsa(f) && AreDirect(f, direct) && AreResolved(direct, resolved)
    requires f'.blocks == Propagated(f, resolved) && f'.entry == f.entry
    ensures SameBut(m, Dead(resolved.Keys, {}), Run(m, private, f, n), Run(m, private, f', n))
  {
    SubstituteKeepsRuns(m, private, f, direct, resolved, n);
    PropagatedErasable(private, f, direct, resolved);
    EraseKeepsRuns(m, private, Dead(resolved.Keys, {}), Substituted(f, resolved), f', n);
  }

  // ---- the measure ----

  /** How many phis and copies the first `n` blocks have. */
  ghost function CopyCount(blocks: seq<Block>, n: nat): nat
    requires n <= |blocks|
    decreases n
  {
    if n == 0 then 0 else CopyCount(blocks, n - 1) + |blocks[n - 1].phis| + CopiesIn(blocks[n - 1].insts)
  }

  ghost function CopiesIn(insts: seq<Inst>): nat
    decreases |insts|
  {
    if insts == [] then 0
    else CopiesIn(insts[..|insts| - 1]) + (if insts[|insts| - 1].op.Copy? then 1 else 0)
  }

  lemma {:induction false} ErasedPhisFewer(dead: Dead, phis: seq<Phi>)
    ensures |ErasePhis(dead, phis)| <= |phis|
    ensures (exists k: nat :: k < |phis| && phis[k].dest in dead.values) ==> |ErasePhis(dead, phis)| < |phis|
    decreases |phis|
  {
    if phis != [] {
      var rest := phis[..|phis| - 1];
      ErasedPhisFewer(dead, rest);
      if k: nat :| k < |phis| - 1 && phis[k].dest in dead.values {
        assert rest[k].dest in dead.values;
      }
    }
  }

  /** The instructions of a block after the pass. */
  ghost function KeptInsts(resolved: Copies, insts: seq<Inst>): seq<Inst> {
    EraseInsts(Dead(resolved.Keys, {}), SubInsts(resolved, insts))
  }

  lemma KeptInstsStep(resolved: Copies, insts: seq<Inst>, n: nat)
    requires |insts| == n + 1
    ensures KeptInsts(resolved, insts) ==
            KeptInsts(resolved, insts[..n]) +
            (if insts[n].dest.Some? && insts[n].dest.value in resolved then [] else [SubInst(resolved, insts[n])])
  {
    assert SubInsts(resolved, insts)[..n] == SubInsts(resolved, insts[..n]);
  }

  lemma CopiesOfOneMore(insts: seq<Inst>, last: Inst)
    ensures CopiesIn(insts + [last]) == CopiesIn(insts) + (if last.op.Copy? then 1 else 0)
  {
    assert (insts + [last])[..|insts|] == insts;
  }

  lemma KeptNothing(resolved: Copies)
    ensures CopiesIn(KeptInsts(resolved, [])) == 0 && CopiesIn([]) == 0
  {
  }

  ghost predicate DropsCopy(resolved: Copies, inst: Inst) {
    inst.op.Copy? && inst.dest.Some? && inst.dest.value in resolved
  }

  lemma {:induction false} ErasedCopiesFewer(resolved: Copies, insts: seq<Inst>, i: nat)
    ensures CopiesIn(KeptInsts(resolved, insts)) <= CopiesIn(insts)
    ensures i < |insts| && DropsCopy(resolved, insts[i]) ==> CopiesIn(KeptInsts(resolved, insts)) < CopiesIn(insts)
    decreases |insts|
  {
    hide CopiesIn, KeptInsts, SubInsts, EraseInsts;
    if insts == [] {
      KeptNothing(resolved);
    } else {
      var n := |insts| - 1;
      ErasedCopiesFewer(resolved, insts[..n], i);
      KeptInstsStep(resolved, insts, n);
      assert insts[..n] + [insts[n]] == insts;
      CopiesOfOneMore(insts[..n], insts[n]);
      CopiesOfOneMore(KeptInsts(resolved, insts[..n]), SubInst(resolved, insts[n]));
      assert KeptInsts(resolved, insts[..n]) + [] == KeptInsts(resolved, insts[..n]);
    }
  }

  lemma PropagatedBlock(f: Func, resolved: Copies, b: BlockId)
    requires b < f.Size()
    ensures |Propagated(f, resolved)| == f.Size()
    ensures Propagated(f, resolved)[b].phis == ErasePhis(Dead(resolved.Keys, {}), SubBlock(resolved, f.blocks[b]).phis)
    ensures Propagated(f, resolved)[b].insts == KeptInsts(resolved, f.blocks[b].insts)
  {
    var block := f.blocks[b];
    assert Propagated(f, resolved)[b] == EraseBlock(Dead(resolved.Keys, {}), SubBlock(resolved, block));
  }

  lemma BlockCountFalls(f: Func, resolved: Copies, b: BlockId, p: Point)
    requires b < |f.blocks| && |Propagated(f, resolved)| == |f.blocks|
    ensures var after := Propagated(f, resolved)[b];
            && |after.phis| + CopiesIn(after.insts) <= |f.blocks[b].phis| + CopiesIn(f.blocks[b].insts)
            && (p.block == b && DropsAt(f, resolved, p) ==>
                  |after.phis| + CopiesIn(after.insts) < |f.blocks[b].phis| + CopiesIn(f.blocks[b].insts))
  {
    hide CopiesIn, ErasePhis, KeptInsts, Propagated;
    var block := f.blocks[b];
    var phis := SubPhis(resolved, block.phis);
    PropagatedBlock(f, resolved, b);
    ErasedPhisFewer(Dead(resolved.Keys, {}), phis);
    ErasedCopiesFewer(resolved, block.insts, if p.row > 0 then p.row - 1 else 0);
    if p.block == b && DropsAt(f, resolved, p) && p.row == 0 {
      var k: nat :| k < |block.phis| && block.phis[k].dest in resolved;
      assert phis[k].dest in Dead(resolved.Keys, {}).values;
    }
  }

  lemma CopyCountStart(blocks: seq<Block>)
    ensures CopyCount(blocks, 0) == 0
  {
  }

  lemma CopyCountStep(blocks: seq<Block>, n: nat)
    requires 0 < n <= |blocks|
    ensures CopyCount(blocks, n) == CopyCount(blocks, n - 1) + |blocks[n - 1].phis| + CopiesIn(blocks[n - 1].insts)
  {
  }

  lemma {:induction false} CountFalls(f: Func, resolved: Copies, n: nat, p: Point)
    requires n <= |f.blocks| && |Propagated(f, resolved)| == |f.blocks|
    ensures CopyCount(Propagated(f, resolved), n) <= CopyCount(f.blocks, n)
    ensures p.block < n && DropsAt(f, resolved, p) ==> CopyCount(Propagated(f, resolved), n) < CopyCount(f.blocks, n)
    decreases n
  {
    hide *;
    CopyCountStart(Propagated(f, resolved));
    CopyCountStart(f.blocks);
    if n > 0 {
      CopyCountStep(Propagated(f, resolved), n);
      CopyCountStep(f.blocks, n);
      CountFalls(f, resolved, n - 1, p);
      BlockCountFalls(f, resolved, n - 1, p);
    }
  }

  /** A phi or a copy at `p` is dropped. */
  ghost predicate DropsAt(f: Func, resolved: Copies, p: Point) {
    p.block < f.Size() &&
    if p.row == 0 then exists k: nat :: k < |f.blocks[p.block].phis| && f.blocks[p.block].phis[k].dest in resolved
    else
      p.row - 1 < |f.blocks[p.block].insts| && DropsCopy(resolved, f.blocks[p.block].insts[p.row - 1])
  }

  /** Whenever anything is resolved, there are strictly fewer phis and copies afterwards. */
  lemma PropagationShrinks(f: Func, direct: Copies, resolved: Copies)
    requires AreDirect(f, direct) && AreResolved(direct, resolved) && resolved != map[]
    ensures |Propagated(f, resolved)| == f.Size()
    ensures CopyCount(Propagated(f, resolved), f.Size()) < CopyCount(f.blocks, f.Size())
  {
    assert resolved.Keys != {};
    var v :| v in resolved;
    assert EndOf(direct, v, resolved[v]);
    assert IsCopy(f, v, direct[v]);
    var p: Point :| CopiesAt(f, p, v, direct[v]);
    assert DropsAt(f, resolved, p);
    PropagatedBlock(f, resolved, p.block);
    CountFalls(f, resolved, f.Size(), p);
  }

  // ---- the result is valid SSA again ----

  /** A chain of copies in scope ends in scope. */
  lemma {:induction false} ChainInScope(f: Func, direct: Copies, p: Point, v: ValueId, k: nat)
    requires ValidSsa(f) && AreDirect(f, direct)
    requires InScope(f, v, p) && f.Adjacency().Reachable(p.block)
    ensures Follow(direct, v, k).Value? ==> InScope(f, Follow(direct, v, k).id, p)
    decreases k
  {
    if k > 0 {
      ChainInScope(f, direct, p, v, k - 1);
      var o := Follow(direct, v, k - 1);
      if o.Value? && o.id in direct {
        var q := SourceSite(f, direct, o.id);
        if direct[o.id].Value? {
          BeforeTransitive(f.Adjacency(), SiteOf(f, direct[o.id].id), q, p);
        }
      }
    }
  }

  lemma SubstitutedOk(f: Func, direct: Copies, resolved: Copies, o: Operand, p: Point)
    requires ValidSsa(f) && AreDirect(f, direct) && AreResolved(direct, resolved)
    requires p.block < f.Size() && OperandOk(f, o, p)
    ensures OperandOk(f, SubOperand(resolved, o), p)
  {
    if o.Value? && o.id in resolved {
      ScopeIsAvailability(f, o.id, p);
      assert EndOf(direct, o.id, resolved[o.id]);
      var k: nat :| Follow(direct, o.id, k) == resolved[o.id];
      assert f.Adjacency().Reachable(p.block);
      ChainInScope(f, direct, p, o.id, k);
      if resolved[o.id].Value? {
        ScopeIsAvailability(f, resolved[o.id].id, p);
      }
    }
  }

  lemma SubstitutedAllOk(f: Func, direct: Copies, resolved: Copies, os: seq<Operand>, p: Point)
    requires ValidSsa(f) && AreDirect(f, direct) && AreResolved(direct, resolved)
    requires p.block < f.Size() && AllOk(f, os, p)
    ensures AllOk(f, SubAll(resolved, os), p)
  {
    forall i: nat | i < |os| ensures OperandOk(f, SubAll(resolved, os)[i], p) {
      assert OperandOk(f, os[i], p);
      SubstitutedOk(f, direct, resolved, os[i], p);
    }
  }

  lemma SubstitutedBlockOk(f: Func, direct: Copies, resolved: Copies, b: BlockId)
    requires ValidSsa(f) && AreDirect(f, direct) && AreResolved(direct, resolved) && b < f.Size()
    ensures UsesOkIn(f, SubBlock(resolved, f.blocks[b]), b)
  {
    var block := f.blocks[b];
    assert BlockUsesOk(f, b);
    forall i: nat | i < |block.insts|
      ensures AllOk(f, SubInst(resolved, block.insts[i]).op.Operands(), Point(b, i + 1))
    {
      OnReads(block.insts[i].op, SubAll(resolved, block.insts[i].op.Operands()));
      SubstitutedAllOk(f, direct, resolved, block.insts[i].op.Operands(), Point(b, i + 1));
    }
    SubstitutedAllOk(f, direct, resolved, block.term.Operands(), End(f, b));
    assert SubTerm(resolved, block.term).Operands() == SubAll(resolved, block.term.Operands());
    forall k: nat, i: nat | k < |block.phis| && i < |block.phis[k].args| && i < |block.preds|
      ensures OperandOk(f, SubPhi(resolved, block.phis[k]).args[i], End(f, block.preds[i]))
    {
      assert f.Adjacency().preds[b][i] < f.Size();
      SubstitutedOk(f, direct, resolved, block.phis[k].args[i], End(f, block.preds[i]));
    }
    hide ValidSsa, AreDirect, AreResolved, AllOk, OperandOk, SubTerm, SubAll;
  }

  /** After the pass every use is still dominated by its definition, and the function valid. */
  lemma PropagationKeepsValid(f: Func, direct: Copies, resolved: Copies, f': Func)
    requires ValidSsa(f) && AreDirect(f, direct) && AreResolved(direct, resolved)
    requires f'.blocks == Propagated(f, resolved) && f'.entry == f.entry
    ensures ValidSsa(f')
  {
    var fs := Substituted(f, resolved);
    forall b: nat | b < f.Size()
      ensures fs.blocks[b] == SubBlock(resolved, f.blocks[b])
    {
    }
    forall b: nat | b < f.Size()
      ensures AlikeBlock(f.blocks[b], fs.blocks[b]) && UsesOkIn(f, fs.blocks[b], b)
    {
      SubstitutedBlockOk(f, direct, resolved, b);
      SubstitutedAlike(resolved, f.blocks[b]);
    }
    ReadingElseKeepsValid(f, fs);
    PropagatedErasable({}, f, direct, resolved);
    ErasureKeepsValid({}, Dead(resolved.Keys, {}), fs, f');
  }

  lemma SubstitutedAlike(resolved: Copies, block: Block)
    ensures AlikeBlock(block, SubBlock(resolved, block))
  {
    forall i: nat | i < |block.insts|
      ensures SubInst(resolved, block.insts[i]).op.DefinesValue() == block.insts[i].op.DefinesValue()
    {
      OnReads(block.insts[i].op, SubAll(resolved, block.insts[i].op.Operands()));
    }
  }

  // ---- chains end ----

  ghost predicate NoCopies(f: Func) {
    forall v: ValueId, o: Operand :: !IsCopy(f, v, o)
  }

  /** From `v` on, which is defined before everything in `seen`, the chain goes on to earlier and earlier values. */
  lemma {:induction false} ChainEnds(f: Func, direct: Copies, start: ValueId, v: ValueId, k: nat, seen: set<ValueId>)
    returns (o: Operand)
    requires ValidSsa(f) && AreDirect(f, direct) && start in direct && v in direct && v !in seen && seen <= direct.Keys
    requires Follow(direct, start, k) == Value(v)
    requires forall s: ValueId :: s in seen ==>
               Before(f.Adjacency(), SiteOf(f, v), SiteOf(f, s)) && SiteOf(f, s).block < f.Size()
    ensures EndOf(direct, start, o)
    decreases |direct.Keys - seen|
  {
    o := direct[v];
    var next := k + 1;
    assert Follow(direct, start, next) == o;
    if o.Value? && o.id in direct {
      var p: Point :| CopiesAt(f, p, v, o);
      SourceComesBefore(f, p, v, o.id);
      SiteIs(f, v, p);
      var g := f.Adjacency();
      var q := SiteOf(f, o.id);
      var seen' := seen + {v};
      forall s: ValueId | s in seen' ensures Before(g, q, SiteOf(f, s)) && SiteOf(f, s).block < f.Size() {
        assert g.Reachable(p.block);
        if s != v {
          BeforeTransitive(g, q, p, SiteOf(f, s));
        }
      }
      assert g.Reachable(q.block);
      BeforeAntisymmetric(g, q, q);
      assert o.id !in seen';
      assert direct.Keys - seen' < direct.Keys - seen;
      o := ChainEnds(f, direct, start, o.id, next, seen');
    }
  }

  /** In a valid function no chain of copies closes on itself. */
  lemma EveryCopyResolves(f: Func, direct: Copies, resolved: Copies)
    requires ValidSsa(f) && AreDirect(f, direct) && AreResolved(direct, resolved)
    ensures resolved.Keys == direct.Keys
    ensures resolved == map[] <==> NoCopies(f)
  {
    forall v: ValueId | v in direct ensures v in resolved {
      assert Follow(direct, v, 0) == Value(v);
      var o := ChainEnds(f, direct, v, v, 0, {});
    }
    forall v: ValueId | v in resolved ensures v in direct {
    }
    if resolved != map[] {
      var v :| v in resolved;
      assert IsCopy(f, v, direct[v]);
    }
    hide ValidSsa, Follow;
  }

  // ---- the pass ----

  /** Reports a change exactly when the function had a copy; then the copies are gone and every read of one reads
      the end of its chain. */
  method Propagate(fn: Function) returns (changed: bool)
    requires ValidSsa(fn.View())
    modifies fn
    ensures changed <==> !NoCopies(old(fn.View()))
    ensures !changed ==> fn.View() == old(fn.View())
    ensures ValidSsa(fn.View()) && (old(fn.Valid()) ==> fn.Valid())
    ensures changed ==> exists direct: Copies, resolved: Copies ::
              && AreDirect(old(fn.View()), direct) && AreResolved(direct, resolved) && resolved != map[]
              && fn.blocks == Propagated(old(fn.View()), resolved) && fn.entry == old(fn.entry)
  {
    ghost var f := fn.View();
    var direct := DirectCopies(fn);
    hide ValidSsa, AreDirect, AreResolved, NoCopies, Propagated;
    if direct == map[] {
      NothingResolves(f, direct);
      return false;
    }
    var resolved := ResolveAll(direct);
    EveryCopyResolves(f, direct, resolved);
    if resolved == map[] {
      return false;
    }
    fn.SubstituteOperands(resolved);
    DropResolved(fn, f, direct, resolved);
    PropagationKeepsValid(f, direct, resolved, fn.View());
    changed := true;
  }

  lemma NothingResolves(f: Func, direct: Copies)
    requires AreDirect(f, direct) && direct == map[]
    ensures NoCopies(f)
  {
  }

  /** Every read of the resolved values has been replaced; their definitions go. */
  method DropResolved(fn: Function, ghost f: Func, ghost direct: Copies, resolved: Copies)
    requires ValidSsa(f) && AreDirect(f, direct) && AreResolved(direct, resolved)
    requires fn.blocks == SubBlocks(resolved, f.blocks)
    modifies fn
    ensures fn.blocks == Propagated(f, resolved) && fn.entry == old(fn.entry)
    ensures old(fn.Valid()) ==> fn.Valid()
  {
    hide ValidSsa, AreDirect, AreResolved, Function.Valid;
    ghost var subbed := fn.blocks;
    ghost var dead := Dead(resolved.Keys, {});
    for b := 0 to |fn.blocks|
      invariant |fn.blocks| == |subbed| && fn.entry == old(fn.entry)
      invariant old(fn.Valid()) ==> fn.Valid()
      invariant forall c :: 0 <= c < |subbed| ==>
                  fn.blocks[c] == if c < b then EraseBlock(dead, subbed[c]) else subbed[c]
    {
      SubstitutedDests(f, resolved, b);
      fn.RetainPhis(b, resolved.Keys);
      var deadHere := DeadCopies(fn.blocks[b].insts, resolved);
      OnlyCopiesDie(f, direct, resolved, b, deadHere);
      fn.Remove(b, deadHere);
      assert fn.blocks[b] == EraseBlock(dead, subbed[b]);
    }
    assert fn.blocks == Propagated(f, resolved);
  }

  lemma SubstitutedDests(f: Func, resolved: Copies, b: BlockId)
    requires ValidSsa(f) && b < f.Size()
    ensures DistinctDests(SubBlock(resolved, f.blocks[b]).phis)
  {
    assert DistinctDests(f.blocks[b].phis);
  }

  /** The values defined by the copies among `insts` that were resolved. */
  method DeadCopies(insts: seq<Inst>, resolved: Copies) returns (dead: set<ValueId>)
    ensures forall v: ValueId :: v in dead <==>
              exists i: nat :: i < |insts| && insts[i].dest == Some(v) && DropsCopy(resolved, insts[i])
  {
    dead := {};
    for i := 0 to |insts|
      invariant forall v: ValueId :: v in dead <==>
                  exists j: nat :: j < i && insts[j].dest == Some(v) && DropsCopy(resolved, insts[j])
    {
      if insts[i].op.Copy? && insts[i].dest.Some? && insts[i].dest.value in resolved {
        assert DropsCopy(resolved, insts[i]);
        dead := dead + {insts[i].dest.value};
      }
    }
  }

  /** Dropping those copies drops every instruction that defines a resolved value. */
  lemma OnlyCopiesDie(f: Func, direct: Copies, resolved: Copies, b: BlockId, dead: set<ValueId>)
    requires ValidSsa(f) && AreDirect(f, direct) && AreResolved(direct, resolved) && b < f.Size()
    requires var insts := SubBlock(resolved, f.blocks[b]).insts;
             forall v: ValueId :: v in dead <==>
               exists i: nat :: i < |insts| && insts[i].dest == Some(v) && DropsCopy(resolved, insts[i])
    ensures var insts := SubBlock(resolved, f.blocks[b]).insts;
            EraseInsts(Dead(dead, {}), insts) == EraseInsts(Dead(resolved.Keys, {}), insts)
  {
    var insts := SubBlock(resolved, f.blocks[b]).insts;
    forall i: nat | i < |insts|
      ensures Keeps(Dead(dead, {}), insts[i]) == Keeps(Dead(resolved.Keys, {}), insts[i])
    {
      if insts[i].dest.Some? && insts[i].dest.value in resolved {
        ResolvedIsCopy(f, direct, resolved, b, i);
        assert DropsCopy(resolved, insts[i]);
      }
    }
    SameKept(Dead(dead, {}), Dead(resolved.Keys, {}), insts);
  }

  lemma {:induction false} SameKept(d: Dead, e: Dead, insts: seq<Inst>)
    requires forall i: nat :: i < |insts| ==> Keeps(d, insts[i]) == Keeps(e, insts[i])
    ensures EraseInsts(d, insts) == EraseInsts(e, insts)
    decreases |insts|
  {
    if insts != [] {
      SameKept(d, e, insts[..|insts| - 1]);
    }
  }
}
