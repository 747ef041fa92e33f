/** The tree of recorded immediate dominators, and how one update of the fixed point changes it. */
module IdomTree {

  datatype Option<T> = None | Some(value: T)

  type Idoms = seq<Option<nat>>

  /** Recorded immediate dominators with the reverse-postorder numbers of the blocks. */
  datatype Tree = Tree(imm: Idoms, num: seq<nat>, entry: nat)
  {
    /** Something is recorded for `v`. */
    ghost predicate Has(v: nat) {
      v < |imm| && imm[v].Some?
    }

    /** What is recorded for `v`. */
    ghost function Up(v: nat): nat {
      if Has(v) then imm[v].value else v
    }

    ghost function Num(v: nat): nat {
      if v < |num| then num[v] else 0
    }

    ghost predicate Rises(v: nat) {
      Has(Up(v)) && Num(Up(v)) < Num(v)
    }

    /** The entry is its own dominator; every other recorded block names a recorded block with a
        smaller number. */
    ghost predicate Valid() {
      && |imm| == |num|
      && Has(entry) && Up(entry) == entry && Num(entry) == 0
      && (forall v: nat {:trigger Rises(v)} :: Has(v) && v != entry ==> Rises(v))
      && (forall a: nat, b: nat :: a < |num| && b < |num| && Num(a) == Num(b) ==> a == b)
    }

    /** `a` is `v` or one of the blocks above it. */
    ghost predicate Anc(a: nat, v: nat)
      decreases Num(v)
    {
      a == v || (v != entry && Rises(v) && Anc(a, Up(v)))
    }

    /** The tree with `y` recorded for `u`. */
    ghost function Move(u: nat, y: nat): Tree {
      if u < |imm| then this.(imm := imm[u := Some(y)]) else this
    }

    /** Recording `y` for `u`, where `u` had nothing recorded or `y` is above what it had. */
    ghost predicate MovesUp(u: nat, y: nat) {
      && Valid()
      && u < |imm| && u != entry && Has(y) && Num(y) < Num(u)
      && (Has(u) ==> Anc(y, Up(u)))
      && (!Has(u) ==> forall v: nat :: Has(v) ==> Up(v) != u)
    }
  }

  lemma {:induction false} AncIsRecorded(t: Tree, a: nat, v: nat)
    requires t.Valid() && t.Has(v) && t.Anc(a, v)
    ensures t.Has(a) && (a == v || t.Num(a) < t.Num(v))
    decreases t.Num(v)
  {
    if a != v {
      AncIsRecorded(t, a, t.Up(v));
    }
  }

  lemma {:induction false} AncTransitive(t: Tree, a: nat, b: nat, v: nat)
    requires t.Anc(b, v) && t.Anc(a, b)
    ensures t.Anc(a, v)
    decreases t.Num(v)
  {
    if b != v {
      AncTransitive(t, a, b, t.Up(v));
    }
  }

  /** The blocks above one block form a chain, ordered by number. */
  lemma {:induction false} AncChain(t: Tree, a: nat, b: nat, v: nat)
    requires t.Valid() && t.Has(v)
    requires t.Anc(a, v) && t.Anc(b, v) && t.Num(a) <= t.Num(b)
    ensures t.Anc(a, b)
    decreases t.Num(v)
  {
    if b != v {
      if a == v {
        AncIsRecorded(t, b, v);
      } else {
        AncChain(t, a, b, t.Up(v));
      }
    }
  }

  lemma {:induction false} EntryIsAnc(t: Tree, v: nat)
    requires t.Valid() && t.Has(v)
    ensures t.Anc(t.entry, v)
    decreases t.Num(v)
  {
    if v != t.entry {
      assert t.Rises(v);
      EntryIsAnc(t, t.Up(v));
    }
  }

  lemma AncIsAntisymmetric(t: Tree, a: nat, b: nat)
    requires t.Valid() && t.Has(a) && t.Has(b) && t.Anc(a, b) && t.Anc(b, a)
    ensures a == b
  {
    AncIsRecorded(t, a, b);
    AncIsRecorded(t, b, a);
  }

  // ---- one update: block `u` gets a new recorded dominator `y` ----

  lemma MovedTree(t: Tree, u: nat, y: nat)
    requires t.MovesUp(u, y)
    ensures t.Move(u, y).Valid()
    ensures forall v: nat :: t.Move(u, y).Has(v) <==> t.Has(v) || v == u
    ensures forall v: nat :: t.Move(u, y).Num(v) == t.Num(v)
    ensures forall v: nat :: v != u ==> t.Move(u, y).Up(v) == t.Up(v)
    ensures t.Move(u, y).Up(u) == y
  {
    var t' := t.Move(u, y);
    assert t'.imm == t.imm[u := Some(y)] && t'.num == t.num && t'.entry == t.entry;
    forall v: nat
      ensures t'.Has(v) <==> t.Has(v) || v == u
      ensures t'.Num(v) == t.Num(v)
      ensures t'.Up(v) == if v == u then y else t.Up(v)
    {
    }
    forall v: nat | t'.Has(v) && v != t'.entry
      ensures t'.Rises(v)
    {
      if v != u {
        assert t.Rises(v);
      }
    }
    forall a: nat, b: nat | a < |t'.num| && b < |t'.num| && t'.Num(a) == t'.Num(b)
      ensures a == b
    {
      assert t.Num(a) == t.Num(b);
    }
  }

  /** A block never gains anything above it. */
  lemma {:induction false} MoveShrinks(t: Tree, u: nat, y: nat, a: nat, v: nat)
    requires t.MovesUp(u, y) && t.Has(v)
    requires t.Move(u, y).Anc(a, v)
    ensures t.Anc(a, v)
    decreases t.Num(v)
  {
    MovedTree(t, u, y);
    if a != v {
      assert t.Rises(v);
      if v == u {
        MoveShrinks(t, u, y, a, y);
        AncTransitive(t, a, y, t.Up(u));
      } else {
        MoveShrinks(t, u, y, a, t.Up(v));
      }
    }
  }

  /** What a block had above it and not above `u` it keeps: `u` loses only what is above it. */
  lemma {:induction false} MoveKeeps(t: Tree, u: nat, y: nat, a: nat, v: nat)
    requires t.MovesUp(u, y) && t.Has(v)
    requires t.Anc(a, v) && t.Num(u) <= t.Num(a)
    ensures t.Move(u, y).Anc(a, v)
    decreases t.Num(v)
  {
    MovedTree(t, u, y);
    if a != v {
      AncIsRecorded(t, a, v);
      MoveKeeps(t, u, y, a, t.Up(v));
    }
  }

  /** Nothing changes for a block not below `u`. */
  lemma {:induction false} MoveSpares(t: Tree, u: nat, y: nat, a: nat, v: nat)
    requires t.MovesUp(u, y) && t.Has(v) && !t.Anc(u, v)
    ensures t.Anc(a, v) <==> t.Move(u, y).Anc(a, v)
    decreases t.Num(v)
  {
    MovedTree(t, u, y);
    if v != t.entry {
      assert t.Rises(v);
      MoveSpares(t, u, y, a, t.Up(v));
    }
  }
}
