/** Lists without repetition, and the counting arguments about them. */
module Lists {

  ghost predicate Distinct<T(!new)>(s: seq<T>) {
    forall i, j :: 0 <= i < j < |s| ==> s[i] != s[j]
  }

  function Without<T>(s: seq<T>, k: nat): (r: seq<T>)
    requires k < |s|
    ensures |r| == |s| - 1
  {
    s[..k] + s[k + 1..]
  }

  /** A list of distinct elements is at most as long as one that holds them all. */
  lemma {:induction false} Pigeonhole<T(!new)>(s: seq<T>, holes: seq<T>)
    requires Distinct(s) && forall x :: x in s ==> x in holes
    ensures |s| <= |holes|
    decreases |s|
  {
    if |s| > 0 {
      var last := s[|s| - 1];
      var rest := s[..|s| - 1];
      assert last in s;
      var k :| 0 <= k < |holes| && holes[k] == last;
      var fewer := Without(holes, k);
      forall x | x in rest
        ensures x in fewer
      {
        assert x in s && x != last;
        var i :| 0 <= i < |holes| && holes[i] == x;
        assert fewer[if i < k then i else i - 1] == x;
      }
      Pigeonhole(rest, fewer);
    }
  }

  /** If it is exactly as long, it holds everything the other one does, which has no repeats. */
  lemma PigeonholeTight<T(!new)>(s: seq<T>, holes: seq<T>)
    requires Distinct(s) && |s| == |holes| && forall x :: x in s ==> x in holes
    ensures Distinct(holes)
    ensures forall x :: x in holes ==> x in s
  {
    forall i, j | 0 <= i < j < |holes|
      ensures holes[i] != holes[j]
    {
      if holes[i] == holes[j] {
        var fewer := Without(holes, j);
        forall x | x in s
          ensures x in fewer
        {
          var k :| 0 <= k < |holes| && holes[k] == x;
          var k' := if k == j then i else k;
          assert fewer[if k' < j then k' else k' - 1] == x;
        }
        Pigeonhole(s, fewer);
      }
    }
    forall x | x in holes
      ensures x in s
    {
      if x !in s {
        var j :| 0 <= j < |holes| && holes[j] == x;
        var fewer := Without(holes, j);
        forall y | y in s
          ensures y in fewer
        {
          var k :| 0 <= k < |holes| && holes[k] == y;
          assert fewer[if k < j then k else k - 1] == y;
        }
        Pigeonhole(s, fewer);
      }
    }
  }

  function Upto(n: nat): (r: seq<nat>)
    ensures |r| == n && forall i :: 0 <= i < n ==> r[i] == i
  {
    seq(n, i => i)
  }

  /** A list of every number below `n`, each once, has `n` elements. */
  lemma FullListLength(s: seq<nat>, n: nat)
    requires Distinct(s) && forall x: nat :: x in s <==> x < n
    ensures |s| == n
  {
    forall x: nat | x < n ensures x in Upto(n) {
      assert Upto(n)[x] == x;
    }
    Pigeonhole(s, Upto(n));
    Pigeonhole(Upto(n), s);
  }

  lemma DistinctSnoc<T(!new)>(s: seq<T>, x: T)
    requires Distinct(s) && x !in s
    ensures Distinct(s + [x])
    ensures forall y :: y in s + [x] <==> y in s || y == x
  {
  }

  /** The elements of a set, each once. */
  lemma {:induction false} ListOfSet<T(!new)>(s: set<T>) returns (list: seq<T>)
    ensures Distinct(list) && forall x :: x in list <==> x in s
    decreases s
  {
    if s == {} {
      list := [];
    } else {
      var x :| x in s;
      var rest := ListOfSet(s - {x});
      DistinctSnoc(rest, x);
      list := rest + [x];
    }
  }
}
