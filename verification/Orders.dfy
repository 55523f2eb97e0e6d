/** Walking a set of integers in ascending order, as a C++ map or set is walked. */
module Orders {

  ghost predicate IsLeast(x: int, s: set<int>) {
    x in s && forall y :: y in s ==> x <= y
  }

  lemma HasElement(s: set<int>)
    ensures s == {} || exists x :: x in s
  {
    if !exists x :: x in s {
      assert s == {};
    }
  }

  lemma NoKeys<T>(m: map<int, T>)
    ensures m == map[] <==> m.Keys == {}
  {
    if m.Keys == {} {
      assert m == map[];
    }
  }

  lemma {:induction false} LeastExists(s: set<int>)
    requires s != {}
    ensures exists x :: IsLeast(x, s)
    decreases |s|
  {
    HasElement(s);
    var x :| x in s;
    var t := s - {x};
    if t == {} {
      assert forall y :: y in s ==> y == x || y in t;
      assert IsLeast(x, s);
    } else {
      LeastExists(t);
      var y :| IsLeast(y, t);
      assert forall z :: z in s ==> z == x || z in t;
      assert IsLeast(if x <= y then x else y, s);
    }
  }

  ghost function Least(s: set<int>): (x: int)
    requires s != {}
    ensures IsLeast(x, s)
  {
    LeastExists(s);
    var x :| IsLeast(x, s);
    x
  }

  ghost function Ascending(s: set<int>): (a: seq<int>)
    ensures |a| == |s|
    ensures forall i :: 0 <= i < |a| ==> a[i] in s
    decreases |s|
  {
    if s == {} then [] else [Least(s)] + Ascending(s - {Least(s)})
  }

  /** Every element once, in order. */
  lemma {:induction false} AscendingCovers(s: set<int>, x: int)
    requires x in s
    ensures x in Ascending(s)
    decreases |s|
  {
    var l := Least(s);
    assert Ascending(s) == [l] + Ascending(s - {l});
    if x == l {
      assert Ascending(s)[0] == x;
    } else {
      AscendingCovers(s - {l}, x);
    }
  }

  lemma AscendingInjective(s: set<int>, t: set<int>)
    requires Ascending(s) == Ascending(t)
    ensures s == t
  {
    forall x
      ensures x in s <==> x in t
    {
      if x in s {
        AscendingCovers(s, x);
      }
      if x in t {
        AscendingCovers(t, x);
      }
    }
  }

  lemma {:induction false} AscendingSorted(s: set<int>, i: nat, j: nat)
    requires i < j < |s|
    ensures Ascending(s)[i] < Ascending(s)[j]
    decreases |s|
  {
    var l := Least(s);
    var t := Ascending(s - {l});
    assert Ascending(s) == [l] + t;
    assert t[j - 1] in s - {l};
    if i > 0 {
      AscendingSorted(s - {l}, i - 1, j - 1);
    }
  }
}
