/** The ascending enumeration of a finite set of integers. */
module IntOrder {

  predicate IsSmallest(m: int, s: set<int>) {
    m in s && forall x :: x in s ==> m <= x
  }

  lemma Pick<T>(s: set<T>) returns (x: T)
    requires s != {}
    ensures x in s
  {
    x :| x in s;
  }

  lemma {:induction false} SmallestExists(s: set<int>)
    requires s != {}
    ensures exists m :: IsSmallest(m, s)
  {
    var x := Pick(s);
    var rest := s - {x};
    assert s == rest + {x};
    if rest == {} {
      assert IsSmallest(x, s);
    } else {
      SmallestExists(rest);
      var m :| IsSmallest(m, rest);
      forall y | y in s ensures m <= y || y == x {
        if y != x { assert y in rest; }
      }
      assert IsSmallest(if m < x then m else x, s);
    }
  }

  function Smallest(s: set<int>): (m: int)
    requires s != {}
    ensures IsSmallest(m, s)
  {
    SmallestExists(s);
    assert forall m, n :: IsSmallest(m, s) && IsSmallest(n, s) ==> m == n;
    var m :| m in s && IsSmallest(m, s);
    m
  }

  /** Every element once, in ascending order. */
  function Ascending(s: set<int>): (r: seq<int>)
    ensures |r| == |s|
    ensures forall i :: 0 <= i < |r| ==> r[i] in s
    ensures forall x :: x in s ==> x in r
    decreases |s|
  {
    if s == {} then [] else [Smallest(s)] + Ascending(s - {Smallest(s)})
  }

  lemma {:induction false} AscendingIsSorted(s: set<int>)
    ensures forall i, j :: 0 <= i < j < |Ascending(s)| ==> Ascending(s)[i] < Ascending(s)[j]
    decreases |s|
  {
    if s != {} {
      var m := Smallest(s);
      AscendingIsSorted(s - {m});
      assert forall x :: x in Ascending(s - {m}) ==> m < x;
    }
  }
}
