/** The order of strings, and the sorted enumeration of a finite set of them. */
module StringOrder {

  predicate Before(a: string, b: string) {
    a == "" || (b != "" && (a[0] < b[0] || (a[0] == b[0] && Before(a[1..], b[1..]))))
  }

  lemma {:induction false} BeforeTotal(a: string, b: string)
    ensures Before(a, b) || Before(b, a)
    ensures Before(a, b) && Before(b, a) ==> a == b
  {
    if a != "" && b != "" && a[0] == b[0] {
      BeforeTotal(a[1..], b[1..]);
      assert a == [a[0]] + a[1..] && b == [b[0]] + b[1..];
    }
  }

  lemma {:induction false} BeforeTransitive(a: string, b: string, c: string)
    requires Before(a, b) && Before(b, c)
    ensures Before(a, c)
  {
    if a != "" && b != "" && c != "" && a[0] == b[0] == c[0] {
      BeforeTransitive(a[1..], b[1..], c[1..]);
    }
  }

  predicate IsLeast(m: string, s: set<string>) {
    m in s && forall x :: x in s ==> Before(m, x)
  }

  lemma {:induction false} LeastExists(s: set<string>)
    requires s != {}
    ensures exists m :: IsLeast(m, s)
  {
    var x :| x in s;
    BeforeTotal(x, x);
    if s == {x} {
      assert IsLeast(x, s);
    } else {
      var rest := s - {x};
      LeastExists(rest);
      var m :| IsLeast(m, rest);
      BeforeTotal(m, x);
      if Before(m, x) {
        assert IsLeast(m, s);
      } else {
        forall y | y in s ensures Before(x, y) {
          if y != x { BeforeTransitive(x, m, y); }
        }
        assert IsLeast(x, s);
      }
    }
  }

  lemma LeastUnique(m: string, n: string, s: set<string>)
    requires IsLeast(m, s) && IsLeast(n, s)
    ensures m == n
  {
    BeforeTotal(m, n);
  }

  function Least(s: set<string>): (m: string)
    requires s != {}
    ensures IsLeast(m, s)
  {
    LeastExists(s);
    assert forall m, n :: IsLeast(m, s) && IsLeast(n, s) ==> m == n by {
      forall m, n | IsLeast(m, s) && IsLeast(n, s) ensures m == n { LeastUnique(m, n, s); }
    }
    var m :| m in s && IsLeast(m, s);
    m
  }

  /** Every element once, in order. */
  function Sorted(s: set<string>): (r: seq<string>)
    ensures |r| == |s|
    ensures forall x :: x in r <==> x in s
    decreases |s|
  {
    if s == {} then [] else [Least(s)] + Sorted(s - {Least(s)})
  }

  ghost predicate Distinct<T>(r: seq<T>) {
    forall i, j :: 0 <= i < j < |r| ==> r[i] != r[j]
  }

  lemma {:induction false} SortedDistinct(s: set<string>)
    ensures Distinct(Sorted(s))
    decreases |s|
  {
    if s != {} {
      var rest := s - {Least(s)};
      SortedDistinct(rest);
      assert Least(s) !in Sorted(rest);
    }
  }
}
