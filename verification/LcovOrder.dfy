/** When the function totals of merged reports depend on the order of the records, and when not. */
module LcovOrder {
  import opened StringOrder
  import opened Lcov
  import opened LcovMerge
  import opened LcovTotals

  // ── The records of one file ──

  function MaxFound(rs: seq<Record>): (m: int)
    requires rs != []
    ensures forall i :: 0 <= i < |rs| ==> rs[i].functionsFound <= m
    ensures exists i :: 0 <= i < |rs| && rs[i].functionsFound == m
  {
    var n := |rs| - 1;
    if n == 0 then rs[0].functionsFound
    else
      assert forall i :: 0 <= i < n ==> rs[..n][i] == rs[i];
      Max(MaxFound(rs[..n]), rs[n].functionsFound)
  }

  function MaxHit(rs: seq<Record>): (m: int)
    requires rs != []
    ensures forall i :: 0 <= i < |rs| ==> rs[i].functionsHit <= m
    ensures exists i :: 0 <= i < |rs| && rs[i].functionsHit == m
  {
    var n := |rs| - 1;
    if n == 0 then rs[0].functionsHit
    else
      assert forall i :: 0 <= i < n ==> rs[..n][i] == rs[i];
      Max(MaxHit(rs[..n]), rs[n].functionsHit)
  }

  /** The functions hit once the records are merged in this order. */
  function MergedHit(rs: seq<Record>): int
    requires rs != []
  {
    var n := |rs| - 1;
    if n == 0 then rs[0].functionsHit
    else Min(MaxFound(rs), Max(MergedHit(rs[..n]), rs[n].functionsHit))
  }

  /** The most that any order can come to. */
  function Most(rs: seq<Record>): int
    requires rs != []
  {
    Min(MaxFound(rs), MaxHit(rs))
  }

  /** Record j is merged no later than record i, or among the first two. */
  predicate InTime(j: int, i: int) { j <= (if i > 1 then i else 1) }

  ghost predicate Reaches(rs: seq<Record>, v: int) {
    exists i, j :: 0 <= i < |rs| && 0 <= j < |rs| && InTime(j, i)
      && rs[i].functionsHit >= v && rs[j].functionsFound >= v
  }

  lemma ReachesAt(rs: seq<Record>, v: int, i: int, j: int)
    requires 0 <= i < |rs| && 0 <= j < |rs| && InTime(j, i) && rs[i].functionsHit >= v && rs[j].functionsFound >= v
    ensures Reaches(rs, v)
  {}

  /** What is reached by all but the last record is reached, and so is what the last one adds. */
  lemma ReachesMore(rs: seq<Record>, v: int)
    requires |rs| >= 3
    ensures var n := |rs| - 1;
            Reaches(rs, v) <==> Reaches(rs[..n], v) || (rs[n].functionsHit >= v && MaxFound(rs) >= v)
  {
    hide MaxFound;
    var n := |rs| - 1;
    var before := rs[..n];
    assert forall i :: 0 <= i < n ==> before[i] == rs[i];
    if i, j :| 0 <= i < |rs| && 0 <= j < |rs| && InTime(j, i) && rs[i].functionsHit >= v && rs[j].functionsFound >= v {
      if i < n { ReachesAt(before, v, i, j); }
    }
    if i, j :| 0 <= i < n && 0 <= j < n && InTime(j, i) &&
               before[i].functionsHit >= v && before[j].functionsFound >= v {
      ReachesAt(rs, v, i, j);
    }
    if rs[n].functionsHit >= v && MaxFound(rs) >= v {
      var m :| 0 <= m < |rs| && rs[m].functionsFound == MaxFound(rs);
      ReachesAt(rs, v, n, m);
    }
  }

  lemma TwoReach(rs: seq<Record>, v: int)
    requires |rs| == 2
    ensures MergedHit(rs) >= v <==> Reaches(rs, v)
  {
    assert rs[..1] == [rs[0]];
    if MergedHit(rs) >= v {
      var m :| 0 <= m < |rs| && rs[m].functionsFound == MaxFound(rs);
      ReachesAt(rs, v, if rs[1].functionsHit >= v then 1 else 0, m);
    }
  }

  lemma ReachedIsFound(rs: seq<Record>, v: int)
    requires Reaches(rs, v)
    ensures rs != [] && MaxFound(rs) >= v
  {
    hide MaxFound;
  }

  /**
   * Merging comes to at least `v` exactly when some record hits as much and a record found as much by
   * the time it is merged.
   */
  lemma {:induction false} MergedHitReaches(rs: seq<Record>, v: int)
    requires |rs| >= 2
    ensures MergedHit(rs) >= v <==> Reaches(rs, v)
  {
    hide Reaches, MaxFound;
    if |rs| == 2 {
      TwoReach(rs, v);
    } else {
      MergedHitReaches(rs[..|rs| - 1], v);
      ReachesMore(rs, v);
      if Reaches(rs, v) { ReachedIsFound(rs, v); }
    }
  }

  lemma NeverMore(rs: seq<Record>)
    requires |rs| >= 2
    ensures MergedHit(rs) <= Most(rs)
  {
    MergedHitReaches(rs, MergedHit(rs));
  }

  // ── Orders ──

  ghost predicate SameBag(a: seq<Record>, b: seq<Record>) { multiset(a) == multiset(b) }

  lemma SameBagMembers(a: seq<Record>, b: seq<Record>)
    requires SameBag(a, b)
    ensures |a| == |b| && forall r :: r in a <==> r in b
  {
    assert |multiset(a)| == |a| && |multiset(b)| == |b|;
    assert forall r :: r in a <==> r in multiset(a);
    assert forall r :: r in b <==> r in multiset(b);
  }

  lemma SameMost(a: seq<Record>, b: seq<Record>)
    requires SameBag(a, b) && a != [] && b != []
    ensures MaxFound(a) == MaxFound(b) && MaxHit(a) == MaxHit(b)
  {
    hide MaxFound, MaxHit;
    SameBagMembers(a, b);
    Below(a, b);
    Below(b, a);
  }

  lemma Below(a: seq<Record>, b: seq<Record>)
    requires a != [] && b != [] && forall r :: r in a ==> r in b
    ensures MaxFound(a) <= MaxFound(b) && MaxHit(a) <= MaxHit(b)
  {
    hide MaxFound, MaxHit;
    var i :| 0 <= i < |a| && a[i].functionsFound == MaxFound(a);
    assert a[i] in b;
    var j :| 0 <= j < |a| && a[j].functionsHit == MaxHit(a);
    assert a[j] in b;
  }

  /** No order comes to less than another. */
  ghost predicate OrderFree(rs: seq<Record>)
    requires rs != []
  {
    || |rs| == 1
    || (exists i :: 0 <= i < |rs| && rs[i].functionsHit >= Most(rs) && rs[i].functionsFound >= Most(rs))
    || (forall i, j :: 0 <= i < j < |rs| ==> rs[i].functionsFound >= Most(rs) || rs[j].functionsFound >= Most(rs))
  }

  lemma {:induction false} TwoPlaces(rs: seq<Record>, x: Record, y: Record) returns (i: int, j: int)
    requires multiset{x, y} <= multiset(rs)
    ensures 0 <= i < j < |rs| && ((rs[i] == x && rs[j] == y) || (rs[i] == y && rs[j] == x))
  {
    var n := |rs| - 1;
    assert rs != [] by { assert multiset(rs)[x] >= 1; }
    var before, last := rs[..n], rs[n];
    assert rs == before + [last];
    assert multiset(rs) == multiset(before) + multiset{last};
    if last == x || last == y {
      var other := if last == x then y else x;
      assert multiset(before)[other] >= 1;
      assert other in before;
      i :| 0 <= i < n && before[i] == other;
      j := n;
    } else {
      assert multiset{x, y} <= multiset(before);
      i, j := TwoPlaces(before, x, y);
    }
  }

  lemma PairInBag(rs: seq<Record>, i: int, j: int)
    requires 0 <= i < j < |rs|
    ensures multiset{rs[i], rs[j]} <= multiset(rs)
  {
    assert rs == rs[..i] + [rs[i]] + rs[i + 1..j] + [rs[j]] + rs[j + 1..];
  }

  lemma FreeReaches(rs: seq<Record>, qs: seq<Record>)
    requires |rs| >= 2 && SameBag(rs, qs) && OrderFree(rs)
    ensures |qs| >= 2 && MergedHit(qs) == Most(rs)
  {
    hide MaxFound, MaxHit, MergedHit;
    SameBagMembers(rs, qs);
    SameMost(rs, qs);
    var v := Most(rs);
    if i :| 0 <= i < |rs| && rs[i].functionsHit >= v && rs[i].functionsFound >= v {
      assert rs[i] in qs;
      var k :| 0 <= k < |qs| && qs[k] == rs[i];
      ReachesAt(qs, v, k, k);
    } else {
      var i :| 0 <= i < |qs| && qs[i].functionsHit == MaxHit(qs);
      var j := if i == 0 then 1 else 0;
      PairInBag(qs, if i < j then i else j, if i < j then j else i);
      var k, l := TwoPlaces(rs, qs[i], qs[j]);
      assert qs[i] in rs;
      ReachesAt(qs, v, i, if qs[i].functionsFound >= v then i else j);
    }
    MergedHitReaches(qs, v);
    NeverMore(qs);
  }

  function Low(rs: seq<Record>, v: int): seq<Record> {
    if rs == [] then [] else (if rs[0].functionsFound < v then [rs[0]] else []) + Low(rs[1..], v)
  }

  function High(rs: seq<Record>, v: int): seq<Record> {
    if rs == [] then [] else (if rs[0].functionsFound < v then [] else [rs[0]]) + High(rs[1..], v)
  }

  lemma {:induction false} LowHigh(rs: seq<Record>, v: int)
    ensures multiset(Low(rs, v)) + multiset(High(rs, v)) == multiset(rs)
  {
    if rs != [] {
      var head, rest := [rs[0]], rs[1..];
      LowHigh(rest, v);
      assert rs == head + rest;
      assert multiset(rs) == multiset(head) + multiset(rest);
      if rs[0].functionsFound < v {
        assert Low(rs, v) == head + Low(rest, v) && High(rs, v) == High(rest, v);
        Together(head, Low(rest, v));
      } else {
        assert High(rs, v) == head + High(rest, v) && Low(rs, v) == Low(rest, v);
        Together(head, High(rest, v));
      }
      hide Low, High;
    }
  }

  lemma Together(a: seq<Record>, b: seq<Record>)
    ensures multiset(a + b) == multiset(a) + multiset(b)
  {}

  lemma {:induction false} LowBound(rs: seq<Record>, v: int)
    ensures forall i :: 0 <= i < |Low(rs, v)| ==> Low(rs, v)[i].functionsFound < v
    ensures forall i :: 0 <= i < |High(rs, v)| ==> High(rs, v)[i].functionsFound >= v
  {
    if rs != [] { LowBound(rs[1..], v); }
  }

  /** With two low records in front, and none that hits much among the high ones, much is not reached. */
  lemma NotReached(low: seq<Record>, high: seq<Record>, v: int)
    requires |low| >= 2
    requires forall i :: 0 <= i < |low| ==> low[i].functionsFound < v
    requires forall i :: 0 <= i < |high| ==> high[i].functionsHit < v
    ensures !Reaches(low + high, v)
  {
    var qs := low + high;
    assert forall i :: 0 <= i < |low| ==> qs[i] == low[i];
    assert forall i :: |low| <= i < |qs| ==> qs[i] == high[i - |low|];
    assert forall i, j :: 0 <= i < |low| && InTime(j, i) ==> j < |low|;
  }

  /** The order in which the records that found little come first. */
  lemma WorstOrder(rs: seq<Record>) returns (qs: seq<Record>)
    requires rs != [] && !OrderFree(rs)
    ensures SameBag(rs, qs) && qs != [] && MergedHit(qs) < Most(rs)
  {
    hide MaxFound, MaxHit, MergedHit, Reaches, Low, High, Most;
    var v := Most(rs);
    LowHigh(rs, v);
    LowBound(rs, v);
    var low, high := Low(rs, v), High(rs, v);
    qs := low + high;
    Together(low, high);
    HighHitsLess(rs, high, v);
    var i, j :| 0 <= i < j < |rs| && rs[i].functionsFound < v && rs[j].functionsFound < v;
    PairInBag(rs, i, j);
    LowHasBoth(rs, low, high, rs[i], rs[j], v);
    NotReached(low, high, v);
    MergedHitReaches(qs, v);
  }

  lemma HighHitsLess(rs: seq<Record>, high: seq<Record>, v: int)
    requires multiset(high) <= multiset(rs) && forall i :: 0 <= i < |high| ==> high[i].functionsFound >= v
    requires forall i :: 0 <= i < |rs| ==> rs[i].functionsHit < v || rs[i].functionsFound < v
    ensures forall i :: 0 <= i < |high| ==> high[i].functionsHit < v
  {
    forall i | 0 <= i < |high|
      ensures high[i].functionsHit < v
    {
      assert high[i] in multiset(high) && high[i] in rs;
    }
  }

  lemma LowHasBoth(rs: seq<Record>, low: seq<Record>, high: seq<Record>, x: Record, y: Record, v: int)
    requires multiset(low) + multiset(high) == multiset(rs) && multiset{x, y} <= multiset(rs)
    requires x.functionsFound < v && y.functionsFound < v
    requires forall i :: 0 <= i < |high| ==> high[i].functionsFound >= v
    ensures |low| >= 2
  {
    assert x !in high && y !in high;
    assert multiset(high)[x] == 0 && multiset(high)[y] == 0;
    assert multiset{x, y} <= multiset(low);
    var i, j := TwoPlaces(low, x, y);
  }

  /** The order in which a record that found most comes first. */
  lemma BestOrder(rs: seq<Record>) returns (qs: seq<Record>)
    requires |rs| >= 2
    ensures SameBag(rs, qs) && qs != [] && MergedHit(qs) == Most(rs)
  {
    hide MaxFound, MaxHit, MergedHit;
    var m :| 0 <= m < |rs| && rs[m].functionsFound == MaxFound(rs);
    qs := [rs[m]] + (rs[..m] + rs[m + 1..]);
    assert rs == rs[..m] + [rs[m]] + rs[m + 1..];
    assert SameBag(rs, qs);
    SameBagMembers(rs, qs);
    SameMost(rs, qs);
    var i :| 0 <= i < |qs| && qs[i].functionsHit == MaxHit(qs);
    ReachesAt(qs, Most(rs), i, 0);
    MergedHitReaches(qs, Most(rs));
    NeverMore(qs);
  }

  ghost predicate EveryOrderSame(rs: seq<Record>)
    requires rs != []
  {
    forall qs :: qs != [] && SameBag(rs, qs) ==> MergedHit(qs) == MergedHit(rs)
  }

  /** A file's merged hits are the same in every order exactly when its records are order-free. */
  lemma OrderFreeExactly(rs: seq<Record>)
    requires rs != []
    ensures EveryOrderSame(rs) <==> OrderFree(rs)
  {
    if OrderFree(rs) {
      forall qs | qs != [] && SameBag(rs, qs)
        ensures MergedHit(qs) == MergedHit(rs)
      {
        SameBagMembers(rs, qs);
        if |rs| == 1 {
          assert qs[0] in qs;
        } else {
          FreeReaches(rs, qs);
          FreeReaches(rs, rs);
        }
      }
    } else {
      var best := BestOrder(rs);
      var worst := WorstOrder(rs);
    }
  }

  // ── The records of many files ──

  function OfFile(rs: seq<Record>, f: string): seq<Record> {
    if rs == [] then []
    else
      var n := |rs| - 1;
      OfFile(rs[..n], f) + if rs[n].sourceFile == f then [rs[n]] else []
  }

  function Others(rs: seq<Record>, f: string): seq<Record> {
    if rs == [] then []
    else
      var n := |rs| - 1;
      Others(rs[..n], f) + if rs[n].sourceFile == f then [] else [rs[n]]
  }

  lemma FileStep(rs: seq<Record>, f: string)
    requires rs != []
    ensures var n := |rs| - 1;
            var last := [rs[n]];
            && multiset(rs) == multiset(rs[..n]) + multiset(last)
            && multiset(OfFile(rs, f)) == multiset(OfFile(rs[..n], f))
              + (if rs[n].sourceFile == f then multiset(last) else multiset{})
            && multiset(Others(rs, f)) == multiset(Others(rs[..n], f))
              + (if rs[n].sourceFile == f then multiset{} else multiset(last))
  {
    var n := |rs| - 1;
    assert rs == rs[..n] + [rs[n]];
    Together(rs[..n], [rs[n]]);
    Together(OfFile(rs[..n], f), [rs[n]]);
    Together(Others(rs[..n], f), [rs[n]]);
  }

  lemma {:induction false} OfFileBag(rs: seq<Record>, f: string, r: Record)
    ensures multiset(OfFile(rs, f))[r] == if r.sourceFile == f then multiset(rs)[r] else 0
    ensures multiset(Others(rs, f))[r] == if r.sourceFile == f then 0 else multiset(rs)[r]
  {
    if rs != [] {
      hide OfFile, Others;
      OfFileBag(rs[..|rs| - 1], f, r);
      FileStep(rs, f);
    }
  }

  lemma SameBagOfFile(a: seq<Record>, b: seq<Record>, f: string)
    requires SameBag(a, b)
    ensures SameBag(OfFile(a, f), OfFile(b, f))
  {
    hide OfFile;
    forall r ensures multiset(OfFile(a, f))[r] == multiset(OfFile(b, f))[r] {
      OfFileBag(a, f, r);
      OfFileBag(b, f, r);
    }
  }

  lemma {:induction false} OfFileAppend(a: seq<Record>, b: seq<Record>, f: string)
    ensures OfFile(a + b, f) == OfFile(a, f) + OfFile(b, f)
  {
    if b == [] {
      assert a + b == a;
    } else {
      var n := |b| - 1;
      assert (a + b)[..|a + b| - 1] == a + b[..n];
      OfFileAppend(a, b[..n], f);
    }
  }

  /** A list whose records are all of one file, or none of them is. */
  lemma {:induction false} OfFileAll(rs: seq<Record>, f: string)
    requires forall r :: r in rs ==> r.sourceFile == f
    ensures OfFile(rs, f) == rs
    ensures forall g :: g != f ==> OfFile(rs, g) == []
  {
    if rs != [] {
      var n := |rs| - 1;
      assert rs == rs[..n] + [rs[n]] && rs[n] in rs;
      assert forall r :: r in rs[..n] ==> r in rs;
      OfFileAll(rs[..n], f);
    }
  }

  lemma {:induction false} OfFileNone(rs: seq<Record>, f: string)
    requires forall r :: r in rs ==> r.sourceFile != f
    ensures OfFile(rs, f) == []
  {
    if rs != [] {
      var n := |rs| - 1;
      assert rs[n] in rs;
      assert forall r :: r in rs[..n] ==> r in rs;
      OfFileNone(rs[..n], f);
    }
  }

  lemma InBag(rs: seq<Record>, r: Record)
    ensures r in rs <==> multiset(rs)[r] > 0
  {
    assert r in rs <==> r in multiset(rs);
  }

  lemma OfFileMembers(rs: seq<Record>, f: string)
    ensures forall r :: r in OfFile(rs, f) <==> r in rs && r.sourceFile == f
    ensures forall r :: r in Others(rs, f) <==> r in rs && r.sourceFile != f
    ensures OfFile(rs, f) != [] <==> HasFile(rs, f)
  {
    hide OfFile, Others;
    forall r
      ensures r in OfFile(rs, f) <==> r in rs && r.sourceFile == f
      ensures r in Others(rs, f) <==> r in rs && r.sourceFile != f
    {
      OfFileBag(rs, f, r);
      InBag(rs, r);
      InBag(OfFile(rs, f), r);
      InBag(Others(rs, f), r);
    }
    if OfFile(rs, f) != [] { assert OfFile(rs, f)[0] in OfFile(rs, f); }
  }

  /** Merging many records merges each file's own. */
  lemma {:induction false} MergedByFile(rs: seq<Record>, f: string)
    requires OfFile(rs, f) != []
    ensures f in AbsorbAll(rs) && AbsorbAll(rs)[f].sourceFile == f
    ensures AbsorbAll(rs)[f].functionsFound == MaxFound(OfFile(rs, f))
    ensures AbsorbAll(rs)[f].functionsHit == MergedHit(OfFile(rs, f))
  {
    var n := |rs| - 1;
    var before, last := rs[..n], rs[n];
    MergeKeeps(before, f, 0);
    MergeKeeps(rs, f, 0);
    OfFileMembers(before, f);
    if last.sourceFile == f {
      var own := OfFile(before, f);
      assert (own + [last])[..|own|] == own;
      if own != [] { MergedByFile(before, f); }
    } else {
      assert OfFile(rs, f) == OfFile(before, f);
      MergedByFile(before, f);
    }
  }

  // ── Totals ──

  /** The totals over records taken in this order. */
  function TotalsOf(rs: seq<Record>): Totals { SumRecords(InOrder(AbsorbAll(rs))) }

  /** The merged records of two orders, file by file, apart from what is hit. */
  lemma SameFilesMerged(a: seq<Record>, b: seq<Record>)
    requires SameBag(a, b)
    ensures var x, y := InOrder(AbsorbAll(a)), InOrder(AbsorbAll(b));
            && AbsorbAll(a).Keys == AbsorbAll(b).Keys && |x| == |y|
            && (forall i :: 0 <= i < |x| ==> x[i].sourceFile == y[i].sourceFile && HasFile(a, x[i].sourceFile))
            && (forall i :: 0 <= i < |x| ==> x[i].sourceFile in AbsorbAll(a) && x[i].sourceFile in AbsorbAll(b))
            && (forall i :: 0 <= i < |x| ==>
                  x[i] == AbsorbAll(a)[x[i].sourceFile] && y[i] == AbsorbAll(b)[x[i].sourceFile])
            && (forall i :: 0 <= i < |x| ==> x[i].functionsFound == y[i].functionsFound)
  {
    hide AbsorbAll, Sorted, OfFile, MaxFound, MergedHit;
    var m, n := AbsorbAll(a), AbsorbAll(b);
    SameBagMembers(a, b);
    MergedNamed(a);
    MergedNamed(b);
    forall f ensures f in m <==> f in n {
      MergeKeeps(a, f, 0);
      MergeKeeps(b, f, 0);
    }
    assert m.Keys == n.Keys;
    SortedInside(m);
    var files := Sorted(m.Keys);
    forall i | 0 <= i < |files|
      ensures m[files[i]].functionsFound == n[files[i]].functionsFound && HasFile(a, files[i])
    {
      var f := files[i];
      MergeKeeps(a, f, 0);
      MergeKeeps(b, f, 0);
      OfFileMembers(a, f);
      OfFileMembers(b, f);
      MergedByFile(a, f);
      MergedByFile(b, f);
      SameBagOfFile(a, b, f);
      SameMost(OfFile(a, f), OfFile(b, f));
    }
  }

  lemma {:induction false} SumsFound(a: seq<Record>, b: seq<Record>)
    requires |a| == |b|
    requires forall i :: 0 <= i < |a| ==>
               a[i].sourceFile == b[i].sourceFile && a[i].functionsFound == b[i].functionsFound
    ensures SumRecords(a).functionsFound == SumRecords(b).functionsFound
  {
    if a != [] { SumsFound(a[1..], b[1..]); }
  }

  /** Sums of source records that differ in at most one place differ by as much as that place. */
  lemma {:induction false} SumsHit(a: seq<Record>, b: seq<Record>, m: int)
    requires |a| == |b| && forall i :: 0 <= i < |a| ==> a[i].sourceFile == b[i].sourceFile
    requires forall i :: 0 <= i < |a| && i != m && IsSource(a[i].sourceFile) ==> a[i].functionsHit == b[i].functionsHit
    ensures SumRecords(a).functionsHit - SumRecords(b).functionsHit ==
      if 0 <= m < |a| && IsSource(a[m].sourceFile) then a[m].functionsHit - b[m].functionsHit else 0
  {
    if a != [] {
      assert forall i :: 0 <= i < |a[1..]| ==> a[1..][i] == a[i + 1] && b[1..][i] == b[i + 1];
      SumsHit(a[1..], b[1..], m - 1);
    }
  }

  ghost predicate FilesOrderFree(rs: seq<Record>) {
    forall f :: IsSource(f) && OfFile(rs, f) != [] ==> OrderFree(OfFile(rs, f))
  }

  ghost predicate TotalsOrderFree(rs: seq<Record>) {
    forall qs :: SameBag(rs, qs) ==> TotalsOf(qs).functionsHit == TotalsOf(rs).functionsHit
  }

  lemma HitsAgree(a: seq<Record>, b: seq<Record>)
    requires SameBag(a, b) && FilesOrderFree(a)
    ensures TotalsOf(a).functionsHit == TotalsOf(b).functionsHit
  {
    hide AbsorbAll, InOrder, OfFile, MaxFound, MergedHit, OrderFree, SumRecords;
    SameFilesMerged(a, b);
    var x, y := InOrder(AbsorbAll(a)), InOrder(AbsorbAll(b));
    forall i | 0 <= i < |x| && IsSource(x[i].sourceFile)
      ensures x[i].functionsHit == y[i].functionsHit
    {
      var f := x[i].sourceFile;
      OfFileMembers(a, f);
      SameBagMembers(a, b);
      OfFileMembers(b, f);
      MergedByFile(a, f);
      MergedByFile(b, f);
      SameBagOfFile(a, b, f);
      OrderFreeExactly(OfFile(a, f));
    }
    SumsHit(x, y, -1);
  }

  /** Two orders of one file's records in front of all the others. */
  lemma InFront(rs: seq<Record>, f: string, own: seq<Record>)
    requires SameBag(OfFile(rs, f), own)
    ensures var qs := own + Others(rs, f);
            && SameBag(rs, qs) && OfFile(qs, f) == own
            && forall g :: g != f ==> OfFile(qs, g) == OfFile(Others(rs, f), g)
  {
    hide OfFile, Others;
    var rest := Others(rs, f);
    var qs := own + rest;
    OfFileMembers(rs, f);
    SameBagMembers(OfFile(rs, f), own);
    OfFileAll(own, f);
    OfFileNone(rest, f);
    Together(own, rest);
    forall r ensures multiset(qs)[r] == multiset(rs)[r] { OfFileBag(rs, f, r); }
    forall g ensures OfFile(qs, g) == OfFile(own, g) + OfFile(rest, g) { OfFileAppend(own, rest, g); }
  }

  lemma HitsDiffer(rs: seq<Record>, f: string) returns (p: seq<Record>, q: seq<Record>)
    requires IsSource(f) && OfFile(rs, f) != [] && !OrderFree(OfFile(rs, f))
    ensures SameBag(rs, p) && SameBag(rs, q) && TotalsOf(p).functionsHit != TotalsOf(q).functionsHit
  {
    hide AbsorbAll, InOrder, OfFile, Others, MaxFound, MergedHit, SumRecords;
    var best := BestOrder(OfFile(rs, f));
    var worst := WorstOrder(OfFile(rs, f));
    InFront(rs, f, best);
    InFront(rs, f, worst);
    p, q := best + Others(rs, f), worst + Others(rs, f);
    SameFilesMerged(p, q);
    var x, y := InOrder(AbsorbAll(p)), InOrder(AbsorbAll(q));
    MergedByFile(p, f);
    MergedByFile(q, f);
    var m := PlaceOf(p, f);
    forall i | 0 <= i < |x| && i != m && IsSource(x[i].sourceFile)
      ensures x[i].functionsHit == y[i].functionsHit
    {
      var g := x[i].sourceFile;
      OnlyPlace(p, f, m, i);
      OfFileMembers(p, g);
      MergedByFile(p, g);
      MergedByFile(q, g);
    }
    SumsHit(x, y, m);
  }

  lemma PlaceOf(rs: seq<Record>, f: string) returns (m: int)
    requires f in AbsorbAll(rs)
    ensures 0 <= m < |InOrder(AbsorbAll(rs))| && InOrder(AbsorbAll(rs))[m].sourceFile == f
  {
    hide AbsorbAll;
    var byFile := AbsorbAll(rs);
    MergedNamed(rs);
    InOrderHas(byFile, byFile[f]);
    var out := InOrder(byFile);
    assert byFile[f] in out;
    m :| 0 <= m < |out| && out[m] == byFile[f];
  }

  lemma OnlyPlace(rs: seq<Record>, f: string, m: int, i: int)
    requires var out := InOrder(AbsorbAll(rs));
             0 <= m < |out| && 0 <= i < |out| && i != m && out[m].sourceFile == f
    ensures InOrder(AbsorbAll(rs))[i].sourceFile != f
  {
    hide AbsorbAll, InOrder;
    MergedNamed(rs);
    InOrderDistinct(AbsorbAll(rs));
  }

  /** The total of functions hit is the same in every order exactly when every source file is order-free. */
  lemma TotalsOrderFreeExactly(rs: seq<Record>)
    ensures TotalsOrderFree(rs) <==> FilesOrderFree(rs)
  {
    hide AbsorbAll, InOrder, OfFile, OrderFree, SumRecords;
    if FilesOrderFree(rs) {
      forall qs | SameBag(rs, qs)
        ensures TotalsOf(qs).functionsHit == TotalsOf(rs).functionsHit
      {
        HitsAgree(rs, qs);
      }
    } else {
      var f :| IsSource(f) && OfFile(rs, f) != [] && !OrderFree(OfFile(rs, f));
      var p, q := HitsDiffer(rs, f);
    }
  }

  // ── At the gate ──

  /** One report for each record. */
  lemma {:induction false} RecordsOfFormats(rs: seq<Record>)
    requires OneLineNames(rs)
    ensures AllRecords(Formats(rs)) == rs
    decreases |rs|
  {
    hide Format, Parse, Formats;
    if rs == [] {
      NoFormats();
    } else {
      var n := |rs| - 1;
      assert OneLineNames(rs[..n]);
      RecordsOfFormats(rs[..n]);
      FormatsAppend(rs[..n], rs[n]);
      assert rs == rs[..n] + [rs[n]];
      assert Formats(rs)[..n] == Formats(rs[..n]) && Formats(rs)[n] == Format(rs[n]);
      ParseUndoesFormat(rs[n]);
    }
  }

  lemma NoFormats()
    ensures Formats([]) == []
  {}

  lemma {:induction false} FormatsAppend(rs: seq<Record>, r: Record)
    ensures Formats(rs + [r]) == Formats(rs) + [Format(r)]
  {
    hide Format;
    if rs == [] {
      assert rs + [r] == [r] && Formats([]) == [];
      assert [r][1..] == [];
    } else {
      assert (rs + [r])[1..] == rs[1..] + [r];
      FormatsAppend(rs[1..], r);
    }
  }

  lemma GateOf(reports: seq<string>)
    ensures SumSourceCoverage(MergeLcov(reports)) == TotalsOf(AllRecords(reports))
  {
    hide SumSourceCoverage, Output, SumRecords, InOrder, AbsorbAll, AllRecords;
    MergedNames(reports);
    GateReadsOutput(Merged(reports));
  }

  /**
   * The gate reads the same totals off the merge of these reports in whatever order they come, as long as
   * every source file's records are order-free.
   */
  lemma GateIgnoresOrder(a: seq<string>, b: seq<string>)
    requires SameBag(AllRecords(a), AllRecords(b)) && FilesOrderFree(AllRecords(a))
    ensures SumSourceCoverage(MergeLcov(a)) == SumSourceCoverage(MergeLcov(b))
  {
    hide AllRecords, AbsorbAll, InOrder, OfFile, OrderFree, SumRecords, SumSourceCoverage, MergeLcov;
    SameGateButHits(a, b);
    GateOf(a);
    GateOf(b);
    HitsAgree(AllRecords(a), AllRecords(b));
  }

  /** Only the functions hit can depend on the order. */
  lemma SameGateButHits(a: seq<string>, b: seq<string>)
    requires SameBag(AllRecords(a), AllRecords(b))
    ensures var s, t := SumSourceCoverage(MergeLcov(a)), SumSourceCoverage(MergeLcov(b));
            s.linesFound == t.linesFound && s.linesHit == t.linesHit && s.functionsFound == t.functionsFound
  {
    hide AllRecords, AbsorbAll, InOrder, SumRecords, SumSourceCoverage, MergeLcov;
    SameBagMembers(AllRecords(a), AllRecords(b));
    OrderDoesNotMatter(a, b);
    GateOf(a);
    GateOf(b);
    SameFilesMerged(AllRecords(a), AllRecords(b));
    SumsFound(InOrder(AbsorbAll(AllRecords(a))), InOrder(AbsorbAll(AllRecords(b))));
  }

  ghost predicate GateOrderFree(rs: seq<Record>) {
    forall qs :: SameBag(rs, qs) ==>
      SumSourceCoverage(MergeLcov(Formats(qs))) == SumSourceCoverage(MergeLcov(Formats(rs)))
  }

  /** With a report for each record, it reads the same totals in every order exactly then. */
  lemma GateIgnoresOrderExactly(rs: seq<Record>)
    requires OneLineNames(rs)
    ensures GateOrderFree(rs) <==> FilesOrderFree(rs)
  {
    hide AllRecords, AbsorbAll, InOrder, OfFile, OrderFree, SumRecords, SumSourceCoverage, MergeLcov, Formats;
    TotalsOrderFreeExactly(rs);
    forall qs | SameBag(rs, qs)
      ensures OneLineNames(qs) && AllRecords(Formats(qs)) == qs
      ensures SumSourceCoverage(MergeLcov(Formats(qs))) == TotalsOf(qs)
    {
      SameNamesInBag(rs, qs);
      RecordsOfFormats(qs);
      GateOf(Formats(qs));
    }
    if FilesOrderFree(rs) {
      forall qs | SameBag(rs, qs)
        ensures SumSourceCoverage(MergeLcov(Formats(qs))) == SumSourceCoverage(MergeLcov(Formats(rs)))
      {
        GateIgnoresOrder(Formats(rs), Formats(qs));
      }
    }
    if GateOrderFree(rs) {
      forall qs | SameBag(rs, qs)
        ensures TotalsOf(qs).functionsHit == TotalsOf(rs).functionsHit
      {
        assert SumSourceCoverage(MergeLcov(Formats(qs))) == TotalsOf(qs);
      }
    }
  }

  lemma SameNamesInBag(rs: seq<Record>, qs: seq<Record>)
    requires OneLineNames(rs) && SameBag(rs, qs)
    ensures OneLineNames(qs)
  {
    SameBagMembers(rs, qs);
    forall i | 0 <= i < |qs|
      ensures '\n' !in qs[i].sourceFile
    {
      assert qs[i] in qs && qs[i] in rs;
    }
  }
}
