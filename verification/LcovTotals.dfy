/** What the coverage gate reads off merged reports, whatever their order, and the code that does it. */
module LcovTotals {
  import opened Options
  import opened Text
  import opened StringOrder
  import opened Lcov
  import opened LcovMerge

  // ── Files have names of one line ──

  lemma {:induction false} ParsedNames(lines: seq<string>, current: Option<Record>)
    requires NoBreaks(lines) && (current.Some? ==> '\n' !in current.value.sourceFile)
    ensures OneLineNames(ParseLines(lines, current))
  {
    if lines != [] {
      assert NoBreaks(lines[1..]);
      var next :=
        if "SF:" <= lines[0] then Some(StartRecord(lines[0]))
        else if current.None? || lines[0] == "end_of_record" then None
        else Some(ReadLine(current.value, lines[0]));
      hide Number, Split;
      ParsedNames(lines[1..], next);
    }
  }

  lemma {:induction false} AllNames(reports: seq<string>)
    ensures OneLineNames(AllRecords(reports))
  {
    if reports != [] {
      AllNames(reports[..|reports| - 1]);
      ParsedNames(Split(reports[|reports| - 1], '\n'), None);
    }
  }

  lemma MergedNames(reports: seq<string>)
    ensures OneLineNames(Merged(reports))
  {
    var rs := AllRecords(reports);
    var m := AbsorbAll(rs);
    AllNames(reports);
    MergedNamed(rs);
    hide AbsorbAll, AllRecords, InOrder;
    var out := InOrder(m);
    forall i | 0 <= i < |out|
      ensures '\n' !in out[i].sourceFile
    {
      assert out[i] in out;
      InOrderHas(m, out[i]);
      MergeKeeps(rs, out[i].sourceFile, 0);
      var r :| r in rs && r.sourceFile == out[i].sourceFile;
    }
  }

  /**
   * The gate's line totals on a merged report are the number of distinct source lines found in any
   * report and the number of those hit in at least one.
   */
  lemma GateCountsDistinctLines(reports: seq<string>)
    ensures var t := SumSourceCoverage(MergeLcov(reports));
            && t.linesFound == |Found(AllRecords(reports))|
            && t.linesHit == |Hit(AllRecords(reports))|
  {
    hide SumSourceCoverage, Output, SumRecords, Found, Hit, AbsorbAll, AllRecords, InOrder;
    var rs := AllRecords(reports);
    MergedNames(reports);
    GateReadsOutput(Merged(reports));
    MergedNamed(rs);
    InOrderDistinct(AbsorbAll(rs));
    SumsCountPairs(InOrder(AbsorbAll(rs)));
    SamePairs(rs);
  }

  // ── Function totals ──

  /** No record claims more functions hit than found. */
  ghost predicate Consistent(rs: seq<Record>) { forall r :: r in rs ==> r.functionsHit <= r.functionsFound }

  ghost predicate MostFound(rs: seq<Record>, f: string, n: int) {
    (exists r :: r in rs && r.sourceFile == f && r.functionsFound == n)
    && forall r :: r in rs && r.sourceFile == f ==> r.functionsFound <= n
  }

  ghost predicate MostHit(rs: seq<Record>, f: string, n: int) {
    (exists r :: r in rs && r.sourceFile == f && r.functionsHit == n)
    && forall r :: r in rs && r.sourceFile == f ==> r.functionsHit <= n
  }

  lemma MostExtended(rs: seq<Record>, last: Record, n: int, h: int)
    requires HasFile(rs, last.sourceFile) ==> MostFound(rs, last.sourceFile, n) && MostHit(rs, last.sourceFile, h)
    ensures var has := HasFile(rs, last.sourceFile);
            && MostFound(rs + [last], last.sourceFile, if has then Max(n, last.functionsFound) else last.functionsFound)
            && MostHit(rs + [last], last.sourceFile, if has then Max(h, last.functionsHit) else last.functionsHit)
  {
    var all := rs + [last];
    assert forall r :: r in all <==> r in rs || r == last;
    assert last in all;
  }

  lemma MostOther(rs: seq<Record>, last: Record, f: string, n: int, h: int)
    requires last.sourceFile != f && MostFound(rs, f, n) && MostHit(rs, f, h)
    ensures MostFound(rs + [last], f, n) && MostHit(rs + [last], f, h)
  {
    assert forall r :: r in rs + [last] <==> r in rs || r == last;
  }

  lemma NotEmpty(rs: seq<Record>, f: string)
    requires HasFile(rs, f)
    ensures rs != []
  {}

  lemma {:induction false} MergeTakesMost(rs: seq<Record>, f: string)
    requires Consistent(rs) && HasFile(rs, f)
    ensures f in AbsorbAll(rs)
    ensures var m := AbsorbAll(rs)[f];
            MostFound(rs, f, m.functionsFound) && MostHit(rs, f, m.functionsHit) && m.functionsHit <= m.functionsFound
  {
    hide MostFound, MostHit, HasFile;
    NotEmpty(rs, f);
    var before, last := rs[..|rs| - 1], rs[|rs| - 1];
    assert rs == before + [last];
    Extended(rs, f, 0);
    MergeKeeps(before, f, 0);
    MergeKeeps(rs, f, 0);
    assert Consistent(before);
    assert last in rs;
    if HasFile(before, f) {
      MergeTakesMost(before, f);
      var b := AbsorbAll(before)[f];
      if last.sourceFile == f {
        MostExtended(before, last, b.functionsFound, b.functionsHit);
      } else {
        MostOther(before, last, f, b.functionsFound, b.functionsHit);
      }
    } else {
      MostExtended(before, last, 0, 0);
    }
  }

  lemma MostUnique(a: seq<Record>, b: seq<Record>, f: string, n: int, m: int)
    requires forall r :: r in a <==> r in b
    ensures MostFound(a, f, n) && MostFound(b, f, m) ==> n == m
    ensures MostHit(a, f, n) && MostHit(b, f, m) ==> n == m
  {}

  ghost predicate SameFunctions(a: seq<Record>, b: seq<Record>) {
    |a| == |b| && forall i :: 0 <= i < |a| ==>
      && a[i].sourceFile == b[i].sourceFile
      && a[i].functionsFound == b[i].functionsFound
      && a[i].functionsHit == b[i].functionsHit
  }

  lemma {:induction false} SumsAgree(a: seq<Record>, b: seq<Record>)
    requires SameFunctions(a, b)
    ensures SumRecords(a).functionsFound == SumRecords(b).functionsFound
    ensures SumRecords(a).functionsHit == SumRecords(b).functionsHit
  {
    if a != [] { SumsAgree(a[1..], b[1..]); }
  }

  lemma SameMerged(a: seq<Record>, b: seq<Record>)
    requires Consistent(a) && Consistent(b) && forall r :: r in a <==> r in b
    ensures SameFunctions(InOrder(AbsorbAll(a)), InOrder(AbsorbAll(b)))
  {
    hide AbsorbAll, MostFound, MostHit, Sorted;
    var m, n := AbsorbAll(a), AbsorbAll(b);
    MergedNamed(a);
    MergedNamed(b);
    forall f ensures f in m <==> f in n {
      MergeKeeps(a, f, 0);
      MergeKeeps(b, f, 0);
    }
    assert m.Keys == n.Keys;
    SortedInside(m);
    var files := Sorted(m.Keys);
    forall i | 0 <= i < |files|
      ensures m[files[i]].functionsFound == n[files[i]].functionsFound
      ensures m[files[i]].functionsHit == n[files[i]].functionsHit
    {
      var f := files[i];
      MergeKeeps(a, f, 0);
      MergeKeeps(b, f, 0);
      MergeTakesMost(a, f);
      MergeTakesMost(b, f);
      MostUnique(a, b, f, m[f].functionsFound, n[f].functionsFound);
      MostUnique(a, b, f, m[f].functionsHit, n[f].functionsHit);
    }
  }

  /**
   * The order of the reports does not matter to the line totals, nor to any total as long as no record
   * claims more functions hit than found.
   */
  lemma OrderDoesNotMatter(a: seq<string>, b: seq<string>)
    requires forall r :: r in AllRecords(a) <==> r in AllRecords(b)
    ensures var s, t := SumSourceCoverage(MergeLcov(a)), SumSourceCoverage(MergeLcov(b));
            && s.linesFound == t.linesFound && s.linesHit == t.linesHit
            && (Consistent(AllRecords(a)) ==> s == t)
  {
    hide SumSourceCoverage, Output, SumRecords, AbsorbAll, AllRecords, InOrder;
    GateCountsDistinctLines(a);
    GateCountsDistinctLines(b);
    assert Found(AllRecords(a)) == Found(AllRecords(b)) && Hit(AllRecords(a)) == Hit(AllRecords(b));
    if Consistent(AllRecords(a)) {
      MergedNames(a);
      MergedNames(b);
      GateReadsOutput(Merged(a));
      GateReadsOutput(Merged(b));
      SameMerged(AllRecords(a), AllRecords(b));
      SumsAgree(Merged(a), Merged(b));
    }
  }

  // ── A record that claims more than it found ──

  const ODD := Record("src/a", map[], 1, 5)
  const WIDE := Record("src/a", map[], 10, 0)
  const NARROW := Record("src/a", map[], 1, 0)

  lemma RecordsOf(a: Record, b: Record, c: Record)
    requires '\n' !in a.sourceFile && '\n' !in b.sourceFile && '\n' !in c.sourceFile
    ensures AllRecords([Format(a), Format(b), Format(c)]) == [a, b, c]
  {
    hide Format, Parse;
    ParseUndoesFormat(a);
    ParseUndoesFormat(b);
    ParseUndoesFormat(c);
    var reports := [Format(a), Format(b), Format(c)];
    assert reports[..2] == [Format(a), Format(b)] && reports[..2][..1] == [Format(a)] && [Format(a)][..0] == [];
    assert AllRecords([Format(a)]) == [a];
    assert AllRecords(reports[..2]) == [a] + [b];
  }

  lemma MergedOne(a: Record, b: Record, c: Record)
    requires a.sourceFile == b.sourceFile == c.sourceFile
    ensures InOrder(AbsorbAll([a, b, c])) == [MergeRecord(MergeRecord(a, b), c)]
  {
    hide MergeRecord;
    var f := a.sourceFile;
    assert [a, b, c][..2] == [a, b] && [a, b][..1] == [a] && [a][..0] == [];
    assert AbsorbAll([a]) == map[f := a];
    assert AbsorbAll([a, b]) == map[f := MergeRecord(a, b)] by { Keeps(a, b); }
    Keeps(a, b);
    var m := AbsorbAll([a, b, c]);
    assert m == map[f := MergeRecord(MergeRecord(a, b), c)];
    SortedInside(m);
    assert |Sorted(m.Keys)| == 1 && Sorted(m.Keys)[0] in m;
  }

  lemma Keeps(a: Record, b: Record)
    ensures MergeRecord(a, b).sourceFile == a.sourceFile
  {}

  /** Then the order of three reports decides the total: five functions hit, or one. */
  lemma OrderCanMatter()
    ensures SumSourceCoverage(MergeLcov([Format(ODD), Format(WIDE), Format(NARROW)])).functionsHit == 5
    ensures SumSourceCoverage(MergeLcov([Format(ODD), Format(NARROW), Format(WIDE)])).functionsHit == 1
  {
    hide SumSourceCoverage, MergeLcov, Format, AbsorbAll, InOrder, AllRecords;
    RecordsOf(ODD, WIDE, NARROW);
    RecordsOf(ODD, NARROW, WIDE);
    MergedOne(ODD, WIDE, NARROW);
    MergedOne(ODD, NARROW, WIDE);
    OneSum([Format(ODD), Format(WIDE), Format(NARROW)], MergeRecord(MergeRecord(ODD, WIDE), NARROW));
    OneSum([Format(ODD), Format(NARROW), Format(WIDE)], MergeRecord(MergeRecord(ODD, NARROW), WIDE));
  }

  lemma OneSum(reports: seq<string>, r: Record)
    requires Merged(reports) == [r] && IsSource(r.sourceFile)
    ensures SumSourceCoverage(MergeLcov(reports)).functionsHit == r.functionsHit
  {
    hide SumSourceCoverage, Output, Merged;
    MergedNames(reports);
    GateReadsOutput([r]);
  }
}
