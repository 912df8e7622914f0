/** The merge script and the coverage gate as they are written: loops over lines, records and files. */
module LcovScripts {
  import opened Options
  import opened Text
  import opened StringOrder
  import opened IntOrder
  import opened Lcov
  import opened LcovMerge

  method ParseLcov(report: string) returns (records: seq<Record>)
    ensures records == Parse(report)
  {
    hide ReadLine, Split;
    var lines := Split(report, '\n');
    records := [];
    var current: Option<Record> := None;
    for i := 0 to |lines|
      invariant records + ParseLines(lines[i..], current) == Parse(report)
    {
      var line := lines[i];
      assert lines[i..][0] == line && lines[i..][1..] == lines[i + 1..];
      if "SF:" <= line {
        current := Some(StartRecord(line));
        continue;
      }
      if current.None? { continue; }
      if line == "end_of_record" {
        records := records + [current.value];
        current := None;
        continue;
      }
      current := Some(ReadLine(current.value, line));
    }
    assert lines[|lines|..] == [];
  }

  function CountHits(numbers: seq<int>, lines: map<int, int>): nat
    requires forall i :: 0 <= i < |numbers| ==> numbers[i] in lines
  {
    if numbers == [] then 0 else (if lines[numbers[0]] > 0 then 1 else 0) + CountHits(numbers[1..], lines)
  }

  function HitAmong(numbers: seq<int>, lines: map<int, int>): set<int>
    requires forall i :: 0 <= i < |numbers| ==> numbers[i] in lines
  {
    if numbers == [] then {} else (if lines[numbers[0]] > 0 then {numbers[0]} else {}) + HitAmong(numbers[1..], lines)
  }

  lemma {:induction false} HitAmongHas(numbers: seq<int>, lines: map<int, int>, i: nat)
    requires forall i :: 0 <= i < |numbers| ==> numbers[i] in lines
    requires i < |numbers| && lines[numbers[i]] > 0
    ensures numbers[i] in HitAmong(numbers, lines)
  {
    if i > 0 { HitAmongHas(numbers[1..], lines, i - 1); }
  }

  lemma {:induction false} HitAmongOnly(numbers: seq<int>, lines: map<int, int>, n: int)
    requires forall i :: 0 <= i < |numbers| ==> numbers[i] in lines
    requires n in HitAmong(numbers, lines)
    ensures n in lines && lines[n] > 0 && exists i :: 0 <= i < |numbers| && numbers[i] == n
  {
    if n == numbers[0] && lines[n] > 0 {
    } else {
      HitAmongOnly(numbers[1..], lines, n);
      var i :| 0 <= i < |numbers[1..]| && numbers[1..][i] == n;
      assert numbers[i + 1] == n;
    }
  }

  lemma {:induction false} CountIsSize(numbers: seq<int>, lines: map<int, int>)
    requires forall i :: 0 <= i < |numbers| ==> numbers[i] in lines
    requires forall i, j :: 0 <= i < j < |numbers| ==> numbers[i] < numbers[j]
    ensures CountHits(numbers, lines) == |HitAmong(numbers, lines)|
  {
    if numbers != [] {
      CountIsSize(numbers[1..], lines);
      forall n | n in HitAmong(numbers[1..], lines)
        ensures n != numbers[0]
      {
        HitAmongOnly(numbers[1..], lines, n);
      }
    }
  }

  lemma IndexAscending(s: set<int>, n: int) returns (i: nat)
    requires n in s
    ensures i < |Ascending(s)| && Ascending(s)[i] == n
  {
    assert n in Ascending(s);
    hide Ascending;
    i :| i < |Ascending(s)| && Ascending(s)[i] == n;
  }

  lemma AllCounted(lines: map<int, int>)
    ensures CountHits(Ascending(lines.Keys), lines) == |HitLines(lines)|
  {
    AscendingIsSorted(lines.Keys);
    var numbers := Ascending(lines.Keys);
    hide Ascending, HitAmong;
    CountIsSize(numbers, lines);
    var among := HitAmong(numbers, lines);
    forall n | n in HitLines(lines) ensures n in among {
      var i := IndexAscending(lines.Keys, n);
      HitAmongHas(numbers, lines, i);
    }
    forall n | n in among ensures n in HitLines(lines) { HitAmongOnly(numbers, lines, n); }
    assert among == HitLines(lines);
  }

  method FormatRecord(r: Record) returns (text: string)
    ensures text == Format(r)
  {
    hide DaLine, Ascending, HitLines, FromInt, Join;
    var lineNumbers := Ascending(r.lines.Keys);
    var linesHit: nat := 0;
    var daLines: seq<string> := [];
    for i := 0 to |lineNumbers|
      invariant daLines + DaLines(lineNumbers[i..], r.lines) == DaLines(lineNumbers, r.lines)
      invariant linesHit + CountHits(lineNumbers[i..], r.lines) == CountHits(lineNumbers, r.lines)
    {
      var n := lineNumbers[i];
      assert lineNumbers[i..][0] == n && lineNumbers[i..][1..] == lineNumbers[i + 1..];
      if r.lines[n] > 0 { linesHit := linesHit + 1; }
      daLines := daLines + [DaLine(n, r.lines[n])];
    }
    assert lineNumbers[|lineNumbers|..] == [];
    AllCounted(r.lines);
    assert daLines == daLines + DaLines(lineNumbers[|lineNumbers|..], r.lines);
    text := Join(Head(r) + daLines + ["LF:" + FromInt(|lineNumbers|), "LH:" + FromInt(linesHit), "end_of_record"],
      '\n');
  }

  lemma OneMore(rs: seq<Record>, r: Record)
    ensures AbsorbAll(rs + [r]) == Absorb(AbsorbAll(rs), r)
  {
    assert (rs + [r])[..|rs|] == rs;
  }

  /** Takes one report's records into the files seen so far. */
  method AbsorbReport(byFile: map<string, Record>, records: seq<Record>, ghost earlier: seq<Record>)
    returns (next: map<string, Record>)
    requires byFile == AbsorbAll(earlier)
    ensures next == AbsorbAll(earlier + records)
  {
    hide MergeRecord, AbsorbAll;
    next := byFile;
    assert earlier + records[..0] == earlier;
    for i := 0 to |records|
      invariant next == AbsorbAll(earlier + records[..i])
    {
      var record := records[i];
      var existing := if record.sourceFile in next then Some(next[record.sourceFile]) else None;
      assert earlier + records[..i + 1] == (earlier + records[..i]) + [record];
      OneMore(earlier + records[..i], record);
      if existing.None? {
        next := next[record.sourceFile := record];
        continue;
      }
      var merged := MergeInto(existing.value, record);
      next := next[record.sourceFile := merged];
    }
    assert earlier + records[..|records|] == earlier + records;
  }

  /** The merge once the lines in `done` have been taken in. */
  ghost function MergeSome(a: map<int, int>, b: map<int, int>, done: set<int>): map<int, int>
    requires done <= b.Keys
  {
    map n | n in a.Keys + done :: if n in done then Max(if n in a then a[n] else 0, b[n]) else a[n]
  }

  lemma MergeOne(a: map<int, int>, b: map<int, int>, done: set<int>, n: int)
    requires done <= b.Keys && n in b
    ensures var lines := MergeSome(a, b, done);
            MergeSome(a, b, done + {n}) == lines[n := Max(if n in lines then lines[n] else 0, b[n])]
  {}

  lemma MergeNone(a: map<int, int>, b: map<int, int>)
    ensures MergeSome(a, b, {}) == a && MergeSome(a, b, b.Keys) == MergeLines(a, b)
  {}

  /** Line by line the larger count, then the function totals. */
  method MergeInto(existing: Record, record: Record) returns (merged: Record)
    ensures merged == MergeRecord(existing, record)
  {
    hide Max, MergeLines, MergeSome, Ascending;
    MergeNone(existing.lines, record.lines);
    var lines := existing.lines;
    var numbers := Ascending(record.lines.Keys);
    ghost var done: set<int> := {};
    for i := 0 to |numbers|
      invariant forall j :: 0 <= j < i ==> numbers[j] in done
      invariant done <= record.lines.Keys && lines == MergeSome(existing.lines, record.lines, done)
    {
      var n := numbers[i];
      MergeOne(existing.lines, record.lines, done, n);
      lines := lines[n := Max(if n in lines then lines[n] else 0, record.lines[n])];
      done := done + {n};
    }
    forall n | n in record.lines.Keys ensures n in done { var i := IndexAscending(record.lines.Keys, n); }
    assert done == record.lines.Keys;
    var found := Max(existing.functionsFound, record.functionsFound);
    merged := Record(existing.sourceFile, lines, found, Min(found, Max(existing.functionsHit, record.functionsHit)));
  }

  method MergeReports(reports: seq<string>) returns (merged: string)
    ensures merged == MergeLcov(reports)
  {
    hide Parse, AbsorbAll;
    var byFile: map<string, Record> := map[];
    NothingAbsorbed();
    for i := 0 to |reports|
      invariant byFile == AbsorbAll(AllRecords(reports[..i]))
    {
      var records := ParseLcov(reports[i]);
      assert reports[..i + 1][..i] == reports[..i];
      byFile := AbsorbReport(byFile, records, AllRecords(reports[..i]));
    }
    assert reports[..|reports|] == reports;
    merged := PrintFiles(byFile);
  }

  method PrintFiles(byFile: map<string, Record>) returns (text: string)
    ensures text == Output(InOrder(byFile))
  {
    hide Sorted, Format;
    SortedInside(byFile);
    var files := Sorted(byFile.Keys);
    var chunks: seq<string> := [];
    ghost var records := InOrder(byFile);
    for i := 0 to |files|
      invariant chunks + Formats(records[i..]) == Formats(records)
    {
      assert records[i..][1..] == records[i + 1..] && records[i..][0] == byFile[files[i]];
      var chunk := FormatRecord(byFile[files[i]]);
      chunks := chunks + [chunk];
    }
    assert records[|files|..] == [];
    assert chunks == chunks + Formats(records[|files|..]);
    text := if |chunks| == 0 then "" else Join(chunks, '\n') + "\n";
  }

  lemma NothingAbsorbed()
    ensures AbsorbAll([]) == map[]
  {}

  method SumCoverage(lcov: string) returns (totals: Totals)
    ensures totals == SumSourceCoverage(lcov)
  {
    hide Split, Number;
    var lines := Split(lcov, '\n');
    totals := ZERO;
    var insideSourceRecord := false;
    for i := 0 to |lines|
      invariant Plus(totals, SumLines(lines[i..], insideSourceRecord)) == SumSourceCoverage(lcov)
    {
      var line := lines[i];
      assert lines[i..][0] == line && lines[i..][1..] == lines[i + 1..];
      if "SF:" <= line {
        insideSourceRecord := IsSource(line[3..]);
        continue;
      }
      if !insideSourceRecord { continue; }
      var parts := Split(line, ':');
      var value := if |parts| > 1 then Number(parts[1]) else None;
      if value.None? { continue; }
      var tag := parts[0];
      if tag == "LF" { totals := totals.(linesFound := totals.linesFound + value.value); }
      else if tag == "LH" { totals := totals.(linesHit := totals.linesHit + value.value); }
      else if tag == "FNF" { totals := totals.(functionsFound := totals.functionsFound + value.value); }
      else if tag == "FNH" { totals := totals.(functionsHit := totals.functionsHit + value.value); }
    }
    assert lines[|lines|..] == [];
  }
}
