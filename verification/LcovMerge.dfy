/** Merging coverage reports, and what the coverage gate makes of the result. */
module LcovMerge {
  import opened Options
  import opened Text
  import opened StringOrder
  import opened IntOrder
  import opened Lcov

  // ── Merging ──

  function Max(a: int, b: int): int { if a < b then b else a }

  function Min(a: int, b: int): int { if a < b then a else b }

  function MergeLines(a: map<int, int>, b: map<int, int>): map<int, int> {
    map n | n in a.Keys + b.Keys :: if n in b then Max(if n in a then a[n] else 0, b[n]) else a[n]
  }

  function MergeRecord(e: Record, r: Record): Record {
    var found := Max(e.functionsFound, r.functionsFound);
    Record(e.sourceFile, MergeLines(e.lines, r.lines), found, Min(found, Max(e.functionsHit, r.functionsHit)))
  }

  function Absorb(byFile: map<string, Record>, r: Record): map<string, Record> {
    byFile[r.sourceFile := if r.sourceFile in byFile then MergeRecord(byFile[r.sourceFile], r) else r]
  }

  function AbsorbAll(rs: seq<Record>): map<string, Record> {
    if rs == [] then map[] else Absorb(AbsorbAll(rs[..|rs| - 1]), rs[|rs| - 1])
  }

  function AllRecords(reports: seq<string>): seq<Record> {
    if reports == [] then [] else AllRecords(reports[..|reports| - 1]) + Parse(reports[|reports| - 1])
  }

  function Pick(byFile: map<string, Record>, files: seq<string>): (r: seq<Record>)
    requires forall i :: 0 <= i < |files| ==> files[i] in byFile
    ensures |r| == |files|
    ensures forall i :: 0 <= i < |files| ==> r[i] == byFile[files[i]]
  {
    seq(|files|, i requires 0 <= i < |files| => byFile[files[i]])
  }

  lemma SortedInside(byFile: map<string, Record>)
    ensures forall i :: 0 <= i < |Sorted(byFile.Keys)| ==> Sorted(byFile.Keys)[i] in byFile
  {
    forall i | 0 <= i < |Sorted(byFile.Keys)| ensures Sorted(byFile.Keys)[i] in byFile.Keys {
      assert Sorted(byFile.Keys)[i] in Sorted(byFile.Keys);
    }
  }

  function InOrder(byFile: map<string, Record>): seq<Record> {
    SortedInside(byFile);
    Pick(byFile, Sorted(byFile.Keys))
  }

  function Formats(rs: seq<Record>): (r: seq<string>)
    ensures |r| == |rs|
  {
    if rs == [] then [] else [Format(rs[0])] + Formats(rs[1..])
  }

  function Output(rs: seq<Record>): string {
    if rs == [] then "" else Join(Formats(rs), '\n') + "\n"
  }

  function Merged(reports: seq<string>): seq<Record> { InOrder(AbsorbAll(AllRecords(reports))) }

  function MergeLcov(reports: seq<string>): string { Output(Merged(reports)) }

  // ── The gate ──

  datatype Totals = Totals(linesFound: int, linesHit: int, functionsFound: int, functionsHit: int)

  const ZERO := Totals(0, 0, 0, 0)

  function Plus(a: Totals, b: Totals): Totals {
    Totals(a.linesFound + b.linesFound, a.linesHit + b.linesHit,
      a.functionsFound + b.functionsFound, a.functionsHit + b.functionsHit)
  }

  predicate IsSource(file: string) { "src/" <= file }

  function LineTotals(line: string): Totals {
    var parts := Split(line, ':');
    var value := if |parts| > 1 then Number(parts[1]) else None;
    if value.None? then ZERO
    else if parts[0] == "LF" then ZERO.(linesFound := value.value)
    else if parts[0] == "LH" then ZERO.(linesHit := value.value)
    else if parts[0] == "FNF" then ZERO.(functionsFound := value.value)
    else if parts[0] == "FNH" then ZERO.(functionsHit := value.value)
    else ZERO
  }

  function SumLines(lines: seq<string>, inside: bool): Totals {
    if lines == [] then ZERO
    else if "SF:" <= lines[0] then SumLines(lines[1..], IsSource(lines[0][3..]))
    else if !inside then SumLines(lines[1..], false)
    else Plus(LineTotals(lines[0]), SumLines(lines[1..], true))
  }

  function SumSourceCoverage(lcov: string): Totals { SumLines(Split(lcov, '\n'), false) }

  // ── The gate reads what was printed ──

  function RecordTotals(r: Record): Totals {
    if IsSource(r.sourceFile) then Totals(|r.lines|, |HitLines(r.lines)|, r.functionsFound, r.functionsHit) else ZERO
  }

  function SumRecords(rs: seq<Record>): Totals {
    if rs == [] then ZERO else Plus(RecordTotals(rs[0]), SumRecords(rs[1..]))
  }

  lemma TagValue(tag: string, n: int)
    requires ':' !in tag
    ensures Split(tag + ":" + FromInt(n), ':') == [tag, FromInt(n)]
    ensures Number(FromInt(n)) == Some(n)
  {
    PrintedChars(n);
    NumberOfPrinted(n);
    assert tag + ":" + FromInt(n) == tag + [':'] + FromInt(n);
    SplitFirst(tag, FromInt(n), ':');
    SplitWhole(FromInt(n), ':');
  }

  lemma DaCountsNothing(line: int, hits: int)
    ensures LineTotals(DaLine(line, hits)) == ZERO
  {
    PrintedChars(line);
    PrintedChars(hits);
    var rest := FromInt(line) + "," + FromInt(hits);
    assert DaLine(line, hits) == "DA" + [':'] + rest;
    SplitFirst("DA", rest, ':');
  }

  lemma {:induction false} SumDaLines(numbers: seq<int>, lines: map<int, int>, rest: seq<string>, inside: bool)
    requires forall i :: 0 <= i < |numbers| ==> numbers[i] in lines
    ensures SumLines(DaLines(numbers, lines) + rest, inside) == SumLines(rest, inside)
  {
    hide DaLine, LineTotals, SumLines;
    if numbers == [] {
      assert DaLines(numbers, lines) + rest == rest;
    } else {
      var n, more := numbers[0], DaLines(numbers[1..], lines) + rest;
      DaLineParts(n, lines[n]);
      DaCountsNothing(n, lines[n]);
      assert DaLines(numbers, lines) + rest == [DaLine(n, lines[n])] + more;
      SumStep(DaLine(n, lines[n]), more, inside);
      SumDaLines(numbers[1..], lines, rest, inside);
    }
  }

  lemma SumStep(line: string, rest: seq<string>, inside: bool)
    requires !("SF:" <= line)
    ensures SumLines([line] + rest, inside) ==
              if inside then Plus(LineTotals(line), SumLines(rest, true)) else SumLines(rest, false)
  {
    assert ([line] + rest)[1..] == rest;
  }

  lemma SumStart(file: string, rest: seq<string>, inside: bool)
    ensures SumLines(["SF:" + file] + rest, inside) == SumLines(rest, IsSource(file))
  {
    assert (["SF:" + file] + rest)[1..] == rest && ("SF:" + file)[3..] == file;
  }

  lemma SumHead(r: Record, rest: seq<string>, inside: bool)
    ensures SumLines(Head(r) + rest, inside) ==
      if IsSource(r.sourceFile)
      then Plus(Totals(0, 0, r.functionsFound, r.functionsHit), SumLines(rest, true))
      else SumLines(rest, false)
  {
    hide SumLines, FromInt, Number, Split;
    var found, hit := "FNF:" + FromInt(r.functionsFound), "FNH:" + FromInt(r.functionsHit);
    assert found == "FNF" + ":" + FromInt(r.functionsFound) && hit == "FNH" + ":" + FromInt(r.functionsHit);
    TagValue("FNF", r.functionsFound);
    TagValue("FNH", r.functionsHit);
    NoTotals();
    assert found[0] == 'F' && hit[0] == 'F';
    assert LineTotals(found) == ZERO.(functionsFound := r.functionsFound);
    assert LineTotals(hit) == ZERO.(functionsHit := r.functionsHit);
    SumStep(hit, rest, IsSource(r.sourceFile));
    SumStep(found, [hit] + rest, IsSource(r.sourceFile));
    SumStart(r.sourceFile, [found] + ([hit] + rest), inside);
    SumStep("TN:", ["SF:" + r.sourceFile] + ([found] + ([hit] + rest)), inside);
    assert Head(r) + rest == ["TN:"] + (["SF:" + r.sourceFile] + ([found] + ([hit] + rest)));
    SumStart(r.sourceFile, [found] + ([hit] + rest), true);
  }

  lemma NoTotals()
    ensures LineTotals("TN:") == ZERO && LineTotals("end_of_record") == ZERO && LineTotals("") == ZERO
  {
    SplitFirst("TN", "", ':');
    assert "TN" + [':'] + "" == "TN:";
    SplitWhole("end_of_record", ':');
    SplitWhole("", ':');
  }

  lemma SumTail(r: Record, rest: seq<string>, inside: bool)
    ensures SumLines(Tail(r) + rest, inside) ==
      if inside then Plus(Totals(|r.lines|, |HitLines(r.lines)|, 0, 0), SumLines(rest, true)) else SumLines(rest, false)
  {
    hide SumLines, FromInt, Number, Split, HitLines;
    var found, hit := "LF:" + FromInt(|r.lines|), "LH:" + FromInt(|HitLines(r.lines)|);
    assert found == "LF" + ":" + FromInt(|r.lines|) && hit == "LH" + ":" + FromInt(|HitLines(r.lines)|);
    TagValue("LF", |r.lines|);
    TagValue("LH", |HitLines(r.lines)|);
    NoTotals();
    assert found[0] == 'L' && hit[0] == 'L';
    assert LineTotals(found) == ZERO.(linesFound := |r.lines|);
    assert LineTotals(hit) == ZERO.(linesHit := |HitLines(r.lines)|);
    assert "end_of_record"[0] == 'e';
    SumStep("end_of_record", rest, inside);
    SumStep(hit, ["end_of_record"] + rest, inside);
    SumStep(found, [hit] + (["end_of_record"] + rest), inside);
    assert Tail(r) + rest == [found] + ([hit] + (["end_of_record"] + rest));
  }

  lemma SumRecord(r: Record, rest: seq<string>, inside: bool)
    ensures SumLines(Lines(r) + rest, inside) == Plus(RecordTotals(r), SumLines(rest, IsSource(r.sourceFile)))
  {
    hide SumLines, Head, Tail, DaLines, Ascending, HitLines;
    var da := DaLines(Ascending(r.lines.Keys), r.lines);
    assert Lines(r) + rest == Head(r) + (da + (Tail(r) + rest));
    SumHead(r, da + (Tail(r) + rest), inside);
    SumDaLines(Ascending(r.lines.Keys), r.lines, Tail(r) + rest, IsSource(r.sourceFile));
    SumTail(r, rest, IsSource(r.sourceFile));
  }

  function AllLines(rs: seq<Record>): seq<string> {
    if rs == [] then [] else Lines(rs[0]) + AllLines(rs[1..])
  }

  ghost predicate OneLineNames(rs: seq<Record>) { forall i :: 0 <= i < |rs| ==> '\n' !in rs[i].sourceFile }

  lemma {:induction false} AllLinesUnbroken(rs: seq<Record>)
    requires OneLineNames(rs)
    ensures NoBreaks(AllLines(rs))
  {
    if rs != [] {
      LinesUnbroken(rs[0]);
      AllLinesUnbroken(rs[1..]);
      hide Lines;
    }
  }

  lemma {:induction false} FormatsJoin(rs: seq<Record>)
    requires rs != [] && OneLineNames(rs)
    ensures AllLines(rs) != [] && Join(Formats(rs), '\n') == Join(AllLines(rs), '\n')
  {
    hide Lines, Join;
    LinesUnbroken(rs[0]);
    if |rs| == 1 {
      assert AllLines(rs) == Lines(rs[0]);
      assert Formats(rs) == [Format(rs[0])];
      JoinOne(Format(rs[0]));
    } else {
      FormatsJoin(rs[1..]);
      JoinAppend(Lines(rs[0]), AllLines(rs[1..]), '\n');
      JoinAppend([Format(rs[0])], Formats(rs[1..]), '\n');
      JoinOne(Format(rs[0]));
    }
  }

  lemma JoinOne(s: string)
    ensures Join([s], '\n') == s
  {}

  lemma OutputLines(rs: seq<Record>)
    requires OneLineNames(rs)
    ensures Split(Output(rs), '\n') == AllLines(rs) + [""]
  {
    hide AllLines, Formats, Join, Split;
    if rs == [] {
      NoLines();
    } else {
      FormatsJoin(rs);
      AllLinesUnbroken(rs);
      var lines := AllLines(rs);
      EndLine(lines);
      SplitJoin(lines + [""], '\n');
    }
  }

  lemma NoLines()
    ensures Split("", '\n') == [""] && AllLines([]) == []
  {}

  lemma EndLine(lines: seq<string>)
    requires lines != []
    ensures Join(lines, '\n') + "\n" == Join(lines + [""], '\n')
  {
    JoinAppend(lines, [""], '\n');
    JoinOne("");
    hide Join;
    assert Join(lines, '\n') + ['\n'] + "" == Join(lines, '\n') + "\n";
  }

  lemma {:induction false} SumAllLines(rs: seq<Record>, rest: seq<string>, inside: bool)
    requires rest == [""]
    ensures SumLines(AllLines(rs) + rest, inside) == SumRecords(rs)
  {
    hide Lines;
    if rs == [] {
      assert AllLines(rs) + rest == [""] + [];
      NoTotals();
      SumStep("", [], inside);
    } else {
      assert AllLines(rs) + rest == Lines(rs[0]) + (AllLines(rs[1..]) + rest);
      SumRecord(rs[0], AllLines(rs[1..]) + rest, inside);
      SumAllLines(rs[1..], rest, IsSource(rs[0].sourceFile));
    }
  }

  /** The gate adds up exactly the records that were printed. */
  lemma GateReadsOutput(rs: seq<Record>)
    requires OneLineNames(rs)
    ensures SumSourceCoverage(Output(rs)) == SumRecords(rs)
  {
    hide SumLines, AllLines, Output;
    OutputLines(rs);
    SumAllLines(rs, [""], false);
  }

  lemma {:induction false} ParseAllLines(rs: seq<Record>, rest: seq<string>)
    requires rest == [""]
    ensures ParseLines(AllLines(rs) + rest, None) == rs
  {
    hide Lines;
    if rs == [] {
      assert AllLines(rs) + rest == [""];
    } else {
      assert AllLines(rs) + rest == Lines(rs[0]) + (AllLines(rs[1..]) + rest);
      ParseRecord(rs[0], AllLines(rs[1..]) + rest, None);
      ParseAllLines(rs[1..], rest);
    }
  }

  /** Parsing undoes printing, for a whole report. */
  lemma ParseUndoesOutput(rs: seq<Record>)
    requires OneLineNames(rs)
    ensures Parse(Output(rs)) == rs
  {
    hide ParseLines, AllLines, Output;
    OutputLines(rs);
    ParseAllLines(rs, [""]);
  }

  // ── What the totals count ──

  /** The lines under `src/` found in any record, with their files. */
  ghost function Found(rs: seq<Record>): set<(string, int)> {
    set r, n | r in rs && IsSource(r.sourceFile) && n in r.lines :: (r.sourceFile, n)
  }

  /** Those of them hit in at least one record. */
  ghost function Hit(rs: seq<Record>): set<(string, int)> {
    set r, n | r in rs && IsSource(r.sourceFile) && n in r.lines && r.lines[n] > 0 :: (r.sourceFile, n)
  }

  ghost predicate DistinctFiles(rs: seq<Record>) {
    forall i, j :: 0 <= i < j < |rs| ==> rs[i].sourceFile != rs[j].sourceFile
  }

  function Pairs(file: string, lines: set<int>): set<(string, int)> { set n | n in lines :: (file, n) }

  lemma {:induction false} PairsCount(file: string, lines: set<int>)
    ensures |Pairs(file, lines)| == |lines|
    decreases |lines|
  {
    if lines != {} {
      var n := IntOrder.Pick(lines);
      PairsCount(file, lines - {n});
      assert Pairs(file, lines) == Pairs(file, lines - {n}) + {(file, n)};
    }
  }

  lemma FoundSplits(rs: seq<Record>)
    requires rs != [] && DistinctFiles(rs)
    ensures Found(rs) == Found(rs[1..])
      + (if IsSource(rs[0].sourceFile) then Pairs(rs[0].sourceFile, rs[0].lines.Keys) else {})
    ensures Hit(rs) == Hit(rs[1..])
      + (if IsSource(rs[0].sourceFile) then Pairs(rs[0].sourceFile, HitLines(rs[0].lines)) else {})
    ensures Found(rs[1..]) !! Pairs(rs[0].sourceFile, rs[0].lines.Keys)
    ensures Hit(rs[1..]) !! Pairs(rs[0].sourceFile, HitLines(rs[0].lines))
  {
    var head, tail := rs[0], rs[1..];
    assert rs == [head] + tail;
    assert forall r :: r in rs <==> r == head || r in tail;
    forall r | r in tail
      ensures r.sourceFile != head.sourceFile
    {
      var i :| 0 <= i < |tail| && tail[i] == r;
      assert rs[i + 1] == r;
    }
  }

  lemma TailDistinct(rs: seq<Record>)
    requires rs != [] && DistinctFiles(rs)
    ensures DistinctFiles(rs[1..])
  {}

  lemma DisjointCount<T>(a: set<T>, b: set<T>)
    requires a !! b
    ensures |a + b| == |a| + |b|
  {}

  lemma CountTail(rs: seq<Record>)
    requires rs != [] && DistinctFiles(rs)
    ensures |Found(rs)| == |Found(rs[1..])| + (if IsSource(rs[0].sourceFile) then |rs[0].lines| else 0)
    ensures |Hit(rs)| == |Hit(rs[1..])| + (if IsSource(rs[0].sourceFile) then |HitLines(rs[0].lines)| else 0)
  {
    hide Found, Hit, Pairs, HitLines, DistinctFiles;
    var file, lines, hit := rs[0].sourceFile, rs[0].lines.Keys, HitLines(rs[0].lines);
    FoundSplits(rs);
    PairsCount(file, lines);
    PairsCount(file, hit);
    if IsSource(file) {
      DisjointCount(Found(rs[1..]), Pairs(file, lines));
      DisjointCount(Hit(rs[1..]), Pairs(file, hit));
    }
  }

  lemma {:induction false} SumsCountPairs(rs: seq<Record>)
    requires DistinctFiles(rs)
    ensures SumRecords(rs).linesFound == |Found(rs)| && SumRecords(rs).linesHit == |Hit(rs)|
  {
    if rs == [] {
      assert Found(rs) == {} && Hit(rs) == {};
    } else {
      TailDistinct(rs);
      CountTail(rs);
      SumsCountPairs(rs[1..]);
    }
  }

  // ── What merging keeps ──

  ghost predicate NamedByFile(byFile: map<string, Record>) {
    forall f :: f in byFile ==> byFile[f].sourceFile == f
  }

  ghost predicate HasLine(rs: seq<Record>, f: string, n: int) {
    exists r :: r in rs && r.sourceFile == f && n in r.lines
  }

  ghost predicate HasHit(rs: seq<Record>, f: string, n: int) {
    exists r :: r in rs && r.sourceFile == f && n in r.lines && r.lines[n] > 0
  }

  ghost predicate HasFile(rs: seq<Record>, f: string) {
    exists r :: r in rs && r.sourceFile == f
  }

  lemma Extended(rs: seq<Record>, f: string, n: int)
    requires rs != []
    ensures var before, last := rs[..|rs| - 1], rs[|rs| - 1];
            && (HasFile(rs, f) <==> HasFile(before, f) || last.sourceFile == f)
            && (HasLine(rs, f, n) <==> HasLine(before, f, n) || (last.sourceFile == f && n in last.lines))
            && (HasHit(rs, f, n) <==>
                  HasHit(before, f, n) || (last.sourceFile == f && n in last.lines && last.lines[n] > 0))
  {
    var before, last := rs[..|rs| - 1], rs[|rs| - 1];
    assert rs == before + [last];
    assert forall r :: r in rs <==> r in before || r == last;
  }

  lemma {:induction false} MergeKeeps(rs: seq<Record>, f: string, n: int)
    ensures var m := AbsorbAll(rs);
            && (f in m <==> HasFile(rs, f))
            && (f in m ==> m[f].sourceFile == f)
            && (f in m && n in m[f].lines <==> HasLine(rs, f, n))
            && (f in m && n in m[f].lines && m[f].lines[n] > 0 <==> HasHit(rs, f, n))
  {
    if rs != [] {
      hide HasFile, HasLine, HasHit;
      Extended(rs, f, n);
      MergeKeeps(rs[..|rs| - 1], f, n);
    } else {
      assert !HasFile(rs, f) && !HasLine(rs, f, n) && !HasHit(rs, f, n);
    }
  }

  /** Some record says that this line of this file was hit `h` times. */
  ghost predicate Claims(rs: seq<Record>, f: string, n: int, h: int) {
    exists i :: 0 <= i < |rs| && rs[i].sourceFile == f && Get(rs[i].lines, n) == Some(h)
  }

  function Get(lines: map<int, int>, n: int): Option<int> { if n in lines then Some(lines[n]) else None }

  lemma ClaimsExtended(rs: seq<Record>, f: string, n: int, h: int)
    requires rs != []
    ensures var last := rs[|rs| - 1];
            Claims(rs, f, n, h) <==>
              Claims(rs[..|rs| - 1], f, n, h) || (last.sourceFile == f && Get(last.lines, n) == Some(h))
  {
    var before := rs[..|rs| - 1];
    assert forall i :: 0 <= i < |before| ==> before[i] == rs[i];
    if i :| 0 <= i < |rs| && rs[i].sourceFile == f && Get(rs[i].lines, n) == Some(h) {
      assert i < |before| ==> before[i].sourceFile == f && Get(before[i].lines, n) == Some(h);
    }
  }

  /** A merged line has the greatest count any record claims for it, or 0 where only negative ones are claimed. */
  lemma {:induction false} MergedIsMost(rs: seq<Record>, f: string, n: int)
    requires f in AbsorbAll(rs) && n in AbsorbAll(rs)[f].lines
    ensures var h := AbsorbAll(rs)[f].lines[n];
            && (forall x :: Claims(rs, f, n, x) ==> x <= h)
            && (Claims(rs, f, n, h) || h == 0)
  {
    var before, last := rs[..|rs| - 1], rs[|rs| - 1];
    hide Claims;
    forall x
      ensures Claims(rs, f, n, x) <==>
        Claims(before, f, n, x) || (last.sourceFile == f && Get(last.lines, n) == Some(x))
    {
      ClaimsExtended(rs, f, n, x);
    }
    if f in AbsorbAll(before) && n in AbsorbAll(before)[f].lines {
      MergedIsMost(before, f, n);
    } else {
      NoClaims(before, f, n);
    }
  }

  lemma NoClaims(rs: seq<Record>, f: string, n: int)
    requires !(f in AbsorbAll(rs) && n in AbsorbAll(rs)[f].lines)
    ensures forall x :: !Claims(rs, f, n, x)
  {
    MergeKeeps(rs, f, n);
  }

  lemma InOrderHas(byFile: map<string, Record>, r: Record)
    requires NamedByFile(byFile)
    ensures r in InOrder(byFile) <==> r.sourceFile in byFile && byFile[r.sourceFile] == r
  {
    SortedInside(byFile);
    var files, rs := Sorted(byFile.Keys), InOrder(byFile);
    hide Sorted;
    if r in rs {
      var i :| 0 <= i < |rs| && rs[i] == r;
    }
    if r.sourceFile in byFile && byFile[r.sourceFile] == r {
      assert r.sourceFile in byFile.Keys && r.sourceFile in files;
      var i :| 0 <= i < |files| && files[i] == r.sourceFile;
      assert rs[i] == r;
    }
  }

  lemma InOrderDistinct(byFile: map<string, Record>)
    requires NamedByFile(byFile)
    ensures DistinctFiles(InOrder(byFile))
  {
    SortedDistinct(byFile.Keys);
    SortedInside(byFile);
  }

  lemma MergedNamed(rs: seq<Record>)
    ensures NamedByFile(AbsorbAll(rs))
  {
    forall f | f in AbsorbAll(rs) ensures AbsorbAll(rs)[f].sourceFile == f { MergeKeeps(rs, f, 0); }
  }

  lemma SamePairs(rs: seq<Record>)
    ensures Found(InOrder(AbsorbAll(rs))) == Found(rs) && Hit(InOrder(AbsorbAll(rs))) == Hit(rs)
  {
    var m := AbsorbAll(rs);
    var out := InOrder(m);
    hide AbsorbAll, InOrder;
    MergedNamed(rs);
    forall f: string, n: int
      ensures (f, n) in Found(out) <==> (f, n) in Found(rs)
      ensures (f, n) in Hit(out) <==> (f, n) in Hit(rs)
    {
      MergeKeeps(rs, f, n);
      if f in m { InOrderHas(m, m[f]); }
      forall r | r in out ensures r.sourceFile in m && m[r.sourceFile] == r { InOrderHas(m, r); }
    }
  }
}
