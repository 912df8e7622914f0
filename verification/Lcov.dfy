/** Coverage reports: parsing, merging, printing, and the gate that reads the print. */
module Lcov {
  import opened Options
  import opened Text
  import opened IntOrder

  datatype Record = Record(sourceFile: string, lines: map<int, int>, functionsFound: int, functionsHit: int)

  /** `Number(s)` where it is an integer in decimal digits, and None for NaN. */
  function Number(s: string): Option<int> {
    var t := Trim(s);
    if t == "" then Some(0)
    else if t[0] == '+' && AllDigits(t[1..]) then Some(ToNat(t[1..]))
    else if IsInteger(t) then Some(ToInt(t))
    else None
  }

  lemma NumberOfPrinted(n: int)
    ensures Number(FromInt(n)) == Some(n)
  {
    var s := FromInt(n);
    ToIntFromInt(n);
    assert s != "" && (IsDigit(s[0]) || s[0] == '-') && IsDigit(s[|s| - 1]) by {
      if n < 0 { assert s[1..] == FromNat(-n); }
    }
    hide FromInt, ToInt, IsInteger;
    assert TrimStart(s) == s && TrimEnd(s) == s;
  }

  function OrZero(n: Option<int>): int { if n.Some? then n.value else 0 }

  // ── Parsing ──

  function StartRecord(line: string): Record
    requires |line| >= 3
  {
    Record(line[3..], map[], 0, 0)
  }

  /** What a line inside a record does to it. */
  function ReadLine(r: Record, line: string): Record {
    if "DA:" <= line then
      var parts := Split(line[3..], ',');
      var number, hits := Number(parts[0]), if |parts| > 1 then Number(parts[1]) else None;
      if number.Some? && hits.Some? then r.(lines := r.lines[number.value := hits.value]) else r
    else if "FNF:" <= line then r.(functionsFound := OrZero(Number(line[4..])))
    else if "FNH:" <= line then r.(functionsHit := OrZero(Number(line[4..])))
    else r
  }

  function ParseLines(lines: seq<string>, current: Option<Record>): seq<Record> {
    if lines == [] then []
    else if "SF:" <= lines[0] then ParseLines(lines[1..], Some(StartRecord(lines[0])))
    else if current.None? then ParseLines(lines[1..], None)
    else if lines[0] == "end_of_record" then [current.value] + ParseLines(lines[1..], None)
    else ParseLines(lines[1..], Some(ReadLine(current.value, lines[0])))
  }

  function Parse(report: string): seq<Record> { ParseLines(Split(report, '\n'), None) }

  // ── Printing ──

  function DaLine(line: int, hits: int): string { "DA:" + FromInt(line) + "," + FromInt(hits) }

  function DaLines(numbers: seq<int>, lines: map<int, int>): (r: seq<string>)
    requires forall i :: 0 <= i < |numbers| ==> numbers[i] in lines
    ensures |r| == |numbers|
  {
    if numbers == [] then [] else [DaLine(numbers[0], lines[numbers[0]])] + DaLines(numbers[1..], lines)
  }

  function HitLines(lines: map<int, int>): set<int> {
    set n | n in lines && lines[n] > 0
  }

  function Head(r: Record): seq<string> {
    ["TN:", "SF:" + r.sourceFile, "FNF:" + FromInt(r.functionsFound), "FNH:" + FromInt(r.functionsHit)]
  }

  function Tail(r: Record): seq<string> {
    ["LF:" + FromInt(|r.lines|), "LH:" + FromInt(|HitLines(r.lines)|), "end_of_record"]
  }

  /** The lines a record is printed as. */
  function Lines(r: Record): seq<string> {
    Head(r) + DaLines(Ascending(r.lines.Keys), r.lines) + Tail(r)
  }

  function Format(r: Record): string { Join(Lines(r), '\n') }

  // ── Parsing undoes printing ──

  lemma {:induction false} DaLineParts(line: int, hits: int)
    ensures var s := DaLine(line, hits);
            && "DA:" <= s && !("SF:" <= s) && s != "end_of_record" && '\n' !in s
            && Split(s[3..], ',') == [FromInt(line), FromInt(hits)]
  {
    hide FromInt, Split;
    var s := DaLine(line, hits);
    PrintedChars(line);
    PrintedChars(hits);
    assert s[3..] == FromInt(line) + [','] + FromInt(hits);
    SplitFirst(FromInt(line), FromInt(hits), ',');
    SplitWhole(FromInt(hits), ',');
    assert s[0] == 'D';
  }

  lemma PrintedChars(n: int)
    ensures forall c :: c in FromInt(n) ==> IsDigit(c) || c == '-'
  {}

  lemma ReadDaLine(r: Record, line: int, hits: int)
    ensures ReadLine(r, DaLine(line, hits)) == r.(lines := r.lines[line := hits])
  {
    DaLineParts(line, hits);
    NumberOfPrinted(line);
    NumberOfPrinted(hits);
    hide Number, Split, DaLine, FromInt;
  }

  function WithLines(r: Record, numbers: seq<int>, lines: map<int, int>): Record
    requires forall i :: 0 <= i < |numbers| ==> numbers[i] in lines
    decreases numbers
  {
    if numbers == [] then r else WithLines(r.(lines := r.lines[numbers[0] := lines[numbers[0]]]), numbers[1..], lines)
  }

  lemma ParseDaLine(line: int, hits: int, rest: seq<string>, current: Record)
    ensures ParseLines([DaLine(line, hits)] + rest, Some(current)) ==
            ParseLines(rest, Some(current.(lines := current.lines[line := hits])))
  {
    hide ReadLine, DaLine, Split, FromInt, ParseLines;
    DaLineParts(line, hits);
    ReadDaLine(current, line, hits);
    var all := [DaLine(line, hits)] + rest;
    ParseStep(all, Some(current));
    assert all[1..] == rest;
  }

  lemma {:induction false} ParseDaLines(numbers: seq<int>, lines: map<int, int>, rest: seq<string>, current: Record)
    requires forall i :: 0 <= i < |numbers| ==> numbers[i] in lines
    ensures ParseLines(DaLines(numbers, lines) + rest, Some(current)) ==
            ParseLines(rest, Some(WithLines(current, numbers, lines)))
  {
    hide ParseLines, DaLine;
    if numbers == [] {
      assert DaLines(numbers, lines) + rest == rest;
    } else {
      var n, more := numbers[0], DaLines(numbers[1..], lines) + rest;
      assert DaLines(numbers, lines) + rest == [DaLine(n, lines[n])] + more;
      ParseDaLine(n, lines[n], more, current);
      ParseDaLines(numbers[1..], lines, rest, current.(lines := current.lines[n := lines[n]]));
    }
  }

  lemma {:induction false} WithLinesKeeps(r: Record, numbers: seq<int>, lines: map<int, int>)
    requires forall i :: 0 <= i < |numbers| ==> numbers[i] in lines
    requires forall n :: n in r.lines ==> n in lines && r.lines[n] == lines[n]
    ensures var w := WithLines(r, numbers, lines);
            && w == r.(lines := w.lines)
            && (forall n :: n in w.lines ==> n in lines && w.lines[n] == lines[n])
            && (forall n :: n in r.lines || n in numbers ==> n in w.lines)
    decreases numbers
  {
    if numbers != [] {
      var next := r.(lines := r.lines[numbers[0] := lines[numbers[0]]]);
      WithLinesKeeps(next, numbers[1..], lines);
      forall n | n in numbers
        ensures n in WithLines(r, numbers, lines).lines
      {
        var i :| 0 <= i < |numbers| && numbers[i] == n;
        if i == 0 { assert n in next.lines; } else { assert numbers[1..][i - 1] == n; }
      }
    }
  }

  lemma ParseHead(r: Record, rest: seq<string>, current: Option<Record>)
    ensures ParseLines(Head(r) + rest, current) == ParseLines(rest, Some(r.(lines := map[])))
  {
    hide Number, FromInt, Split;
    var all := Head(r) + rest;
    var started := Record(r.sourceFile, map[], 0, 0);
    var found := started.(functionsFound := r.functionsFound);
    NumberOfPrinted(r.functionsFound);
    NumberOfPrinted(r.functionsHit);
    assert all[0] == "TN:" && all[1] == "SF:" + r.sourceFile;
    assert all[1][3..] == r.sourceFile;
    assert all[2][4..] == FromInt(r.functionsFound) && all[3][4..] == FromInt(r.functionsHit);
    assert all[2][0] == 'F' && all[3][0] == 'F' && all[2][2] == 'F' && all[3][2] == 'H';
    assert ReadLine(started, all[2]) == found;
    assert ReadLine(found, all[3]) == r.(lines := map[]);
    ParseStep(all, current);
    ParseStep(all[1..], if current.Some? then Some(ReadLine(current.value, "TN:")) else None);
    ParseStep(all[2..], Some(started));
    ParseStep(all[3..], Some(found));
    assert all[1..][1..] == all[2..] && all[2..][1..] == all[3..] && all[3..][1..] == all[4..] == rest;
    hide ReadLine, ParseLines;
  }

  lemma ParseStep(lines: seq<string>, current: Option<Record>)
    requires lines != []
    ensures "SF:" <= lines[0] ==> ParseLines(lines, current) == ParseLines(lines[1..], Some(StartRecord(lines[0])))
    ensures !("SF:" <= lines[0]) && current.None? ==> ParseLines(lines, current) == ParseLines(lines[1..], None)
    ensures current.Some? && lines[0] == "end_of_record" ==>
              ParseLines(lines, current) == [current.value] + ParseLines(lines[1..], None)
    ensures current.Some? && !("SF:" <= lines[0]) && lines[0] != "end_of_record" ==>
              ParseLines(lines, current) == ParseLines(lines[1..], Some(ReadLine(current.value, lines[0])))
  {
    assert "end_of_record"[0] != 'S';
  }

  lemma ParseTail(r: Record, rest: seq<string>)
    ensures ParseLines(Tail(r) + rest, Some(r)) == [r] + ParseLines(rest, None)
  {
    hide Number, FromInt, Split, HitLines;
    var all := Tail(r) + rest;
    assert all[0][0] == 'L' && all[1][0] == 'L' && all[2] == "end_of_record";
    ParseStep(all, Some(r));
    ParseStep(all[1..], Some(r));
    ParseStep(all[2..], Some(r));
    assert all[1..][1..] == all[2..] && all[2..][1..] == all[3..] == rest;
    assert ReadLine(r, all[0]) == r && ReadLine(r, all[1]) == r;
    hide ReadLine, ParseLines;
  }

  lemma AllLinesBack(r: Record)
    ensures WithLines(r.(lines := map[]), Ascending(r.lines.Keys), r.lines) == r
  {
    var numbers, empty := Ascending(r.lines.Keys), r.(lines := map[]);
    WithLinesKeeps(empty, numbers, r.lines);
    var w := WithLines(empty, numbers, r.lines);
    hide WithLines, Ascending;
    forall n | n in r.lines
      ensures n in w.lines
    {
      assert n in r.lines.Keys && n in numbers;
    }
    assert forall n :: n in w.lines ==> n in r.lines && w.lines[n] == r.lines[n];
    assert w.lines == r.lines;
  }

  /** A printed record is read back as it was, whatever stands behind it. */
  lemma ParseRecord(r: Record, rest: seq<string>, current: Option<Record>)
    ensures ParseLines(Lines(r) + rest, current) == [r] + ParseLines(rest, None)
  {
    hide ParseLines, Head, Tail, DaLines, Ascending;
    var numbers := Ascending(r.lines.Keys);
    var da := DaLines(numbers, r.lines);
    assert Lines(r) + rest == Head(r) + (da + (Tail(r) + rest));
    ParseHead(r, da + (Tail(r) + rest), current);
    ParseDaLines(numbers, r.lines, Tail(r) + rest, r.(lines := map[]));
    AllLinesBack(r);
    ParseTail(r, rest);
  }

  ghost predicate NoBreaks(lines: seq<string>) { forall i :: 0 <= i < |lines| ==> '\n' !in lines[i] }

  lemma {:induction false} DaLinesUnbroken(numbers: seq<int>, lines: map<int, int>)
    requires forall i :: 0 <= i < |numbers| ==> numbers[i] in lines
    ensures NoBreaks(DaLines(numbers, lines))
  {
    if numbers != [] {
      DaLineParts(numbers[0], lines[numbers[0]]);
      DaLinesUnbroken(numbers[1..], lines);
    }
  }

  lemma LinesUnbroken(r: Record)
    requires '\n' !in r.sourceFile
    ensures NoBreaks(Lines(r)) && |Lines(r)| >= 7
  {
    hide Ascending, FromInt;
    DaLinesUnbroken(Ascending(r.lines.Keys), r.lines);
    PrintedChars(r.functionsFound);
    PrintedChars(r.functionsHit);
    PrintedChars(|r.lines|);
    PrintedChars(|HitLines(r.lines)|);
    hide DaLines, HitLines;
  }

  /** Parsing undoes printing. */
  lemma ParseUndoesFormat(r: Record)
    requires '\n' !in r.sourceFile
    ensures Parse(Format(r)) == [r]
  {
    LinesUnbroken(r);
    SplitJoin(Lines(r), '\n');
    ParseRecord(r, [], None);
    assert Lines(r) + [] == Lines(r);
  }
}
