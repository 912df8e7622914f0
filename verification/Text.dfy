/** Strings as the services use them: splitting, joining, trimming and decimal numbers. */
module Text {

  /** JavaScript's `s.split(c)` for a one-character separator. */
  function Split(s: string, c: char): (parts: seq<string>)
    ensures |parts| > 0
    ensures forall i :: 0 <= i < |parts| ==> c !in parts[i]
  {
    if s == [] then [""]
    else
      var rest := Split(s[1..], c);
      if s[0] == c then [""] + rest
      else [[s[0]] + rest[0]] + rest[1..]
  }

  /** JavaScript's `parts.join(c)` for a one-character separator. */
  function Join(parts: seq<string>, c: char): string {
    if |parts| == 0 then ""
    else if |parts| == 1 then parts[0]
    else parts[0] + [c] + Join(parts[1..], c)
  }

  lemma {:induction false} SplitWhole(s: string, c: char)
    requires c !in s
    ensures Split(s, c) == [s]
  {
    if s != [] {
      assert c !in s[1..];
      SplitWhole(s[1..], c);
      assert [s[0]] + s[1..] == s;
    }
  }

  /** The text before the first separator is the first part. */
  lemma {:induction false} SplitFirst(head: string, tail: string, c: char)
    requires c !in head
    ensures Split(head + [c] + tail, c) == [head] + Split(tail, c)
  {
    var s := head + [c] + tail;
    if head == [] {
      assert s[1..] == tail;
    } else {
      assert s[1..] == head[1..] + [c] + tail;
      assert c !in head[1..];
      SplitFirst(head[1..], tail, c);
      assert [s[0]] + head[1..] == head;
    }
  }

  /** Splitting undoes joining as long as no part contains the separator. */
  lemma {:induction false} SplitJoin(parts: seq<string>, c: char)
    requires |parts| > 0
    requires forall i :: 0 <= i < |parts| ==> c !in parts[i]
    ensures Split(Join(parts, c), c) == parts
  {
    if |parts| == 1 {
      SplitWhole(parts[0], c);
    } else {
      SplitJoin(parts[1..], c);
      SplitFirst(parts[0], Join(parts[1..], c), c);
      assert [parts[0]] + parts[1..] == parts;
    }
  }

  lemma {:induction false} JoinSplit(s: string, c: char)
    ensures Join(Split(s, c), c) == s
  {
    if s != [] {
      JoinSplit(s[1..], c);
      var rest := Split(s[1..], c);
      if s[0] == c {
        assert ([""] + rest)[1..] == rest;
      } else {
        var parts := [[s[0]] + rest[0]] + rest[1..];
        assert parts[1..] == rest[1..];
      }
    }
  }

  /** Two texts that share a separator-free head up to the same separator agree part by part. */
  lemma {:induction false} HeadUnique(a: string, x: string, b: string, y: string, c: char)
    requires c !in a && c !in b
    requires a + [c] + x == b + [c] + y
    ensures a == b && x == y
  {
    assert (a + [c] + x)[0] == if a == [] then c else a[0];
    assert (b + [c] + y)[0] == if b == [] then c else b[0];
    if a == [] {
      assert x == (a + [c] + x)[1..];
      assert y == (b + [c] + y)[1..];
    } else {
      assert a[1..] + [c] + x == (a + [c] + x)[1..];
      assert b[1..] + [c] + y == (b + [c] + y)[1..];
      assert c !in a[1..] && c !in b[1..];
      HeadUnique(a[1..], x, b[1..], y, c);
      assert a == [a[0]] + a[1..];
      assert b == [b[0]] + b[1..];
    }
  }

  lemma {:induction false} JoinAppend(a: seq<string>, b: seq<string>, c: char)
    requires |a| > 0 && |b| > 0
    ensures Join(a + b, c) == Join(a, c) + [c] + Join(b, c)
  {
    if |a| == 1 {
      assert (a + b)[1..] == b;
    } else {
      assert (a + b)[1..] == a[1..] + b;
      JoinAppend(a[1..], b, c);
      assert a[0] + [c] + (Join(a[1..], c) + [c] + Join(b, c))
          == (a[0] + [c] + Join(a[1..], c)) + [c] + Join(b, c);
    }
  }

  /** Equally long separator-free paths with the same joined text and separator are the same path. */
  lemma {:induction false} PathUnique(a: seq<string>, x: string, b: seq<string>, y: string, c: char)
    requires |a| == |b| > 0
    requires forall i :: 0 <= i < |a| ==> c !in a[i] && c !in b[i]
    requires Join(a, c) + [c] + x == Join(b, c) + [c] + y
    ensures a == b && x == y
  {
    if |a| == 1 {
      HeadUnique(a[0], x, b[0], y, c);
    } else {
      var restA, restB := Join(a[1..], c) + [c] + x, Join(b[1..], c) + [c] + y;
      assert Join(a, c) + [c] + x == a[0] + [c] + restA;
      assert Join(b, c) + [c] + y == b[0] + [c] + restB;
      HeadUnique(a[0], restA, b[0], restB, c);
      PathUnique(a[1..], x, b[1..], y, c);
      assert a == [a[0]] + a[1..] && b == [b[0]] + b[1..];
    }
  }

  function Slashes(s: string): nat {
    if s == [] then 0 else (if s[0] == '/' then 1 else 0) + Slashes(s[1..])
  }

  lemma {:induction false} SplitCounts(s: string)
    ensures |Split(s, '/')| == Slashes(s) + 1
  {
    if s != [] { SplitCounts(s[1..]); }
  }

  predicate IsDigit(c: char) { '0' <= c <= '9' }

  predicate AllDigits(s: string) {
    |s| > 0 && forall i :: 0 <= i < |s| ==> IsDigit(s[i])
  }

  function DigitChar(d: nat): (c: char)
    requires d < 10
    ensures IsDigit(c) && DigitValue(c) == d
  {
    '0' + d as char
  }

  function DigitValue(c: char): (d: nat)
    requires IsDigit(c)
    ensures d < 10
  {
    (c - '0') as int
  }

  /** `String(n)` of a non-negative integer. */
  function FromNat(n: nat): (s: string)
    ensures AllDigits(s)
  {
    if n < 10 then [DigitChar(n)] else FromNat(n / 10) + [DigitChar(n % 10)]
  }

  /** The value of a string of decimal digits. */
  function ToNat(s: string): nat
    requires AllDigits(s)
  {
    if |s| == 1 then DigitValue(s[0])
    else ToNat(s[..|s| - 1]) * 10 + DigitValue(s[|s| - 1])
  }

  lemma {:induction false} ToNatFromNat(n: nat)
    ensures ToNat(FromNat(n)) == n
  {
    if n >= 10 {
      ToNatFromNat(n / 10);
      var s := FromNat(n);
      assert s[..|s| - 1] == FromNat(n / 10);
    }
  }

  lemma FromNatInjective(m: nat, n: nat)
    requires FromNat(m) == FromNat(n)
    ensures m == n
  {
    ToNatFromNat(m);
    ToNatFromNat(n);
  }

  /** `String(n)` of an integer. */
  function FromInt(n: int): string {
    if n < 0 then "-" + FromNat(-n) else FromNat(n)
  }

  predicate IsInteger(s: string) {
    AllDigits(s) || (|s| > 1 && s[0] == '-' && AllDigits(s[1..]))
  }

  function ToInt(s: string): int
    requires IsInteger(s)
  {
    if AllDigits(s) then ToNat(s) else 0 - ToNat(s[1..])
  }

  lemma ToIntFromInt(n: int)
    ensures IsInteger(FromInt(n)) && ToInt(FromInt(n)) == n
  {
    hide FromNat, ToNat;
    if n < 0 {
      ToNatFromNat(-n);
      assert FromInt(n)[1..] == FromNat(-n);
      assert !IsDigit(FromInt(n)[0]);
    } else {
      ToNatFromNat(n);
    }
  }

  /** The white space and line terminators JavaScript's `trim` removes. */
  predicate IsSpace(c: char) {
    || '\t' <= c <= '\r'
    || c == ' ' || c == '\U{A0}' || c == '\U{1680}' || '\U{2000}' <= c <= '\U{200A}'
    || c == '\U{2028}' || c == '\U{2029}' || c == '\U{202F}' || c == '\U{205F}'
    || c == '\U{3000}' || c == '\U{FEFF}'
  }

  function TrimStart(s: string): string {
    if s != [] && IsSpace(s[0]) then TrimStart(s[1..]) else s
  }

  function TrimEnd(s: string): string {
    if s != [] && IsSpace(s[|s| - 1]) then TrimEnd(s[..|s| - 1]) else s
  }

  function Trim(s: string): string { TrimEnd(TrimStart(s)) }

  /** ASCII lower-casing of one character. */
  function LowerChar(c: char): (r: char)
    ensures r == '/' <==> c == '/'
  {
    if 'A' <= c <= 'Z' then c - 'A' + 'a' else c
  }

  function Lower(s: string): (r: string)
    ensures |r| == |s|
    ensures forall i :: 0 <= i < |s| ==> r[i] == LowerChar(s[i])
  {
    seq(|s|, i requires 0 <= i < |s| => LowerChar(s[i]))
  }
}
