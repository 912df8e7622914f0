/**
 * Strict base64 out of a lenient decoder: decode, encode again, and compare.
 *
 * The alphabets, the padding and the pad bits are those of sections 3.5, 4 and 5 of RFC 4648.
 */
module Base64 {
  import opened Bytes
  import opened Json

  // ── Alphabet ──

  type Sextet = v: int | 0 <= v < 64

  function Char(v: Sextet): (c: char)
    ensures IsChar(c) && ValueOf(c) == v
  {
    if v < 26 then 'A' + v as char
    else if v < 52 then 'a' + (v - 26) as char
    else if v < 62 then '0' + (v - 52) as char
    else if v == 62 then '+'
    else '/'
  }

  predicate IsChar(c: char) {
    'A' <= c <= 'Z' || 'a' <= c <= 'z' || '0' <= c <= '9' || c == '+' || c == '/'
  }

  function ValueOf(c: char): Sextet
    requires IsChar(c)
  {
    if 'A' <= c <= 'Z' then (c - 'A') as int
    else if 'a' <= c <= 'z' then (c - 'a') as int + 26
    else if '0' <= c <= '9' then (c - '0') as int + 52
    else if c == '+' then 62
    else 63
  }

  lemma CharOfValue(c: char)
    requires IsChar(c)
    ensures Char(ValueOf(c)) == c
  {}

  // ── Encoding ──

  function First(a: Byte): Sextet { a / 4 }

  function Second(a: Byte, b: Byte): Sextet { a % 4 * 16 + b / 16 }

  function Third(b: Byte, c: Byte): Sextet { b % 16 * 4 + c / 64 }

  function Fourth(c: Byte): Sextet { c % 64 }

  /** `Buffer.toString('base64')`. */
  function EncodeBase64(b: ByteString): string {
    if |b| == 0 then ""
    else if |b| == 1 then [Char(First(b[0])), Char(Second(b[0], 0)), '=', '=']
    else if |b| == 2 then [Char(First(b[0])), Char(Second(b[0], b[1])), Char(Third(b[1], 0)), '=']
    else Quad(b) + EncodeBase64(b[3..])
  }

  function Quad(b: ByteString): (q: string)
    requires |b| >= 3
    ensures |q| == 4
  {
    [Char(First(b[0])), Char(Second(b[0], b[1])), Char(Third(b[1], b[2])), Char(Fourth(b[2]))]
  }

  /** The same without padding. */
  function Unpadded(b: ByteString): string {
    if |b| == 0 then ""
    else if |b| == 1 then [Char(First(b[0])), Char(Second(b[0], 0))]
    else if |b| == 2 then [Char(First(b[0])), Char(Second(b[0], b[1])), Char(Third(b[1], 0))]
    else Quad(b) + Unpadded(b[3..])
  }

  /** `s.replace(/=+$/, '')`. */
  function StripPad(s: string): string {
    if s != [] && s[|s| - 1] == '=' then StripPad(s[..|s| - 1]) else s
  }

  lemma {:induction false} StripBehind(a: string, b: string)
    requires a == [] || a[|a| - 1] != '='
    ensures StripPad(a + b) == a + StripPad(b)
  {
    if b != [] && b[|b| - 1] == '=' {
      assert (a + b)[..|a + b| - 1] == a + b[..|b| - 1];
      StripBehind(a, b[..|b| - 1]);
    } else if b == [] {
      assert a + b == a;
    }
  }

  lemma {:induction false} StripEncoded(b: ByteString)
    ensures StripPad(EncodeBase64(b)) == Unpadded(b)
  {
    if 1 <= |b| <= 2 {
      var pad := if |b| == 1 then "==" else "=";
      assert EncodeBase64(b) == Unpadded(b) + pad;
      StripAll(pad);
      StripBehind(Unpadded(b), pad);
    } else if |b| >= 3 {
      StripEncoded(b[3..]);
      StripBehind(Quad(b), EncodeBase64(b[3..]));
    }
  }

  // ── Canonical texts ──

  /** No bit is set behind the last byte. */
  predicate EndsClean(s: string) {
    && (|s| % 4 == 2 ==> IsChar(s[|s| - 1]) && ValueOf(s[|s| - 1]) % 16 == 0)
    && (|s| % 4 == 3 ==> IsChar(s[|s| - 1]) && ValueOf(s[|s| - 1]) % 4 == 0)
  }

  /** In the alphabet, of a possible length, and with zero bits where no byte reaches. */
  predicate Canonical(s: string) {
    && (forall i :: 0 <= i < |s| ==> IsChar(s[i]))
    && |s| % 4 != 1
    && EndsClean(s)
  }

  function ByteA(v0: Sextet, v1: Sextet): Byte { 4 * v0 + v1 / 16 }

  function ByteB(v1: Sextet, v2: Sextet): Byte { 16 * (v1 % 16) + v2 / 4 }

  function ByteC(v2: Sextet, v3: Sextet): Byte { 64 * (v2 % 4) + v3 }

  lemma SextetsOfBytes(a: Byte, b: Byte, c: Byte)
    ensures ByteA(First(a), Second(a, b)) == a
    ensures ByteB(Second(a, b), Third(b, c)) == b
    ensures ByteC(Third(b, c), Fourth(c)) == c
    ensures Second(a, 0) % 16 == 0 && Third(b, 0) % 4 == 0
  {}

  lemma BytesOfSextets(v0: Sextet, v1: Sextet, v2: Sextet, v3: Sextet)
    ensures First(ByteA(v0, v1)) == v0
    ensures Second(ByteA(v0, v1), ByteB(v1, v2)) == v1
    ensures Third(ByteB(v1, v2), ByteC(v2, v3)) == v2
    ensures Fourth(ByteC(v2, v3)) == v3
    ensures v1 % 16 == 0 ==> Second(ByteA(v0, v1), 0) == v1
    ensures v2 % 4 == 0 ==> Third(ByteB(v1, v2), 0) == v2
  {}

  /** The bytes of a text over the alphabet; what is left over at the end is dropped. */
  function DecodeChars(s: string): ByteString
    requires forall i :: 0 <= i < |s| ==> IsChar(s[i])
  {
    if |s| < 2 then []
    else
      var v0, v1 := ValueOf(s[0]), ValueOf(s[1]);
      if |s| == 2 then [ByteA(v0, v1)]
      else
        var v2 := ValueOf(s[2]);
        if |s| == 3 then [ByteA(v0, v1), ByteB(v1, v2)]
        else [ByteA(v0, v1), ByteB(v1, v2), ByteC(v2, ValueOf(s[3]))] + DecodeChars(s[4..])
  }

  lemma {:induction false} UnpaddedChars(b: ByteString)
    ensures forall i :: 0 <= i < |Unpadded(b)| ==> IsChar(Unpadded(b)[i])
  {
    hide First, Second, Third, Fourth, Char, IsChar;
    if |b| >= 3 {
      UnpaddedChars(b[3..]);
      assert Unpadded(b) == Quad(b) + Unpadded(b[3..]);
    }
  }

  lemma {:induction false} UnpaddedLength(b: ByteString)
    ensures |Unpadded(b)| % 4 != 1 && (|Unpadded(b)| % 4 == 2 || |Unpadded(b)| % 4 == 3 ==> |b| % 3 != 0)
    ensures |Unpadded(b)| == 0 <==> |b| == 0
  {
    hide Quad, First, Second, Third, Fourth, Char, IsChar;
    if |b| >= 3 {
      UnpaddedLength(b[3..]);
      assert |Unpadded(b)| == 4 + |Unpadded(b[3..])|;
    }
  }

  lemma EndsAt(s: string, v: Sextet)
    requires (|s| == 1 && v % 16 == 0) || (|s| == 2 && v % 4 == 0)
    ensures EndsClean(s + [Char(v)])
  {
    hide Char, IsChar, ValueOf;
    assert ValueOf(Char(v)) == v && (s + [Char(v)])[|s|] == Char(v);
  }

  lemma OneByteEndsClean(a: Byte)
    ensures EndsClean([Char(First(a)), Char(Second(a, 0))])
  {
    hide First, Second, Char, EndsClean;
    var v := Second(a, 0);
    SextetsOfBytes(a, a, a);
    EndsAt([Char(First(a))], v);
    assert [Char(First(a))] + [Char(v)] == [Char(First(a)), Char(v)];
  }

  lemma TwoBytesEndClean(a: Byte, b: Byte)
    ensures EndsClean([Char(First(a)), Char(Second(a, b)), Char(Third(b, 0))])
  {
    hide First, Second, Third, Char, EndsClean;
    var v := Third(b, 0);
    SextetsOfBytes(a, b, 0);
    EndsAt([Char(First(a)), Char(Second(a, b))], v);
    assert [Char(First(a)), Char(Second(a, b))] + [Char(v)] == [Char(First(a)), Char(Second(a, b)), Char(v)];
  }

  lemma PrefixEndsClean(q: string, s: string)
    requires |q| == 4 && EndsClean(s)
    ensures EndsClean(q + s)
  {}

  lemma {:induction false} UnpaddedEnd(b: ByteString)
    ensures EndsClean(Unpadded(b))
  {
    hide EndsClean, Quad, First, Second, Third, Char;
    if |b| >= 3 {
      UnpaddedEnd(b[3..]);
      PrefixEndsClean(Quad(b), Unpadded(b[3..]));
    } else if |b| == 2 {
      TwoBytesEndClean(b[0], b[1]);
    } else if |b| == 1 {
      OneByteEndsClean(b[0]);
    } else {
      NothingEndsClean();
    }
  }

  lemma NothingEndsClean()
    ensures EndsClean("")
  {}

  lemma {:induction false} UnpaddedDecodes(b: ByteString)
    requires forall i :: 0 <= i < |Unpadded(b)| ==> IsChar(Unpadded(b)[i])
    ensures DecodeChars(Unpadded(b)) == b
  {
    hide First, Second, Third, Fourth, ByteA, ByteB, ByteC, Char, ValueOf, IsChar;
    if |b| >= 3 {
      assert Unpadded(b)[4..] == Unpadded(b[3..]);
      UnpaddedChars(b[3..]);
      UnpaddedDecodes(b[3..]);
      assert b == [b[0], b[1], b[2]] + b[3..];
      SextetsOfBytes(b[0], b[1], b[2]);
    } else if |b| == 2 {
      SextetsOfBytes(b[0], b[1], 0);
    } else if |b| == 1 {
      SextetsOfBytes(b[0], 0, 0);
    }
  }

  lemma UnpaddedIsCanonical(b: ByteString)
    ensures Canonical(Unpadded(b)) && DecodeChars(Unpadded(b)) == b
  {
    hide Unpadded, DecodeChars, ValueOf, IsChar;
    UnpaddedChars(b);
    UnpaddedLength(b);
    UnpaddedEnd(b);
    UnpaddedDecodes(b);
  }

  lemma {:induction false} CanonicalIsUnpadded(s: string)
    requires Canonical(s)
    ensures Unpadded(DecodeChars(s)) == s
  {
    hide First, Second, Third, Fourth, ByteA, ByteB, ByteC, Char, ValueOf, IsChar;
    if |s| >= 4 {
      var rest := s[4..];
      assert Canonical(rest);
      CanonicalIsUnpadded(rest);
      FourChars(s);
      assert DecodeChars(s)[3..] == DecodeChars(rest);
      assert s == s[..4] + rest;
    } else if |s| >= 2 {
      CharOfValue(s[0]);
      CharOfValue(s[1]);
      if |s| == 3 { CharOfValue(s[2]); }
      BytesOfSextets(ValueOf(s[0]), ValueOf(s[1]), if |s| == 3 then ValueOf(s[2]) else 0, 0);
    }
  }

  lemma FourChars(s: string)
    requires |s| >= 4 && forall i :: 0 <= i < |s| ==> IsChar(s[i])
    ensures |DecodeChars(s)| >= 3 && Quad(DecodeChars(s)) == s[..4]
  {
    hide First, Second, Third, Fourth, ByteA, ByteB, ByteC, Char, ValueOf, IsChar;
    BytesOfSextets(ValueOf(s[0]), ValueOf(s[1]), ValueOf(s[2]), ValueOf(s[3]));
    CharOfValue(s[0]);
    CharOfValue(s[1]);
    CharOfValue(s[2]);
    CharOfValue(s[3]);
  }

  // ── decodeBase64 ──

  function ToStandard(c: char): char {
    if c == '-' then '+' else if c == '_' then '/' else c
  }

  function Mapped(s: string): string { seq(|s|, i requires 0 <= i < |s| => ToStandard(s[i])) }

  function Normalize(s: string): string { StripPad(Mapped(s)) }

  datatype Decoded = Absent | Decoded(bytes: ByteString) | Malformed

  /** `decodeBase64`, over whatever decoder lies beneath it. */
  function DecodeBase64(decode: string -> ByteString, value: Value): Decoded {
    if !value.Str? || value.s == "" then Absent
    else
      var normalized := Normalize(value.s);
      var bytes := decode(normalized);
      if StripPad(EncodeBase64(bytes)) != normalized then Malformed else Decoded(bytes)
  }

  /** All that is asked of the decoder beneath: it decodes what the encoder writes. */
  ghost predicate Inverts(decode: string -> ByteString) {
    forall b :: decode(Unpadded(b)) == b
  }

  /** A non-empty text is accepted exactly when it is canonical, and then for the bytes it stands for. */
  lemma AcceptsExactlyCanonical(decode: string -> ByteString, s: string)
    requires Inverts(decode) && s != ""
    ensures DecodeBase64(decode, Str(s)) ==
      if Canonical(Normalize(s)) then Decoded(DecodeChars(Normalize(s))) else Malformed
  {
    var bytes := decode(Normalize(s));
    StripEncoded(bytes);
    UnpaddedIsCanonical(bytes);
    if Canonical(Normalize(s)) { CanonicalIsUnpadded(Normalize(s)); }
  }

  /** Two accepted texts stand for the same bytes exactly when they differ in spelling only. */
  lemma NoTwoSpellings(decode: string -> ByteString, s: string, t: string)
    requires Inverts(decode) && s != "" && t != ""
    requires DecodeBase64(decode, Str(s)).Decoded? && DecodeBase64(decode, Str(t)).Decoded?
    ensures DecodeBase64(decode, Str(s)) == DecodeBase64(decode, Str(t)) <==> Normalize(s) == Normalize(t)
  {
    AcceptsExactlyCanonical(decode, s);
    AcceptsExactlyCanonical(decode, t);
    CanonicalIsUnpadded(Normalize(s));
    CanonicalIsUnpadded(Normalize(t));
  }

  lemma {:induction false} EncodedChars(b: ByteString, i: nat)
    requires i < |EncodeBase64(b)|
    ensures IsChar(EncodeBase64(b)[i]) || EncodeBase64(b)[i] == '='
  {
    hide Char, First, Second, Third, Fourth;
    if |b| >= 3 && i >= 4 { EncodedChars(b[3..], i - 4); }
  }

  lemma StandardChar(c: char)
    requires IsChar(c) || c == '='
    ensures ToStandard(c) == c
  {}

  lemma EncodedIsStandard(b: ByteString)
    ensures Mapped(EncodeBase64(b)) == EncodeBase64(b)
  {
    hide Char, First, Second, Third, Fourth, ToStandard;
    forall i | 0 <= i < |EncodeBase64(b)|
      ensures ToStandard(EncodeBase64(b)[i]) == EncodeBase64(b)[i]
    {
      EncodedChars(b, i);
      StandardChar(EncodeBase64(b)[i]);
    }
  }

  /** Any bytes but none come back; none come back as absent. */
  lemma EncodedComesBack(decode: string -> ByteString, b: ByteString)
    requires Inverts(decode)
    ensures DecodeBase64(decode, Str(EncodeBase64(b))) == if b == [] then Absent else Decoded(b)
  {
    if b != [] {
      EncodedIsStandard(b);
      StripEncoded(b);
      UnpaddedIsCanonical(b);
      AcceptsExactlyCanonical(decode, EncodeBase64(b));
    }
  }

  /** Padding alone is accepted as no bytes at all, which a field that is absent is not. */
  lemma OnlyPadding(decode: string -> ByteString, s: string)
    requires Inverts(decode) && s != "" && forall i :: 0 <= i < |s| ==> s[i] == '='
    ensures DecodeBase64(decode, Str(s)) == Decoded([])
  {
    assert Mapped(s) == s;
    StripAll(s);
    AcceptsExactlyCanonical(decode, s);
  }

  lemma {:induction false} StripAll(s: string)
    requires forall i :: 0 <= i < |s| ==> s[i] == '='
    ensures StripPad(s) == ""
  {
    if s != [] {
      StripAll(s[..|s| - 1]);
    }
  }

  // ── A lenient decoder ──

  function Recognized(s: string): (r: string)
    ensures forall i :: 0 <= i < |r| ==> IsChar(r[i])
  {
    if s == [] then []
    else if IsChar(ToStandard(s[0])) then [ToStandard(s[0])] + Recognized(s[1..])
    else Recognized(s[1..])
  }

  /** Decodes the characters it recognizes and passes over all others. */
  function Lenient(s: string): ByteString { DecodeChars(Recognized(s)) }

  lemma {:induction false} AllRecognized(s: string)
    requires forall i :: 0 <= i < |s| ==> IsChar(s[i])
    ensures Recognized(s) == s
  {
    if s != [] {
      AllRecognized(s[1..]);
      assert s == [s[0]] + s[1..];
    }
  }

  /** The lenient decoder meets what is asked, though it accepts every string there is. */
  lemma LenientInverts()
    ensures Inverts(Lenient)
  {
    forall b: ByteString
      ensures Lenient(Unpadded(b)) == b
    {
      UnpaddedIsCanonical(b);
      AllRecognized(Unpadded(b));
    }
  }
}
