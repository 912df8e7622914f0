/** How matches are ranked, over exact numbers. */
module RouterScore {
  import opened Text
  import opened RouterPaths
  import opened RouterMatch

  predicate IsStatic(segment: string) { '{' !in segment && (segment == "" || segment[0] != ':') }

  function CountStatic(segments: seq<string>): (n: nat)
    ensures n <= |segments|
  {
    if segments == [] then 0 else (if IsStatic(segments[0]) then 1 else 0) + CountStatic(segments[1..])
  }

  function StaticSegments(path: string): nat { CountStatic(Split(path, '/')) }

  function SegmentCount(path: string): (n: nat)
    ensures n > 0
  {
    |Split(path, '/')|
  }

  function Score(path: string): (score: real)
    ensures score >= 0.0
  {
    StaticSegments(path) as real / SegmentCount(path) as real * 100.0 + |path| as real * 0.01
  }

  // ── Templates matching one request have as many segments as it has ──

  lemma {:induction false} SlashesBehind(s: string, n: nat)
    requires n <= |s| && '/' !in s[..n]
    ensures Slashes(s) == Slashes(s[n..])
  {
    if n > 0 {
      assert s[0] == s[..n][0] && s[1..][..n - 1] == s[..n][1..];
      assert s[1..][n - 1..] == s[n..];
      SlashesBehind(s[1..], n - 1);
    }
  }

  function SlashTokens(ts: seq<Token>): nat {
    if ts == [] then 0 else (if ts[0] == Lit('/') then 1 else 0) + SlashTokens(ts[1..])
  }

  lemma HeadSlashes(s: string, afterSlash: bool)
    requires s != []
    ensures var n := HeadLength(s, afterSlash);
            if HeadToken(s, afterSlash) == Lit('/') then n == 1 && s[0] == '/' else '/' !in s[..n]
  {
    var k := IdLength(s[1..]);
    assert forall i :: 0 < i <= k ==> s[i] == s[1..][i - 1];
  }

  lemma {:induction false} TokensKeepSlashes(s: string, afterSlash: bool)
    ensures SlashTokens(Tokenize(s, afterSlash)) == Slashes(s)
    decreases |s|
  {
    if s != [] {
      HeadSlashes(s, afterSlash);
      var n := HeadLength(s, afterSlash);
      TokensKeepSlashes(s[n..], HeadToken(s, afterSlash) == Lit('/'));
      hide HeadToken, HeadLength;
      if HeadToken(s, afterSlash) != Lit('/') { SlashesBehind(s, n); }
    }
  }

  lemma {:induction false} AgreesKeepsSlashes(ts: seq<Token>, caps: seq<string>, s: string, caseSensitive: bool)
    requires DoubleStar !in ts && Agrees(ts, caps, s, caseSensitive)
    ensures SlashTokens(ts) == Slashes(s)
  {
    if ts != [] && ts[0].Lit? {
      AgreesKeepsSlashes(ts[1..], caps, s[1..], caseSensitive);
    } else if ts != [] {
      AgreesKeepsSlashes(ts[1..], caps[1..], s[|caps[0]|..], caseSensitive);
      assert s[..|caps[0]|] == caps[0];
      SlashesBehind(s, |caps[0]|);
    }
  }

  lemma SameSegmentCount(path: string, s: string, caseSensitive: bool)
    requires Match(Tokens(path), s, caseSensitive).Some? && DoubleStar !in Tokens(path)
    ensures SegmentCount(path) == SegmentCount(s)
  {
    hide Match, Agrees, Tokenize;
    MatchAgrees(Tokens(path), s, caseSensitive);
    AgreesKeepsSlashes(Tokens(path), Match(Tokens(path), s, caseSensitive).value, s, caseSensitive);
    TokensKeepSlashes(path, false);
    SplitCounts(path);
    SplitCounts(s);
  }

  /**
   * Of two templates matching one request, the one with d more static segments out of N wins exactly
   * when the other is less than 10000 d / N characters longer; with as many, the longer one wins.
   */
  lemma Precedence(p: string, q: string, s: string, caseSensitive: bool)
    requires Match(Tokens(p), s, caseSensitive).Some? && Match(Tokens(q), s, caseSensitive).Some?
    requires DoubleStar !in Tokens(p) && DoubleStar !in Tokens(q)
    ensures SegmentCount(p) == SegmentCount(q) == SegmentCount(s)
    ensures var d, n := StaticSegments(p) - StaticSegments(q), SegmentCount(s);
            Score(p) > Score(q) <==> (|q| - |p|) as real < 10000.0 * d as real / n as real
    ensures StaticSegments(p) == StaticSegments(q) ==> (Score(p) > Score(q) <==> |p| > |q|)
  {
    hide Match, Tokenize, StaticSegments, SegmentCount;
    SameSegmentCount(p, s, caseSensitive);
    SameSegmentCount(q, s, caseSensitive);
    Compare(StaticSegments(p), StaticSegments(q), SegmentCount(s), |p|, |q|);
  }

  lemma Compare(a: nat, b: nat, n: nat, l: nat, m: nat)
    requires n > 0
    ensures a as real / n as real * 100.0 + l as real * 0.01 > b as real / n as real * 100.0 + m as real * 0.01
       <==> (m - l) as real < 10000.0 * (a - b) as real / n as real
    ensures a == b ==> (10000.0 * (a - b) as real / n as real == 0.0)
  {
    var x, y, z := a as real / n as real, b as real / n as real, (a - b) as real / n as real;
    assert z == x - y;
    assert 10000.0 * (a - b) as real / n as real == 10000.0 * z;
  }
}
