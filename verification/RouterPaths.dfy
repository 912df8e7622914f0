/** Route templates as text: normalisation, tokens, and the key under which two routes collide. */
module RouterPaths {
  import opened Text

  predicate IdStart(c: char) { 'a' <= c <= 'z' || 'A' <= c <= 'Z' || c == '_' }

  predicate IdChar(c: char) { IdStart(c) || IsDigit(c) }

  /** How many identifier characters a text begins with. */
  function IdLength(s: string): (n: nat)
    ensures n <= |s|
    ensures forall i :: 0 <= i < n ==> IdChar(s[i])
    ensures n < |s| ==> !IdChar(s[n])
  {
    if s != [] && IdChar(s[0]) then 1 + IdLength(s[1..]) else 0
  }

  /** `:name` right behind a slash. */
  predicate AtColon(s: string, afterSlash: bool) {
    afterSlash && |s| > 1 && s[0] == ':' && IdStart(s[1])
  }

  /** `{name}`. */
  predicate AtBrace(s: string) {
    && |s| > 1 && s[0] == '{' && IdStart(s[1])
    && IdLength(s[1..]) + 1 < |s| && s[IdLength(s[1..]) + 1] == '}'
  }

  // ── Parameter names ──

  function StripColons(s: string, afterSlash: bool): string {
    if s == [] then []
    else if AtColon(s, afterSlash) then ":param" + StripColons(s[IdLength(s[1..]) + 1..], false)
    else [s[0]] + StripColons(s[1..], s[0] == '/')
  }

  function StripBraces(s: string): string {
    if s == [] then []
    else if AtBrace(s) then "{param}" + StripBraces(s[IdLength(s[1..]) + 2..])
    else [s[0]] + StripBraces(s[1..])
  }

  /** Parameter names do not narrow what a template matches, so they are collapsed. */
  function StripRouteParamNames(path: string): string { StripBraces(StripColons(path, false)) }

  function PathKey(httpMethod: string, path: string, caseSensitive: bool): string {
    var withoutNames := StripRouteParamNames(path);
    httpMethod + " " + if caseSensitive then withoutNames else Lower(withoutNames)
  }

  // ── Normalisation ──

  function CollapseSlashes(s: string): string {
    if s == [] then []
    else if |s| > 1 && s[0] == '/' && s[1] == '/' then CollapseSlashes(s[1..])
    else [s[0]] + CollapseSlashes(s[1..])
  }

  function NormalizeRequestPath(path: string, strictTrailingSlash: bool): string {
    var n := CollapseSlashes(path);
    if |n| > 1 && n[|n| - 1] == '/' && !strictTrailingSlash then n[..|n| - 1] else n
  }

  /** The text up to the next slash or brace. */
  function StaticLength(s: string): (n: nat)
    ensures n <= |s|
  {
    if s != [] && s[0] != '/' && s[0] != '{' && s[0] != '}' then 1 + StaticLength(s[1..]) else 0
  }

  /** Lower-cases what follows a slash, unless it begins with a colon. */
  function FoldStatic(s: string): string {
    if s == [] then []
    else if s[0] != '/' then [s[0]] + FoldStatic(s[1..])
    else
      var n := StaticLength(s[1..]);
      var text := s[1..n + 1];
      "/" + (if n > 0 && text[0] == ':' then text else Lower(text)) + FoldStatic(s[n + 1..])
  }

  function NormalizeRoutePath(path: string, strictTrailingSlash: bool, caseSensitive: bool): string {
    var n := NormalizeRequestPath(path, strictTrailingSlash);
    if caseSensitive then n else FoldStatic(n)
  }

  // ── Tokens ──

  datatype Token = Lit(c: char) | Colon(name: string) | Brace(name: string) | Star | DoubleStar

  function HeadToken(s: string, afterSlash: bool): Token
    requires s != []
  {
    if AtColon(s, afterSlash) then Colon(s[1..IdLength(s[1..]) + 1])
    else if AtBrace(s) then Brace(s[1..IdLength(s[1..]) + 1])
    else if |s| > 1 && s[0] == '*' && s[1] == '*' then DoubleStar
    else if s[0] == '*' then Star
    else Lit(s[0])
  }

  function HeadLength(s: string, afterSlash: bool): (n: nat)
    requires s != []
    ensures 1 <= n <= |s|
  {
    if AtColon(s, afterSlash) then IdLength(s[1..]) + 1
    else if AtBrace(s) then IdLength(s[1..]) + 2
    else if |s| > 1 && s[0] == '*' && s[1] == '*' then 2
    else 1
  }

  /** The parts of a template its regular expression is made of. */
  function Tokenize(s: string, afterSlash: bool): seq<Token>
    decreases |s|
  {
    if s == [] then []
    else
      var head := HeadToken(s, afterSlash);
      [head] + Tokenize(s[HeadLength(s, afterSlash)..], head == Lit('/'))
  }

  function Tokens(path: string): seq<Token> { Tokenize(path, false) }

  function ColonNameless(ts: seq<Token>): (r: seq<Token>)
    ensures |r| == |ts|
  {
    if ts == [] then []
    else [if ts[0].Colon? then Colon("param") else ts[0]] + ColonNameless(ts[1..])
  }

  function BraceNameless(ts: seq<Token>): (r: seq<Token>)
    ensures |r| == |ts|
  {
    if ts == [] then []
    else [if ts[0].Brace? then Brace("param") else ts[0]] + BraceNameless(ts[1..])
  }

  function LowerToken(t: Token): Token {
    match t
    case Lit(c) => Lit(LowerChar(c))
    case Colon(name) => Colon(Lower(name))
    case Brace(name) => Brace(Lower(name))
    case _ => t
  }

  function AllLower(ts: seq<Token>): (r: seq<Token>)
    ensures |r| == |ts|
  {
    if ts == [] then [] else [LowerToken(ts[0])] + AllLower(ts[1..])
  }

  // ── Identifiers ──

  lemma {:induction false} IdLengthSplit(name: string, rest: string)
    requires forall i :: 0 <= i < |name| ==> IdChar(name[i])
    ensures IdLength(name + rest) == |name| + IdLength(rest)
  {
    if name == [] {
      assert name + rest == rest;
    } else {
      assert (name + rest)[1..] == name[1..] + rest;
      IdLengthSplit(name[1..], rest);
    }
  }

  lemma {:induction false} IdLengthIs(s: string, n: nat)
    requires n <= |s| && (forall i :: 0 <= i < n ==> IdChar(s[i])) && (n < |s| ==> !IdChar(s[n]))
    ensures IdLength(s) == n
  {
    if n > 0 { IdLengthIs(s[1..], n - 1); }
  }

  lemma BehindId(s: string)
    ensures IdLength(s[IdLength(s)..]) == 0
  {
    IdLengthIs(s[IdLength(s)..], 0);
  }

  // ── Stripping colon names leaves every other token as it was ──

  lemma ColonsFirst(s: string)
    ensures |StripColons(s, false)| > 0 <==> |s| > 0
    ensures s != [] ==> StripColons(s, false)[0] == s[0]
    ensures s != [] ==> StripColons(s, false)[1..] == StripColons(s[1..], s[0] == '/')
  {}

  /** `r` begins like `s`, up to and including the character behind the identifier. */
  predicate SameId(r: string, s: string) {
    var n := IdLength(s);
    n <= |r| && r[..n] == s[..n] && IdLength(r) == n && (n < |s| <==> n < |r|) && (n < |s| ==> r[n] == s[n])
  }

  lemma SameIdStep(r: string, s: string, t: string)
    requires s != [] && IdChar(s[0]) && r == [s[0]] + t && SameId(t, s[1..])
    ensures SameId(r, s)
  {
    assert r[1..] == t;
    var n := IdLength(s);
    assert n == 1 + IdLength(s[1..]);
    assert r[..n] == [s[0]] + t[..n - 1] && s[..n] == [s[0]] + s[1..][..n - 1];
  }

  lemma {:induction false} ColonsKeepId(s: string)
    ensures SameId(StripColons(s, false), s)
    ensures StripColons(s, false)[IdLength(s)..] == StripColons(s[IdLength(s)..], false)
  {
    ColonsFirst(s);
    var r := StripColons(s, false);
    if s != [] && IdChar(s[0]) {
      ColonsKeepId(s[1..]);
      var t := StripColons(s[1..], false);
      assert r == [s[0]] + t;
      SameIdStep(r, s, t);
      hide StripColons;
      assert s[IdLength(s)..] == s[1..][IdLength(s) - 1..];
      assert r[IdLength(s)..] == t[IdLength(s) - 1..];
    }
  }

  lemma BraceOf(r: string, s: string)
    requires r != [] && s != [] && r[0] == s[0] && SameId(r[1..], s[1..])
    ensures AtBrace(r) == AtBrace(s)
    ensures AtBrace(s) || AtColon(s, true) ==> r[1..IdLength(s[1..]) + 1] == s[1..IdLength(s[1..]) + 1]
    ensures AtColon(r, true) == AtColon(s, true)
  {
    var n := IdLength(s[1..]);
    assert r[1..][..n] == r[1..n + 1] && s[1..][..n] == s[1..n + 1];
    assert n < |s[1..]| ==> r[1..][n] == s[1..][n];
    assert n > 0 ==> r[1..n + 1][0] == s[1..n + 1][0];
    assert n == 0 ==> (|s| > 1 ==> !IdStart(s[1])) && (|r| > 1 ==> !IdStart(r[1]));
  }

  function ColonName(t: Token): Token { if t.Colon? then Colon("param") else t }

  function BraceName(t: Token): Token { if t.Brace? then Brace("param") else t }

  /** What a pass over the text does to the first token, and that it goes on behind it. */
  predicate HeadKept(s: string, r: string, rest: string, token: Token, afterSlash: bool)
    requires s != []
  {
    r != [] && HeadToken(r, afterSlash) == token && r[HeadLength(r, afterSlash)..] == rest
  }

  lemma ColonsAtColon(s: string)
    requires AtColon(s, true)
    ensures HeadKept(s, StripColons(s, true), StripColons(s[HeadLength(s, true)..], false), Colon("param"), true)
  {
    var n := IdLength(s[1..]);
    var t := StripColons(s[n + 1..], false);
    BehindId(s[1..]);
    assert s[1..][n..] == s[n + 1..];
    ColonsKeepId(s[n + 1..]);
    hide IdLength;
    ColonParam(t);
  }

  lemma ColonsAtBrace(s: string, afterSlash: bool)
    requires !AtColon(s, afterSlash) && AtBrace(s)
    ensures HeadKept(s, StripColons(s, afterSlash), StripColons(s[HeadLength(s, afterSlash)..], false),
                     HeadToken(s, afterSlash), afterSlash)
  {
    var r, n := StripColons(s, afterSlash), IdLength(s[1..]);
    var t := StripColons(s[1..], false);
    assert r == ['{'] + t;
    ColonsKeepId(s[1..]);
    ColonsFirst(s[1..][n..]);
    hide StripColons, IdLength;
    assert r[1..] == t;
    BraceOf(r, s);
    assert s[1..][n..][1..] == s[n + 2..];
    assert t[n..][1..] == r[n + 2..];
  }

  lemma ColonsAtOther(s: string, afterSlash: bool)
    requires s != [] && !AtColon(s, afterSlash) && !AtBrace(s) && s[0] != '/'
    ensures HeadKept(s, StripColons(s, afterSlash), StripColons(s[HeadLength(s, afterSlash)..], false),
                     HeadToken(s, afterSlash), afterSlash)
  {
    var r := StripColons(s, afterSlash);
    var t := StripColons(s[1..], false);
    assert r == [s[0]] + t;
    ColonsKeepId(s[1..]);
    ColonsFirst(s[1..]);
    hide StripColons, IdLength;
    assert r[1..] == t;
    BraceOf(r, s);
    if |s| > 1 && s[0] == '*' && s[1] == '*' {
      assert s[1..][1..] == s[2..] && t[1..] == r[2..];
    }
  }

  lemma ColonsAtSlash(s: string, afterSlash: bool)
    requires s != [] && s[0] == '/'
    ensures HeadKept(s, StripColons(s, afterSlash), StripColons(s[1..], true), HeadToken(s, afterSlash), afterSlash)
    ensures HeadLength(s, afterSlash) == 1 && HeadToken(s, afterSlash) == Lit('/')
  {
    assert StripColons(s, afterSlash)[1..] == StripColons(s[1..], true);
  }

  lemma {:induction false} TokensOfColons(s: string, afterSlash: bool)
    ensures Tokenize(StripColons(s, afterSlash), afterSlash) == ColonNameless(Tokenize(s, afterSlash))
    decreases |s|
  {
    if s != [] {
      var n, slash := HeadLength(s, afterSlash), HeadToken(s, afterSlash) == Lit('/');
      ColonsHead(s, afterSlash);
      TokensOfColons(s[n..], slash);
      hide StripColons, HeadToken, HeadLength;
    }
  }

  lemma ColonsHead(s: string, afterSlash: bool)
    requires s != []
    ensures HeadKept(s, StripColons(s, afterSlash),
                     StripColons(s[HeadLength(s, afterSlash)..], HeadToken(s, afterSlash) == Lit('/')),
                     ColonName(HeadToken(s, afterSlash)), afterSlash)
  {
    hide StripColons, HeadKept, IdLength;
    if AtColon(s, afterSlash) { ColonsAtColon(s); }
    else if AtBrace(s) { ColonsAtBrace(s, afterSlash); }
    else if s[0] == '/' { ColonsAtSlash(s, afterSlash); }
    else { ColonsAtOther(s, afterSlash); }
  }

  // ── The same for braces ──

  lemma BracesFirst(s: string)
    ensures |StripBraces(s)| > 0 <==> |s| > 0
    ensures s != [] ==> StripBraces(s)[0] == s[0]
    ensures s != [] && s[0] != '{' ==> StripBraces(s)[1..] == StripBraces(s[1..])
  {}

  lemma {:induction false} BracesKeepId(s: string)
    ensures SameId(StripBraces(s), s)
    ensures StripBraces(s)[IdLength(s)..] == StripBraces(s[IdLength(s)..])
  {
    BracesFirst(s);
    var r := StripBraces(s);
    if s != [] && IdChar(s[0]) {
      BracesKeepId(s[1..]);
      var t := StripBraces(s[1..]);
      assert r == [s[0]] + t;
      SameIdStep(r, s, t);
      hide StripBraces;
      assert s[IdLength(s)..] == s[1..][IdLength(s) - 1..];
      assert r[IdLength(s)..] == t[IdLength(s) - 1..];
    }
  }

  lemma BraceParam(t: string)
    ensures var r := "{param}" + t; AtBrace(r) && IdLength(r[1..]) == 5 && r[1..6] == "param" && r[7..] == t
  {
    hide IdLength;
    var r := "{param}" + t;
    IdLengthSplit("param", "}" + t);
    IdLengthIs("}" + t, 0);
    assert r[1..] == "param" + ("}" + t);
  }

  lemma ColonParam(t: string)
    requires IdLength(t) == 0
    ensures var r := ":param" + t; AtColon(r, true) && IdLength(r[1..]) == 5 && r[1..6] == "param" && r[6..] == t
  {
    hide IdLength;
    var r := ":param" + t;
    IdLengthSplit("param", t);
    assert r[1..] == "param" + t;
  }

  lemma BracesAtBrace(s: string, afterSlash: bool)
    requires AtBrace(s)
    ensures HeadKept(s, StripBraces(s), StripBraces(s[HeadLength(s, afterSlash)..]), Brace("param"), afterSlash)
  {
    var t := StripBraces(s[IdLength(s[1..]) + 2..]);
    BraceParam(t);
    hide StripBraces, IdLength;
  }

  lemma BracesAtOther(s: string, afterSlash: bool)
    requires s != [] && !AtBrace(s)
    ensures HeadKept(s, StripBraces(s), StripBraces(s[HeadLength(s, afterSlash)..]), HeadToken(s, afterSlash),
      afterSlash)
  {
    var r, n := StripBraces(s), IdLength(s[1..]);
    var t := StripBraces(s[1..]);
    assert r == [s[0]] + t;
    BracesKeepId(s[1..]);
    BracesFirst(s[1..]);
    hide StripBraces, IdLength;
    assert r[1..] == t;
    BraceOf(r, s);
    if AtColon(s, afterSlash) {
      assert s[1..][n..] == s[n + 1..] && t[n..] == r[n + 1..];
    } else if |s| > 1 && s[0] == '*' && s[1] == '*' {
      assert s[1..][1..] == s[2..] && t[1..] == r[2..];
    }
  }

  lemma {:induction false} TokensOfBraces(s: string, afterSlash: bool)
    ensures Tokenize(StripBraces(s), afterSlash) == BraceNameless(Tokenize(s, afterSlash))
    decreases |s|
  {
    if s != [] {
      var n, slash := HeadLength(s, afterSlash), HeadToken(s, afterSlash) == Lit('/');
      BracesHead(s, afterSlash);
      TokensOfBraces(s[n..], slash);
      hide StripBraces, HeadToken, HeadLength;
    }
  }

  lemma BracesHead(s: string, afterSlash: bool)
    requires s != []
    ensures HeadKept(s, StripBraces(s), StripBraces(s[HeadLength(s, afterSlash)..]),
      BraceName(HeadToken(s, afterSlash)), afterSlash)
  {
    hide StripBraces, HeadKept, IdLength;
    if AtBrace(s) { BracesAtBrace(s, afterSlash); } else { BracesAtOther(s, afterSlash); }
  }

  // ── And for case ──

  lemma LowerTail(s: string, n: nat)
    requires n <= |s|
    ensures Lower(s)[n..] == Lower(s[n..]) && Lower(s)[..n] == Lower(s[..n])
  {}

  lemma {:induction false} LowerKeepsId(s: string)
    ensures IdLength(Lower(s)) == IdLength(s)
  {
    if s != [] {
      LowerTail(s, 1);
      LowerKeepsId(s[1..]);
    }
  }

  lemma LowerKinds(s: string, afterSlash: bool)
    requires s != []
    ensures AtColon(Lower(s), afterSlash) == AtColon(s, afterSlash) && AtBrace(Lower(s)) == AtBrace(s)
    ensures IdLength(Lower(s)[1..]) == IdLength(s[1..])
  {
    LowerTail(s, 1);
    LowerKeepsId(s[1..]);
    hide IdLength, Lower;
    var n := IdLength(s[1..]);
    assert |s| > 1 ==> Lower(s)[1] == LowerChar(s[1]);
    assert n + 1 < |s| ==> Lower(s)[n + 1] == LowerChar(s[n + 1]);
    assert Lower(s)[0] == LowerChar(s[0]);
  }

  lemma LowerSlice(s: string, n: nat)
    requires n < |s|
    ensures Lower(s)[1..n + 1] == Lower(s[1..n + 1])
  {}

  lemma LowerHead(s: string, afterSlash: bool)
    requires s != []
    ensures HeadKept(s, Lower(s), Lower(s[HeadLength(s, afterSlash)..]), LowerToken(HeadToken(s, afterSlash)),
      afterSlash)
    ensures LowerToken(HeadToken(s, afterSlash)) == Lit('/') <==> HeadToken(s, afterSlash) == Lit('/')
  {
    hide IdLength, Lower, AtColon, AtBrace;
    LowerKinds(s, afterSlash);
    LowerTail(s, HeadLength(s, afterSlash));
    if IdLength(s[1..]) < |s| { LowerSlice(s, IdLength(s[1..])); }
    assert Lower(s)[0] == LowerChar(s[0]);
    assert |s| > 1 ==> Lower(s)[1] == LowerChar(s[1]);
  }

  lemma {:induction false} TokensOfLower(s: string, afterSlash: bool)
    ensures Tokenize(Lower(s), afterSlash) == AllLower(Tokenize(s, afterSlash))
    decreases |s|
  {
    if s != [] {
      LowerHead(s, afterSlash);
      TokensOfLower(s[HeadLength(s, afterSlash)..], HeadToken(s, afterSlash) == Lit('/'));
      hide Lower, LowerToken, HeadToken, HeadLength;
    }
  }

  /** What the key of a path keeps of its tokens: everything but names, and case where it does not count. */
  function Shape(path: string, caseSensitive: bool): seq<Token> {
    var ts := BraceNameless(ColonNameless(Tokens(path)));
    if caseSensitive then ts else AllLower(ts)
  }

  lemma KeyGivesShape(httpMethod: string, p: string, q: string, caseSensitive: bool)
    requires PathKey(httpMethod, p, caseSensitive) == PathKey(httpMethod, q, caseSensitive)
    ensures Shape(p, caseSensitive) == Shape(q, caseSensitive)
  {
    hide Tokenize, StripBraces, StripColons, Lower, AllLower, BraceNameless, ColonNameless;
    StrippedShape(p, caseSensitive);
    StrippedShape(q, caseSensitive);
    var x, y := StripRouteParamNames(p), StripRouteParamNames(q);
    var head := httpMethod + " ";
    assert PathKey(httpMethod, p, caseSensitive)[|head|..] == if caseSensitive then x else Lower(x);
    assert PathKey(httpMethod, q, caseSensitive)[|head|..] == if caseSensitive then y else Lower(y);
  }

  lemma StrippedShape(p: string, caseSensitive: bool)
    ensures var x := StripRouteParamNames(p); Tokens(if caseSensitive then x else Lower(x)) == Shape(p, caseSensitive)
  {
    hide Tokenize, StripBraces, StripColons, Lower, AllLower, BraceNameless, ColonNameless;
    TokensOfBraces(StripColons(p, false), false);
    TokensOfColons(p, false);
    TokensOfLower(StripRouteParamNames(p), false);
  }
}
