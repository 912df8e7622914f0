/** What normalising paths keeps: their segments, and everything a template matches and binds. */
module RouterNormal {
  import opened Text
  import opened RouterPaths
  import opened RouterMatch
  import opened RouterBinding
  import opened RouterTrie

  // ── Slashes ──

  predicate NoDoubleSlash(s: string) {
    forall i :: 0 <= i < |s| - 1 ==> !(s[i] == '/' && s[i + 1] == '/')
  }

  lemma CollapseFirst(s: string)
    ensures |CollapseSlashes(s)| > 0 <==> |s| > 0
    ensures s != [] ==> CollapseSlashes(s)[0] == s[0]
  {}

  lemma {:induction false} CollapseLeavesNoDouble(s: string)
    ensures NoDoubleSlash(CollapseSlashes(s))
  {
    if s != [] {
      CollapseLeavesNoDouble(s[1..]);
      CollapseFirst(s[1..]);
      var t := CollapseSlashes(s[1..]);
      if !(|s| > 1 && s[0] == '/' && s[1] == '/') {
        assert CollapseSlashes(s) == [s[0]] + t;
        assert forall i :: 0 < i < |CollapseSlashes(s)| ==> CollapseSlashes(s)[i] == t[i - 1];
      }
    }
  }

  lemma {:induction false} CollapseKeeps(s: string)
    requires NoDoubleSlash(s)
    ensures CollapseSlashes(s) == s
  {
    if s != [] {
      forall i | 0 <= i < |s[1..]| - 1
        ensures !(s[1..][i] == '/' && s[1..][i + 1] == '/')
      {
        var j := i + 1;
        assert !(s[j] == '/' && s[j + 1] == '/');
      }
      CollapseKeeps(s[1..]);
      assert |s| > 1 ==> !(s[0] == '/' && s[0 + 1] == '/');
    }
  }

  /** A normalised path has no doubled slash, none at its end unless it must, and stays as it is. */
  lemma NormalizedStays(path: string, strictTrailingSlash: bool)
    ensures var n := NormalizeRequestPath(path, strictTrailingSlash);
            && NoDoubleSlash(n)
            && (|n| > 1 && n[|n| - 1] == '/' ==> strictTrailingSlash)
            && NormalizeRequestPath(n, strictTrailingSlash) == n
  {
    hide CollapseSlashes;
    CollapseLeavesNoDouble(path);
    CollapseKeeps(NormalizeRequestPath(path, strictTrailingSlash));
  }

  /** Equal first parts, and equal non-empty parts behind. */
  predicate SameParts(a: seq<string>, b: seq<string>)
    requires a != [] && b != []
  {
    a[0] == b[0] && NonEmpty(a[1..]) == NonEmpty(b[1..])
  }

  lemma NonEmptyOf(a: seq<string>, b: seq<string>)
    requires a != [] && b != [] && SameParts(a, b)
    ensures NonEmpty(a) == NonEmpty(b)
  {}

  lemma {:induction false} CollapseKeepsParts(s: string)
    ensures SameParts(Split(CollapseSlashes(s), '/'), Split(s, '/'))
  {
    if s != [] {
      CollapseKeepsParts(s[1..]);
      var t := CollapseSlashes(s[1..]);
      NonEmptyOf(Split(t, '/'), Split(s[1..], '/'));
      if |s| > 1 && s[0] == '/' && s[1] == '/' {
        assert Split(s, '/') == [""] + Split(s[1..], '/');
        assert Split(s, '/')[1..] == Split(s[1..], '/');
        SplitAtSlash(s[1..]);
        CollapseFirst(s[1..]);
        SplitAtSlash(t);
      } else {
        assert CollapseSlashes(s) == [s[0]] + t;
        assert (([s[0]] + t)[1..]) == t;
        SplitHead(s[0], t);
        SplitHead(s[0], s[1..]);
        assert [s[0]] + s[1..] == s;
      }
    }
  }

  lemma SplitAtSlash(s: string)
    requires s != [] && s[0] == '/'
    ensures Split(s, '/')[0] == "" && NonEmpty(Split(s, '/')) == NonEmpty(Split(s, '/')[1..])
  {}

  lemma SplitHead(c: char, t: string)
    ensures Split([c] + t, '/') ==
      if c == '/' then [""] + Split(t, '/') else [[c] + Split(t, '/')[0]] + Split(t, '/')[1..]
  {
    assert ([c] + t)[1..] == t;
  }

  lemma {:induction false} TrailingSlash(s: string)
    requires s != [] && s[|s| - 1] == '/'
    ensures Split(s, '/') == Split(s[..|s| - 1], '/') + [""]
  {
    var front := s[..|s| - 1];
    if |s| == 1 {
      assert s == "/" && front == [];
      SplitHead('/', "");
      assert ['/'] + "" == "/";
    } else {
      assert s[1..][..|s[1..]| - 1] == front[1..];
      TrailingSlash(s[1..]);
      SplitHead(s[0], s[1..]);
      SplitHead(s[0], front[1..]);
      assert [s[0]] + s[1..] == s && [s[0]] + front[1..] == front;
    }
  }

  lemma {:induction false} NonEmptyAppend(a: seq<string>, b: seq<string>)
    ensures NonEmpty(a + b) == NonEmpty(a) + NonEmpty(b)
  {
    if a == [] {
      assert a + b == b;
    } else {
      assert (a + b)[1..] == a[1..] + b;
      NonEmptyAppend(a[1..], b);
    }
  }

  /** Normalising a request path keeps its non-empty segments, in order. */
  lemma NormalizeKeepsSegments(path: string, strictTrailingSlash: bool)
    ensures Segments(NormalizeRequestPath(path, strictTrailingSlash)) == Segments(path)
  {
    hide CollapseSlashes, Split;
    var n := CollapseSlashes(path);
    CollapseKeepsParts(path);
    NonEmptyOf(Split(n, '/'), Split(path, '/'));
    if |n| > 1 && n[|n| - 1] == '/' && !strictTrailingSlash {
      TrailingSlash(n);
      NonEmptyAppend(Split(n[..|n| - 1], '/'), [""]);
    }
  }

  // ── Case ──

  predicate Stops(c: char) { c == '/' || c == '{' || c == '}' }

  /** Folding character by character; `lowering` within a static part. */
  function FoldFrom(s: string, lowering: bool): (r: string)
    ensures |r| == |s|
  {
    if s == [] then []
    else if s[0] == '/' then "/" + FoldFrom(s[1..], |s| > 1 && !Stops(s[1]) && s[1] != ':')
    else if Stops(s[0]) then [s[0]] + FoldFrom(s[1..], false)
    else [if lowering then LowerChar(s[0]) else s[0]] + FoldFrom(s[1..], lowering)
  }

  function Folded(s: string, lowering: bool): string { if lowering then Lower(s) else s }

  lemma FoldedCons(c: char, s: string, lowering: bool)
    ensures Folded([c] + s, lowering) == [if lowering then LowerChar(c) else c] + Folded(s, lowering)
    ensures Folded("", lowering) == ""
  {
    LowerConcat([c], s);
    LowerOne(c);
  }

  lemma FoldStep(s: string, lowering: bool)
    requires StaticLength(s) > 0
    ensures FoldFrom(s, lowering) == [if lowering then LowerChar(s[0]) else s[0]] + FoldFrom(s[1..], lowering)
    ensures StaticLength(s) == 1 + StaticLength(s[1..])
  {}

  lemma {:induction false} FoldRun(s: string, lowering: bool)
    ensures var n := StaticLength(s); FoldFrom(s, lowering) == Folded(s[..n], lowering) + FoldFrom(s[n..], false)
  {
    hide FoldFrom, Folded, StaticLength;
    var n := StaticLength(s);
    if n > 0 {
      FoldStep(s, lowering);
      FoldRun(s[1..], lowering);
      assert s[1..][n - 1..] == s[n..] && s[..n] == [s[0]] + s[1..][..n - 1];
      FoldedCons(s[0], s[1..][..n - 1], lowering);
    } else {
      assert s[..0] == [] && s[0..] == s;
      FoldedCons('/', "", lowering);
      FoldAtStop(s, lowering);
    }
  }

  lemma LowerOne(c: char)
    ensures Lower([c]) == [LowerChar(c)]
  {}

  lemma FoldAtStop(s: string, lowering: bool)
    requires StaticLength(s) == 0
    ensures FoldFrom(s, lowering) == FoldFrom(s, false)
  {}

  lemma {:induction false} FoldIsFrom(s: string)
    ensures FoldStatic(s) == FoldFrom(s, false)
    decreases |s|
  {
    hide FoldStatic, FoldFrom, Lower;
    if s == [] {
      NothingToFold();
    } else if s[0] != '/' {
      FoldIsFrom(s[1..]);
      FoldOne(s);
    } else {
      var n := StaticLength(s[1..]);
      var low := |s| > 1 && !Stops(s[1]) && s[1] != ':';
      FoldRun(s[1..], low);
      FoldIsFrom(s[n + 1..]);
      assert s[1..][n..] == s[n + 1..] && s[1..][..n] == s[1..n + 1];
      FoldParts(s);
    }
  }

  lemma NothingToFold()
    ensures FoldStatic("") == FoldFrom("", false)
  {}

  lemma FoldOne(s: string)
    requires s != [] && s[0] != '/'
    ensures FoldStatic(s) == [s[0]] + FoldStatic(s[1..]) && FoldFrom(s, false) == [s[0]] + FoldFrom(s[1..], false)
  {}

  lemma FoldParts(s: string)
    requires s != [] && s[0] == '/'
    ensures var n := StaticLength(s[1..]);
            var low := |s| > 1 && !Stops(s[1]) && s[1] != ':';
            && FoldFrom(s, false) == "/" + FoldFrom(s[1..], low)
            && FoldStatic(s) == "/" + Folded(s[1..n + 1], low) + FoldStatic(s[n + 1..])
  {
    var n := StaticLength(s[1..]);
    assert n > 0 ==> s[1..n + 1][0] == s[1];
    assert n == 0 ==> Lower(s[1..n + 1]) == s[1..n + 1];
  }

  /** The same token but for the case of a literal. */
  predicate SameToken(t: Token, u: Token) {
    t == u || (t.Lit? && u.Lit? && LowerChar(t.c) == LowerChar(u.c))
  }

  predicate SameTokens(ts: seq<Token>, us: seq<Token>) {
    |ts| == |us| && forall i :: 0 <= i < |ts| ==> SameToken(ts[i], us[i])
  }

  lemma FoldFirst(s: string, lowering: bool)
    requires s != []
    ensures var r := FoldFrom(s, lowering);
            LowerChar(r[0]) == LowerChar(s[0]) && IdStart(r[0]) == IdStart(s[0]) && IdChar(r[0]) == IdChar(s[0])
            && (!lowering || Stops(s[0]) ==> r[0] == s[0])
            && r[1..] == FoldFrom(s[1..], if s[0] == '/' then |s| > 1 && !Stops(s[1]) && s[1] != ':'
                                        else if Stops(s[0]) then false else lowering)
  {}

  /** Where nothing is being lowered an identifier is copied. */
  lemma {:induction false} FoldKeepsId(s: string)
    ensures SameId(FoldFrom(s, false), s)
    ensures FoldFrom(s, false)[IdLength(s)..] == FoldFrom(s[IdLength(s)..], false)
  {
    if s != [] && IdChar(s[0]) {
      FoldKeepsId(s[1..]);
      FoldFirst(s, false);
      var r, t := FoldFrom(s, false), FoldFrom(s[1..], false);
      hide FoldFrom;
      assert r == [s[0]] + t;
      SameIdStep(r, s, t);
      assert s[IdLength(s)..] == s[1..][IdLength(s) - 1..];
      assert r[IdLength(s)..] == t[IdLength(s) - 1..];
    }
  }

  /** Right behind a slash, lowering is on exactly where a static part begins. */
  predicate LowersRight(s: string, afterSlash: bool, lowering: bool) {
    afterSlash ==> lowering == (s != [] && !Stops(s[0]) && s[0] != ':')
  }

  ghost predicate HeadFolded(s: string, r: string, afterSlash: bool)
    requires s != []
  {
    && r != [] && SameToken(HeadToken(r, afterSlash), HeadToken(s, afterSlash))
    && (HeadToken(r, afterSlash) == Lit('/') <==> HeadToken(s, afterSlash) == Lit('/'))
    && HeadLength(r, afterSlash) == HeadLength(s, afterSlash)
  }

  lemma FoldColon(s: string)
    requires AtColon(s, true)
    ensures HeadFolded(s, FoldFrom(s, false), true)
    ensures FoldFrom(s, false)[HeadLength(s, true)..] == FoldFrom(s[HeadLength(s, true)..], false)
  {
    var r, n := FoldFrom(s, false), IdLength(s[1..]);
    FoldFirst(s, false);
    FoldKeepsId(s[1..]);
    var t := FoldFrom(s[1..], false);
    hide FoldFrom, IdLength;
    assert r[1..] == t;
    BraceOf(r, s);
    assert s[1..][n..] == s[n + 1..] && t[n..] == r[n + 1..];
  }

  lemma FoldBrace(s: string, afterSlash: bool, lowering: bool)
    requires !AtColon(s, afterSlash) && AtBrace(s)
    ensures HeadFolded(s, FoldFrom(s, lowering), afterSlash)
    ensures FoldFrom(s, lowering)[HeadLength(s, afterSlash)..] == FoldFrom(s[HeadLength(s, afterSlash)..], false)
  {
    hide FoldFrom, IdLength;
    var r, n := FoldFrom(s, lowering), IdLength(s[1..]);
    FoldFirst(s, lowering);
    FoldKeepsId(s[1..]);
    FoldFirst(s[1..][n..], false);
    var t := FoldFrom(s[1..], false);
    assert r[1..] == t;
    BraceOf(r, s);
    assert s[1..][n..][1..] == s[n + 2..] && t[n..][1..] == r[n + 2..];
  }

  /** What opens no parameter opens none when folded. */
  lemma FoldOpensNothing(s: string, afterSlash: bool, lowering: bool)
    requires s != [] && !AtColon(s, afterSlash) && !AtBrace(s)
    ensures !AtColon(FoldFrom(s, lowering), afterSlash) && !AtBrace(FoldFrom(s, lowering))
  {
    hide FoldFrom, IdLength;
    FoldFirst(s, lowering);
    if s[0] == '{' {
      FoldKeepsId(s[1..]);
      BraceOf(FoldFrom(s, lowering), s);
    } else if |s| > 1 {
      FoldSecond(s, lowering);
    }
  }

  lemma FoldSecond(s: string, lowering: bool)
    requires |s| > 1
    ensures var r := FoldFrom(s, lowering);
            |r| == |s| && LowerChar(r[1]) == LowerChar(s[1]) && IdStart(r[1]) == IdStart(s[1])
  {
    FoldFirst(s, lowering);
    FoldFirst(s[1..], if s[0] == '/' then !Stops(s[1]) && s[1] != ':' else if Stops(s[0]) then false else lowering);
    hide FoldFrom;
  }

  lemma FoldOther(s: string, afterSlash: bool, lowering: bool)
    requires s != [] && !AtColon(s, afterSlash) && !AtBrace(s)
    ensures HeadFolded(s, FoldFrom(s, lowering), afterSlash)
  {
    hide FoldFrom, IdLength, AtColon, AtBrace;
    FoldFirst(s, lowering);
    FoldOpensNothing(s, afterSlash, lowering);
    if |s| > 1 { FoldSecond(s, lowering); }
  }

  /** Behind an ordinary character folding goes on as it should. */
  lemma FoldTail(s: string, afterSlash: bool, lowering: bool) returns (next: bool)
    requires s != [] && !AtColon(s, afterSlash) && !AtBrace(s)
    ensures var n := HeadLength(s, afterSlash);
            && FoldFrom(s, lowering)[n..] == FoldFrom(s[n..], next)
            && LowersRight(s[n..], HeadToken(s, afterSlash) == Lit('/'), next)
  {
    FoldFirst(s, lowering);
    next := if s[0] == '/' then |s| > 1 && !Stops(s[1]) && s[1] != ':' else if Stops(s[0]) then false else lowering;
    if |s| > 1 && s[0] == '*' && s[1] == '*' {
      FoldFirst(s[1..], next);
      assert s[1..][1..] == s[2..] && FoldFrom(s, lowering)[1..][1..] == FoldFrom(s, lowering)[2..];
    }
  }

  lemma {:induction false} FoldKeepsTokens(s: string, afterSlash: bool, lowering: bool)
    requires LowersRight(s, afterSlash, lowering)
    ensures SameTokens(Tokenize(FoldFrom(s, lowering), afterSlash), Tokenize(s, afterSlash))
    decreases |s|
  {
    hide FoldFrom, HeadToken, HeadLength;
    if s != [] {
      var n, slash := HeadLength(s, afterSlash), HeadToken(s, afterSlash) == Lit('/');
      var next := FoldHead(s, afterSlash, lowering);
      FoldKeepsTokens(s[n..], slash, next);
    } else {
      NothingFolds(lowering);
    }
  }

  lemma NothingFolds(lowering: bool)
    ensures FoldFrom("", lowering) == ""
  {}

  lemma FoldHead(s: string, afterSlash: bool, lowering: bool) returns (next: bool)
    requires s != [] && LowersRight(s, afterSlash, lowering)
    ensures HeadFolded(s, FoldFrom(s, lowering), afterSlash)
    ensures var n := HeadLength(s, afterSlash);
            && FoldFrom(s, lowering)[n..] == FoldFrom(s[n..], next)
            && LowersRight(s[n..], HeadToken(s, afterSlash) == Lit('/'), next)
  {
    hide FoldFrom, IdLength, HeadFolded;
    next := false;
    if AtColon(s, afterSlash) { FoldColon(s); }
    else if AtBrace(s) { FoldBrace(s, afterSlash, lowering); }
    else {
      FoldOther(s, afterSlash, lowering);
      next := FoldTail(s, afterSlash, lowering);
    }
  }

  lemma {:induction false} SameNames(ts: seq<Token>, us: seq<Token>)
    requires SameTokens(ts, us)
    ensures BraceNames(ts) == BraceNames(us) && ColonNames(ts) == ColonNames(us)
  {
    if ts != [] {
      assert SameToken(ts[0], us[0]);
      SameNames(ts[1..], us[1..]);
    }
  }

  /**
   * On a router that ignores case, folding a template at registration changes neither which requests it
   * matches nor what their parameters are called and get.
   */
  lemma FoldingKeepsMatches(path: string, s: string)
    ensures MatchPath(FoldStatic(path), s, false) == MatchPath(path, s, false)
  {
    hide FoldStatic, FoldFrom, Tokenize, Match, Bind;
    FoldIsFrom(path);
    FoldKeepsTokens(path, false, false);
    SameNames(Tokens(FoldStatic(path)), Tokens(path));
    AlikeMatch(Tokens(FoldStatic(path)), Tokens(path), s, false);
  }
}
