/** Which of two matching templates is answered, read off their parameters. */
module RouterPrecedence {
  import opened Options
  import opened Text
  import opened RouterPaths
  import opened RouterMatch
  import opened RouterBinding
  import opened RouterConflict
  import opened RouterScore
  import opened RouterTrie
  import opened RouterService

  // ── Segments of a template ──

  /** The tokens between slashes. */
  function Pieces(ts: seq<Token>): (pieces: seq<seq<Token>>)
    ensures |pieces| > 0
  {
    if ts == [] then [[]]
    else
      var rest := Pieces(ts[1..]);
      if ts[0] == Lit('/') then [[]] + rest else [[ts[0]] + rest[0]] + rest[1..]
  }

  /** A segment that holds a parameter, or what looks like the beginning of one. */
  ghost predicate Parameterised(piece: seq<Token>) {
    || (exists t :: t in piece && (Named(t) || t == Lit('{')))
    || (piece != [] && piece[0] == Lit(':'))
  }

  ghost function CountParameterised(pieces: seq<seq<Token>>): nat {
    if pieces == [] then 0
    else (if Parameterised(pieces[0]) then 1 else 0) + CountParameterised(pieces[1..])
  }

  /** How many segments of a template are parameterised. */
  ghost function Parameters(path: string): nat { CountParameterised(Pieces(Tokens(path))) }

  // ── The text of a segment ──

  /** What every token of a template is: names are identifiers. */
  predicate WellFormed(t: Token) {
    Named(t) ==> '/' !in t.name && '{' !in t.name
  }

  predicate AllWellFormed(ts: seq<Token>) { forall i :: 0 <= i < |ts| ==> WellFormed(ts[i]) }

  /** Colon parameters come right behind a slash. */
  predicate ColonsBehindSlash(ts: seq<Token>, afterSlash: bool) {
    ts == [] || ((ts[0].Colon? ==> afterSlash) && ColonsBehindSlash(ts[1..], ts[0] == Lit('/')))
  }

  lemma HeadWellFormed(s: string, afterSlash: bool)
    requires s != []
    ensures WellFormed(HeadToken(s, afterSlash)) && (HeadToken(s, afterSlash).Colon? ==> afterSlash)
  {
    var k := IdLength(s[1..]);
    assert forall i :: 0 <= i < k ==> s[1..k + 1][i] == s[1..][i];
  }

  lemma {:induction false} TokensWellFormed(s: string, afterSlash: bool)
    ensures AllWellFormed(Tokenize(s, afterSlash)) && ColonsBehindSlash(Tokenize(s, afterSlash), afterSlash)
    decreases |s|
  {
    hide HeadToken, HeadLength, WellFormed;
    if s != [] {
      HeadWellFormed(s, afterSlash);
      var rest := s[HeadLength(s, afterSlash)..];
      TokensWellFormed(rest, HeadToken(s, afterSlash) == Lit('/'));
    }
  }

  /** A slash-free text in front goes to the first part. */
  lemma {:induction false} SplitBehind(a: string, s: string)
    requires '/' !in a
    ensures Split(a + s, '/') == [a + Split(s, '/')[0]] + Split(s, '/')[1..]
  {
    if a == [] {
      assert a + s == s && a + Split(s, '/')[0] == Split(s, '/')[0];
      assert [Split(s, '/')[0]] + Split(s, '/')[1..] == Split(s, '/');
    } else {
      assert (a + s)[1..] == a[1..] + s && (a + s)[0] == a[0] && a[0] in a;
      SplitBehind(a[1..], s);
      assert [a[0]] + (a[1..] + Split(s, '/')[0]) == a + Split(s, '/')[0];
    }
  }

  lemma NoSlashInside(t: Token)
    requires WellFormed(t)
    ensures RenderToken(Lit('/')) == "/"
    ensures t != Lit('/') ==> '/' !in RenderToken(t)
  {}

  ghost predicate Written(parts: seq<string>, pieces: seq<seq<Token>>) {
    |parts| == |pieces| && forall i :: 0 <= i < |pieces| ==> parts[i] == Render(pieces[i])
  }

  lemma WrittenMore(parts: seq<string>, pieces: seq<seq<Token>>, t: Token)
    requires Written(parts, pieces) && |pieces| > 0
    ensures Written([""] + parts, [[]] + pieces)
    ensures Written([RenderToken(t) + parts[0]] + parts[1..], [[t] + pieces[0]] + pieces[1..])
  {
    hide RenderToken;
    var piece := [t] + pieces[0];
    assert piece[1..] == pieces[0] && Render(piece) == RenderToken(t) + parts[0];
  }

  /** Splitting a template's text at slashes and splitting its tokens come to the same. */
  lemma {:induction false} PiecesAreParts(ts: seq<Token>)
    requires AllWellFormed(ts)
    ensures Written(Split(Render(ts), '/'), Pieces(ts))
  {
    hide RenderToken, WellFormed, Written;
    if ts == [] {
      NothingWritten();
    } else {
      assert forall i :: 0 <= i < |ts[1..]| ==> ts[1..][i] == ts[i + 1];
      PiecesAreParts(ts[1..]);
      assert WellFormed(ts[0]);
      NoSlashInside(ts[0]);
      var rest := Render(ts[1..]);
      WrittenMore(Split(rest, '/'), Pieces(ts[1..]), ts[0]);
      if ts[0] == Lit('/') {
        assert ("/" + rest)[1..] == rest;
      } else {
        SplitBehind(RenderToken(ts[0]), rest);
      }
    }
  }

  lemma NothingWritten()
    ensures Written(Split("", '/'), Pieces([]))
  {}

  lemma BraceInToken(t: Token)
    requires WellFormed(t)
    ensures '{' in RenderToken(t) <==> t.Brace? || t == Lit('{')
  {}

  ghost predicate HasBrace(piece: seq<Token>) { exists t :: t in piece && (t.Brace? || t == Lit('{')) }

  lemma HasBraceFirst(piece: seq<Token>)
    requires piece != []
    ensures HasBrace(piece) <==> piece[0].Brace? || piece[0] == Lit('{') || HasBrace(piece[1..])
  {
    if t :| t in piece && (t.Brace? || t == Lit('{')) { assert t == piece[0] || t in piece[1..]; }
    if t :| t in piece[1..] && (t.Brace? || t == Lit('{')) { assert t in piece; }
    assert piece[0] in piece;
  }

  lemma {:induction false} BraceInText(piece: seq<Token>)
    requires AllWellFormed(piece)
    ensures '{' in Render(piece) <==> HasBrace(piece)
  {
    hide RenderToken, WellFormed;
    if piece != [] {
      assert forall i :: 0 <= i < |piece[1..]| ==> piece[1..][i] == piece[i + 1];
      BraceInText(piece[1..]);
      assert WellFormed(piece[0]);
      BraceInToken(piece[0]);
      HasBraceFirst(piece);
      assert Render(piece) == RenderToken(piece[0]) + Render(piece[1..]);
      hide HasBrace, Render;
    }
  }

  lemma TextBegins(piece: seq<Token>)
    requires piece != []
    ensures Render(piece) != [] && (Render(piece)[0] == ':' <==> piece[0].Colon? || piece[0] == Lit(':'))
  {}

  lemma {:induction false} NoSlashNoColon(piece: seq<Token>, afterSlash: bool)
    requires ColonsBehindSlash(piece, afterSlash) && Lit('/') !in piece
    ensures forall i :: 0 <= i < |piece| && piece[i].Colon? ==> i == 0 && afterSlash
  {
    if piece != [] {
      assert piece[0] in piece && Lit('/') !in piece[1..];
      NoSlashNoColon(piece[1..], false);
      forall i | 0 < i < |piece|
        ensures !piece[i].Colon?
      {
        assert piece[i] == piece[1..][i - 1];
      }
    }
  }

  /** What a segment's text shows is what its tokens are. */
  lemma StaticExactly(piece: seq<Token>)
    requires AllWellFormed(piece) && ColonsBehindSlash(piece, true) && Lit('/') !in piece
    ensures IsStatic(Render(piece)) <==> !Parameterised(piece)
  {
    BraceInText(piece);
    NoSlashNoColon(piece, true);
    if piece != [] { TextBegins(piece); }
    hide Render;
    if t :| t in piece && Named(t) {
      var i :| 0 <= i < |piece| && piece[i] == t;
    }
    assert piece != [] ==> piece[0] in piece;
  }

  lemma {:induction false} PiecesInside(ts: seq<Token>, afterSlash: bool)
    requires AllWellFormed(ts) && ColonsBehindSlash(ts, afterSlash)
    ensures forall i :: 0 <= i < |Pieces(ts)| ==>
      && AllWellFormed(Pieces(ts)[i]) && Lit('/') !in Pieces(ts)[i]
      && ColonsBehindSlash(Pieces(ts)[i], if i == 0 then afterSlash else true)
  {
    if ts != [] {
      assert forall i :: 0 <= i < |ts[1..]| ==> ts[1..][i] == ts[i + 1];
      PiecesInside(ts[1..], ts[0] == Lit('/'));
      var rest := Pieces(ts[1..]);
      assert ([ts[0]] + rest[0])[1..] == rest[0];
    }
  }

  lemma {:induction false} CountsComplete(segments: seq<string>, pieces: seq<seq<Token>>)
    requires |segments| == |pieces|
    requires forall i :: 0 <= i < |pieces| ==> (IsStatic(segments[i]) <==> !Parameterised(pieces[i]))
    ensures CountStatic(segments) + CountParameterised(pieces) == |segments|
  {
    hide IsStatic, Parameterised;
    if segments != [] { CountsComplete(segments[1..], pieces[1..]); }
  }

  lemma {:induction false} WeakenColons(piece: seq<Token>, afterSlash: bool)
    requires ColonsBehindSlash(piece, afterSlash)
    ensures ColonsBehindSlash(piece, true)
  {}

  /** The segments a template's score counts as static are exactly those that hold no parameter. */
  lemma StaticAreUnparameterised(path: string)
    ensures StaticSegments(path) + Parameters(path) == SegmentCount(path)
  {
    hide Tokenize, Render, IsStatic, Parameterised, AllWellFormed;
    var ts := Tokens(path);
    RenderTokens(path, false);
    TokensWellFormed(path, false);
    PiecesAreParts(ts);
    PiecesInside(ts, false);
    forall i | 0 <= i < |Pieces(ts)|
      ensures IsStatic(Split(path, '/')[i]) <==> !Parameterised(Pieces(ts)[i])
    {
      WeakenColons(Pieces(ts)[i], if i == 0 then false else true);
      StaticExactly(Pieces(ts)[i]);
    }
    hide Pieces, Split;
    CountsComplete(Split(path, '/'), Pieces(ts));
  }

  /** A text without braces, stars and colons has no parameters. */
  lemma {:induction false} PlainHasNone(s: string, afterSlash: bool)
    requires '{' !in s && '*' !in s && ':' !in s
    ensures DoubleStar !in Tokenize(s, afterSlash) && CountParameterised(Pieces(Tokenize(s, afterSlash))) == 0
    ensures forall t :: t in Tokenize(s, afterSlash) ==> t.Lit? && t.c != '{' && t.c != ':'
    decreases |s|
  {
    if s != [] {
      assert HeadToken(s, afterSlash) == Lit(s[0]) && HeadLength(s, afterSlash) == 1 && s[0] in s;
      PlainHasNone(s[1..], s[0] == '/');
      hide HeadToken, HeadLength;
      var ts := Tokenize(s, afterSlash);
      assert ts == [Lit(s[0])] + Tokenize(s[1..], s[0] == '/');
      NoneCounted(ts);
    }
  }

  lemma {:induction false} NoneCounted(ts: seq<Token>)
    requires forall t :: t in ts ==> t.Lit? && t.c != '{' && t.c != ':'
    ensures CountParameterised(Pieces(ts)) == 0 && forall t :: t in Pieces(ts)[0] ==> t in ts
  {
    if ts != [] {
      assert forall t :: t in ts[1..] ==> t in ts;
      NoneCounted(ts[1..]);
      assert ts[0] in ts;
      var rest := Pieces(ts[1..]);
      if ts[0] == Lit('/') {
        assert ([[]] + rest)[1..] == rest && !Parameterised([]);
      } else {
        assert ([[ts[0]] + rest[0]] + rest[1..])[1..] == rest[1..];
      }
    }
  }

  predicate NoSlashBefore(ts: seq<Token>, i: nat) { forall j :: 0 <= j < i && j < |ts| ==> ts[j] != Lit('/') }

  /** A named parameter makes its segment count. */
  lemma {:induction false} NamedCounts(ts: seq<Token>, i: nat)
    requires i < |ts| && Named(ts[i])
    ensures CountParameterised(Pieces(ts)) > 0
    ensures if NoSlashBefore(ts, i) then ts[i] in Pieces(ts)[0] else CountParameterised(Pieces(ts)[1..]) > 0
  {
    var rest := Pieces(ts[1..]);
    if i > 0 {
      NamedCounts(ts[1..], i - 1);
      assert ts[1..][i - 1] == ts[i];
      assert forall j :: 0 <= j < i - 1 ==> ts[1..][j] == ts[j + 1];
      assert NoSlashBefore(ts, i) <==> ts[0] != Lit('/') && NoSlashBefore(ts[1..], i - 1) by {
        assert forall j :: 0 < j < i ==> ts[j] == ts[1..][j - 1];
      }
    }
    if ts[0] == Lit('/') {
      assert ([[]] + rest)[1..] == rest;
    } else {
      assert ([[ts[0]] + rest[0]] + rest[1..])[1..] == rest[1..];
    }
  }

  // ── Precedence ──

  /**
   * Of two templates without `**` that match one request of n segments, the one with d fewer parameterised
   * segments wins exactly when the other is less than 10000 d / n characters longer.
   */
  lemma FewerParametersWin(p: string, q: string, s: string, caseSensitive: bool)
    requires Match(Tokens(p), s, caseSensitive).Some? && Match(Tokens(q), s, caseSensitive).Some?
    requires DoubleStar !in Tokens(p) && DoubleStar !in Tokens(q)
    ensures var d := Parameters(q) - Parameters(p);
            Score(p) > Score(q) <==> (|q| - |p|) as real < 10000.0 * d as real / SegmentCount(s) as real
  {
    hide Match, Tokenize, StaticSegments, SegmentCount, Score, Parameters;
    Precedence(p, q, s, caseSensitive);
    StaticAreUnparameterised(p);
    StaticAreUnparameterised(q);
  }

  /** A template beats another on a request, by parameters and length alone. */
  ghost predicate Beats(p: string, q: string, s: string) {
    && DoubleStar !in Tokens(p) && DoubleStar !in Tokens(q)
    && (|q| - |p|) as real < 10000.0 * (Parameters(q) - Parameters(p)) as real / SegmentCount(s) as real
  }

  /** So of the routes that match, the one that beats every other is answered. */
  lemma BeatenRoutesLose(list: seq<Route>, s: string, caseSensitive: bool, i: int, best: Option<RouteMatch>)
    requires IsAnswer(list, s, caseSensitive, best) && MatchesAt(list, s, caseSensitive, i)
    requires forall j :: MatchesAt(list, s, caseSensitive, j) && j != i ==> Beats(list[i].path, list[j].path, s)
    ensures best.Some? && best.value.route == list[i]
  {
    hide Match, Tokenize, Score, Parameters, SegmentCount;
    assert best.Some?;
    var j :| IsBest(list, s, caseSensitive, j) && IsMatch(list, s, caseSensitive, j, best.value);
    if j != i {
      FewerParametersWin(list[i].path, list[j].path, s, caseSensitive);
    }
  }

  /** In particular a route without parameters is answered before one with parameters that is not much longer. */
  lemma LiteralBeats(p: string, q: string, s: string)
    requires DoubleStar !in Tokens(p) && DoubleStar !in Tokens(q)
    requires Parameters(p) == 0 && Parameters(q) > 0 && SegmentCount(s) * (|q| - |p|) < 10000
    ensures Beats(p, q, s)
  {
    hide Tokenize, Parameters, SegmentCount;
    Margin(|q| - |p|, Parameters(q), SegmentCount(s));
  }

  lemma Margin(l: int, d: nat, n: nat)
    requires n > 0 && d >= 1 && n * l < 10000
    ensures l as real < 10000.0 * d as real / n as real
  {
    var x := 10000.0 * d as real / n as real;
    assert x * n as real == 10000.0 * d as real;
    assert (n * l) as real == n as real * l as real;
    if l as real >= x { assert l as real * n as real >= x * n as real; }
  }
}
