/** Which templates match the same requests, and which of those the conflict check catches. */
module RouterConflict {
  import opened Text
  import opened RouterPaths
  import opened RouterMatch
  import opened RouterBinding

  // ── A key is its shape ──

  function RenderToken(t: Token): string {
    match t
    case Lit(c) => [c]
    case Colon(name) => ":" + name
    case Brace(name) => "{" + name + "}"
    case Star => "*"
    case DoubleStar => "**"
  }

  function Render(ts: seq<Token>): string {
    if ts == [] then [] else RenderToken(ts[0]) + Render(ts[1..])
  }

  lemma RenderHead(s: string, afterSlash: bool)
    requires s != []
    ensures RenderToken(HeadToken(s, afterSlash)) == s[..HeadLength(s, afterSlash)]
  {
    hide IdLength;
  }

  /** A text is what its tokens are written as. */
  lemma {:induction false} RenderTokens(s: string, afterSlash: bool)
    ensures Render(Tokenize(s, afterSlash)) == s
    decreases |s|
  {
    hide HeadToken, HeadLength, RenderToken;
    if s != [] {
      var n := HeadLength(s, afterSlash);
      RenderHead(s, afterSlash);
      RenderTokens(s[n..], HeadToken(s, afterSlash) == Lit('/'));
      assert s == s[..n] + s[n..];
    }
  }

  /** Path keys are equal exactly when the shapes of the paths are. */
  lemma KeyIsShape(httpMethod: string, p: string, q: string, caseSensitive: bool)
    ensures PathKey(httpMethod, p, caseSensitive) == PathKey(httpMethod, q, caseSensitive)
       <==> Shape(p, caseSensitive) == Shape(q, caseSensitive)
  {
    hide Tokenize, StripBraces, StripColons, Lower, AllLower, BraceNameless, ColonNameless, Render, Shape;
    if PathKey(httpMethod, p, caseSensitive) == PathKey(httpMethod, q, caseSensitive) {
      KeyGivesShape(httpMethod, p, q, caseSensitive);
    }
    if Shape(p, caseSensitive) == Shape(q, caseSensitive) {
      StrippedShape(p, caseSensitive);
      StrippedShape(q, caseSensitive);
      var x, y := StripRouteParamNames(p), StripRouteParamNames(q);
      RenderTokens(if caseSensitive then x else Lower(x), false);
      RenderTokens(if caseSensitive then y else Lower(y), false);
    }
  }

  // ── Templates that match the same requests ──

  /** What a token stands for at the least: its character, `c` for a group, nothing for a double wildcard. */
  function SampleOf(t: Token, c: char): string {
    if t.DoubleStar? then "" else [if t.Lit? then t.c else c]
  }

  /** The template with as little as can be in each group. */
  function Sample(ts: seq<Token>, c: char): (s: string)
    ensures |s| == Least(ts)
  {
    if ts == [] then "" else SampleOf(ts[0], c) + Sample(ts[1..], c)
  }

  function Ones(ts: seq<Token>, c: char): seq<string> {
    if ts == [] then [] else (if IsGroup(ts[0]) then [SampleOf(ts[0], c)] else []) + Ones(ts[1..], c)
  }

  lemma {:induction false} SampleAgrees(ts: seq<Token>, c: char, caseSensitive: bool)
    requires c != '/'
    ensures Agrees(ts, Ones(ts, c), Sample(ts, c), caseSensitive)
  {
    if ts != [] {
      SampleAgrees(ts[1..], c, caseSensitive);
      assert Sample(ts, c)[|SampleOf(ts[0], c)|..] == Sample(ts[1..], c);
      if IsGroup(ts[0]) {
        assert Ones(ts, c)[1..] == Ones(ts[1..], c);
        assert SampleOf(ts[0], c) <= Sample(ts, c);
      } else {
        assert Ones(ts, c) == Ones(ts[1..], c);
      }
    }
  }

  /** A text as short as the template allows gives each literal the character at its own place. */
  lemma {:induction false} TokensTakeCharacters(
    ts: seq<Token>, caps: seq<string>, s: string, caseSensitive: bool, i: nat)
    requires Agrees(ts, caps, s, caseSensitive) && |s| == Least(ts) && i < |ts| && ts[i].Lit?
    ensures Least(ts[..i]) < |s| && SameChar(s[Least(ts[..i])], ts[i].c, caseSensitive)
  {
    if i > 0 {
      var rest := if ts[0].Lit? then caps else caps[1..];
      var n := if ts[0].Lit? then 1 else |caps[0]|;
      LongEnough(ts[1..], rest, s[n..], caseSensitive);
      TokensTakeCharacters(ts[1..], rest, s[n..], caseSensitive, i - 1);
      assert ts[..i][1..] == ts[1..][..i - 1] && ts[..i][0] == ts[0];
      assert n == if ts[0].DoubleStar? then 0 else 1;
    }
  }

  /** In its own sample a token stands at its own place. */
  lemma {:induction false} SampleAt(ts: seq<Token>, c: char, i: nat)
    requires i < |ts| && !ts[i].DoubleStar?
    ensures Least(ts[..i]) < Least(ts) && Sample(ts, c)[Least(ts[..i])] == if ts[i].Lit? then ts[i].c else c
  {
    if i > 0 {
      SampleAt(ts[1..], c, i - 1);
      assert ts[..i][1..] == ts[1..][..i - 1] && ts[..i][0] == ts[0];
    }
  }

  ghost predicate SameRequests(ts: seq<Token>, us: seq<Token>, caseSensitive: bool) {
    forall s :: Match(ts, s, caseSensitive).Some? <==> Match(us, s, caseSensitive).Some?
  }

  lemma SampleTaken(ts: seq<Token>, us: seq<Token>, c: char, caseSensitive: bool) returns (caps: seq<string>)
    requires c != '/' && SameRequests(ts, us, caseSensitive)
    ensures Least(us) <= Least(ts) && Agrees(us, caps, Sample(ts, c), caseSensitive)
  {
    hide Match, Agrees;
    var s := Sample(ts, c);
    SampleAgrees(ts, c, caseSensitive);
    AgreesMatches(ts, Ones(ts, c), s, caseSensitive);
    assert Match(us, s, caseSensitive).Some?;
    MatchAgrees(us, s, caseSensitive);
    caps := Match(us, s, caseSensitive).value;
    LongEnough(us, caps, s, caseSensitive);
  }

  /** The literal of one template is the other's at the same place, and no group of the other's stands there. */
  lemma LiteralShared(ts: seq<Token>, us: seq<Token>, i: nat, caseSensitive: bool)
    requires SameRequests(ts, us, caseSensitive) && i < |ts| && i < |us|
    requires us[i].Lit? && !ts[i].DoubleStar? && Least(ts[..i]) == Least(us[..i])
    ensures ts[i].Lit? && SameChar(ts[i].c, us[i].c, caseSensitive)
  {
    hide Match, Agrees, Sample;
    var zero := SampleTaken(ts, us, '0', caseSensitive);
    var one := SampleTaken(ts, us, '1', caseSensitive);
    var back := SampleTaken(us, ts, '0', caseSensitive);
    TokensTakeCharacters(us, zero, Sample(ts, '0'), caseSensitive, i);
    TokensTakeCharacters(us, one, Sample(ts, '1'), caseSensitive, i);
    SampleAt(ts, '0', i);
    SampleAt(ts, '1', i);
    NotBoth(caseSensitive);
  }

  lemma {:induction false} LeastIsLength(ts: seq<Token>)
    requires DoubleStar !in ts
    ensures Least(ts) == |ts|
  {
    if ts != [] {
      assert ts[0] in ts;
      LeastIsLength(ts[1..]);
    }
  }

  /**
   * Two templates without `**` match the same requests exactly when they are alike token by token: groups
   * at the same places however spelled and named, and the same literals, up to case where it does not count.
   */
  lemma SameRequestsExactly(ts: seq<Token>, us: seq<Token>, caseSensitive: bool)
    requires DoubleStar !in ts && DoubleStar !in us
    ensures SameRequests(ts, us, caseSensitive) <==> AllAlike(ts, us, caseSensitive)
  {
    hide Match;
    if AllAlike(ts, us, caseSensitive) { AlikeSame(ts, us, caseSensitive); }
    if SameRequests(ts, us, caseSensitive) {
      var there := SampleTaken(ts, us, '0', caseSensitive);
      var back := SampleTaken(us, ts, '0', caseSensitive);
      LeastIsLength(ts);
      LeastIsLength(us);
      forall i | 0 <= i < |ts|
        ensures Alike(ts[i], us[i], caseSensitive)
      {
        assert ts[i] in ts && us[i] in us;
        LeastIsLength(ts[..i]);
        LeastIsLength(us[..i]);
        if us[i].Lit? { LiteralShared(ts, us, i, caseSensitive); }
        if ts[i].Lit? { LiteralShared(us, ts, i, caseSensitive); }
      }
    }
  }

  lemma AlikeSame(ts: seq<Token>, us: seq<Token>, caseSensitive: bool)
    requires AllAlike(ts, us, caseSensitive)
    ensures SameRequests(ts, us, caseSensitive)
  {
    hide Match;
    forall s
      ensures Match(ts, s, caseSensitive) == Match(us, s, caseSensitive)
    {
      AlikeMatch(ts, us, s, caseSensitive);
    }
  }

  /** With `**` that is not so: four stars in a row match what two match. */
  lemma StarsCollapse(caseSensitive: bool)
    ensures SameRequests([DoubleStar], [DoubleStar, DoubleStar], caseSensitive)
    ensures !AllAlike([DoubleStar], [DoubleStar, DoubleStar], caseSensitive)
  {
    hide Match;
    var one, two := [DoubleStar], [DoubleStar, DoubleStar];
    forall s
      ensures Match(one, s, caseSensitive).Some? <==> Match(two, s, caseSensitive).Some?
    {
      MatchAgrees(one, s, caseSensitive);
      MatchAgrees(two, s, caseSensitive);
      if Match(one, s, caseSensitive).Some? {
        OneToTwo(Match(one, s, caseSensitive).value, s, caseSensitive);
        AgreesMatches(two, [s, ""], s, caseSensitive);
      }
      if Match(two, s, caseSensitive).Some? {
        TwoToOne(Match(two, s, caseSensitive).value, s, caseSensitive);
        AgreesMatches(one, [s], s, caseSensitive);
      }
    }
  }

  lemma OneToTwo(caps: seq<string>, s: string, caseSensitive: bool)
    requires Agrees([DoubleStar], caps, s, caseSensitive)
    ensures Agrees([DoubleStar, DoubleStar], [s, ""], s, caseSensitive)
  {
    var two := [DoubleStar, DoubleStar];
    assert two[1..] == [DoubleStar] && two[1..][1..] == [] && [DoubleStar][1..] == [];
    assert s[|caps[0]|..] == [] && caps[0] == s;
    assert Captures(DoubleStar, "") && Agrees([DoubleStar], [""], "", caseSensitive);
    assert [s, ""][1..] == [""] && s[|s|..] == "";
  }

  lemma TwoToOne(caps: seq<string>, s: string, caseSensitive: bool)
    requires Agrees([DoubleStar, DoubleStar], caps, s, caseSensitive)
    ensures Agrees([DoubleStar], [s], s, caseSensitive)
  {
    var two := [DoubleStar, DoubleStar];
    assert two[1..] == [DoubleStar] && [DoubleStar][1..] == [];
    var rest := s[|caps[0]|..];
    assert Agrees([DoubleStar], caps[1..], rest, caseSensitive) && caps[1..] != [] && caps[1..][0] == caps[1];
    assert Agrees([], caps[1..][1..], rest[|caps[1]|..], caseSensitive);
    assert rest == caps[1] && s == caps[0] + caps[1];
    assert [s][1..] == [] && s[|s|..] == "";
  }

  lemma NotBoth(caseSensitive: bool)
    ensures forall c: char :: !(SameChar('0', c, caseSensitive) && SameChar('1', c, caseSensitive))
  {}

  // ── What the conflict check catches ──

  /** Both literals, or groups spelled the same way: behind a colon, in braces, or as a wildcard. */
  predicate SpelledAlike(t: Token, u: Token) {
    && (t.Lit? <==> u.Lit?) && (t.Colon? <==> u.Colon?) && (t.Brace? <==> u.Brace?) && (t.Star? <==> u.Star?)
  }

  predicate SameSpelling(ts: seq<Token>, us: seq<Token>) {
    |ts| == |us| && forall i :: 0 <= i < |ts| ==> SpelledAlike(ts[i], us[i])
  }

  lemma ShapesOfAlike(p: string, q: string, caseSensitive: bool)
    requires AllAlike(Tokens(p), Tokens(q), caseSensitive)
    ensures Shape(p, caseSensitive) == Shape(q, caseSensitive) <==> SameSpelling(Tokens(p), Tokens(q))
  {
    hide Tokens, Shape;
    ShapeLength(p, caseSensitive);
    ShapeLength(q, caseSensitive);
    forall i | 0 <= i < |Tokens(p)|
      ensures Shape(p, caseSensitive)[i] == Shape(q, caseSensitive)[i] <==> SpelledAlike(Tokens(p)[i], Tokens(q)[i])
    {
      ShapeAt(p, i, caseSensitive);
      ShapeAt(q, i, caseSensitive);
      assert Alike(Tokens(p)[i], Tokens(q)[i], caseSensitive);
    }
  }

  lemma ShapesAreSpelled(p: string, q: string, caseSensitive: bool)
    requires Shape(p, caseSensitive) == Shape(q, caseSensitive)
    ensures SameSpelling(Tokens(p), Tokens(q))
  {
    hide Tokens, Shape;
    ShapeLength(p, caseSensitive);
    ShapeLength(q, caseSensitive);
    forall i | 0 <= i < |Tokens(p)|
      ensures SpelledAlike(Tokens(p)[i], Tokens(q)[i])
    {
      ShapeAt(p, i, caseSensitive);
      ShapeAt(q, i, caseSensitive);
    }
  }

  /**
   * Two templates share a key exactly when they match the same requests and spell their groups the same
   * way. So of the templates one shadows, the conflict check misses exactly those that spell a group otherwise.
   */
  lemma ConflictsCaughtExactly(httpMethod: string, p: string, q: string, caseSensitive: bool)
    ensures PathKey(httpMethod, p, caseSensitive) == PathKey(httpMethod, q, caseSensitive)
       <==> SameRequests(Tokens(p), Tokens(q), caseSensitive) && SameSpelling(Tokens(p), Tokens(q))
  {
    hide Tokens, Shape, PathKey, Match, AllAlike;
    KeyIsShape(httpMethod, p, q, caseSensitive);
    if PathKey(httpMethod, p, caseSensitive) == PathKey(httpMethod, q, caseSensitive) {
      forall s
        ensures Match(Tokens(p), s, caseSensitive) == Match(Tokens(q), s, caseSensitive)
      {
        SameKeyShadows(httpMethod, p, q, s, caseSensitive);
      }
      ShapesAreSpelled(p, q, caseSensitive);
    }
    if SameRequests(Tokens(p), Tokens(q), caseSensitive) && SameSpelling(Tokens(p), Tokens(q)) {
      SpelledAreAlike(Tokens(p), Tokens(q), caseSensitive);
      ShapesOfAlike(p, q, caseSensitive);
    }
  }

  lemma {:induction false} SpelledTakeAsMany(ts: seq<Token>, us: seq<Token>)
    requires SameSpelling(ts, us)
    ensures Least(ts) == Least(us)
  {
    if ts != [] {
      assert SpelledAlike(ts[0], us[0]);
      assert forall i :: 0 <= i < |ts[1..]| ==> ts[1..][i] == ts[i + 1] && us[1..][i] == us[i + 1];
      SpelledTakeAsMany(ts[1..], us[1..]);
    }
  }

  /** With the same spelling, wildcards of any kind included, the same requests mean the same literals. */
  lemma SpelledAreAlike(ts: seq<Token>, us: seq<Token>, caseSensitive: bool)
    requires SameRequests(ts, us, caseSensitive) && SameSpelling(ts, us)
    ensures AllAlike(ts, us, caseSensitive)
  {
    hide Match;
    forall i | 0 <= i < |ts|
      ensures Alike(ts[i], us[i], caseSensitive)
    {
      assert SpelledAlike(ts[i], us[i]);
      assert SameSpelling(ts[..i], us[..i]);
      SpelledTakeAsMany(ts[..i], us[..i]);
      if us[i].Lit? { LiteralShared(ts, us, i, caseSensitive); }
    }
  }
}
