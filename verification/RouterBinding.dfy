/** Which parameter gets which captured text, and which templates collide. */
module RouterBinding {
  import opened Options
  import opened Text
  import opened RouterPaths
  import opened RouterMatch

  // ── Names ──

  function BraceNames(ts: seq<Token>): seq<string> {
    if ts == [] then [] else (if ts[0].Brace? then [ts[0].name] else []) + BraceNames(ts[1..])
  }

  function ColonNames(ts: seq<Token>): seq<string> {
    if ts == [] then [] else (if ts[0].Colon? then [ts[0].name] else []) + ColonNames(ts[1..])
  }

  /** The names in the order they are collected: braces in a first pass, colons in a second. */
  function ParamNames(ts: seq<Token>): seq<string> { BraceNames(ts) + ColonNames(ts) }

  predicate Named(t: Token) { t.Brace? || t.Colon? }

  /** Name i gets capture i; a later name overrides an earlier one. */
  function Bind(names: seq<string>, caps: seq<string>): map<string, string> {
    if names == [] then map[]
    else
      var n := |names| - 1;
      var rest := Bind(names[..n], caps);
      if n < |caps| then rest[names[n] := caps[n]] else rest
  }

  method BindParams(names: seq<string>, caps: seq<string>) returns (params: map<string, string>)
    ensures params == Bind(names, caps)
  {
    params := map[];
    for i := 0 to |names|
      invariant params == Bind(names[..i], caps)
    {
      assert names[..i + 1][..i] == names[..i];
      if i < |caps| { params := params[names[i] := caps[i]]; }
    }
    assert names[..|names|] == names;
  }

  function MatchPath(path: string, s: string, caseSensitive: bool): Option<map<string, string>> {
    var m := Match(Tokens(path), s, caseSensitive);
    if m.None? then None else Some(Bind(ParamNames(Tokens(path)), m.value))
  }

  predicate Distinct(names: seq<string>) {
    forall i, j :: 0 <= i < j < |names| ==> names[i] != names[j]
  }

  lemma {:induction false} BindAt(names: seq<string>, caps: seq<string>, i: nat)
    requires Distinct(names) && i < |names| && |names| <= |caps|
    ensures names[i] in Bind(names, caps) && Bind(names, caps)[names[i]] == caps[i]
  {
    var n := |names| - 1;
    if i < n {
      BindAt(names[..n], caps, i);
      assert names[..n][i] == names[i];
    }
  }

  lemma {:induction false} BindKeys(names: seq<string>, caps: seq<string>)
    requires |names| <= |caps|
    ensures forall k :: k in Bind(names, caps) <==> k in names
  {
    if names != [] {
      BindKeys(names[..|names| - 1], caps);
      assert names == names[..|names| - 1] + [names[|names| - 1]];
    }
  }

  // ── Templates of literals and colon parameters ──

  predicate ColonOnly(ts: seq<Token>) { forall i :: 0 <= i < |ts| ==> ts[i].Lit? || ts[i].Colon? }

  lemma {:induction false} ColonsApart(s: string, afterSlash: bool)
    requires ColonOnly(Tokenize(s, afterSlash))
    ensures OnePerSegment(Tokenize(s, afterSlash), !afterSlash)
    decreases |s|
  {
    if s != [] {
      var ts, head := Tokenize(s, afterSlash), HeadToken(s, afterSlash);
      var rest := Tokenize(s[HeadLength(s, afterSlash)..], head == Lit('/'));
      assert ts == [head] + rest;
      assert forall i :: 0 <= i < |rest| ==> rest[i] == ts[i + 1];
      ColonsApart(s[HeadLength(s, afterSlash)..], head == Lit('/'));
      if head != Lit('/') && head.Lit? && afterSlash { TakenOrNot(rest); }
    }
  }

  lemma {:induction false} TakenOrNot(ts: seq<Token>)
    requires OnePerSegment(ts, true)
    ensures OnePerSegment(ts, false)
  {
    if ts != [] && ts[0].Lit? && ts[0].c != '/' { TakenOrNot(ts[1..]); }
  }

  lemma {:induction false} ColonOnlyNames(ts: seq<Token>)
    requires ColonOnly(ts)
    ensures BraceNames(ts) == [] && |ColonNames(ts)| == |Groups(ts)|
    ensures forall i :: 0 <= i < |Groups(ts)| ==> Groups(ts)[i] == Colon(ColonNames(ts)[i])
  {
    if ts != [] {
      ColonOnlyNames(ts[1..]);
    }
  }

  /**
   * Putting non-empty, slash-free texts into a template gives a path that matches with exactly those
   * texts as its parameters.
   */
  lemma FilledTemplateMatches(path: string, values: seq<string>, caseSensitive: bool)
    requires var ts := Tokens(path); ColonOnly(ts) && |values| == |ParamNames(ts)| && Distinct(ParamNames(ts))
    requires forall i :: 0 <= i < |values| ==> values[i] != "" && '/' !in values[i]
    ensures var names := ParamNames(Tokens(path));
            var m := MatchPath(path, Fill(Tokens(path), values), caseSensitive);
            && m.Some?
            && (forall k :: k in m.value <==> k in names)
            && (forall i :: 0 <= i < |names| ==> m.value[names[i]] == values[i])
  {
    hide Tokenize, Match, Agrees, Groups, Fill, Bind, OnePerSegment;
    var ts := Tokens(path);
    var names := ParamNames(ts);
    ColonOnlyNames(ts);
    ColonsApart(path, false);
    TakenOrNot(ts);
    FilledAgrees(ts, values, caseSensitive);
    MatchExactly(ts, values, Fill(ts, values), caseSensitive);
    BindKeys(names, values);
    forall i | 0 <= i < |names|
      ensures names[i] in Bind(names, values) && Bind(names, values)[names[i]] == values[i]
    {
      BindAt(names, values, i);
    }
  }

  /** And back: putting the parameters of a match into its template gives the path, up to case. */
  lemma MatchFillsTemplate(path: string, s: string, values: seq<string>, caseSensitive: bool)
    requires var ts := Tokens(path); ColonOnly(ts) && |values| == |ParamNames(ts)| && Distinct(ParamNames(ts))
    requires var m := MatchPath(path, s, caseSensitive);
             m.Some? && forall i :: 0 <= i < |values| ==>
               ParamNames(Tokens(path))[i] in m.value && values[i] == m.value[ParamNames(Tokens(path))[i]]
    ensures Lower(Fill(Tokens(path), values)) == Lower(s)
    ensures caseSensitive ==> Fill(Tokens(path), values) == s
    ensures forall i :: 0 <= i < |values| ==> values[i] != "" && '/' !in values[i]
  {
    hide Tokenize, Match, Agrees, Groups, Fill, Bind, OnePerSegment, Lower;
    var ts := Tokens(path);
    var names, caps := ParamNames(ts), Match(ts, s, caseSensitive).value;
    ColonOnlyNames(ts);
    MatchAgrees(ts, s, caseSensitive);
    AgreesFills(ts, caps, s, caseSensitive);
    forall i | 0 <= i < |names|
      ensures values[i] == caps[i]
    {
      BindAt(names, caps, i);
    }
    assert values == caps;
  }

  // ── When names and groups line up ──

  /** The j-th name collected is the name of the j-th group. */
  predicate Aligned(ts: seq<Token>) {
    && |ParamNames(ts)| <= |Groups(ts)|
    && forall j :: 0 <= j < |ParamNames(ts)| ==> Named(Groups(ts)[j]) && Groups(ts)[j].name == ParamNames(ts)[j]
  }

  /** Every named group's capture goes to its name. */
  ghost predicate BindsRight(ts: seq<Token>, caps: seq<string>, params: map<string, string>)
    requires |caps| == |Groups(ts)|
  {
    forall i :: 0 <= i < |caps| && Named(Groups(ts)[i]) ==>
      Groups(ts)[i].name in params && params[Groups(ts)[i].name] == caps[i]
  }

  function NameBag(gs: seq<Token>): multiset<string> {
    if gs == [] then multiset{} else (if Named(gs[0]) then multiset{gs[0].name} else multiset{}) + NameBag(gs[1..])
  }

  lemma NamesOfHead(ts: seq<Token>)
    requires ts != []
    ensures multiset(BraceNames(ts)) == (if ts[0].Brace? then multiset{ts[0].name} else multiset{})
      + multiset(BraceNames(ts[1..]))
    ensures multiset(ColonNames(ts)) == (if ts[0].Colon? then multiset{ts[0].name} else multiset{})
      + multiset(ColonNames(ts[1..]))
  {}

  lemma {:induction false} NamesAreBag(ts: seq<Token>)
    ensures multiset(BraceNames(ts)) + multiset(ColonNames(ts)) == NameBag(Groups(ts))
  {
    if ts != [] {
      hide Groups, NameBag;
      var rest := ts[1..];
      NamesAreBag(rest);
      BagOfHead(ts);
      NamesOfHead(ts);
    }
  }

  lemma BagCons(t: Token, gs: seq<Token>)
    ensures NameBag([t] + gs) == (if Named(t) then multiset{t.name} else multiset{}) + NameBag(gs)
  {
    assert ([t] + gs)[1..] == gs;
  }

  lemma BagOfHead(ts: seq<Token>)
    requires ts != []
    ensures NameBag(Groups(ts)) == (if Named(ts[0]) then multiset{ts[0].name} else multiset{})
      + NameBag(Groups(ts[1..]))
  {
    hide NameBag;
    BagCons(ts[0], Groups(ts[1..]));
    if !IsGroup(ts[0]) { assert Groups(ts) == Groups(ts[1..]); }
  }

  lemma {:induction false} BagCounts(gs: seq<Token>, i: nat)
    requires i < |gs| && Named(gs[i])
    ensures gs[i].name in NameBag(gs)
  {
    if i > 0 { BagCounts(gs[1..], i - 1); }
  }

  lemma {:induction false} BagCountsTwice(gs: seq<Token>, i: nat, j: nat)
    requires i < j < |gs| && Named(gs[i]) && Named(gs[j]) && gs[i].name == gs[j].name
    ensures NameBag(gs)[gs[i].name] >= 2
  {
    if i > 0 { BagCountsTwice(gs[1..], i - 1, j - 1); } else { BagCounts(gs[1..], j - 1); }
  }

  lemma {:induction false} BagHasGroup(gs: seq<Token>, n: string) returns (i: nat)
    requires n in NameBag(gs)
    ensures i < |gs| && Named(gs[i]) && gs[i].name == n
  {
    if Named(gs[0]) && gs[0].name == n { i := 0; }
    else { i := BagHasGroup(gs[1..], n); i := i + 1; }
  }

  lemma {:induction false} DistinctBag(names: seq<string>, n: string)
    requires Distinct(names)
    ensures multiset(names)[n] <= 1
  {
    if names != [] {
      var rest := names[..|names| - 1];
      DistinctBag(rest, n);
      assert names == rest + [names[|names| - 1]];
      assert multiset(names) == multiset(rest) + multiset{names[|names| - 1]};
      if n == names[|names| - 1] { assert n !in rest; }
    }
  }

  lemma ParamNamesBag(ts: seq<Token>)
    ensures multiset(ParamNames(ts)) == NameBag(Groups(ts))
  {
    NamesAreBag(ts);
  }

  lemma OneGroupPerName(ts: seq<Token>, i: nat, j: nat)
    requires Distinct(ParamNames(ts)) && i < |Groups(ts)| && j < |Groups(ts)|
    requires Named(Groups(ts)[i]) && Named(Groups(ts)[j]) && Groups(ts)[i].name == Groups(ts)[j].name
    ensures i == j
  {
    hide Groups, NameBag, ParamNames;
    ParamNamesBag(ts);
    DistinctBag(ParamNames(ts), Groups(ts)[i].name);
    if i < j { BagCountsTwice(Groups(ts), i, j); }
    if j < i { BagCountsTwice(Groups(ts), j, i); }
  }

  lemma AlignedBindsRight(ts: seq<Token>, caps: seq<string>)
    requires Distinct(ParamNames(ts)) && Aligned(ts) && |caps| == |Groups(ts)|
    ensures BindsRight(ts, caps, Bind(ParamNames(ts), caps))
  {
    hide Groups, NameBag, ParamNames, Bind;
    var names, gs := ParamNames(ts), Groups(ts);
    ParamNamesBag(ts);
    forall i | 0 <= i < |caps| && Named(gs[i])
      ensures gs[i].name in Bind(names, caps) && Bind(names, caps)[gs[i].name] == caps[i]
    {
      BagCounts(gs, i);
      assert gs[i].name in names;
      var j :| 0 <= j < |names| && names[j] == gs[i].name;
      OneGroupPerName(ts, i, j);
      BindAt(names, caps, j);
    }
  }

  lemma {:induction false} NamesFit(ts: seq<Token>)
    ensures |ParamNames(ts)| <= |Groups(ts)|
  {
    if ts != [] { NamesFit(ts[1..]); }
  }

  /** One character for each group, another one for group j, and none where none is needed. */
  function Marked(gs: seq<Token>, j: nat): (caps: seq<string>)
    ensures |caps| == |gs|
    ensures forall i :: 0 <= i < |gs| ==> caps[i] == if gs[i].DoubleStar? then "" else if i == j then "y" else "x"
  {
    seq(|gs|, i requires 0 <= i < |gs| => if gs[i].DoubleStar? then "" else if i == j then "y" else "x")
  }

  lemma {:induction false} GroupsInside(ts: seq<Token>)
    ensures forall i :: 0 <= i < |Groups(ts)| ==> Groups(ts)[i] in ts && IsGroup(Groups(ts)[i])
  {
    if ts != [] { GroupsInside(ts[1..]); }
  }

  lemma MarkedFit(ts: seq<Token>, j: nat)
    ensures Fits(ts, Marked(Groups(ts), j))
  {
    GroupsInside(ts);
    hide Groups;
  }

  /** How many characters a match takes at the least. */
  function Least(ts: seq<Token>): nat {
    if ts == [] then 0 else (if ts[0].DoubleStar? then 0 else 1) + Least(ts[1..])
  }

  /** As few characters as can be leave no other way to match. */
  lemma {:induction false} OneCharacterEach(
    ts: seq<Token>, a: seq<string>, b: seq<string>, s: string, caseSensitive: bool)
    requires |s| == Least(ts)
    requires Agrees(ts, a, s, caseSensitive) && Agrees(ts, b, s, caseSensitive)
    ensures a == b
  {
    if ts != [] {
      if ts[0].Lit? {
        OneCharacterEach(ts[1..], a, b, s[1..], caseSensitive);
      } else {
        LongEnough(ts[1..], a[1..], s[|a[0]|..], caseSensitive);
        LongEnough(ts[1..], b[1..], s[|b[0]|..], caseSensitive);
        var n := if ts[0].DoubleStar? then 0 else 1;
        assert a[0] == s[..n] == b[0];
        OneCharacterEach(ts[1..], a[1..], b[1..], s[n..], caseSensitive);
        assert a == [a[0]] + a[1..] && b == [b[0]] + b[1..];
      }
    }
  }

  lemma {:induction false} LongEnough(ts: seq<Token>, caps: seq<string>, s: string, caseSensitive: bool)
    requires Agrees(ts, caps, s, caseSensitive)
    ensures Least(ts) <= |s|
  {
    if ts != [] {
      if ts[0].Lit? { LongEnough(ts[1..], caps, s[1..], caseSensitive); }
      else { LongEnough(ts[1..], caps[1..], s[|caps[0]|..], caseSensitive); }
    }
  }

  lemma {:induction false} FilledLength(ts: seq<Token>, caps: seq<string>)
    requires |caps| == |Groups(ts)|
    requires forall i :: 0 <= i < |caps| ==> |caps[i]| == if Groups(ts)[i].DoubleStar? then 0 else 1
    ensures |Fill(ts, caps)| == Least(ts)
  {
    if ts != [] {
      if ts[0].Lit? {
        assert Groups(ts) == Groups(ts[1..]);
        FilledLength(ts[1..], caps);
      } else {
        FilledLength(ts[1..], caps[1..]);
      }
    }
  }

  /** A template filled with marked characters matches with exactly those. */
  lemma MarkedMatch(ts: seq<Token>, j: nat, caseSensitive: bool)
    ensures var caps := Marked(Groups(ts), j); Match(ts, Fill(ts, caps), caseSensitive) == Some(caps)
  {
    hide Match, Agrees, Groups, Fill;
    var caps := Marked(Groups(ts), j);
    var s := Fill(ts, caps);
    MarkedFit(ts, j);
    FilledAgrees(ts, caps, caseSensitive);
    AgreesMatches(ts, caps, s, caseSensitive);
    MatchAgrees(ts, s, caseSensitive);
    FilledLength(ts, caps);
    OneCharacterEach(ts, caps, Match(ts, s, caseSensitive).value, s, caseSensitive);
  }

  /** Names that do not line up, or that come twice, give some marked group's text to the wrong name. */
  lemma MisboundMark(ts: seq<Token>) returns (j: nat)
    requires !(Aligned(ts) && Distinct(ParamNames(ts)))
    ensures var caps := Marked(Groups(ts), j); !BindsRight(ts, caps, Bind(ParamNames(ts), caps))
  {
    hide Groups, NameBag, ParamNames, Bind;
    var names, gs := ParamNames(ts), Groups(ts);
    NamesFit(ts);
    ParamNamesBag(ts);
    if Distinct(names) {
      var k :| 0 <= k < |names| && !(Named(gs[k]) && gs[k].name == names[k]);
      assert names[k] in multiset(names);
      var i := BagHasGroup(gs, names[k]);
      j := k;
      BindAt(names, Marked(gs, j), k);
    } else {
      var a, b :| 0 <= a < b < |names| && names[a] == names[b];
      TwiceInBag(names, a, b);
      var i, l := BagHasTwo(gs, names[a]);
      j := i;
      assert Marked(gs, j)[i] != Marked(gs, j)[l];
    }
  }

  lemma TwiceInBag(names: seq<string>, a: nat, b: nat)
    requires a < b < |names| && names[a] == names[b]
    ensures multiset(names)[names[a]] >= 2
  {
    assert names == names[..a] + [names[a]] + names[a + 1..b] + [names[b]] + names[b + 1..];
  }

  lemma {:induction false} BagHasTwo(gs: seq<Token>, n: string) returns (i: nat, j: nat)
    requires NameBag(gs)[n] >= 2
    ensures i < j < |gs| && Named(gs[i]) && gs[i].name == n && Named(gs[j]) && gs[j].name == n
  {
    if Named(gs[0]) && gs[0].name == n {
      assert n in NameBag(gs[1..]);
      var k := BagHasGroup(gs[1..], n);
      i, j := 0, k + 1;
    } else {
      i, j := BagHasTwo(gs[1..], n);
      i, j := i + 1, j + 1;
    }
  }

  /**
   * Parameters go to the right names for every request exactly when the names are distinct and line up
   * with the groups. They do not when a colon parameter precedes a braced one, or a wildcard either of them.
   */
  lemma BindingIsRight(path: string, caseSensitive: bool)
    ensures (forall s :: MatchPath(path, s, caseSensitive).Some? ==> RightFor(path, s, caseSensitive))
       <==> Aligned(Tokens(path)) && Distinct(ParamNames(Tokens(path)))
  {
    var ts := Tokens(path);
    hide Tokens, Groups, ParamNames, Bind, Marked, Match, Agrees, Aligned, BindsRight, Fits, Distinct;
    if Aligned(ts) && Distinct(ParamNames(ts)) {
      forall s | MatchPath(path, s, caseSensitive).Some?
        ensures RightFor(path, s, caseSensitive)
      {
        CapturedFits(ts, s, caseSensitive);
        AlignedBindsRight(ts, Match(ts, s, caseSensitive).value);
      }
    } else {
      var j := MisboundMark(ts);
      MarkedMatch(ts, j, caseSensitive);
      var s := Fill(ts, Marked(Groups(ts), j));
      assert MatchPath(path, s, caseSensitive).Some? && !RightFor(path, s, caseSensitive);
    }
  }

  lemma CapturedFits(ts: seq<Token>, s: string, caseSensitive: bool)
    requires Match(ts, s, caseSensitive).Some?
    ensures |Match(ts, s, caseSensitive).value| == |Groups(ts)|
  {
    MatchAgrees(ts, s, caseSensitive);
    AgreesFills(ts, Match(ts, s, caseSensitive).value, s, caseSensitive);
  }

  ghost predicate RightFor(path: string, s: string, caseSensitive: bool) {
    var m := Match(Tokens(path), s, caseSensitive);
    && m.Some? && |m.value| == |Groups(Tokens(path))|
    && BindsRight(Tokens(path), m.value, Bind(ParamNames(Tokens(path)), m.value))
  }

  lemma SlashHead(s: string)
    ensures Tokenize("/" + s, false) == [Lit('/')] + Tokenize(s, true)
  {
    assert ("/" + s)[1..] == s;
  }

  lemma ColonHead(name: string, s: string)
    requires name != "" && IdStart(name[0]) && IdLength(name) == |name| && IdLength(s) == 0
    ensures Tokenize(":" + name + s, true) == [Colon(name)] + Tokenize(s, false)
  {
    hide IdLength;
    var t := ":" + name + s;
    assert t[1..] == name + s;
    IdLengthSplit(name, s);
    assert t[1..|name| + 1] == name && t[|name| + 1..] == s;
  }

  lemma BraceText(name: string, s: string)
    requires name != "" && IdStart(name[0]) && IdLength(name) == |name|
    ensures var t := "{" + name + "}" + s;
            AtBrace(t) && IdLength(t[1..]) == |name| && t[1..|name| + 1] == name && t[|name| + 2..] == s
  {
    hide IdLength;
    var t := "{" + name + "}" + s;
    assert t[1..] == name + ("}" + s);
    IdLengthSplit(name, "}" + s);
    IdLengthIs("}" + s, 0);
  }

  lemma BraceHead(name: string, s: string)
    requires name != "" && IdStart(name[0]) && IdLength(name) == |name|
    ensures Tokenize("{" + name + "}" + s, true) == [Brace(name)] + Tokenize(s, false)
  {
    BraceText(name, s);
    hide IdLength;
  }

  /** A colon in front of a brace: the two parameters change places. */
  lemma MixedSpellingsSwap()
    ensures MatchPath("/:a/{b}", "/x/y", true) == Some(map["a" := "y", "b" := "x"])
  {
    hide Tokenize, Match;
    BraceHead("b", "");
    SlashHead("{b}");
    ColonHead("a", "/{b}");
    SlashHead(":a/{b}");
    assert "{" + "b" + "}" + "" == "{b}" && ":" + "a" + "/{b}" == ":a/{b}";
    assert "/" + "{b}" == "/{b}" && "/" + ":a/{b}" == "/:a/{b}";
    EndOfTokens();
    var ts := [Lit('/'), Colon("a"), Lit('/'), Brace("b")];
    assert Tokens("/:a/{b}") == ts;
    SwapAgrees(ts);
    MatchExactly(ts, ["x", "y"], "/x/y", true);
    SwapBinds(ts);
  }

  lemma EndOfTokens()
    ensures Tokenize("", false) == []
  {}

  lemma SwapAgrees(ts: seq<Token>)
    requires ts == [Lit('/'), Colon("a"), Lit('/'), Brace("b")]
    ensures OnePerSegment(ts, false) && Agrees(ts, ["x", "y"], "/x/y", true)
  {
    assert ts[3..][1..] == [] && OnePerSegment(ts[3..], false) && Agrees(ts[3..], ["y"], "y", true);
    assert ts[2..][1..] == ts[3..] && Agrees(ts[2..], ["y"], "/y", true);
    assert OnePerSegment(ts[2..], true) && OnePerSegment(ts[1..], false);
    assert ts[1..][1..] == ts[2..] && "x/y"[|"x"|..] == "/y" && ["x", "y"][1..] == ["y"];
    assert Agrees(ts[1..], ["x", "y"], "x/y", true);
  }

  lemma SwapBinds(ts: seq<Token>)
    requires ts == [Lit('/'), Colon("a"), Lit('/'), Brace("b")]
    ensures Bind(ParamNames(ts), ["x", "y"]) == map["a" := "y", "b" := "x"]
  {
    SwapNames(ts);
    hide ParamNames;
    var names := ["b"] + ["a"];
    assert names[..1] == ["b"] && names[..1][..0] == [];
    assert Bind(names[..1], ["x", "y"]) == map["b" := "x"];
  }

  lemma SwapNames(ts: seq<Token>)
    requires ts == [Lit('/'), Colon("a"), Lit('/'), Brace("b")]
    ensures ParamNames(ts) == ["b"] + ["a"]
  {
    var three, two, one := ts[1..], ts[2..], ts[3..];
    assert three[1..] == two && two[1..] == one && one[1..] == [];
    assert BraceNames(one) == ["b"] && ColonNames(one) == [];
    assert BraceNames(two) == ["b"] && ColonNames(two) == [];
    assert BraceNames(three) == ["b"] && ColonNames(three) == ["a"];
  }

  // ── Templates that differ in names only ──

  /** The same kind of token; for a literal the same character, up to case where it does not count. */
  predicate Alike(t: Token, u: Token, caseSensitive: bool) {
    match t
    case Lit(c) => u.Lit? && SameChar(c, u.c, caseSensitive)
    case DoubleStar => u.DoubleStar?
    case _ => IsGroup(u) && !u.DoubleStar?
  }

  predicate AllAlike(ts: seq<Token>, us: seq<Token>, caseSensitive: bool) {
    |ts| == |us| && forall i :: 0 <= i < |ts| ==> Alike(ts[i], us[i], caseSensitive)
  }

  lemma {:induction false} AlikeReach(t: Token, u: Token, s: string, caseSensitive: bool)
    requires IsGroup(t) && Alike(t, u, caseSensitive)
    ensures Reach(t, s) == Reach(u, s)
  {
    if s != [] { AlikeReach(t, u, s[1..], caseSensitive); }
  }

  lemma {:induction false} AlikeMatch(ts: seq<Token>, us: seq<Token>, s: string, caseSensitive: bool)
    requires AllAlike(ts, us, caseSensitive)
    ensures Match(ts, s, caseSensitive) == Match(us, s, caseSensitive)
    decreases |ts|, 0
  {
    if ts != [] {
      assert Alike(ts[0], us[0], caseSensitive);
      assert AllAlike(ts[1..], us[1..], caseSensitive);
      if ts[0].Lit? {
        if s != [] { AlikeMatch(ts[1..], us[1..], s[1..], caseSensitive); }
      } else {
        AlikeReach(ts[0], us[0], s, caseSensitive);
        AlikeTry(ts, us, s, Reach(ts[0], s), caseSensitive);
      }
    }
  }

  lemma {:induction false} AlikeTry(ts: seq<Token>, us: seq<Token>, s: string, n: nat, caseSensitive: bool)
    requires AllAlike(ts, us, caseSensitive) && ts != [] && IsGroup(ts[0]) && n <= |s|
    ensures TryFrom(ts, s, n, caseSensitive) == TryFrom(us, s, n, caseSensitive)
    decreases |ts| - 1, n + 1
  {
    assert Alike(ts[0], us[0], caseSensitive);
    assert AllAlike(ts[1..], us[1..], caseSensitive);
    AlikeMatch(ts[1..], us[1..], s[n..], caseSensitive);
    if n > 0 { AlikeTry(ts, us, s, n - 1, caseSensitive); }
  }

  lemma {:induction false} NamelessAt(ts: seq<Token>, i: nat)
    requires i < |ts|
    ensures BraceNameless(ts)[i] == BraceName(ts[i]) && ColonNameless(ts)[i] == ColonName(ts[i])
    ensures AllLower(ts)[i] == LowerToken(ts[i])
  {
    if i > 0 { NamelessAt(ts[1..], i - 1); }
  }

  lemma ShapeAt(path: string, i: nat, caseSensitive: bool)
    requires i < |Tokens(path)|
    ensures |Shape(path, caseSensitive)| == |Tokens(path)|
    ensures var t := BraceName(ColonName(Tokens(path)[i]));
            Shape(path, caseSensitive)[i] == if caseSensitive then t else LowerToken(t)
  {
    var ts := Tokens(path);
    NamelessAt(ts, i);
    NamelessAt(ColonNameless(ts), i);
    NamelessAt(BraceNameless(ColonNameless(ts)), i);
  }

  /**
   * Two templates with the same key match exactly the same requests and capture the same texts, so
   * the one registered second could never be reached.
   */
  lemma SameKeyShadows(httpMethod: string, p: string, q: string, s: string, caseSensitive: bool)
    requires PathKey(httpMethod, p, caseSensitive) == PathKey(httpMethod, q, caseSensitive)
    ensures Match(Tokens(p), s, caseSensitive) == Match(Tokens(q), s, caseSensitive)
  {
    hide Tokens, Shape, PathKey, Match;
    KeyGivesShape(httpMethod, p, q, caseSensitive);
    ShapeLength(p, caseSensitive);
    ShapeLength(q, caseSensitive);
    forall i | 0 <= i < |Tokens(p)|
      ensures Alike(Tokens(p)[i], Tokens(q)[i], caseSensitive)
    {
      ShapeAt(p, i, caseSensitive);
      ShapeAt(q, i, caseSensitive);
    }
    AlikeMatch(Tokens(p), Tokens(q), s, caseSensitive);
  }

  lemma ShapeLength(path: string, caseSensitive: bool)
    ensures |Shape(path, caseSensitive)| == |Tokens(path)|
  {}

  /** The converse fails: a parameter in braces and one behind a colon match alike under different keys. */
  lemma MixedSpellingsEscape(s: string, caseSensitive: bool)
    ensures PathKey("GET", "/{a}", caseSensitive) != PathKey("GET", "/:a", caseSensitive)
    ensures Match(Tokens("/{a}"), s, caseSensitive) == Match(Tokens("/:a"), s, caseSensitive)
  {
    hide Tokenize, Match, PathKey, Shape;
    BraceHead("a", "");
    ColonHead("a", "");
    SlashHead("{a}");
    SlashHead(":a");
    EndOfTokens();
    assert "{" + "a" + "}" + "" == "{a}" && ":" + "a" + "" == ":a" && "/" + "{a}" == "/{a}" && "/" + ":a" == "/:a";
    assert Tokens("/{a}") == [Lit('/'), Brace("a")] && Tokens("/:a") == [Lit('/'), Colon("a")];
    AlikeMatch(Tokens("/{a}"), Tokens("/:a"), s, caseSensitive);
    if PathKey("GET", "/{a}", caseSensitive) == PathKey("GET", "/:a", caseSensitive) {
      KeyGivesShape("GET", "/{a}", "/:a", caseSensitive);
      ShapeAt("/{a}", 1, caseSensitive);
      ShapeAt("/:a", 1, caseSensitive);
    }
  }
}
