/** Matching a request path against a template, binding parameters, and scoring the match. */
module RouterMatch {
  import opened Options
  import opened Text
  import opened RouterPaths

  // ── The regular expression of a template ──

  predicate IsGroup(t: Token) { !t.Lit? }

  /** The `i` flag, over ASCII. */
  predicate SameChar(c: char, d: char, caseSensitive: bool) {
    if caseSensitive then c == d else LowerChar(c) == LowerChar(d)
  }

  predicate IsLineEnd(c: char) { c == '\n' || c == '\r' || c == '\U{2028}' || c == '\U{2029}' }

  /** What a group may capture: `[^/]+`, or `.*` for a double wildcard. */
  predicate Captures(t: Token, value: string) {
    if t.DoubleStar? then forall i :: 0 <= i < |value| ==> !IsLineEnd(value[i])
    else value != "" && '/' !in value
  }

  /** A double wildcard takes any text of one line, slashes and nothing at all included; the others never a slash. */
  lemma CapturesExactly(t: Token, value: string)
    ensures t.DoubleStar? ==>
      (Captures(t, value) <==>
         '\n' !in value && '\r' !in value && '\U{2028}' !in value && '\U{2029}' !in value)
    ensures !t.DoubleStar? ==> (Captures(t, value) <==> |value| > 0 && forall c :: c in value ==> c != '/')
  {}

  /** How many characters at most a group can capture here. */
  function Reach(t: Token, s: string): (n: nat)
    ensures n <= |s|
  {
    if s == [] || (if t.DoubleStar? then IsLineEnd(s[0]) else s[0] == '/') then 0 else 1 + Reach(t, s[1..])
  }

  /** A greedy, backtracking match of the whole text; it yields what the groups captured. */
  function Match(ts: seq<Token>, s: string, caseSensitive: bool): Option<seq<string>>
    decreases |ts|, 0
  {
    if ts == [] then if s == [] then Some([]) else None
    else if ts[0].Lit? then
      if s != [] && SameChar(s[0], ts[0].c, caseSensitive) then Match(ts[1..], s[1..], caseSensitive) else None
    else TryFrom(ts, s, Reach(ts[0], s), caseSensitive)
  }

  /** The group at the head tries to capture `n` characters, then fewer. */
  function TryFrom(ts: seq<Token>, s: string, n: nat, caseSensitive: bool): Option<seq<string>>
    requires ts != [] && n <= |s|
    decreases |ts| - 1, n + 1
  {
    if n == 0 && !ts[0].DoubleStar? then None
    else
      var rest := Match(ts[1..], s[n..], caseSensitive);
      if rest.Some? then Some([s[..n]] + rest.value)
      else if n == 0 then None
      else TryFrom(ts, s, n - 1, caseSensitive)
  }

  // ── What a match means ──

  /** `s` is the template with the captured texts put in, up to the case of its literals. */
  predicate Agrees(ts: seq<Token>, caps: seq<string>, s: string, caseSensitive: bool) {
    if ts == [] then caps == [] && s == []
    else if ts[0].Lit? then
      s != [] && SameChar(s[0], ts[0].c, caseSensitive) && Agrees(ts[1..], caps, s[1..], caseSensitive)
    else
      && caps != [] && Captures(ts[0], caps[0]) && caps[0] <= s
      && Agrees(ts[1..], caps[1..], s[|caps[0]|..], caseSensitive)
  }

  /** The template with texts put in for its groups. */
  function Fill(ts: seq<Token>, caps: seq<string>): string {
    if ts == [] then []
    else if ts[0].Lit? then [ts[0].c] + Fill(ts[1..], caps)
    else if caps == [] then Fill(ts[1..], [])
    else caps[0] + Fill(ts[1..], caps[1..])
  }

  function Groups(ts: seq<Token>): seq<Token> {
    if ts == [] then [] else (if IsGroup(ts[0]) then [ts[0]] else []) + Groups(ts[1..])
  }

  lemma {:induction false} ReachIsCapture(t: Token, s: string, n: nat)
    requires n <= Reach(t, s) && (n > 0 || t.DoubleStar?)
    ensures Captures(t, s[..n])
  {
    if n > 0 {
      if n > 1 || t.DoubleStar? { ReachIsCapture(t, s[1..], n - 1); }
      assert s[..n] == [s[0]] + s[1..][..n - 1];
    }
  }

  lemma {:induction false} CaptureInReach(t: Token, s: string, value: string)
    requires IsGroup(t) && Captures(t, value) && value <= s
    ensures |value| <= Reach(t, s)
  {
    if value != [] {
      assert s[0] == value[0];
      if |value| > 1 { CaptureInReach(t, s[1..], value[1..]); }
    }
  }

  /** Whatever is matched agrees with what was captured. */
  lemma {:induction false} MatchAgrees(ts: seq<Token>, s: string, caseSensitive: bool)
    ensures Match(ts, s, caseSensitive).Some? ==> Agrees(ts, Match(ts, s, caseSensitive).value, s, caseSensitive)
    decreases |ts|, 0
  {
    if ts != [] && ts[0].Lit? {
      if s != [] { MatchAgrees(ts[1..], s[1..], caseSensitive); }
    } else if ts != [] {
      TryAgrees(ts, s, Reach(ts[0], s), caseSensitive);
    }
  }

  lemma {:induction false} TryAgrees(ts: seq<Token>, s: string, n: nat, caseSensitive: bool)
    requires ts != [] && IsGroup(ts[0]) && n <= Reach(ts[0], s)
    ensures var m := TryFrom(ts, s, n, caseSensitive); m.Some? ==> Agrees(ts, m.value, s, caseSensitive)
    decreases |ts| - 1, n + 1
  {
    if n > 0 || ts[0].DoubleStar? {
      MatchAgrees(ts[1..], s[n..], caseSensitive);
      ReachIsCapture(ts[0], s, n);
      if n > 0 { TryAgrees(ts, s, n - 1, caseSensitive); }
      var rest := Match(ts[1..], s[n..], caseSensitive);
      hide Match, Captures, Reach;
      if rest.Some? {
        assert ([s[..n]] + rest.value)[1..] == rest.value;
      }
    }
  }

  /** Backtracking misses nothing: if some texts agree then the match succeeds. */
  lemma {:induction false} AgreesMatches(ts: seq<Token>, caps: seq<string>, s: string, caseSensitive: bool)
    requires Agrees(ts, caps, s, caseSensitive)
    ensures Match(ts, s, caseSensitive).Some?
    decreases |ts|, 0
  {
    if ts != [] && ts[0].Lit? {
      AgreesMatches(ts[1..], caps, s[1..], caseSensitive);
    } else if ts != [] {
      CaptureInReach(ts[0], s, caps[0]);
      TryMatches(ts, caps, s, Reach(ts[0], s), caseSensitive);
    }
  }

  lemma {:induction false} TryMatches(ts: seq<Token>, caps: seq<string>, s: string, n: nat, caseSensitive: bool)
    requires ts != [] && IsGroup(ts[0]) && Agrees(ts, caps, s, caseSensitive)
    requires |caps[0]| <= n <= |s|
    ensures TryFrom(ts, s, n, caseSensitive).Some?
    decreases |ts| - 1, n + 1
  {
    if n == |caps[0]| {
      AgreesMatches(ts[1..], caps[1..], s[n..], caseSensitive);
    } else {
      TryMatches(ts, caps, s, n - 1, caseSensitive);
    }
  }

  // ── One way to match ──

  /** At most one group between two slashes, and none that runs across a slash. */
  predicate OnePerSegment(ts: seq<Token>, taken: bool) {
    if ts == [] then true
    else match ts[0]
      case Lit(c) => OnePerSegment(ts[1..], taken && c != '/')
      case DoubleStar => false
      case _ => !taken && OnePerSegment(ts[1..], true)
  }

  function SegmentLength(s: string): (n: nat)
    ensures n <= |s|
  {
    if s == [] || s[0] == '/' then 0 else 1 + SegmentLength(s[1..])
  }

  function LiteralLength(ts: seq<Token>): nat {
    if ts == [] || ts[0] == Lit('/') then 0 else 1 + LiteralLength(ts[1..])
  }

  lemma {:induction false} SegmentBehind(value: string, s: string)
    requires '/' !in value && value <= s
    ensures SegmentLength(s) == |value| + SegmentLength(s[|value|..])
  {
    if value != [] {
      assert s[0] == value[0];
      assert s[1..][|value| - 1..] == s[|value|..];
      SegmentBehind(value[1..], s[1..]);
    }
  }

  lemma {:induction false} LiteralsFixLength(ts: seq<Token>, caps: seq<string>, s: string, caseSensitive: bool)
    requires OnePerSegment(ts, true) && Agrees(ts, caps, s, caseSensitive)
    ensures SegmentLength(s) == LiteralLength(ts)
  {
    if ts != [] {
      assert ts[0].Lit? && (s[0] == '/' <==> ts[0].c == '/');
      if ts[0].c != '/' { LiteralsFixLength(ts[1..], caps, s[1..], caseSensitive); }
    }
  }

  lemma {:induction false} OneWay(
    ts: seq<Token>, taken: bool, a: seq<string>, b: seq<string>, s: string, caseSensitive: bool)
    requires OnePerSegment(ts, taken) && Agrees(ts, a, s, caseSensitive) && Agrees(ts, b, s, caseSensitive)
    ensures a == b
  {
    if ts != [] && ts[0].Lit? {
      OneWay(ts[1..], taken && ts[0].c != '/', a, b, s[1..], caseSensitive);
    } else if ts != [] {
      LiteralsFixLength(ts[1..], a[1..], s[|a[0]|..], caseSensitive);
      LiteralsFixLength(ts[1..], b[1..], s[|b[0]|..], caseSensitive);
      SegmentBehind(a[0], s);
      SegmentBehind(b[0], s);
      assert a[0] == s[..|a[0]|] == b[0];
      OneWay(ts[1..], true, a[1..], b[1..], s[|a[0]|..], caseSensitive);
      assert a == [a[0]] + a[1..] && b == [b[0]] + b[1..];
    }
  }

  /** With at most one group a segment, the captured texts are exactly those that agree. */
  lemma MatchExactly(ts: seq<Token>, caps: seq<string>, s: string, caseSensitive: bool)
    requires OnePerSegment(ts, false)
    ensures Match(ts, s, caseSensitive) == Some(caps) <==> Agrees(ts, caps, s, caseSensitive)
  {
    MatchAgrees(ts, s, caseSensitive);
    if Agrees(ts, caps, s, caseSensitive) {
      AgreesMatches(ts, caps, s, caseSensitive);
      OneWay(ts, false, caps, Match(ts, s, caseSensitive).value, s, caseSensitive);
    }
  }

  ghost predicate Fits(ts: seq<Token>, caps: seq<string>) {
    |caps| == |Groups(ts)| && forall i :: 0 <= i < |caps| ==> Captures(Groups(ts)[i], caps[i])
  }

  lemma {:induction false} FilledAgrees(ts: seq<Token>, caps: seq<string>, caseSensitive: bool)
    requires Fits(ts, caps)
    ensures Agrees(ts, caps, Fill(ts, caps), caseSensitive)
  {
    if ts != [] && ts[0].Lit? {
      assert Groups(ts) == Groups(ts[1..]);
      FilledAgrees(ts[1..], caps, caseSensitive);
    } else if ts != [] {
      assert Groups(ts) == [ts[0]] + Groups(ts[1..]);
      assert forall i :: 0 <= i < |caps[1..]| ==> Groups(ts)[i + 1] == Groups(ts[1..])[i];
      FilledAgrees(ts[1..], caps[1..], caseSensitive);
      var f := Fill(ts, caps);
      assert f[..|caps[0]|] == caps[0] && f[|caps[0]|..] == Fill(ts[1..], caps[1..]);
    }
  }

  lemma {:induction false} AgreesFills(ts: seq<Token>, caps: seq<string>, s: string, caseSensitive: bool)
    requires Agrees(ts, caps, s, caseSensitive)
    ensures Fits(ts, caps)
    ensures Lower(Fill(ts, caps)) == Lower(s)
    ensures caseSensitive ==> Fill(ts, caps) == s
  {
    hide Lower;
    if ts != [] && ts[0].Lit? {
      AgreesFills(ts[1..], caps, s[1..], caseSensitive);
      assert Groups(ts) == Groups(ts[1..]);
      assert s == [s[0]] + s[1..];
      LowerTail(s, 1);
      LowerTail(Fill(ts, caps), 1);
      assert Lower(s) == [LowerChar(s[0])] + Lower(s[1..]);
    } else if ts != [] {
      AgreesFills(ts[1..], caps[1..], s[|caps[0]|..], caseSensitive);
      assert Groups(ts) == [ts[0]] + Groups(ts[1..]);
      var v, f := caps[0], Fill(ts[1..], caps[1..]);
      assert s == v + s[|v|..];
      LowerConcat(v, f);
      LowerConcat(v, s[|v|..]);
    }
  }

  lemma LowerConcat(a: string, b: string)
    ensures Lower(a + b) == Lower(a) + Lower(b)
  {}
}
