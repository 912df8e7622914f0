/** The storage's `LIKE` operator beside plain starts-with: when a cluster's prefix reaches no other cluster. */
module AlloyLike {
  import opened Text
  import opened AlloyNames
  import opened AlloySections
  import opened AlloySafety

  /** SQLite's `LIKE`: `%` is any text, `_` any character, and ASCII case does not count. */
  predicate Like(pattern: string, s: string)
    decreases |pattern| + |s|
  {
    if pattern == "" then s == ""
    else if pattern[0] == '%' then Like(pattern[1..], s) || (s != "" && Like(pattern, s[1..]))
    else s != "" && (pattern[0] == '_' || LowerChar(pattern[0]) == LowerChar(s[0])) && Like(pattern[1..], s[1..])
  }

  /** `s` begins like `prefix`, up to case and with `_` for any character. */
  predicate Begins(prefix: string, s: string) {
    && |prefix| <= |s|
    && forall i :: 0 <= i < |prefix| ==> prefix[i] == '_' || LowerChar(prefix[i]) == LowerChar(s[i])
  }

  lemma {:induction false} PercentIsAnything(s: string)
    ensures Like("%", s)
    decreases |s|
  {
    assert "%"[1..] == "";
    if s != "" { PercentIsAnything(s[1..]); }
  }

  /** What a listing or deletion by prefix reaches. */
  lemma {:induction false} LikeBegins(prefix: string, s: string)
    requires '%' !in prefix
    ensures Like(prefix + "%", s) <==> Begins(prefix, s)
  {
    if prefix == "" {
      assert prefix + "%" == "%";
      PercentIsAnything(s);
    } else if s != "" {
      assert (prefix + "%")[1..] == prefix[1..] + "%";
      LikeBegins(prefix[1..], s[1..]);
      BeginsStep(prefix, s);
    }
  }

  lemma BeginsStep(prefix: string, s: string)
    requires prefix != "" && s != ""
    ensures Begins(prefix, s) <==>
      (prefix[0] == '_' || LowerChar(prefix[0]) == LowerChar(s[0])) && Begins(prefix[1..], s[1..])
  {
    if Begins(prefix[1..], s[1..]) && (prefix[0] == '_' || LowerChar(prefix[0]) == LowerChar(s[0])) {
      forall i | 0 <= i < |prefix|
        ensures prefix[i] == '_' || LowerChar(prefix[i]) == LowerChar(s[i])
      {
        if i > 0 { assert prefix[1..][i - 1] == prefix[i] && s[1..][i - 1] == s[i]; }
      }
    }
    if Begins(prefix, s) {
      assert forall i :: 0 <= i < |prefix[1..]| ==> prefix[1..][i] == prefix[i + 1] && s[1..][i] == s[i + 1];
    }
  }

  lemma PrefixBegins(prefix: string, s: string)
    requires prefix <= s
    ensures Begins(prefix, s)
  {}

  predicate NoUpperCase(s: string) { forall i :: 0 <= i < |s| ==> LowerChar(s[i]) == s[i] }

  /** Among lower-case names, a lower-case prefix without wildcards reaches exactly what begins with it. */
  lemma LowerCaseIsApart(prefix: string, s: string)
    requires '%' !in prefix && '_' !in prefix && NoUpperCase(prefix) && NoUpperCase(s)
    ensures Like(prefix + "%", s) <==> prefix <= s
  {
    LikeBegins(prefix, s);
    if Begins(prefix, s) { assert s[..|prefix|] == prefix; }
    if prefix <= s { PrefixBegins(prefix, s); }
  }

  // ── Which clusters a prefix reaches ──

  lemma {:induction false} LikeSelf(s: string)
    ensures Like(s, s)
  {
    if s != "" { LikeSelf(s[1..]); }
  }

  lemma {:induction false} LikeAppend(a: string, x: string, b: string, y: string)
    requires Like(a, b) && Like(x, y)
    ensures Like(a + x, b + y)
    decreases |a| + |b|
  {
    if a == "" {
      assert a + x == x && b + y == y;
    } else {
      assert (a + x)[1..] == a[1..] + x;
      if b != "" { assert (b + y)[1..] == b[1..] + y; }
      if a[0] == '%' && Like(a[1..], b) {
        LikeAppend(a[1..], x, b, y);
      } else if a[0] == '%' {
        LikeAppend(a, x, b[1..], y);
      } else {
        LikeAppend(a[1..], x, b[1..], y);
      }
    }
  }

  /** A slash of the pattern takes a slash of the text. */
  lemma {:induction false} LikeSlashes(p: string, s: string)
    requires Like(p, s)
    ensures Slashes(p) <= Slashes(s)
    decreases |p| + |s|
  {
    if p != "" {
      if p[0] == '%' && Like(p[1..], s) {
        LikeSlashes(p[1..], s);
      } else if p[0] == '%' {
        LikeSlashes(p, s[1..]);
      } else {
        LikeSlashes(p[1..], s[1..]);
      }
    }
  }

  /** With as many slashes behind them, two first segments meet each other and nothing runs across their slash. */
  lemma {:induction false} FirstSegments(a: string, x: string, b: string, y: string)
    requires '/' !in a && '/' !in b && Slashes(x) == Slashes(y)
    requires Like(a + "/" + x, b + "/" + y)
    ensures Like(a, b) && Like(x, y)
    decreases |a| + |b|
  {
    var p, s := a + "/" + x, b + "/" + y;
    assert a != "" ==> p[0] == a[0] && p[1..] == a[1..] + "/" + x;
    assert a == "" ==> p[0] == '/' && p[1..] == x;
    assert b != "" ==> s[0] == b[0] && s[1..] == b[1..] + "/" + y;
    assert b == "" ==> s[0] == '/' && s[1..] == y;
    assert Slashes(p) > Slashes(x) by { SlashesJoined(a, x); }
    if a != "" {
      assert Slashes(p[1..]) > Slashes(x) by { SlashesJoined(a[1..], x); }
      if a[0] == '%' && Like(p[1..], s) {
        FirstSegments(a[1..], x, b, y);
      } else if a[0] == '%' {
        if b == "" { LikeSlashes(p, y); } else { FirstSegments(a, x, b[1..], y); }
      } else {
        if b == "" { LikeSlashes(p[1..], y); } else { FirstSegments(a[1..], x, b[1..], y); }
      }
    }
  }

  lemma {:induction false} SlashesJoined(a: string, x: string)
    requires '/' !in a
    ensures Slashes(a + "/" + x) == 1 + Slashes(x)
  {
    var p := a + "/" + x;
    if a == "" {
      assert p[1..] == x;
    } else {
      assert p[1..] == a[1..] + "/" + x;
      SlashesJoined(a[1..], x);
    }
  }

  predicate SlashFree(parts: seq<string>) { forall i :: 0 <= i < |parts| ==> '/' !in parts[i] }

  lemma {:induction false} PathSlashes(parts: seq<string>, x: string)
    requires |parts| > 0 && SlashFree(parts)
    ensures Slashes(Join(parts, '/') + "/" + x) == |parts| + Slashes(x)
  {
    if |parts| == 1 {
      SlashesJoined(parts[0], x);
    } else {
      var rest := Join(parts[1..], '/') + "/" + x;
      assert Join(parts, '/') + "/" + x == parts[0] + "/" + rest;
      PathSlashes(parts[1..], x);
      SlashesJoined(parts[0], rest);
    }
  }

  /** Two paths with as many segments are alike exactly segment by segment. */
  lemma {:induction false} PathsAlike(a: seq<string>, x: string, b: seq<string>, y: string)
    requires |a| == |b| > 0 && SlashFree(a) && SlashFree(b) && Slashes(x) == Slashes(y)
    ensures Like(Join(a, '/') + "/" + x, Join(b, '/') + "/" + y)
       <==> (forall i :: 0 <= i < |a| ==> Like(a[i], b[i])) && Like(x, y)
  {
    if |a| == 1 {
      SegmentsAlike(a[0], x, b[0], y);
    } else {
      var u, v := Join(a[1..], '/') + "/" + x, Join(b[1..], '/') + "/" + y;
      assert Join(a, '/') + "/" + x == a[0] + "/" + u && Join(b, '/') + "/" + y == b[0] + "/" + v;
      PathSlashes(a[1..], x);
      PathSlashes(b[1..], y);
      SegmentsAlike(a[0], u, b[0], v);
      PathsAlike(a[1..], x, b[1..], y);
      hide Like, Join, Slashes;
      assert (forall i :: 0 <= i < |a| ==> Like(a[i], b[i]))
        <==> Like(a[0], b[0]) && forall i :: 0 <= i < |a[1..]| ==> Like(a[1..][i], b[1..][i]) by {
        assert forall i :: 0 < i < |a| ==> a[i] == a[1..][i - 1] && b[i] == b[1..][i - 1];
      }
    }
  }

  lemma SegmentsAlike(a: string, x: string, b: string, y: string)
    requires '/' !in a && '/' !in b && Slashes(x) == Slashes(y)
    ensures Like(a + "/" + x, b + "/" + y) <==> Like(a, b) && Like(x, y)
  {
    if Like(a + "/" + x, b + "/" + y) { FirstSegments(a, x, b, y); }
    if Like(a, b) && Like(x, y) {
      LikeSelf("/");
      LikeAppend(a, "/", b, "/");
      LikeAppend(a + "/", x, b + "/", y);
    }
  }

  /** One address read as a pattern for another, part by part. */
  predicate Covers(k: Key, other: Key) {
    Like(k.project, other.project) && Like(k.location, other.location) && Like(k.cluster, other.cluster)
  }

  lemma ChildText(k: Key, kind: string, rest: string)
    ensures ClusterName(k) + "/" + kind + "/" + rest == Join(ClusterPath(k) + [kind], '/') + "/" + rest
  {
    JoinAppend(ClusterPath(k), [kind], '/');
    hide Join;
    assert Join([kind], '/') == kind by { LastJoined(kind); }
  }

  lemma LastJoined(s: string)
    ensures Join([s], '/') == s
  {}

  lemma ChildAlike(k: Key, other: Key, kind: string, id: string)
    requires ValidKey(k) && ValidKey(other) && '/' !in kind && '/' !in id
    ensures Like(ClusterName(k) + "/" + kind + "/" + "%", ClusterName(other) + "/" + kind + "/" + id)
       <==> Covers(k, other)
  {
    hide Like, Join, Slashes, ClusterName;
    var a, b := ClusterPath(k) + [kind], ClusterPath(other) + [kind];
    ChildText(k, kind, "%");
    ChildText(other, kind, id);
    NoSlashes("%");
    NoSlashes(id);
    PathsAlike(a, "%", b, id);
    PercentIsAnything(id);
    LikeSelf("projects");
    LikeSelf("locations");
    LikeSelf("clusters");
    LikeSelf(kind);
    assert Like(a[0], b[0]) && Like(a[2], b[2]) && Like(a[4], b[4]) && Like(a[6], b[6]);
    assert (a[1], a[3], a[5]) == (k.project, k.location, k.cluster);
    assert (b[1], b[3], b[5]) == (other.project, other.location, other.cluster);
  }

  lemma {:induction false} NoSlashes(s: string)
    requires '/' !in s
    ensures Slashes(s) == 0
  {
    if s != "" { NoSlashes(s[1..]); }
  }

  /** One cluster's prefix reaches another's instances and users exactly when its address covers the other's. */
  lemma ReachesExactly(k: Key, other: Key, id: string)
    requires ValidKey(k) && ValidKey(other) && '/' !in id
    ensures Like(InstancePrefix(k) + "%", InstanceName(other, id)) <==> Covers(k, other)
    ensures Like(UserPrefix(k) + "%", UserName(other, id)) <==> Covers(k, other)
  {
    hide Like, ClusterName;
    ChildAlike(k, other, "instances", id);
    ChildAlike(k, other, "users", id);
    assert InstancePrefix(k) + "%" == ClusterName(k) + "/" + "instances" + "/" + "%";
    assert InstanceName(other, id) == ClusterName(other) + "/" + "instances" + "/" + id;
    assert UserPrefix(k) + "%" == ClusterName(k) + "/" + "users" + "/" + "%";
    assert UserName(other, id) == ClusterName(other) + "/" + "users" + "/" + id;
  }

  /** Equal up to case, with `_` for any character. */
  predicate Alike(a: string, b: string) {
    |a| == |b| && forall i :: 0 <= i < |a| ==> a[i] == '_' || LowerChar(a[i]) == LowerChar(b[i])
  }

  /** Without a `%` one address covers another exactly when they are alike character by character. */
  lemma CoversExactly(k: Key, other: Key)
    requires '%' !in k.project && '%' !in k.location && '%' !in k.cluster
    ensures Covers(k, other)
       <==> Alike(k.project, other.project) && Alike(k.location, other.location) && Alike(k.cluster, other.cluster)
  {
    hide Alike, Like;
    AlikeExactly(k.project, other.project);
    AlikeExactly(k.location, other.location);
    AlikeExactly(k.cluster, other.cluster);
  }

  lemma {:induction false} AlikeExactly(a: string, b: string)
    requires '%' !in a
    ensures Like(a, b) <==> Alike(a, b)
  {
    if a != "" && b != "" {
      AlikeExactly(a[1..], b[1..]);
      BeginsStep(a, b);
    }
  }

  /** A set of clusters keeps apart under `LIKE`, whatever they hold, exactly when none covers another. */
  lemma ApartExactly(keys: set<Key>)
    requires forall k :: k in keys ==> ValidKey(k)
    ensures (forall k, other, id :: k in keys && other in keys && Segment(id) ==>
               (Like(InstancePrefix(k) + "%", InstanceName(other, id)) <==> k == other))
       <==> (forall k, other :: k in keys && other in keys && k != other ==> !Covers(k, other))
  {
    hide Like, InstancePrefix, UserPrefix;
    forall k, other, id | k in keys && other in keys && Segment(id)
      ensures Like(InstancePrefix(k) + "%", InstanceName(other, id)) <==> Covers(k, other)
    {
      ReachesExactly(k, other, id);
    }
    forall k
      ensures Covers(k, k)
    {
      CoversSelf(k);
    }
    assert Segment("i");
    forall k, other | k in keys && other in keys && Covers(k, other)
      ensures Like(InstancePrefix(k) + "%", InstanceName(other, "i"))
    {}
  }

  lemma OwnerOf(db: Db, n: string) returns (k: Key, id: string)
    requires Inv(db) && n in db.instances
    ensures ValidKey(k) && Segment(id) && n == InstanceName(k, id)
  {
    hide Placed, InstancePrefix, Segment;
    k :| ValidKey(k) && InstancePrefix(k) <= n;
    assert ClusterOk(db, k) && n in InstancesUnder(db, k);
    id :| Segment(id) && n == InstanceName(k, id);
  }

  /** A stored name is reached exactly when its cluster is covered, and begun exactly when its cluster is this one. */
  lemma NameExactly(db: Db, k: Key, other: Key, n: string)
    requires Inv(db) && ValidKey(k) && ValidKey(other) && n in InstancesUnder(db, other)
    ensures Like(InstancePrefix(k) + "%", n) <==> Covers(k, other)
    ensures InstancePrefix(k) <= n <==> k == other
  {
    hide Like, InstancePrefix, Inv, Covers;
    var owner, id := OwnerOf(db, n);
    OwnPrefix(owner, id);
    InstanceOwnerUnique(n, owner, other);
    ReachesExactly(k, other, id);
    if InstancePrefix(k) <= n { InstanceOwnerUnique(n, k, other); }
  }

  lemma OwnPrefix(k: Key, id: string)
    ensures InstancePrefix(k) <= InstanceName(k, id)
  {}

  /** In every state the sections reach, the operator is starts-with exactly when no covered cluster has instances. */
  lemma StartsWithExactly(db: Db, k: Key)
    requires Inv(db) && ValidKey(k)
    ensures (forall n :: n in db.instances ==> (Like(InstancePrefix(k) + "%", n) <==> InstancePrefix(k) <= n))
       <==> (forall other :: ValidKey(other) && other != k && Covers(k, other) ==> InstancesUnder(db, other) == {})
  {
    hide Like, InstancePrefix, Covers, Inv, ValidKey;
    CoversSelf(k);
    forall other, n | ValidKey(other) && n in InstancesUnder(db, other)
      ensures Like(InstancePrefix(k) + "%", n) <==> Covers(k, other)
      ensures InstancePrefix(k) <= n <==> k == other
    {
      NameExactly(db, k, other, n);
    }
    forall n | n in db.instances
      ensures exists other :: ValidKey(other) && n in InstancesUnder(db, other)
    {
      var other, id := OwnerOf(db, n);
      OwnPrefix(other, id);
    }
  }

  lemma CoversSelf(k: Key)
    ensures Covers(k, k)
  {
    LikeSelf(k.project);
    LikeSelf(k.location);
    LikeSelf(k.cluster);
  }

  /** A project with an underscore reaches into a project that has another character there. */
  lemma UnderscoreReaches(location: string, cluster: string, id: string)
    requires Segment(location) && Segment(cluster) && Segment(id)
    ensures var k, other := Key("a_b", location, cluster), Key("axb", location, cluster);
            Like(InstancePrefix(k) + "%", InstanceName(other, id)) && Like(UserPrefix(k) + "%", UserName(other, id))
  {
    var k, other := Key("a_b", location, cluster), Key("axb", location, cluster);
    hide InstancePrefix, UserPrefix;
    assert Like("a_b", "axb") by { AlikeExactly("a_b", "axb"); }
    LikeSelf(location);
    LikeSelf(cluster);
    ReachesExactly(k, other, id);
  }
}
