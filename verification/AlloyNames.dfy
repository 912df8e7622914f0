/** AlloyDB resource names, and why no name lies beneath two clusters at once. */
module AlloyNames {
  import opened Text
  import opened Options

  /** The three path segments that address a cluster. */
  datatype Key = Key(project: string, location: string, cluster: string)

  predicate Segment(s: string) { s != "" && '/' !in s }

  predicate ValidKey(k: Key) {
    Segment(k.project) && Segment(k.location) && Segment(k.cluster)
  }

  function ClusterPath(k: Key): seq<string> {
    ["projects", k.project, "locations", k.location, "clusters", k.cluster]
  }

  function ClusterName(k: Key): string { Join(ClusterPath(k), '/') }

  function InstancePrefix(k: Key): string { ClusterName(k) + "/instances/" }

  function UserPrefix(k: Key): string { ClusterName(k) + "/users/" }

  function InstanceName(k: Key, id: string): string { InstancePrefix(k) + id }

  function UserName(k: Key, id: string): string { UserPrefix(k) + id }

  function EndpointPrefix(k: Key): string { Join([k.project, k.location, k.cluster], '/') + "/" }

  /** The data plane's registry key: the project, then location, cluster and instance. */
  function EndpointKey(k: Key, id: string): string { EndpointPrefix(k) + id }

  const ID_MAX := 63

  predicate IdChar(c: char) { 'a' <= c <= 'z' || '0' <= c <= '9' || c == '-' }

  predicate IsValidClusterId(id: string) {
    1 <= |id| <= ID_MAX && forall i :: 0 <= i < |id| ==> IdChar(id[i])
  }

  predicate IsValidInstanceId(id: string) {
    && IsValidClusterId(id)
    && 'a' <= id[0] <= 'z'
    && id[|id| - 1] != '-'
  }

  predicate IsValidUserId(id: string) { id != "" && '/' !in id }

  lemma ValidIdIsSegment(id: string)
    requires IsValidClusterId(id)
    ensures Segment(id)
  {}

  // ── Frames: a trailing separator isolates one cluster's subtree from every other ──

  /** The string lemma behind every frame argument: one text, at most one cluster above it. */
  lemma ClusterUnique(n: string, k1: Key, k2: Key)
    requires ValidKey(k1) && ValidKey(k2)
    requires ClusterName(k1) + "/" <= n && ClusterName(k2) + "/" <= n
    ensures k1 == k2
  {
    var x, y := n[|ClusterName(k1)| + 1..], n[|ClusterName(k2)| + 1..];
    assert n == ClusterName(k1) + ['/'] + x == ClusterName(k2) + ['/'] + y;
    PathUnique(ClusterPath(k1), x, ClusterPath(k2), y, '/');
    assert ClusterPath(k1)[1] == ClusterPath(k2)[1] && ClusterPath(k1)[3] == ClusterPath(k2)[3]
        && ClusterPath(k1)[5] == ClusterPath(k2)[5];
  }

  lemma Shorter(n: string, a: string, b: string)
    requires a + b <= n
    ensures a <= n
  {
    assert n[..|a|] == (a + b)[..|a|] by { assert n[..|a + b|] == a + b; }
  }

  lemma InstanceOwnerUnique(n: string, k1: Key, k2: Key)
    requires ValidKey(k1) && ValidKey(k2)
    requires InstancePrefix(k1) <= n && InstancePrefix(k2) <= n
    ensures k1 == k2
  {
    assert InstancePrefix(k1) == (ClusterName(k1) + "/") + "instances/";
    assert InstancePrefix(k2) == (ClusterName(k2) + "/") + "instances/";
    Shorter(n, ClusterName(k1) + "/", "instances/");
    Shorter(n, ClusterName(k2) + "/", "instances/");
    ClusterUnique(n, k1, k2);
  }

  lemma UserOwnerUnique(n: string, k1: Key, k2: Key)
    requires ValidKey(k1) && ValidKey(k2)
    requires UserPrefix(k1) <= n && UserPrefix(k2) <= n
    ensures k1 == k2
  {
    assert UserPrefix(k1) == (ClusterName(k1) + "/") + "users/";
    assert UserPrefix(k2) == (ClusterName(k2) + "/") + "users/";
    Shorter(n, ClusterName(k1) + "/", "users/");
    Shorter(n, ClusterName(k2) + "/", "users/");
    ClusterUnique(n, k1, k2);
  }

  lemma ClusterNameInjective(k1: Key, k2: Key)
    requires ValidKey(k1) && ValidKey(k2)
    requires ClusterName(k1) == ClusterName(k2)
    ensures k1 == k2
  {
    ClusterUnique(ClusterName(k1) + "/", k1, k2);
  }

  lemma EndpointOwnerUnique(n: string, k1: Key, k2: Key)
    requires ValidKey(k1) && ValidKey(k2)
    requires EndpointPrefix(k1) <= n && EndpointPrefix(k2) <= n
    ensures k1 == k2
  {
    var a, b := [k1.project, k1.location, k1.cluster], [k2.project, k2.location, k2.cluster];
    var x, y := n[|EndpointPrefix(k1)|..], n[|EndpointPrefix(k2)|..];
    assert n == Join(a, '/') + ['/'] + x == Join(b, '/') + ['/'] + y;
    PathUnique(a, x, b, y, '/');
    assert a[0] == b[0] && a[1] == b[1] && a[2] == b[2];
  }

  // ── Parsing ──

  /** `projects/{p}/locations/{l}/clusters/{c}/instances/{i}` with four non-empty segments, or None. */
  function ParseInstanceName(name: string): Option<(Key, string)> {
    var parts := Split(name, '/');
    if
      && |parts| == 8
      && parts[0] == "projects" && parts[2] == "locations"
      && parts[4] == "clusters" && parts[6] == "instances"
      && parts[1] != "" && parts[3] != "" && parts[5] != "" && parts[7] != ""
    then Some((Key(parts[1], parts[3], parts[5]), parts[7]))
    else None
  }

  function InstancePath(k: Key, id: string): seq<string> { ClusterPath(k) + ["instances", id] }

  lemma InstanceNameJoined(k: Key, id: string)
    ensures InstanceName(k, id) == Join(InstancePath(k, id), '/')
  {
    JoinAppend(ClusterPath(k), ["instances", id], '/');
    assert Join(["instances", id], '/') == "instances" + ['/'] + id by {
      assert ["instances", id][1..] == [id];
    }
    assert InstancePrefix(k) + id == ClusterName(k) + ['/'] + ("instances" + ['/'] + id);
  }

  /** What is built is parsed back into its parts. */
  lemma ParseUndoesBuild(k: Key, id: string)
    requires ValidKey(k) && Segment(id)
    ensures ParseInstanceName(InstanceName(k, id)) == Some((k, id))
  {
    InstanceNameJoined(k, id);
    SplitJoin(InstancePath(k, id), '/');
  }

  /** What parses was built from exactly the parts returned. */
  lemma BuildUndoesParse(name: string)
    requires ParseInstanceName(name).Some?
    ensures var (k, id) := ParseInstanceName(name).value;
            ValidKey(k) && Segment(id) && name == InstanceName(k, id)
  {
    var (k, id) := ParseInstanceName(name).value;
    var parts := Split(name, '/');
    JoinSplit(name, '/');
    assert parts == InstancePath(k, id);
    InstanceNameJoined(k, id);
  }
}
