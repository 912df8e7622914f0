/** Which routes are registered and what registering and removing leave, by the routes and their texts alone. */
module RouterEffects {
  import opened Options
  import opened Text
  import opened RouterPaths
  import opened RouterTrie
  import opened RouterIndex

  // ── Braces ──

  /** A path without an opening or without a closing brace has no specification to check. */
  lemma {:induction false} NoBraces(config: Config, s: string)
    requires '{' !in s || '}' !in s
    ensures BraceError(config, s) == None
  {
    if s != [] { NoBraces(config, s[1..]); }
  }

  lemma {:induction false} FirstAt(a: string, c: char, b: string)
    requires c !in a
    ensures IndexOf(a + [c] + b, c) == |a|
  {
    var s := a + [c] + b;
    if a != [] {
      assert s[1..] == a[1..] + [c] + b && s[0] == a[0] && a[0] in a;
      FirstAt(a[1..], c, b);
    }
  }

  /** Otherwise the first opening brace and the first closing one behind it hold one, and the rest is next. */
  lemma {:induction false} FirstBrace(config: Config, head: string, spec: string, rest: string)
    requires '{' !in head && '}' !in spec
    ensures BraceError(config, head + "{" + spec + "}" + rest) ==
      if BraceSpecError(config, spec).Some? then BraceSpecError(config, spec) else BraceError(config, rest)
  {
    hide BraceSpecError;
    var s := head + "{" + spec + "}" + rest;
    if head == [] {
      assert s == ("{" + spec) + ['}'] + rest;
      FirstAt("{" + spec, '}', rest);
      assert s[1..|spec| + 1] == spec && s[|spec| + 2..] == rest;
      assert s[|spec| + 1] == '}';
    } else {
      assert s[1..] == head[1..] + "{" + spec + "}" + rest && s[0] == head[0] && head[0] in head;
      FirstBrace(config, head[1..], spec, rest);
    }
  }

  /** A name alone must not be blank. */
  lemma NameExactly(config: Config, name: string)
    requires '=' !in name
    ensures BraceSpecError(config, name) == if Trim(name) == "" then Some(EmptyParameter) else None
  {
    hide Trim;
  }

  /** With a pattern neither may be blank, and a pattern with a bracket must compile. */
  lemma PatternExactly(config: Config, name: string, pattern: string)
    requires '=' !in name && '=' !in pattern && Trim(name + "=" + pattern) != ""
    ensures BraceSpecError(config, name + "=" + pattern) ==
      if Trim(name) == "" || Trim(pattern) == "" then Some(InvalidParameter)
      else if ('(' in pattern || '[' in pattern) && !config.compiles(pattern) then Some(InvalidPattern)
      else None
  {
    SplitFirst(name, pattern, '=');
    SplitWhole(pattern, '=');
    assert name + "=" + pattern == name + ['='] + pattern;
    assert (name + "=" + pattern)[|name|] == '=';
    hide Trim, Split;
  }

  // ── Admission ──

  /** A route is admitted exactly if it is whole, new, within bounds, well written and no other template shadows it. */
  lemma AdmittedExactly(config: Config, routes: seq<Route>, route: Route)
    ensures AddError(config, routes, route) == None <==>
      && route.id != "" && route.httpMethod != "" && route.hasHandler && |route.parameters| <= config.maxParams
      && (forall p :: p in route.parameters ==> p != "")
      && route.path != "" && route.path[0] == '/' && BraceError(config, route.path) == None
      && (forall r :: r in routes ==> r.id != route.id)
      && (forall r :: r in routes ==> KeyOf(config, r) != KeyOf(config, Stored(config, route)))
  {
    hide BraceError, KeyOf, Stored;
    assert HasId(routes, route.id) <==> exists r :: r in routes && r.id == route.id by {
      if r :| r in routes && r.id == route.id { var i :| 0 <= i < |routes| && routes[i] == r; }
    }
    var key := KeyOf(config, Stored(config, route));
    assert HasKey(config, routes, key) <==> exists r :: r in routes && KeyOf(config, r) == key by {
      if r :| r in routes && KeyOf(config, r) == key { var i :| 0 <= i < |routes| && routes[i] == r; }
    }
  }

  /** The errors of a route that is turned down come in this order. */
  lemma RejectionsExactly(config: Config, routes: seq<Route>, route: Route)
    ensures var e := AddError(config, routes, route);
            if route.id == "" then e == Some(MissingId)
            else if route.httpMethod == "" then e == Some(MissingMethod)
            else if route.path == "" then e == Some(MissingPath)
            else if !route.hasHandler then e == Some(MissingHandler)
            else if exists r :: r in routes && r.id == route.id then e == Some(DuplicateId)
            else if |route.parameters| > config.maxParams then e == Some(TooManyParameters)
            else if exists p :: p in route.parameters && p == "" then e == Some(UnnamedParameter)
            else if route.path[0] != '/' then e == Some(NoLeadingSlash)
            else if BraceError(config, route.path).Some? then e == BraceError(config, route.path)
            else e == None || e == Some(PathConflict)
  {
    hide BraceError, KeyOf, Stored;
    if r :| r in routes && r.id == route.id { var i :| 0 <= i < |routes| && routes[i] == r; }
  }

  // ── The list ──

  /** An admitted route comes last, as it was but for its normalised path; one turned down changes nothing. */
  lemma AddExactly(config: Config, routes: seq<Route>, route: Route)
    ensures var next := ApplyOp(config, routes, Add(route));
            if AddError(config, routes, route).Some? then next == routes
            else
              && |next| == |routes| + 1 && next[..|routes|] == routes
              && var r := next[|routes|];
                 && r.id == route.id && r.httpMethod == route.httpMethod && r.hasHandler == route.hasHandler
                 && r.parameters == route.parameters
                 && r.path ==
                      if config.enablePathNormalization
                      then NormalizeRoutePath(route.path, config.strictTrailingSlash, config.caseSensitive)
                      else route.path
  {
    hide AddError, NormalizeRoutePath;
  }

  /** A removal cuts the one route of that id out and leaves the others in order. */
  lemma RemoveExactly(config: Config, ops: seq<Op>, id: string)
    ensures var routes := RunOps(config, ops);
            var next := ApplyOp(config, routes, Remove(id));
            && (forall r :: r in next <==> r in routes && r.id != id)
            && (next == routes || exists i :: 0 <= i < |routes| && routes[i].id == id
                                    && next == routes[..i] + routes[i + 1..])
  {
    var routes := RunOps(config, ops);
    AlwaysDistinct(config, ops);
    hide DistinctKeys, RunOps;
    forall r
      ensures r in Without(routes, id) <==> r in routes && r.id != id
    {
      InWithout(routes, id, r);
    }
    if i :| 0 <= i < |routes| && routes[i].id == id { WithoutCuts(routes, id, i); }
    else { WithoutNone(routes, id); }
  }

  /** The routes looked through for a method are those of that method, in the order they were registered. */
  lemma {:induction false} MethodExactly(routes: seq<Route>, httpMethod: string) returns (at: seq<nat>)
    ensures |at| == |OfMethod(routes, httpMethod)|
    ensures forall i :: 0 <= i < |at| ==> at[i] < |routes| && OfMethod(routes, httpMethod)[i] == routes[at[i]]
    ensures forall i, j :: 0 <= i < j < |at| ==> at[i] < at[j]
    ensures forall k :: 0 <= k < |routes| ==> (k in at <==> routes[k].httpMethod == httpMethod)
  {
    if routes == [] {
      at := [];
    } else {
      var n := |routes| - 1;
      at := MethodExactly(routes[..n], httpMethod);
      if routes[n].httpMethod == httpMethod { at := at + [n]; }
    }
  }
}
