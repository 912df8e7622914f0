/** The request router: four indexes updated in place that always describe one list of routes. */
module RouterIndex {
  import opened Options
  import opened Text
  import opened RouterPaths
  import opened RouterTrie

  datatype Config = Config(
    enablePathNormalization: bool, caseSensitive: bool, strictTrailingSlash: bool, maxParams: nat,
    enableMetrics: bool, compiles: string -> bool)

  datatype RouterError =
    | MissingId | MissingMethod | MissingPath | MissingHandler | DuplicateId | TooManyParameters | UnnamedParameter
    | NoLeadingSlash | EmptyParameter | InvalidParameter | InvalidPattern | PathConflict

  // ── Validation ──

  function BraceSpecError(config: Config, spec: string): Option<RouterError> {
    if Trim(spec) == "" then Some(EmptyParameter)
    else if '=' !in spec then None
    else
      SplitHasTwo(spec);
      var name, pattern := Split(spec, '=')[0], Split(spec, '=')[1];
      if Trim(name) == "" || Trim(pattern) == "" then Some(InvalidParameter)
      else if ('(' in pattern || '[' in pattern) && !config.compiles(pattern) then Some(InvalidPattern)
      else None
  }

  lemma {:induction false} SplitHasTwo(s: string)
    requires '=' in s
    ensures |Split(s, '=')| >= 2
  {
    if s[0] != '=' { SplitHasTwo(s[1..]); }
  }

  function IndexOf(s: string, c: char): (i: nat)
    requires c in s
    ensures i < |s| && s[i] == c && c !in s[..i]
  {
    if s[0] == c then 0 else 1 + IndexOf(s[1..], c)
  }

  /** Looks at every `{...}` from left to right. */
  function BraceError(config: Config, s: string): Option<RouterError> {
    if s == [] then None
    else if s[0] == '{' && '}' in s then
      var end := IndexOf(s, '}');
      var error := BraceSpecError(config, s[1..end]);
      if error.Some? then error else BraceError(config, s[end + 1..])
    else BraceError(config, s[1..])
  }

  function RouteError(config: Config, route: Route, idTaken: bool): Option<RouterError> {
    if route.id == "" then Some(MissingId)
    else if route.httpMethod == "" then Some(MissingMethod)
    else if route.path == "" then Some(MissingPath)
    else if !route.hasHandler then Some(MissingHandler)
    else if idTaken then Some(DuplicateId)
    else if |route.parameters| > config.maxParams then Some(TooManyParameters)
    else if "" in route.parameters then Some(UnnamedParameter)
    else if route.path[0] != '/' then Some(NoLeadingSlash)
    else BraceError(config, route.path)
  }

  // ── What the indexes describe ──

  function Stored(config: Config, route: Route): Route {
    if config.enablePathNormalization
    then route.(path := NormalizeRoutePath(route.path, config.strictTrailingSlash, config.caseSensitive))
    else route
  }

  function KeyOf(config: Config, route: Route): string { PathKey(route.httpMethod, route.path, config.caseSensitive) }

  predicate HasId(routes: seq<Route>, id: string) { exists i :: 0 <= i < |routes| && routes[i].id == id }

  predicate HasKey(config: Config, routes: seq<Route>, key: string) {
    exists i :: 0 <= i < |routes| && KeyOf(config, routes[i]) == key
  }

  /** Why a route is turned down, given what is registered. */
  function AddError(config: Config, routes: seq<Route>, route: Route): Option<RouterError> {
    var invalid := RouteError(config, route, HasId(routes, route.id));
    if invalid.Some? then invalid
    else if HasKey(config, routes, KeyOf(config, Stored(config, route))) then Some(PathConflict)
    else None
  }

  function Without(routes: seq<Route>, id: string): (r: seq<Route>)
    ensures |r| <= |routes|
  {
    if routes == [] then []
    else
      var last := routes[|routes| - 1];
      Without(routes[..|routes| - 1], id) + if last.id == id then [] else [last]
  }

  function OfMethod(routes: seq<Route>, httpMethod: string): (r: seq<Route>)
    ensures |r| <= |routes|
  {
    if routes == [] then []
    else
      var last := routes[|routes| - 1];
      OfMethod(routes[..|routes| - 1], httpMethod) + if last.httpMethod == httpMethod then [last] else []
  }

  ghost predicate DistinctIds(routes: seq<Route>) {
    forall i, j :: 0 <= i < j < |routes| ==> routes[i].id != routes[j].id
  }

  ghost predicate DistinctKeys(config: Config, routes: seq<Route>) {
    forall i, j :: 0 <= i < j < |routes| ==> KeyOf(config, routes[i]) != KeyOf(config, routes[j])
  }

  lemma {:induction false} InWithout(routes: seq<Route>, id: string, r: Route)
    ensures r in Without(routes, id) <==> r in routes && r.id != id
  {
    if routes != [] {
      var rest, last := routes[..|routes| - 1], routes[|routes| - 1];
      InWithout(rest, id, r);
      assert routes == rest + [last];
    }
  }

  lemma {:induction false} WithoutNone(routes: seq<Route>, id: string)
    requires forall r :: r in routes ==> r.id != id
    ensures Without(routes, id) == routes
  {
    if routes != [] {
      var rest, last := routes[..|routes| - 1], routes[|routes| - 1];
      assert routes == rest + [last];
      assert last in routes;
      WithoutNone(rest, id);
    }
  }

  /** Where ids are distinct, leaving one out is cutting its one place. */
  lemma {:induction false} WithoutCuts(routes: seq<Route>, id: string, i: nat)
    requires DistinctIds(routes) && i < |routes| && routes[i].id == id
    ensures Without(routes, id) == routes[..i] + routes[i + 1..]
  {
    var rest, last := routes[..|routes| - 1], routes[|routes| - 1];
    if i == |routes| - 1 {
      WithoutNone(rest, id);
      assert routes[..i] + routes[i + 1..] == rest;
    } else {
      WithoutCuts(rest, id, i);
      assert routes[..i] + routes[i + 1..] == (rest[..i] + rest[i + 1..]) + [last];
    }
  }

  lemma {:induction false} MethodsWithout(routes: seq<Route>, id: string, httpMethod: string)
    ensures OfMethod(Without(routes, id), httpMethod) == Without(OfMethod(routes, httpMethod), id)
  {
    if routes != [] {
      var rest, last := routes[..|routes| - 1], routes[|routes| - 1];
      MethodsWithout(rest, id, httpMethod);
      var w, o := Without(rest, id), OfMethod(rest, httpMethod);
      assert (w + [last])[..|w + [last]| - 1] == w;
      assert (o + [last])[..|o + [last]| - 1] == o;
      assert o + [] == o && w + [] == w;
    }
  }

  lemma {:induction false} InMethod(routes: seq<Route>, httpMethod: string, r: Route)
    ensures r in OfMethod(routes, httpMethod) <==> r in routes && r.httpMethod == httpMethod
  {
    if routes != [] {
      var rest, last := routes[..|routes| - 1], routes[|routes| - 1];
      InMethod(rest, httpMethod, r);
      assert routes == rest + [last];
    }
  }

  lemma {:induction false} MethodKeepsIds(routes: seq<Route>, httpMethod: string)
    requires DistinctIds(routes)
    ensures DistinctIds(OfMethod(routes, httpMethod))
  {
    if routes != [] {
      var rest, last := routes[..|routes| - 1], routes[|routes| - 1];
      MethodKeepsIds(rest, httpMethod);
      var o := OfMethod(rest, httpMethod);
      forall i | 0 <= i < |o|
        ensures o[i].id != last.id
      {
        InMethod(rest, httpMethod, o[i]);
        assert o[i] in o;
      }
    }
  }

  // ── The route list over a run ──

  datatype Op = Add(route: Route) | Remove(id: string) | Clear

  function ApplyOp(config: Config, routes: seq<Route>, op: Op): seq<Route> {
    match op
    case Add(route) => if AddError(config, routes, route).Some? then routes else routes + [Stored(config, route)]
    case Remove(id) => Without(routes, id)
    case Clear => []
  }

  function RunOps(config: Config, ops: seq<Op>): seq<Route> {
    if ops == [] then [] else ApplyOp(config, RunOps(config, ops[..|ops| - 1]), ops[|ops| - 1])
  }

  lemma WithoutKeepsDistinct(config: Config, routes: seq<Route>, id: string)
    requires DistinctIds(routes) && DistinctKeys(config, routes)
    ensures DistinctIds(Without(routes, id)) && DistinctKeys(config, Without(routes, id))
  {
    hide KeyOf;
    if exists i :: 0 <= i < |routes| && routes[i].id == id {
      var i :| 0 <= i < |routes| && routes[i].id == id;
      WithoutCuts(routes, id, i);
    } else {
      WithoutNone(routes, id);
    }
  }

  lemma AddKeepsDistinct(config: Config, routes: seq<Route>, route: Route)
    requires DistinctIds(routes) && DistinctKeys(config, routes) && AddError(config, routes, route).None?
    ensures var r := routes + [Stored(config, route)]; DistinctIds(r) && DistinctKeys(config, r)
  {
    hide KeyOf, BraceError, NormalizeRoutePath;
  }

  /** Whatever is added and removed, accepted or not, ids and path keys stay distinct. */
  lemma {:induction false} AlwaysDistinct(config: Config, ops: seq<Op>)
    ensures DistinctIds(RunOps(config, ops)) && DistinctKeys(config, RunOps(config, ops))
  {
    if ops != [] {
      AlwaysDistinct(config, ops[..|ops| - 1]);
      var routes, op := RunOps(config, ops[..|ops| - 1]), ops[|ops| - 1];
      hide DistinctIds, DistinctKeys, AddError;
      match op
      case Add(route) => if AddError(config, routes, route).None? { AddKeepsDistinct(config, routes, route); }
      case Remove(id) => WithoutKeepsDistinct(config, routes, id);
      case Clear => NoneDistinct(config);
    }
  }

  lemma NoneDistinct(config: Config)
    ensures DistinctIds([]) && DistinctKeys(config, [])
  {}
}
