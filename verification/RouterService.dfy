/** The request router as it is written. */
module RouterService {
  import opened Options
  import opened RouterBinding
  import opened RouterScore
  import opened RouterTrie
  import opened RouterIndex

  const HTTP_METHODS: seq<string> := ["GET", "POST", "PUT", "DELETE", "PATCH", "HEAD", "OPTIONS"]

  function NoRoutes(): (methods: map<string, seq<Route>>)
    ensures forall m :: m in methods ==> methods[m] == []
  {
    map m | m in HTTP_METHODS :: []
  }

  // ── Coherence, index by index ──

  ghost predicate IdsCoherent(rs: seq<Route>, routes: map<string, Route>, order: seq<string>) {
    && |order| == |rs|
    && (forall i :: 0 <= i < |rs| ==> order[i] == rs[i].id)
    && (forall i :: 0 <= i < |rs| ==> rs[i].id in routes && routes[rs[i].id] == rs[i])
    && (forall id :: id in routes ==> HasId(rs, id))
  }

  ghost predicate KeysCoherent(config: Config, rs: seq<Route>, index: map<string, string>) {
    && (forall i :: 0 <= i < |rs| ==> KeyOf(config, rs[i]) in index && index[KeyOf(config, rs[i])] == rs[i].id)
    && (forall k :: k in index ==> HasKey(config, rs, k))
  }

  ghost predicate MethodsCoherent(rs: seq<Route>, methods: map<string, seq<Route>>) {
    && (forall m :: m in methods ==> methods[m] == OfMethod(rs, m))
    && (forall i :: 0 <= i < |rs| ==> rs[i].httpMethod in methods)
  }

  lemma IdsAdded(rs: seq<Route>, routes: map<string, Route>, order: seq<string>, r: Route)
    requires IdsCoherent(rs, routes, order) && r.id !in routes
    ensures IdsCoherent(rs + [r], routes[r.id := r], order + [r.id])
  {
    forall id | id in routes[r.id := r]
      ensures HasId(rs + [r], id)
    {
      if id == r.id { assert (rs + [r])[|rs|].id == id; }
      else {
        var i :| 0 <= i < |rs| && rs[i].id == id;
        assert (rs + [r])[i].id == id;
      }
    }
  }

  lemma KeysAdded(config: Config, rs: seq<Route>, index: map<string, string>, r: Route)
    requires KeysCoherent(config, rs, index) && KeyOf(config, r) !in index
    ensures KeysCoherent(config, rs + [r], index[KeyOf(config, r) := r.id])
  {
    hide KeyOf;
    forall k | k in index[KeyOf(config, r) := r.id]
      ensures HasKey(config, rs + [r], k)
    {
      if k == KeyOf(config, r) { assert KeyOf(config, (rs + [r])[|rs|]) == k; }
      else {
        var i :| 0 <= i < |rs| && KeyOf(config, rs[i]) == k;
        assert KeyOf(config, (rs + [r])[i]) == k;
      }
    }
  }

  lemma MethodsAdded(rs: seq<Route>, methods: map<string, seq<Route>>, r: Route)
    requires MethodsCoherent(rs, methods)
    requires r.httpMethod !in methods ==> OfMethod(rs, r.httpMethod) == []
    ensures var listed := if r.httpMethod in methods then methods[r.httpMethod] else [];
            MethodsCoherent(rs + [r], methods[r.httpMethod := listed + [r]])
  {
    assert (rs + [r])[..|rs|] == rs;
  }

  lemma {:induction false} MethodAbsent(rs: seq<Route>, methods: map<string, seq<Route>>, m: string)
    requires forall i :: 0 <= i < |rs| ==> rs[i].httpMethod in methods
    requires m !in methods
    ensures OfMethod(rs, m) == []
  {
    if rs != [] { MethodAbsent(rs[..|rs| - 1], methods, m); }
  }

  lemma Cut(rs: seq<Route>, i: nat)
    requires DistinctIds(rs) && i < |rs|
    ensures Without(rs, rs[i].id) == rs[..i] + rs[i + 1..]
  {
    WithoutCuts(rs, rs[i].id, i);
  }

  lemma IdsRemoved(rs: seq<Route>, routes: map<string, Route>, order: seq<string>, i: nat)
    requires IdsCoherent(rs, routes, order) && DistinctIds(rs) && i < |rs|
    ensures IdsCoherent(Without(rs, rs[i].id), routes - {rs[i].id}, order[..i] + order[i + 1..])
  {
    hide Without, HasId;
    Cut(rs, i);
    var next := rs[..i] + rs[i + 1..];
    forall id | id in routes - {rs[i].id}
      ensures HasId(next, id)
    {
      Stays(rs, i, id);
    }
  }

  lemma Stays(rs: seq<Route>, i: nat, id: string)
    requires HasId(rs, id) && i < |rs| && rs[i].id != id
    ensures HasId(rs[..i] + rs[i + 1..], id)
  {
    var j :| 0 <= j < |rs| && rs[j].id == id;
    assert (rs[..i] + rs[i + 1..])[if j < i then j else j - 1].id == id;
  }

  lemma KeyStays(config: Config, rs: seq<Route>, i: nat, k: string)
    requires HasKey(config, rs, k) && i < |rs| && KeyOf(config, rs[i]) != k
    ensures HasKey(config, rs[..i] + rs[i + 1..], k)
  {
    hide KeyOf;
    var j :| 0 <= j < |rs| && KeyOf(config, rs[j]) == k;
    assert KeyOf(config, (rs[..i] + rs[i + 1..])[if j < i then j else j - 1]) == k;
  }

  lemma KeysRemoved(config: Config, rs: seq<Route>, index: map<string, string>, i: nat)
    requires KeysCoherent(config, rs, index) && DistinctIds(rs) && DistinctKeys(config, rs) && i < |rs|
    ensures KeysCoherent(config, Without(rs, rs[i].id), index - {KeyOf(config, rs[i])})
  {
    hide KeyOf, Without, HasKey;
    Cut(rs, i);
    var next := rs[..i] + rs[i + 1..];
    forall j | 0 <= j < |next|
      ensures KeyOf(config, next[j]) != KeyOf(config, rs[i])
      ensures KeyOf(config, next[j]) in index && index[KeyOf(config, next[j])] == next[j].id
    {
      assert next[j] == rs[if j < i then j else j + 1];
    }
    forall k | k in index - {KeyOf(config, rs[i])}
      ensures HasKey(config, next, k)
    {
      KeyStays(config, rs, i, k);
    }
  }

  lemma MethodsRemoved(rs: seq<Route>, methods: map<string, seq<Route>>, r: Route)
    requires MethodsCoherent(rs, methods) && DistinctIds(rs) && r in rs
    ensures MethodsCoherent(Without(rs, r.id), methods[r.httpMethod := Without(OfMethod(rs, r.httpMethod), r.id)])
  {
    hide OfMethod, Without, DistinctIds;
    var next := Without(rs, r.id);
    forall i | 0 <= i < |next|
      ensures next[i].httpMethod in methods
    {
      InWithout(rs, r.id, next[i]);
      assert next[i] in next;
    }
    forall m | m in methods || m == r.httpMethod
      ensures OfMethod(next, m) == if m == r.httpMethod then Without(OfMethod(rs, m), r.id) else methods[m]
    {
      MethodsWithout(rs, r.id, m);
      if m != r.httpMethod {
        OnlyOneHasId(rs, r, m);
        WithoutNone(OfMethod(rs, m), r.id);
      }
    }
  }

  lemma OnlyOneHasId(rs: seq<Route>, r: Route, m: string)
    requires DistinctIds(rs) && r in rs && m != r.httpMethod
    ensures forall x :: x in OfMethod(rs, m) ==> x.id != r.id
  {
    forall x | x in OfMethod(rs, m)
      ensures x.id != r.id
    {
      InMethod(rs, m, x);
      var i :| 0 <= i < |rs| && rs[i] == x;
      var j :| 0 <= j < |rs| && rs[j] == r;
      assert i < j || j < i;
    }
  }

  // ── Matches ──

  datatype RouteMatch = RouteMatch(route: Route, params: map<string, string>, score: real)

  predicate MatchesAt(list: seq<Route>, s: string, caseSensitive: bool, i: int) {
    0 <= i < |list| && MatchPath(list[i].path, s, caseSensitive).Some?
  }

  /** The earliest of the highest score among the first `n` routes that match. */
  ghost predicate BestSoFar(list: seq<Route>, s: string, caseSensitive: bool, i: int, n: int) {
    && MatchesAt(list, s, caseSensitive, i)
    && (forall j :: MatchesAt(list, s, caseSensitive, j) && j < n ==> Score(list[j].path) <= Score(list[i].path))
    && (forall j :: MatchesAt(list, s, caseSensitive, j) && j < i ==> Score(list[j].path) < Score(list[i].path))
  }

  ghost predicate IsBest(list: seq<Route>, s: string, caseSensitive: bool, i: int) {
    BestSoFar(list, s, caseSensitive, i, |list|)
  }

  ghost predicate IsMatch(list: seq<Route>, s: string, caseSensitive: bool, i: int, m: RouteMatch) {
    && MatchesAt(list, s, caseSensitive, i)
    && m == RouteMatch(list[i], MatchPath(list[i].path, s, caseSensitive).value, Score(list[i].path))
  }

  /** What `findRoute` answers: the best match, or nothing exactly when nothing matches. */
  ghost predicate IsAnswer(list: seq<Route>, s: string, caseSensitive: bool, best: Option<RouteMatch>) {
    if best.None? then forall i :: !MatchesAt(list, s, caseSensitive, i)
    else exists i :: IsBest(list, s, caseSensitive, i) && IsMatch(list, s, caseSensitive, i, best.value)
  }

  lemma BestIsUnique(list: seq<Route>, s: string, caseSensitive: bool, i: int, j: int)
    requires IsBest(list, s, caseSensitive, i) && IsBest(list, s, caseSensitive, j)
    ensures i == j
  {
    hide Score, MatchPath;
  }

  ghost predicate Coherent(config: Config, rs: seq<Route>, routes: map<string, Route>, order: seq<string>,
    index: map<string, string>, methods: map<string, seq<Route>>, trie: Trie, total: int)
  {
    && DistinctIds(rs) && DistinctKeys(config, rs)
    && IdsCoherent(rs, routes, order)
    && KeysCoherent(config, rs, index)
    && MethodsCoherent(rs, methods)
    && trie == Build(rs)
    && total == if config.enableMetrics then |rs| else 0
  }

  lemma NothingIsCoherent(config: Config)
    ensures Coherent(config, [], map[], [], map[], NoRoutes(), LEAF, 0)
  {
    hide KeyOf;
  }

  lemma AddedIsCoherent(config: Config, rs: seq<Route>, routes: map<string, Route>, order: seq<string>,
    index: map<string, string>, methods: map<string, seq<Route>>, trie: Trie, total: int, route: Route)
    requires Coherent(config, rs, routes, order, index, methods, trie, total)
    requires AddError(config, rs, route).None?
    ensures var r := Stored(config, route);
            var listed := if r.httpMethod in methods then methods[r.httpMethod] else [];
            && r.id !in routes && KeyOf(config, r) !in index
            && Coherent(config, rs + [r], routes[r.id := r], order + [r.id], index[KeyOf(config, r) := r.id],
                 methods[r.httpMethod := listed + [r]], Insert(trie, Segments(r.path), r),
                 if config.enableMetrics then total + 1 else total)
  {
    hide Stored, KeyOf, BraceError, OfMethod, Insert, Segments, DistinctIds, DistinctKeys, HasKey, HasId;
    var r := Stored(config, route);
    StoredKeeps(config, route);
    AddKeepsDistinct(config, rs, route);
    IdsAdded(rs, routes, order, r);
    KeysAdded(config, rs, index, r);
    if r.httpMethod !in methods { MethodAbsent(rs, methods, r.httpMethod); }
    MethodsAdded(rs, methods, r);
    assert (rs + [r])[..|rs|] == rs;
    hide IdsCoherent, KeysCoherent, MethodsCoherent;
  }

  lemma StoredKeeps(config: Config, route: Route)
    ensures Stored(config, route).id == route.id
  {}

  lemma RemovedIsCoherent(config: Config, rs: seq<Route>, routes: map<string, Route>, order: seq<string>,
    index: map<string, string>, methods: map<string, seq<Route>>, trie: Trie, total: int, i: nat)
    requires Coherent(config, rs, routes, order, index, methods, trie, total) && i < |rs|
    ensures var r := rs[i];
            Coherent(config, Without(rs, r.id), routes - {r.id}, order[..i] + order[i + 1..],
              index - {KeyOf(config, r)}, methods[r.httpMethod := Without(OfMethod(rs, r.httpMethod), r.id)],
              Build(Without(rs, r.id)), if config.enableMetrics then total - 1 else total)
    ensures IdsCoherent(Without(rs, rs[i].id), routes - {rs[i].id}, order[..i] + order[i + 1..])
  {
    hide KeyOf, OfMethod, Without, DistinctIds, DistinctKeys, Build, IdsCoherent, KeysCoherent, MethodsCoherent;
    WithoutKeepsDistinct(config, rs, rs[i].id);
    IdsRemoved(rs, routes, order, i);
    KeysRemoved(config, rs, index, i);
    MethodsRemoved(rs, methods, rs[i]);
    Cut(rs, i);
  }

  lemma PositionOf(config: Config, rs: seq<Route>, routes: map<string, Route>, order: seq<string>,
    index: map<string, string>, methods: map<string, seq<Route>>, trie: Trie, total: int, id: string, i: nat)
    requires Coherent(config, rs, routes, order, index, methods, trie, total)
    requires id in routes && i < |order| && order[i] == id
    ensures i < |rs| && rs[i] == routes[id] && rs[i].id == id
    ensures routes[id].httpMethod in methods
    ensures methods[routes[id].httpMethod] == OfMethod(rs, routes[id].httpMethod)
    ensures DistinctIds(methods[routes[id].httpMethod])
  {
    hide KeysCoherent, DistinctKeys, Build, OfMethod;
    MethodKeepsIds(rs, routes[id].httpMethod);
  }

  lemma IdsAgree(rs: seq<Route>, routes: map<string, Route>, order: seq<string>, id: string)
    requires IdsCoherent(rs, routes, order)
    ensures id in routes <==> HasId(rs, id)
    ensures id in routes ==> id in order
  {
    if id in routes {
      var i :| 0 <= i < |rs| && rs[i].id == id;
      assert order[i] == id;
    }
  }

  lemma KeysAgree(config: Config, rs: seq<Route>, index: map<string, string>, key: string)
    requires KeysCoherent(config, rs, index)
    ensures key in index <==> HasKey(config, rs, key)
  {
    hide KeyOf;
  }

  class RequestRouter {
    const config: Config
    var routes: map<string, Route>
    var routeOrder: seq<string>
    var routeIdsByPathKey: map<string, string>
    var methodRoutes: map<string, seq<Route>>
    var pathTrie: Trie
    var totalRoutes: int
    ghost var registered: seq<Route>

    /** All four indexes and the counter describe the registered routes, and nothing shadows anything. */
    ghost predicate Valid()
      reads this
    {
      Coherent(config, registered, routes, routeOrder, routeIdsByPathKey, methodRoutes, pathTrie, totalRoutes)
    }

    constructor (config: Config)
      ensures Valid() && registered == [] && this.config == config
    {
      this.config := config;
      routes, routeOrder, routeIdsByPathKey := map[], [], map[];
      methodRoutes := NoRoutes();
      pathTrie := LEAF;
      totalRoutes := 0;
      registered := [];
      NothingIsCoherent(config);
    }

    method AddRoute(route: Route) returns (error: Option<RouterError>)
      requires Valid()
      modifies this
      ensures Valid()
      ensures error == AddError(config, old(registered), route)
      ensures registered == ApplyOp(config, old(registered), Add(route))
    {
      hide Stored, KeyOf, RouteError, Build, OfMethod, HasKey, HasId, DistinctIds, DistinctKeys, KeysCoherent,
        IdsCoherent;
      IdsAgree(registered, routes, routeOrder, route.id);
      error := RouteError(config, route, route.id in routes);
      if error.Some? { return; }
      var stored := Stored(config, route);
      var key := KeyOf(config, stored);
      KeysAgree(config, registered, routeIdsByPathKey, key);
      if key in routeIdsByPathKey { return Some(PathConflict); }
      Admit(route, stored, key);
      return None;
    }

    /** The writes of a registration. */
    method Admit(route: Route, stored: Route, key: string)
      requires Valid() && stored == Stored(config, route) && key == KeyOf(config, stored)
      requires AddError(config, registered, route).None?
      modifies this
      ensures Valid() && registered == old(registered) + [stored]
    {
      hide Stored, KeyOf, AddError, Insert, Segments, Coherent;
      AddedIsCoherent(config, registered, routes, routeOrder, routeIdsByPathKey, methodRoutes, pathTrie, totalRoutes,
        route);
      routes := routes[stored.id := stored];
      routeOrder := routeOrder + [stored.id];
      routeIdsByPathKey := routeIdsByPathKey[key := stored.id];
      if stored.httpMethod !in methodRoutes { methodRoutes := methodRoutes[stored.httpMethod := []]; }
      var listed := methodRoutes[stored.httpMethod];
      methodRoutes := methodRoutes[stored.httpMethod := listed + [stored]];
      assert methodRoutes == old(methodRoutes)[stored.httpMethod := listed + [stored]];
      pathTrie := Insert(pathTrie, Segments(stored.path), stored);
      if config.enableMetrics { totalRoutes := totalRoutes + 1; }
      registered := registered + [stored];
    }

    method RemoveRoute(id: string) returns (removed: bool)
      requires Valid()
      modifies this
      ensures Valid()
      ensures removed == HasId(old(registered), id)
      ensures registered == ApplyOp(config, old(registered), Remove(id))
    {
      hide KeyOf, Build, OfMethod, DistinctIds, DistinctKeys, KeysCoherent, IdsCoherent, MethodsCoherent;
      IdsAgree(registered, routes, routeOrder, id);
      if id !in routes {
        NotRegistered(registered, id);
        return false;
      }
      Dismiss(id);
      return true;
    }

    static lemma NotRegistered(rs: seq<Route>, id: string)
      requires !HasId(rs, id)
      ensures Without(rs, id) == rs
    {
      WithoutNone(rs, id);
    }

    /** The writes of a removal; the trie is built again from the routes that are left. */
    method Dismiss(id: string)
      requires Valid() && id in routes && id in routeOrder
      modifies this
      ensures Valid() && registered == Without(old(registered), id)
    {
      hide KeyOf, Build, OfMethod, Without, DistinctIds, DistinctKeys, Coherent, IdsCoherent;
      var route := routes[id];
      var index := FindIndex(routeOrder, id);
      PositionOf(config, registered, routes, routeOrder, routeIdsByPathKey, methodRoutes, pathTrie, totalRoutes, id,
        index);
      RemovedIsCoherent(config, registered, routes, routeOrder, routeIdsByPathKey, methodRoutes, pathTrie,
        totalRoutes, index);
      var rest := Splice(methodRoutes[route.httpMethod], id);
      routes := routes - {id};
      routeOrder := routeOrder[..index] + routeOrder[index + 1..];
      routeIdsByPathKey := routeIdsByPathKey - {KeyOf(config, route)};
      methodRoutes := methodRoutes[route.httpMethod := rest];
      registered := Without(registered, id);
      pathTrie := RebuildTrie();
      if config.enableMetrics { totalRoutes := totalRoutes - 1; }
    }

    static method FindIndex(order: seq<string>, id: string) returns (index: nat)
      requires id in order
      ensures index < |order| && order[index] == id
    {
      index := 0;
      while order[index] != id
        invariant index < |order| && id in order[index..]
        decreases |order| - index
      {
        index := index + 1;
      }
    }

    /** `findIndex` and `splice` on a method's list. */
    static method Splice(list: seq<Route>, id: string) returns (rest: seq<Route>)
      requires DistinctIds(list)
      ensures rest == Without(list, id)
    {
      for i := 0 to |list|
        invariant forall j :: 0 <= j < i ==> list[j].id != id
      {
        if list[i].id == id {
          WithoutCuts(list, id, i);
          return list[..i] + list[i + 1..];
        }
      }
      WithoutNone(list, id);
      rest := list;
    }

    method RebuildTrie() returns (trie: Trie)
      requires IdsCoherent(registered, routes, routeOrder)
      ensures trie == Build(registered)
    {
      trie := LEAF;
      for i := 0 to |routeOrder|
        invariant trie == Build(registered[..i])
      {
        var route := routes[routeOrder[i]];
        assert registered[..i + 1][..i] == registered[..i];
        trie := Insert(trie, Segments(route.path), route);
      }
      assert registered[..|registered|] == registered;
    }

    lemma HasMetrics()
      requires Valid()
      ensures !config.enableMetrics ==> totalRoutes == 0
    {}

    method ClearRoutes()
      requires Valid()
      modifies this
      ensures Valid() && registered == []
    {
      hide Coherent;
      NothingIsCoherent(config);
      HasMetrics();
      routes, routeOrder, routeIdsByPathKey := map[], [], map[];
      methodRoutes := NoRoutes();
      pathTrie := LEAF;
      if config.enableMetrics { totalRoutes := 0; }
      registered := [];
    }

    /** The best match of a request, or none exactly when nothing matches. */
    method FindRoute(httpMethod: string, path: string) returns (best: Option<RouteMatch>)
      requires Valid()
      ensures IsAnswer(OfMethod(registered, httpMethod), path, config.caseSensitive, best)
    {
      hide KeyOf, Build, OfMethod, MatchPath, IsAnswer, IdsCoherent, KeysCoherent, DistinctIds, DistinctKeys;
      if httpMethod !in methodRoutes {
        MethodAbsent(registered, methodRoutes, httpMethod);
        NoAnswer(path, config.caseSensitive);
        return None;
      }
      best := BestOf(methodRoutes[httpMethod], path, config.caseSensitive);
    }

    static lemma NoAnswer(path: string, caseSensitive: bool)
      ensures IsAnswer([], path, caseSensitive, None)
    {}

    static method BestOf(list: seq<Route>, path: string, caseSensitive: bool) returns (best: Option<RouteMatch>)
      ensures IsAnswer(list, path, caseSensitive, best)
    {
      hide MatchPath, StaticSegments, SegmentCount, Score;
      best := None;
      var bestScore := -1.0;
      ghost var at := -1;
      for i := 0 to |list|
        invariant best.None? ==> bestScore == -1.0 && forall j :: j < i ==> !MatchesAt(list, path, caseSensitive, j)
        invariant best.Some? ==> at < i && BestSoFar(list, path, caseSensitive, at, i)
        invariant best.Some? ==> IsMatch(list, path, caseSensitive, at, best.value) && bestScore == best.value.score
      {
        var params := MatchPath(list[i].path, path, caseSensitive);
        var score := Score(list[i].path);
        if params.Some? && score > bestScore {
          best := Some(RouteMatch(list[i], params.value, score));
          bestScore := score;
          at := i;
        }
      }
      if best.Some? { assert IsBest(list, path, caseSensitive, at); }
    }
  }
}
