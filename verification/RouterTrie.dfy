/** The path trie as a value: inserting a route, and what a node lists. */
module RouterTrie {
  import opened Text

  datatype Route = Route(id: string, httpMethod: string, path: string, hasHandler: bool, parameters: seq<string>)

  datatype Trie = Node(children: map<string, Trie>, routes: map<string, seq<Route>>)

  const LEAF := Node(map[], map[])

  function NonEmpty(segments: seq<string>): seq<string> {
    if segments == [] then [] else (if segments[0] != "" then [segments[0]] else []) + NonEmpty(segments[1..])
  }

  function Segments(path: string): seq<string> { NonEmpty(Split(path, '/')) }

  function Insert(t: Trie, segments: seq<string>, r: Route): Trie
    decreases |segments|
  {
    if segments == [] then
      var listed := if r.httpMethod in t.routes then t.routes[r.httpMethod] else [];
      t.(routes := t.routes[r.httpMethod := listed + [r]])
    else
      var child := if segments[0] in t.children then t.children[segments[0]] else LEAF;
      t.(children := t.children[segments[0] := Insert(child, segments[1..], r)])
  }

  function Lookup(t: Trie, segments: seq<string>, httpMethod: string): seq<Route>
    decreases |segments|
  {
    if segments == [] then if httpMethod in t.routes then t.routes[httpMethod] else []
    else if segments[0] in t.children then Lookup(t.children[segments[0]], segments[1..], httpMethod)
    else []
  }

  lemma LookupInLeaf(segments: seq<string>, httpMethod: string)
    ensures Lookup(LEAF, segments, httpMethod) == []
  {}

  lemma {:induction false} LookupAfterInsert(
    t: Trie, segments: seq<string>, r: Route, at: seq<string>, httpMethod: string)
    ensures Lookup(Insert(t, segments, r), at, httpMethod) ==
      Lookup(t, at, httpMethod) + if at == segments && httpMethod == r.httpMethod then [r] else []
    decreases |segments|
  {
    if segments != [] && at != [] && at[0] == segments[0] {
      var child := if segments[0] in t.children then t.children[segments[0]] else LEAF;
      LookupAfterInsert(child, segments[1..], r, at[1..], httpMethod);
      LookupInLeaf(at[1..], httpMethod);
      assert at == segments <==> at[1..] == segments[1..] by {
        assert at == [at[0]] + at[1..] && segments == [segments[0]] + segments[1..];
      }
    }
  }

  function Build(routes: seq<Route>): Trie {
    if routes == [] then LEAF
    else
      var last := routes[|routes| - 1];
      Insert(Build(routes[..|routes| - 1]), Segments(last.path), last)
  }

  /** The routes of one method at one path, in the order they were registered. */
  function Listed(routes: seq<Route>, segments: seq<string>, httpMethod: string): seq<Route> {
    if routes == [] then []
    else
      var last := routes[|routes| - 1];
      Listed(routes[..|routes| - 1], segments, httpMethod)
      + if Segments(last.path) == segments && last.httpMethod == httpMethod then [last] else []
  }

  /** The trie describes the routes and nothing else. */
  lemma {:induction false} TrieListsRoutes(routes: seq<Route>, segments: seq<string>, httpMethod: string)
    ensures Lookup(Build(routes), segments, httpMethod) == Listed(routes, segments, httpMethod)
  {
    if routes != [] {
      var last := routes[|routes| - 1];
      TrieListsRoutes(routes[..|routes| - 1], segments, httpMethod);
      LookupAfterInsert(Build(routes[..|routes| - 1]), Segments(last.path), last, segments, httpMethod);
    }
  }
}
