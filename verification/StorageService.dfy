/** The memory provider and the storage manager as they are written, over one cache object. */
module StorageService {
  import opened Options
  import opened StorageCache

  /** What a filtered call answers: a count, or the error that ends it. */
  datatype Counted = TableNotFound | UnsupportedOperator | Counted(count: nat)

  class LruCache {
    var entries: Cache

    constructor ()
      ensures entries == map[]
    {
      entries := map[];
    }

    method Set(key: string, row: Row)
      modifies this
      ensures entries == old(entries)[key := row]
    {
      entries := entries[key := row];
    }

    method Delete(key: string) returns (deleted: bool)
      modifies this
      ensures entries == old(entries) - {key} && deleted == (key in old(entries))
    {
      deleted := key in entries;
      if deleted { entries := entries - {key}; }
    }

    /** Collects the keys, then deletes them one by one. */
    method DeleteByPrefix(prefix: string) returns (count: nat)
      modifies this
      ensures entries == WithoutPrefix(old(entries), prefix)
      ensures count == |WithPrefix(old(entries), prefix)|
    {
      hide WithPrefix, WithoutPrefix;
      var left := WithPrefix(entries, prefix);
      ghost var doomed := left;
      LessNone(entries, prefix);
      count := 0;
      while left != {}
        invariant left <= doomed && entries == old(entries) - (doomed - left)
        invariant count == |doomed - left|
        decreases left
      {
        var k :| k in left;
        assert doomed - (left - {k}) == (doomed - left) + {k};
        LessOne(old(entries), doomed - left, k);
        var deleted := Delete(k);
        if deleted { count := count + 1; }
        left := left - {k};
      }
      assert doomed - {} == doomed;
      LessPrefix(old(entries), prefix);
    }
  }

  function WithPrefix(cache: Cache, prefix: string): set<string> { set k | k in cache && prefix <= k }

  lemma LessNone(m: Cache, prefix: string)
    ensures m - {} == m && forall k :: k in WithPrefix(m, prefix) ==> k in m
  {}

  lemma LessOne(m: Cache, ks: set<string>, k: string)
    ensures m - ks - {k} == m - (ks + {k})
    ensures k in m && k !in ks ==> k in m - ks
  {}

  lemma LessPrefix(m: Cache, prefix: string)
    ensures m - WithPrefix(m, prefix) == WithoutPrefix(m, prefix)
  {}

  function CountOf(tables: Tables, table: string, filter: Filter): Counted {
    if table !in tables then TableNotFound
    else if Refuses(tables[table], filter) then UnsupportedOperator
    else Counted(|Matching(tables[table], filter)|)
  }

  /** The patch's values, the time it came, and for the rest what there was. */
  ghost predicate HasPatch(was: Reply, row: Row, data: Row, now: string) {
    && was.Found?
    && (forall f :: f in row <==> f in was.row || f in data || f == "updatedAt")
    && (forall f :: f in row ==>
          row[f] == if f == "updatedAt" then now else if f in data then data[f] else was.row[f])
  }

  ghost predicate AllTidy(tables: Tables) { forall table :: table in tables ==> Tidy(tables[table]) }

  lemma PutTidy(t: Table, id: string, row: Row)
    requires Tidy(t)
    ensures Tidy(Put(t, id, row))
  {}

  /** Where the table is missing, or the filter refuses before a deletion, nothing happens. */
  lemma NothingDone(s: Store, op: Op)
    ensures op.table !in s.tables && !op.CreateTable? ==> ProviderStep(s, op) == s
    ensures op.DeleteMany? && op.table in s.tables && Refuses(s.tables[op.table], op.filter) ==>
      ProviderStep(s, op) == s
  {
    hide Matching, Refuses;
    assert op.table in s.tables ==> s.tables[op.table := s.tables[op.table]] == s.tables;
  }

  // ── One record more ──

  lemma MatchingNone(t: Table, filter: Filter)
    ensures MatchingBelow(t, filter, 0) == {}
  {}

  lemma ReachStep(t: Table, filter: Filter, i: nat)
    requires i < |t.order|
    ensures Reach(t, filter, i) == if filter(t.order[i], RowAt(t, i)).None? then i else Reach(t, filter, i + 1)
  {}

  lemma MatchingGrows(t: Table, filter: Filter, i: nat)
    requires Tidy(t) && i < |t.order|
    ensures t.order[i] in t.rows && t.order[i] !in MatchingBelow(t, filter, i)
    ensures RowAt(t, i) == t.rows[t.order[i]]
    ensures MatchingBelow(t, filter, i + 1) == MatchingBelow(t, filter, i)
      + if filter(t.order[i], RowAt(t, i)) == Some(true) then {t.order[i]} else {}
  {}

  /** The store when the loop of an `updateMany` has patched these. */
  ghost function AfterPatch(s: Store, table: string, ids: set<string>, data: Row, clock: string -> string): Store
    requires table in s.tables && ids <= s.tables[table].rows.Keys
  {
    var t := s.tables[table];
    Store(s.tables[table := Patched(t, ids, data, clock)], CachedPatch(s.cache, table, t, ids, data, clock))
  }

  function CachedPatch(cache: Cache, table: string, t: Table, ids: set<string>, data: Row, clock: string -> string)
    : Cache
    requires ids <= t.rows.Keys
  {
    Cached(cache, table, Patched(t, ids, data, clock).rows, ids)
  }

  lemma PatchNone(cache: Cache, table: string, t: Table, data: Row, clock: string -> string)
    ensures Patched(t, {}, data, clock) == t && CachedPatch(cache, table, t, {}, data, clock) == cache
  {
    assert Patched(t, {}, data, clock).rows == t.rows;
  }

  lemma PatchOne(t: Table, ids: set<string>, id: string, data: Row, clock: string -> string)
    requires id in t.rows && id !in ids
    ensures id in Patched(t, ids, data, clock).rows && Patched(t, ids, data, clock).rows[id] == t.rows[id]
    ensures Put(Patched(t, ids, data, clock), id, Updated(t.rows[id], data, clock(id)))
         == Patched(t, ids + {id}, data, clock)
  {
    hide Updated;
  }

  lemma CacheOne(
    cache: Cache, table: string, t: Table, ids: set<string>, id: string, data: Row, clock: string -> string)
    requires id in t.rows && id !in ids && ids <= t.rows.Keys
    ensures CachedPatch(cache, table, t, ids, data, clock)[CacheKey(table, id) := Updated(t.rows[id], data, clock(id))]
         == CachedPatch(cache, table, t, ids + {id}, data, clock)
  {
    hide Updated;
    KeysMore(table, ids, id);
    assert CacheKey(table, id)[|table| + 1..] == id;
    forall k | k in Keys(table, ids + {id})
      ensures k[|table| + 1..] == id <==> k == CacheKey(table, id)
    {
      IdIn(table, ids + {id}, k);
    }
  }

  lemma PatchStep(s: Store, table: string, ids: set<string>, id: string, data: Row, clock: string -> string)
    requires table in s.tables && ids <= s.tables[table].rows.Keys && id in s.tables[table].rows && id !in ids
    ensures var at, next := AfterPatch(s, table, ids, data, clock), AfterPatch(s, table, ids + {id}, data, clock);
            var was := s.tables[table].rows[id];
            var row := Updated(was, data, clock(id));
            && table in at.tables && id in at.tables[table].rows && at.tables[table].rows[id] == was
            && next == Store(at.tables[table := Put(at.tables[table], id, row)], at.cache[CacheKey(table, id) := row])
  {
    hide CachedPatch, Patched, Put, Updated, CacheKey;
    PatchOne(s.tables[table], ids, id, data, clock);
    CacheOne(s.cache, table, s.tables[table], ids, id, data, clock);
  }

  /** The loop starts at the store as it was and stops with the step done. */
  lemma PatchEnds(s: Store, table: string, filter: Filter, data: Row, clock: string -> string)
    requires table in s.tables && AllTidy(s.tables)
    ensures var ids := Matching(s.tables[table], filter);
            && AfterPatch(s, table, {}, data, clock) == s
            && AfterPatch(s, table, ids, data, clock) == ProviderStep(s, UpdateMany(table, filter, data, clock))
            && AllTidy(AfterPatch(s, table, ids, data, clock).tables)
            && MatchingBelow(s.tables[table], filter, Reach(s.tables[table], filter, 0)) == ids
            && Reach(s.tables[table], filter, |s.tables[table].order|) == |s.tables[table].order|
  {
    var t := s.tables[table];
    PatchNone(s.cache, table, t, data, clock);
    assert s.tables[table := t] == s.tables;
    hide Matching, Updated, CacheKey, Cached;
  }

  lemma KeysMore(table: string, ids: set<string>, id: string)
    ensures Keys(table, ids + {id}) == Keys(table, ids) + {CacheKey(table, id)}
  {}

  lemma {:induction false} WithoutMembers(order: seq<string>, ids: set<string>)
    ensures forall id :: id in Without(order, ids) <==> id in order && id !in ids
  {
    if order != [] { WithoutMembers(order[1..], ids); }
  }

  ghost predicate Different(order: seq<string>) { forall i, j :: 0 <= i < j < |order| ==> order[i] != order[j] }

  lemma {:induction false} WithoutDifferent(order: seq<string>, ids: set<string>)
    requires Different(order)
    ensures Different(Without(order, ids))
  {
    if order != [] {
      WithoutDifferent(order[1..], ids);
      WithoutMembers(order[1..], ids);
    }
  }

  lemma RemovedTidy(t: Table, ids: set<string>)
    requires Tidy(t)
    ensures Tidy(Removed(t, ids))
  {
    WithoutMembers(t.order, ids);
    WithoutDifferent(t.order, ids);
  }

  lemma {:induction false} WithoutTwice(order: seq<string>, a: set<string>, b: set<string>)
    ensures Without(Without(order, a), b) == Without(order, a + b)
  {
    if order != [] {
      WithoutTwice(order[1..], a, b);
      var rest := Without(order[1..], a);
      assert order[0] in a + b <==> order[0] in a || order[0] in b;
      if order[0] in a { assert [] + rest == rest; } else { assert ([order[0]] + rest)[1..] == rest; }
    }
  }

  lemma {:induction false} WithoutNone(order: seq<string>)
    ensures Without(order, {}) == order
  {
    if order != [] { WithoutNone(order[1..]); }
  }

  lemma RemovedNone(t: Table)
    ensures Removed(t, {}) == t
  {
    WithoutNone(t.order);
  }

  lemma RemovedMore(t: Table, ids: set<string>, id: string)
    ensures Removed(Removed(t, ids), {id}) == Removed(t, ids + {id})
  {
    WithoutTwice(t.order, ids, {id});
  }

  /** The store when the loop of a `deleteMany` has deleted these. */
  ghost function AfterRemoval(s: Store, table: string, ids: set<string>): Store
    requires table in s.tables
  {
    Store(s.tables[table := Removed(s.tables[table], ids)], s.cache - Keys(table, ids))
  }

  lemma RemovalStep(s: Store, table: string, ids: set<string>, id: string)
    requires table in s.tables
    ensures var at, next := AfterRemoval(s, table, ids), AfterRemoval(s, table, ids + {id});
            && table in at.tables
            && next == Store(at.tables[table := Removed(at.tables[table], {id})], at.cache - {CacheKey(table, id)})
  {
    RemovedMore(s.tables[table], ids, id);
    KeysMore(table, ids, id);
    hide Removed, Keys, CacheKey;
    assert s.cache - Keys(table, ids) - {CacheKey(table, id)} == s.cache - (Keys(table, ids) + {CacheKey(table, id)});
  }

  lemma RemovalEnds(s: Store, table: string, filter: Filter)
    requires table in s.tables && AllTidy(s.tables) && !Refuses(s.tables[table], filter)
    ensures var ids := Matching(s.tables[table], filter);
            && AfterRemoval(s, table, {}) == s
            && AfterRemoval(s, table, ids) == ProviderStep(s, DeleteMany(table, filter))
            && AllTidy(AfterRemoval(s, table, ids).tables)
  {
    var t := s.tables[table];
    RemovedNone(t);
    RemovedTidy(t, Matching(t, filter));
    assert s.tables[table := t] == s.tables && s.cache - {} == s.cache;
    hide Matching, Refuses, Removed, CacheKey, Tidy;
  }

  class MemoryProvider {
    var tables: Tables
    const cache: LruCache

    constructor ()
      ensures Valid() && State() == EMPTY && fresh(cache)
    {
      tables := map[];
      cache := new LruCache();
    }

    ghost function State(): Store
      reads this, cache
    {
      Store(tables, cache.entries)
    }

    ghost predicate Valid()
      reads this
    {
      AllTidy(tables)
    }

    method CreateTable(table: string)
      requires Valid()
      modifies this
      ensures Valid() && State() == ProviderStep(old(State()), StorageCache.CreateTable(table))
    {
      if table !in tables { tables := tables[table := Table([], map[])]; }
    }

    /** A record set in its table and in the cache. */
    method Write(table: string, id: string, row: Row)
      requires table in tables
      modifies this, cache
      ensures tables == old(tables)[table := Put(old(tables)[table], id, row)]
      ensures cache.entries == old(cache.entries)[CacheKey(table, id) := row]
    {
      tables := tables[table := Put(tables[table], id, row)];
      cache.Set(CacheKey(table, id), row);
    }

    /** A record deleted from its table and from the cache. */
    method Erase(table: string, id: string)
      requires table in tables
      modifies this, cache
      ensures tables == old(tables)[table := Removed(old(tables)[table], {id})]
      ensures cache.entries == old(cache.entries) - {CacheKey(table, id)}
    {
      tables := tables[table := Removed(tables[table], {id})];
      var _ := cache.Delete(CacheKey(table, id));
    }

    method Create(table: string, id: string, data: Row, now: string) returns (reply: Reply)
      requires Valid()
      modifies this, cache
      ensures Valid() && State() == ProviderStep(old(State()), StorageCache.Create(table, id, data, now))
      ensures reply == Lookup(tables, table, id)
    {
      if table !in tables { return NoTable; }
      var row := NewRow(data, now);
      PutTidy(tables[table], id, row);
      Write(table, id, row);
      reply := Found(row);
    }

    method FindById(table: string, id: string) returns (reply: Reply)
      requires Valid()
      modifies cache
      ensures State() == ProviderStep(old(State()), StorageCache.FindById(table, id))
      ensures reply == Answer(old(State()), table, id)
    {
      var key := CacheKey(table, id);
      if key in cache.entries { return Found(cache.entries[key]); }
      if table !in tables { return NoTable; }
      if id !in tables[table].rows { return Missing; }
      var row := tables[table].rows[id];
      cache.Set(key, row);
      reply := Found(row);
    }

    /** Refuses when a record makes the filter throw. */
    method Find(table: string, filter: Filter) returns (found: Option<set<string>>)
      requires Valid() && table in tables
      ensures found == if Refuses(tables[table], filter) then None else Some(Matching(tables[table], filter))
    {
      var t := tables[table];
      var ids := {};
      for i := 0 to |t.order|
        invariant Reach(t, filter, 0) == Reach(t, filter, i)
        invariant ids == MatchingBelow(t, filter, i)
      {
        var verdict := filter(t.order[i], t.rows[t.order[i]]);
        if verdict.None? { return None; }
        MatchingGrows(t, filter, i);
        if verdict.value { ids := ids + {t.order[i]}; }
      }
      found := Some(ids);
    }

    method UpdateById(table: string, id: string, data: Row, now: string) returns (reply: Reply)
      requires Valid()
      modifies this, cache
      ensures Valid() && State() == ProviderStep(old(State()), StorageCache.UpdateById(table, id, data, now))
      ensures reply == Lookup(tables, table, id)
      ensures reply.Found? ==>
        HasPatch(Lookup(old(tables), table, id), reply.row, data, now)
    {
      if table !in tables { return NoTable; }
      if id !in tables[table].rows { return Missing; }
      var row := Updated(tables[table].rows[id], data, now);
      PutTidy(tables[table], id, row);
      Write(table, id, row);
      reply := Found(row);
    }

    /** Writes table and cache record by record; what is written before the filter refuses stays. */
    method UpdateMany(table: string, filter: Filter, data: Row, clock: string -> string) returns (r: Counted)
      requires Valid()
      modifies this, cache
      ensures Valid() && State() == ProviderStep(old(State()), StorageCache.UpdateMany(table, filter, data, clock))
      ensures r == CountOf(old(tables), table, filter)
    {
      hide Reach, MatchingBelow, AfterPatch, Put, Updated, CacheKey, ProviderStep, Matching, Tidy, RowAt;
      NothingDone(State(), StorageCache.UpdateMany(table, filter, data, clock));
      if table !in tables { return TableNotFound; }
      ghost var s, were := State(), tables[table];
      PatchEnds(s, table, filter, data, clock);
      MatchingNone(were, filter);
      var order := tables[table].order;
      var count := 0;
      for i := 0 to |order|
        invariant MatchingBelow(were, filter, i) <= were.rows.Keys
        invariant State() == AfterPatch(s, table, MatchingBelow(were, filter, i), data, clock)
        invariant count == |MatchingBelow(were, filter, i)|
        invariant Reach(were, filter, 0) == Reach(were, filter, i)
      {
        var id := order[i];
        MatchingGrows(were, filter, i);
        ReachStep(were, filter, i);
        PatchStep(s, table, MatchingBelow(were, filter, i), id, data, clock);
        var row := tables[table].rows[id];
        var verdict := filter(id, row);
        if verdict.None? { return UnsupportedOperator; }
        if verdict.value {
          var next := Updated(row, data, clock(id));
          Write(table, id, next);
          count := count + 1;
        }
      }
      r := Counted(count);
    }

    method DeleteById(table: string, id: string) returns (deleted: Option<bool>)
      requires Valid()
      modifies this, cache
      ensures Valid() && State() == ProviderStep(old(State()), StorageCache.DeleteById(table, id))
      ensures deleted == Holds(old(tables), table, id)
    {
      if table !in tables { return None; }
      deleted := Some(id in tables[table].rows);
      RemovedTidy(tables[table], {id});
      tables := tables[table := Removed(tables[table], {id})];
      if deleted.value { var _ := cache.Delete(CacheKey(table, id)); }
    }

    /** Collects the ids first; nothing is deleted when the filter refuses a record. */
    method DeleteMany(table: string, filter: Filter) returns (r: Counted)
      requires Valid()
      modifies this, cache
      ensures Valid() && State() == ProviderStep(old(State()), StorageCache.DeleteMany(table, filter))
      ensures r == CountOf(old(tables), table, filter)
    {
      hide Matching, AfterRemoval, Removed, CacheKey, Tidy, ProviderStep, Refuses;
      NothingDone(State(), StorageCache.DeleteMany(table, filter));
      if table !in tables { return TableNotFound; }
      var found := Find(table, filter);
      if found.None? { return UnsupportedOperator; }
      ghost var s, doomed := State(), found.value;
      RemovalEnds(s, table, filter);
      assert doomed - doomed == {};
      var left := found.value;
      while left != {}
        invariant left <= doomed && State() == AfterRemoval(s, table, doomed - left)
        decreases left
      {
        var id :| id in left;
        assert doomed - (left - {id}) == (doomed - left) + {id};
        RemovalStep(s, table, doomed - left, id);
        Erase(table, id);
        left := left - {id};
      }
      assert doomed - {} == doomed;
      r := Counted(|found.value|);
    }

    method Exists(table: string, id: string) returns (answer: Option<bool>)
      ensures answer == SaysExists(State(), table, id)
    {
      if CacheKey(table, id) in cache.entries { return Some(true); }
      if table !in tables { return None; }
      answer := Some(id in tables[table].rows);
    }

    method DropTable(table: string)
      requires Valid()
      modifies this, cache
      ensures Valid() && State() == ProviderStep(old(State()), StorageCache.DropTable(table))
    {
      if table in tables {
        tables := tables - {table};
        var _ := cache.DeleteByPrefix(table + ":");
      }
    }
  }

  // ── What a filter means on tables that were built by the operations ──

  lemma StepTidy(tables: Tables, op: Op)
    requires AllTidy(tables)
    ensures AllTidy(TablesStep(tables, op))
  {
    hide Matching, Refuses, Tidy;
    if op.table in tables {
      var t := tables[op.table];
      if op.Create? { PutTidy(t, op.id, NewRow(op.data, op.now)); }
      if op.UpdateById? && op.id in t.rows { PutTidy(t, op.id, Updated(t.rows[op.id], op.data, op.now)); }
      if op.UpdateMany? { PatchedTidy(t, Matching(t, op.filter), op.data, op.clock); }
      if op.DeleteById? { RemovedTidy(t, {op.id}); }
      if op.DeleteMany? { RemovedTidy(t, Matching(t, op.filter)); }
    } else {
      NewTidy();
    }
  }

  lemma NewTidy()
    ensures Tidy(Table([], map[]))
  {}

  lemma PatchedTidy(t: Table, ids: set<string>, data: Row, clock: string -> string)
    requires Tidy(t)
    ensures Tidy(Patched(t, ids, data, clock))
  {}

  lemma {:induction false} RunTidy(calls: seq<Call>)
    ensures AllTidy(TablesRun(calls))
  {
    hide Tidy, TablesStep;
    if calls != [] {
      RunTidy(calls[..|calls| - 1]);
      if !calls[|calls| - 1].Evict? { StepTidy(TablesRun(calls[..|calls| - 1]), calls[|calls| - 1].op); }
    }
  }

  /** A filter is refused exactly when some record makes it throw, and otherwise reaches all records that match. */
  lemma FilterExactly(calls: seq<Call>, table: string, filter: Filter)
    requires table in TablesRun(calls)
    ensures var t := TablesRun(calls)[table];
            && (Refuses(t, filter) <==> exists id :: id in t.rows && filter(id, t.rows[id]).None?)
            && (!Refuses(t, filter) ==>
                  Matching(t, filter) == set id | id in t.rows && filter(id, t.rows[id]) == Some(true))
  {
    RunTidy(calls);
    hide TablesRun;
    OrderExactly(TablesRun(calls)[table], filter);
  }

  lemma OrderExactly(t: Table, filter: Filter)
    requires Tidy(t)
    ensures Refuses(t, filter) <==> exists id :: id in t.rows && filter(id, t.rows[id]).None?
    ensures !Refuses(t, filter) ==>
              Matching(t, filter) == set id | id in t.rows && filter(id, t.rows[id]) == Some(true)
  {
    var n := Reach(t, filter, 0);
    if n < |t.order| { assert t.order[n] in t.rows; }
    forall id | id in t.rows
      ensures exists i :: 0 <= i < |t.order| && t.order[i] == id && RowAt(t, i) == t.rows[id]
    {
      var i :| 0 <= i < |t.order| && t.order[i] == id;
      assert RowAt(t, i) == t.rows[id];
    }
  }

  // ── The manager ──

  class StorageManager {
    const provider: MemoryProvider

    constructor ()
      ensures fresh(provider) && fresh(provider.cache) && provider.Valid() && provider.State() == EMPTY
    {
      provider := new MemoryProvider();
    }

    /** The cache asked here is the provider's own. */
    method FindById(table: string, id: string) returns (reply: Reply)
      requires provider.Valid()
      modifies provider.cache
      ensures provider.State() == ManagerStep(old(provider.State()), StorageCache.FindById(table, id))
      ensures reply == Answer(old(provider.State()), table, id)
    {
      var key := CacheKey(table, id);
      if key in provider.cache.entries { return Found(provider.cache.entries[key]); }
      reply := provider.FindById(table, id);
      if reply.Found? { provider.cache.Set(key, reply.row); }
    }

    method UpdateById(table: string, id: string, data: Row, now: string) returns (reply: Reply)
      requires provider.Valid()
      modifies provider, provider.cache
      ensures provider.Valid()
      ensures provider.State() == ManagerStep(old(provider.State()), StorageCache.UpdateById(table, id, data, now))
      ensures reply == Lookup(provider.tables, table, id)
      ensures reply.Found? ==> HasPatch(Lookup(old(provider.tables), table, id), reply.row, data, now)
    {
      reply := provider.UpdateById(table, id, data, now);
      if reply.Found? { var _ := provider.cache.Delete(CacheKey(table, id)); }
    }

    /** Drops the cached entries of some records, one by one. */
    method Invalidate(table: string, ids: set<string>)
      modifies provider.cache
      ensures provider.cache.entries == old(provider.cache.entries) - Keys(table, ids)
    {
      var left := ids;
      while left != {}
        invariant left <= ids
        invariant provider.cache.entries == old(provider.cache.entries) - Keys(table, ids - left)
        decreases left
      {
        var id :| id in left;
        assert ids - (left - {id}) == (ids - left) + {id};
        KeysMore(table, ids - left, id);
        var _ := provider.cache.Delete(CacheKey(table, id));
        left := left - {id};
      }
      assert ids - {} == ids;
    }

    /** Looks for what matches after the update, and forgets the whole table if that query is refused. */
    method UpdateMany(table: string, filter: Filter, data: Row, clock: string -> string) returns (r: Counted)
      requires provider.Valid()
      modifies provider, provider.cache
      ensures provider.Valid()
      ensures provider.State()
        == ManagerStep(old(provider.State()), StorageCache.UpdateMany(table, filter, data, clock))
      ensures r == CountOf(old(provider.tables), table, filter)
    {
      hide Matching, Refuses, ProviderCache, Patched, Keys, WithoutPrefix, Tidy;
      r := provider.UpdateMany(table, filter, data, clock);
      if r.Counted? && r.count > 0 {
        var found := provider.Find(table, filter);
        if found.Some? {
          Invalidate(table, found.value);
        } else {
          var _ := provider.cache.DeleteByPrefix(table + ":");
        }
      }
    }

    method DeleteById(table: string, id: string) returns (deleted: Option<bool>)
      requires provider.Valid()
      modifies provider, provider.cache
      ensures provider.Valid()
      ensures provider.State() == ManagerStep(old(provider.State()), StorageCache.DeleteById(table, id))
      ensures deleted == Holds(old(provider.tables), table, id)
    {
      deleted := provider.DeleteById(table, id);
      if deleted == Some(true) { var _ := provider.cache.Delete(CacheKey(table, id)); }
    }

    /** The records to forget are looked up before they are gone; forgetting the whole table instead is never needed. */
    method DeleteMany(table: string, filter: Filter) returns (r: Counted)
      requires provider.Valid()
      modifies provider, provider.cache
      ensures provider.Valid()
      ensures provider.State() == ManagerStep(old(provider.State()), StorageCache.DeleteMany(table, filter))
      ensures r == CountOf(old(provider.tables), table, filter)
    {
      var affected := {};
      if table in provider.tables {
        var found := provider.Find(table, filter);
        if found.Some? { affected := found.value; }
      }
      r := provider.DeleteMany(table, filter);
      if r.Counted? && r.count > 0 {
        assert affected != {};
        Invalidate(table, affected);
      }
    }

    /** The prefix goes even where there was no such table. */
    method DropTable(table: string)
      requires provider.Valid()
      modifies provider, provider.cache
      ensures provider.Valid()
      ensures provider.State() == ManagerStep(old(provider.State()), StorageCache.DropTable(table))
    {
      provider.DropTable(table);
      var _ := provider.cache.DeleteByPrefix(table + ":");
    }
  }
}
