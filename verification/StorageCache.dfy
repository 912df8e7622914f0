/** The storage manager, the memory provider and the cache they share: when `findById` answers what the tables hold. */
module StorageCache {
  import opened Options

  type Row = map<string, string>

  /** None: the filter holds an operator the provider refuses. */
  type Filter = (string, Row) -> Option<bool>

  /** Records by id, and their ids in the order they came. */
  datatype Table = Table(order: seq<string>, rows: map<string, Row>)

  type Tables = map<string, Table>

  type Cache = map<string, Row>

  datatype Store = Store(tables: Tables, cache: Cache)

  function CacheKey(table: string, id: string): string { table + ":" + id }

  // ── Ids ──

  const ID_LENGTH := 36

  predicate IsHex(c: char) { '0' <= c <= '9' || 'a' <= c <= 'f' }

  /** What `randomUUID` returns. */
  predicate IsUuid(id: string) {
    && |id| == ID_LENGTH
    && (forall i :: 0 <= i < ID_LENGTH ==> if i in {8, 13, 18, 23} then id[i] == '-' else IsHex(id[i]))
    && id[14] == '4'
    && id[19] in "89ab"
  }

  const SOME_ID := "00000000-0000-4000-8000-000000000000"

  lemma SomeIdIsUuid()
    ensures IsUuid(SOME_ID)
  {}

  // ── Filters ──

  function RowAt(t: Table, i: nat): Row
    requires i < |t.order|
  {
    if t.order[i] in t.rows then t.rows[t.order[i]] else map[]
  }

  /** The position of the first record, from `i` on, that the filter refuses; the number of records if there is none. */
  function Reach(t: Table, filter: Filter, i: nat): (n: nat)
    requires i <= |t.order|
    ensures i <= n <= |t.order|
    ensures forall j :: i <= j < n ==> filter(t.order[j], RowAt(t, j)).Some?
    ensures n < |t.order| ==> filter(t.order[n], RowAt(t, n)).None?
    decreases |t.order| - i
  {
    if i == |t.order| || filter(t.order[i], RowAt(t, i)).None? then i else Reach(t, filter, i + 1)
  }

  predicate Refuses(t: Table, filter: Filter) { Reach(t, filter, 0) < |t.order| }

  /** The matching records a loop in order comes to before the filter refuses one. */
  function Matching(t: Table, filter: Filter): (ids: set<string>)
    ensures ids <= t.rows.Keys
  {
    MatchingBelow(t, filter, Reach(t, filter, 0))
  }

  function MatchingBelow(t: Table, filter: Filter, n: nat): set<string>
    requires n <= |t.order|
  {
    set i | 0 <= i < n && t.order[i] in t.rows && filter(t.order[i], RowAt(t, i)) == Some(true) :: t.order[i]
  }

  // ── The tables alone ──

  datatype Op =
    | CreateTable(table: string)
    | Create(table: string, id: string, data: Row, now: string)
    | FindById(table: string, id: string)
    | UpdateById(table: string, id: string, data: Row, now: string)
    | UpdateMany(table: string, filter: Filter, data: Row, clock: string -> string)
    | DeleteById(table: string, id: string)
    | DeleteMany(table: string, filter: Filter)
    | DropTable(table: string)

  /** Through the manager, inside a transaction (the provider's own methods), or entries the cache gives up. */
  datatype Call = Managed(op: Op) | Transacted(op: Op) | Evict(keys: set<string>)

  function NewRow(data: Row, now: string): Row { map["createdAt" := now, "updatedAt" := now] + data }

  function Updated(row: Row, data: Row, now: string): Row { row + data + map["updatedAt" := now] }

  function Patched(t: Table, ids: set<string>, data: Row, clock: string -> string): Table {
    t.(rows := map id | id in t.rows :: if id in ids then Updated(t.rows[id], data, clock(id)) else t.rows[id])
  }

  function Without(order: seq<string>, ids: set<string>): seq<string> {
    if order == [] then []
    else (if order[0] in ids then [] else [order[0]]) + Without(order[1..], ids)
  }

  function Removed(t: Table, ids: set<string>): Table { Table(Without(t.order, ids), t.rows - ids) }

  function Put(t: Table, id: string, row: Row): Table {
    Table(if id in t.rows then t.order else t.order + [id], t.rows[id := row])
  }

  /** An operation on a table that exists; an `updateMany` that meets a refused record keeps what it did before. */
  function TableStep(t: Table, op: Op): Table {
    match op
    case Create(_, id, data, now) => Put(t, id, NewRow(data, now))
    case UpdateById(_, id, data, now) => if id in t.rows then Put(t, id, Updated(t.rows[id], data, now)) else t
    case UpdateMany(_, filter, data, clock) => Patched(t, Matching(t, filter), data, clock)
    case DeleteById(_, id) => Removed(t, {id})
    case DeleteMany(_, filter) => if Refuses(t, filter) then t else Removed(t, Matching(t, filter))
    case _ => t
  }

  /** Where the table does not exist the operation throws and nothing changes. */
  function TablesStep(tables: Tables, op: Op): Tables {
    if op.CreateTable? then
      if op.table in tables then tables else tables[op.table := Table([], map[])]
    else if op.table !in tables then tables
    else if op.DropTable? then tables - {op.table}
    else tables[op.table := TableStep(tables[op.table], op)]
  }

  // ── The cache beside them ──

  function Keys(table: string, ids: set<string>): set<string> { set id | id in ids :: CacheKey(table, id) }

  function WithoutPrefix(cache: Cache, prefix: string): Cache {
    map k | k in cache && !(prefix <= k) :: cache[k]
  }

  /** Each of these records written under its key. */
  function Cached(cache: Cache, table: string, rows: map<string, Row>, ids: set<string>): Cache
    requires ids <= rows.Keys
  {
    map k | k in cache.Keys + Keys(table, ids) ::
      if k in Keys(table, ids) then IdIn(table, ids, k); rows[k[|table| + 1..]] else cache[k]
  }

  lemma IdIn(table: string, ids: set<string>, key: string)
    requires key in Keys(table, ids)
    ensures |key| > |table| && key[|table| + 1..] in ids && CacheKey(table, key[|table| + 1..]) == key
  {
    var id :| id in ids && key == CacheKey(table, id);
    assert key[|table| + 1..] == id;
  }

  /** What the provider's own methods do to the cache. */
  function ProviderCache(s: Store, op: Op): Cache {
    if op.CreateTable? || op.table !in s.tables then s.cache
    else
      var before, after := s.tables[op.table], TableStep(s.tables[op.table], op);
      match op
      case Create(table, id, _, _) => s.cache[CacheKey(table, id) := after.rows[id]]
      case FindById(table, id) =>
        if CacheKey(table, id) in s.cache || id !in before.rows then s.cache
        else s.cache[CacheKey(table, id) := before.rows[id]]
      case UpdateById(table, id, _, _) =>
        if id in before.rows then s.cache[CacheKey(table, id) := after.rows[id]] else s.cache
      case UpdateMany(table, filter, _, _) => Cached(s.cache, table, after.rows, Matching(before, filter))
      case DeleteById(table, id) => if id in before.rows then s.cache - {CacheKey(table, id)} else s.cache
      case DeleteMany(table, filter) =>
        if Refuses(before, filter) then s.cache else s.cache - Keys(table, Matching(before, filter))
      case DropTable(table) => WithoutPrefix(s.cache, table + ":")
  }

  function ProviderStep(s: Store, op: Op): Store { Store(TablesStep(s.tables, op), ProviderCache(s, op)) }

  /** What the manager forgets after the provider is done. */
  function ManagerCache(s: Store, op: Op): Cache {
    var next := ProviderStep(s, op);
    if op.DropTable? then WithoutPrefix(next.cache, op.table + ":")
    else if op.CreateTable? || op.table !in s.tables then next.cache
    else
      var before, after := s.tables[op.table], next.tables[op.table];
      match op
      case UpdateById(table, id, _, _) =>
        if id in before.rows then next.cache - {CacheKey(table, id)} else next.cache
      case UpdateMany(table, filter, _, _) =>
        if Refuses(before, filter) || Matching(before, filter) == {} then next.cache
        else if Refuses(after, filter) then WithoutPrefix(next.cache, table + ":")
        else next.cache - Keys(table, Matching(after, filter))
      case DeleteById(table, id) => if id in before.rows then next.cache - {CacheKey(table, id)} else next.cache
      case DeleteMany(table, filter) =>
        if Refuses(before, filter) then next.cache else next.cache - Keys(table, Matching(before, filter))
      case _ => next.cache
  }

  function ManagerStep(s: Store, op: Op): Store { Store(TablesStep(s.tables, op), ManagerCache(s, op)) }

  function Step(s: Store, call: Call): Store {
    match call
    case Managed(op) => ManagerStep(s, op)
    case Transacted(op) => ProviderStep(s, op)
    case Evict(keys) => s.(cache := s.cache - keys)
  }

  // ── Answers ──

  datatype Reply = NoTable | Missing | Found(row: Row)

  /** What the tables hold. */
  function Lookup(tables: Tables, table: string, id: string): Reply {
    if table !in tables then NoTable
    else if id in tables[table].rows then Found(tables[table].rows[id])
    else Missing
  }

  /** What `findById` answers. */
  function Answer(s: Store, table: string, id: string): Reply {
    if CacheKey(table, id) in s.cache then Found(s.cache[CacheKey(table, id)]) else Lookup(s.tables, table, id)
  }

  /** What `exists` answers, None where it throws. */
  function SaysExists(s: Store, table: string, id: string): Option<bool> {
    if CacheKey(table, id) in s.cache then Some(true)
    else if table in s.tables then Some(id in s.tables[table].rows)
    else None
  }

  function Holds(tables: Tables, table: string, id: string): Option<bool> {
    if table in tables then Some(id in tables[table].rows) else None
  }

  // ── What every call keeps ──

  /** Ids are generated ones, and `order` lists each of them once. */
  ghost predicate Tidy(t: Table) {
    && (forall id :: id in t.rows <==> id in t.order)
    && (forall i, j :: 0 <= i < j < |t.order| ==> t.order[i] != t.order[j])
  }

  ghost predicate Generated(tables: Tables) {
    forall table, id :: table in tables && id in tables[table].rows ==> IsUuid(id)
  }

  /** A cache key read back as a table and a generated id. */
  predicate HasParts(key: string) { |key| > ID_LENGTH && key[|key| - ID_LENGTH - 1] == ':' }

  function TableOf(key: string): string
    requires HasParts(key)
  {
    key[..|key| - ID_LENGTH - 1]
  }

  function IdOf(key: string): string
    requires HasParts(key)
  {
    key[|key| - ID_LENGTH..]
  }

  /** A generated id has one length, so a colon in a table's name does no harm here. */
  lemma PartsOfKey(table: string, id: string)
    requires |id| == ID_LENGTH
    ensures HasParts(CacheKey(table, id)) && TableOf(CacheKey(table, id)) == table && IdOf(CacheKey(table, id)) == id
  {}

  lemma KeyParts(table: string, id: string, key: string)
    requires |id| == ID_LENGTH && HasParts(key)
    ensures HasParts(CacheKey(table, id))
    ensures key == CacheKey(table, id) <==> TableOf(key) == table && IdOf(key) == id
  {
    PartsOfKey(table, id);
    KeyOfParts(key);
  }

  lemma KeyOfParts(key: string)
    requires HasParts(key)
    ensures CacheKey(TableOf(key), IdOf(key)) == key
  {}

  /** Every cached entry is a record that its table still holds, as it is there. */
  ghost predicate Sound(s: Store) {
    && Generated(s.tables)
    && forall k :: k in s.cache ==> HasParts(k) && Lookup(s.tables, TableOf(k), IdOf(k)) == Found(s.cache[k])
  }

  predicate ValidOp(op: Op) { op.Create? ==> IsUuid(op.id) }

  predicate ValidCall(call: Call) { call.Evict? || ValidOp(call.op) }

  lemma KeyIn(table: string, ids: set<string>, key: string)
    requires HasParts(key) && forall id :: id in ids ==> IsUuid(id)
    ensures key in Keys(table, ids) <==> TableOf(key) == table && IdOf(key) in ids
  {
    KeyOfParts(key);
    forall id | id in ids
      ensures TableOf(CacheKey(table, id)) == table && IdOf(CacheKey(table, id)) == id
    {
      PartsOfKey(table, id);
    }
  }

  lemma GeneratedStep(tables: Tables, op: Op)
    requires Generated(tables) && ValidOp(op)
    ensures Generated(TablesStep(tables, op))
  {
    hide IsUuid, Matching;
  }

  /** A write of one generated id is the write of its key. */
  lemma OneKept(s: Store, op: Op, k: string)
    requires Sound(s) && ValidOp(op) && (op.Create? || op.FindById? || op.UpdateById? || op.DeleteById?)
    requires op.table in s.tables && k in ProviderCache(s, op)
    ensures HasParts(k)
    ensures Lookup(TablesStep(s.tables, op), TableOf(k), IdOf(k)) == Found(ProviderCache(s, op)[k])
  {
    hide IsUuid, NewRow, Updated;
    if op.Create? || op.id in s.tables[op.table].rows {
      UuidLength(op.id);
      PartsOfKey(op.table, op.id);
      if k in s.cache { KeyParts(op.table, op.id, k); }
    }
  }

  lemma UuidLength(id: string)
    requires IsUuid(id)
    ensures |id| == ID_LENGTH
  {}

  lemma PatchKept(s: Store, op: Op, k: string)
    requires Sound(s) && op.UpdateMany? && op.table in s.tables && k in ProviderCache(s, op)
    ensures HasParts(k)
    ensures Lookup(TablesStep(s.tables, op), TableOf(k), IdOf(k)) == Found(ProviderCache(s, op)[k])
  {
    hide IsUuid, Matching, Updated;
    var before := s.tables[op.table];
    var ids := Matching(before, op.filter);
    if k in Keys(op.table, ids) {
      IdIn(op.table, ids, k);
      UuidLength(k[|op.table| + 1..]);
      PartsOfKey(op.table, k[|op.table| + 1..]);
    } else {
      KeyIn(op.table, ids, k);
    }
  }

  lemma RestKept(s: Store, op: Op, k: string)
    requires Sound(s) && (op.DeleteMany? || op.DropTable?) && op.table in s.tables && k in ProviderCache(s, op)
    ensures HasParts(k)
    ensures Lookup(TablesStep(s.tables, op), TableOf(k), IdOf(k)) == Found(ProviderCache(s, op)[k])
  {
    hide IsUuid, Matching, Refuses;
    KeyOfParts(k);
    if op.DeleteMany? { KeyIn(op.table, Matching(s.tables[op.table], op.filter), k); }
  }

  /** No method of the provider lets the cache and the tables come apart. */
  lemma ProviderKeeps(s: Store, op: Op)
    requires Sound(s) && ValidOp(op)
    ensures Sound(ProviderStep(s, op))
  {
    GeneratedStep(s.tables, op);
    hide ProviderCache, TablesStep, Lookup;
    forall k | k in ProviderCache(s, op)
      ensures HasParts(k)
      ensures Lookup(TablesStep(s.tables, op), TableOf(k), IdOf(k)) == Found(ProviderCache(s, op)[k])
    {
      if op.CreateTable? || op.table !in s.tables {
        NoneKept(s, op, k);
      } else if op.UpdateMany? {
        PatchKept(s, op, k);
      } else if op.DeleteMany? || op.DropTable? {
        RestKept(s, op, k);
      } else {
        OneKept(s, op, k);
      }
    }
  }

  lemma NoneKept(s: Store, op: Op, k: string)
    requires Sound(s) && (op.CreateTable? || op.table !in s.tables) && k in ProviderCache(s, op)
    ensures HasParts(k)
    ensures Lookup(TablesStep(s.tables, op), TableOf(k), IdOf(k)) == Found(ProviderCache(s, op)[k])
  {}

  /** What the manager forgets on top can do no harm. */
  lemma ManagerForgets(s: Store, op: Op)
    ensures forall k :: k in ManagerCache(s, op) ==>
      k in ProviderCache(s, op) && ManagerCache(s, op)[k] == ProviderCache(s, op)[k]
  {
    hide ProviderCache, TablesStep, Matching, Refuses, Keys;
  }

  lemma StepKeeps(s: Store, call: Call)
    requires Sound(s) && ValidCall(call)
    ensures Sound(Step(s, call))
  {
    hide ProviderCache, ManagerCache, TablesStep, Lookup, Generated, ValidOp, HasParts;
    if !call.Evict? {
      ProviderKeeps(s, call.op);
      ManagerForgets(s, call.op);
    }
  }

  /** In a sound state an answer is wrong exactly when the id is none and its key is cached all the same. */
  lemma WrongExactly(s: Store, table: string, id: string)
    requires Sound(s)
    ensures Answer(s, table, id) == Lookup(s.tables, table, id) <==>
      (CacheKey(table, id) in s.cache ==> |id| == ID_LENGTH)
    ensures SaysExists(s, table, id) == Holds(s.tables, table, id)
       <==> (CacheKey(table, id) in s.cache ==> |id| == ID_LENGTH)
  {
    hide IsUuid;
    if |id| == ID_LENGTH { PartsOfKey(table, id); }
    if table in s.tables && id in s.tables[table].rows { UuidLength(id); }
  }

  // ── Runs ──

  const EMPTY := Store(map[], map[])

  function Run(calls: seq<Call>): Store {
    if calls == [] then EMPTY else Step(Run(calls[..|calls| - 1]), calls[|calls| - 1])
  }

  /** The tables after the same calls, had there never been a cache. */
  function TablesRun(calls: seq<Call>): Tables {
    if calls == [] then map[]
    else
      var before := TablesRun(calls[..|calls| - 1]);
      var call := calls[|calls| - 1];
      if call.Evict? then before else TablesStep(before, call.op)
  }

  predicate ValidCalls(calls: seq<Call>) { forall i :: 0 <= i < |calls| ==> ValidCall(calls[i]) }

  lemma {:induction false} RunSound(calls: seq<Call>)
    requires ValidCalls(calls)
    ensures Sound(Run(calls)) && Run(calls).tables == TablesRun(calls)
  {
    if calls != [] {
      RunSound(calls[..|calls| - 1]);
      StepKeeps(Run(calls[..|calls| - 1]), calls[|calls| - 1]);
      hide Sound, TablesStep, ProviderCache, ManagerCache, ValidCall;
    }
  }

  /** After any calls at all, a generated id is answered as the tables alone would, whatever the tables are called. */
  lemma AnswersAsTables(calls: seq<Call>, table: string, id: string)
    requires ValidCalls(calls) && |id| == ID_LENGTH
    ensures Answer(Run(calls), table, id) == Lookup(TablesRun(calls), table, id)
    ensures SaysExists(Run(calls), table, id) == Holds(TablesRun(calls), table, id)
  {
    hide Run, TablesRun, Lookup, Answer, SaysExists, Sound, ValidCalls;
    RunSound(calls);
    WrongExactly(Run(calls), table, id);
  }

  // ── Other ids ──

  predicate EndsInUuid(id: string) { HasParts(id) && IsUuid(IdOf(id)) }

  ghost predicate AlwaysRight(table: string, id: string) {
    forall calls :: ValidCalls(calls) ==> Answer(Run(calls), table, id) == Lookup(TablesRun(calls), table, id)
  }

  function TwoCalls(table: string, id: string): seq<Call> {
    [Managed(CreateTable(table)), Managed(Create(table, id, map[], "now"))]
  }

  /** A record just created is in its table and in the cache. */
  lemma Created(table: string, id: string)
    requires IsUuid(id)
    ensures ValidCalls(TwoCalls(table, id))
    ensures Run(TwoCalls(table, id)).cache.Keys == {CacheKey(table, id)}
    ensures TablesRun(TwoCalls(table, id)).Keys == {table} && TablesRun(TwoCalls(table, id))[table].rows.Keys == {id}
  {
    hide IsUuid, CacheKey;
    var calls := TwoCalls(table, id);
    assert calls[..1] == [calls[0]] && calls[..1][..0] == [];
    assert Run(calls[..1]) == Step(EMPTY, calls[0]) && TablesRun(calls[..1]) == TablesStep(map[], calls[0].op);
  }

  /** The record of one table is answered for an id of another that holds none. */
  lemma Astray(other: string, own: string, table: string, id: string)
    requires IsUuid(own) && CacheKey(other, own) == CacheKey(table, id) && other != table
    ensures var calls := TwoCalls(other, own);
            Answer(Run(calls), table, id).Found? && Lookup(TablesRun(calls), table, id) == NoTable
  {
    hide IsUuid, Run, TablesRun;
    Created(other, own);
  }

  lemma NoColon(key: string)
    requires HasParts(key) && IsUuid(IdOf(key))
    ensures forall i :: |key| - ID_LENGTH <= i < |key| ==> key[i] != ':'
  {
    forall i | |key| - ID_LENGTH <= i < |key|
      ensures key[i] != ':'
    {
      assert key[i] == IdOf(key)[i - (|key| - ID_LENGTH)];
    }
  }

  /** A cached key ends in a generated id, so what is looked up under it is one or ends in one. */
  lemma CachedIds(s: Store, table: string, id: string)
    requires Sound(s) && CacheKey(table, id) in s.cache
    ensures |id| == ID_LENGTH || EndsInUuid(id)
  {
    var key := CacheKey(table, id);
    assert IsUuid(IdOf(key));
    hide IsUuid;
    NoColon(key);
    assert key[|table|] == ':';
    if |id| > ID_LENGTH {
      assert IdOf(id) == IdOf(key);
      assert id[|id| - ID_LENGTH - 1] == key[|key| - ID_LENGTH - 1];
    }
  }

  /** An id looked up is answered rightly after all calls exactly when it does not end in a colon and a generated id. */
  lemma AlwaysRightExactly(table: string, id: string)
    ensures AlwaysRight(table, id) <==> !EndsInUuid(id)
  {
    hide Run, TablesRun, Answer, Lookup, IsUuid;
    if EndsInUuid(id) {
      var other := table + ":" + TableOf(id);
      assert CacheKey(other, IdOf(id)) == CacheKey(table, id) by { KeyOfParts(id); }
      Created(other, IdOf(id));
      Astray(other, IdOf(id), table, id);
    } else {
      forall calls | ValidCalls(calls)
        ensures Answer(Run(calls), table, id) == Lookup(TablesRun(calls), table, id)
      {
        RunSound(calls);
        if CacheKey(table, id) in Run(calls).cache { CachedIds(Run(calls), table, id); }
        WrongExactly(Run(calls), table, id);
      }
    }
  }

  /** The colon in practice: a record of table `t:x` is answered for an id of table `t`, which has no records. */
  lemma ColonsCollide()
    ensures var calls := [Managed(CreateTable("t"))] + TwoCalls("t:x", SOME_ID);
            && ValidCalls(calls)
            && Answer(Run(calls), "t", "x:" + SOME_ID).Found?
            && Lookup(TablesRun(calls), "t", "x:" + SOME_ID) == Missing
  {
    var calls := [Managed(CreateTable("t"))] + TwoCalls("t:x", SOME_ID);
    assert CacheKey("t:x", SOME_ID) == CacheKey("t", "x:" + SOME_ID);
    SomeIdIsUuid();
    hide IsUuid, CacheKey;
    assert calls[..2][..1] == calls[..1] == [calls[0]] && calls[..1][..0] == [];
    assert Run(calls[..1]) == Step(EMPTY, calls[0]) && TablesRun(calls[..1]) == TablesStep(map[], calls[0].op);
    assert Run(calls[..2]) == Step(Run(calls[..1]), calls[1]);
    assert TablesRun(calls[..2]) == TablesStep(TablesRun(calls[..1]), calls[1].op);
  }

  // ── Which tables can be mixed up ──

  /** One table's key prefix begins the other's. */
  predicate Nested(t: string, u: string) { t + ":" <= u + ":" || u + ":" <= t + ":" }

  /** Tables no two of which are nested. */
  ghost predicate Apart(tables: set<string>) {
    forall t, u :: t in tables && u in tables && t != u ==> !Nested(t, u)
  }

  lemma OneBeginsOther(x: string, y: string, z: string)
    requires x <= z && y <= z
    ensures x <= y || y <= x
  {
    if |x| <= |y| { assert y[..|x|] == z[..|x|] == x; } else { assert x[..|y|] == z[..|y|] == y; }
  }

  predicate OnTables(tables: set<string>, calls: seq<Call>) {
    forall i :: 0 <= i < |calls| && !calls[i].Evict? ==> calls[i].op.table in tables
  }

  lemma {:induction false} TablesAmong(tables: set<string>, calls: seq<Call>)
    requires OnTables(tables, calls)
    ensures TablesRun(calls).Keys <= tables
  {
    hide TableStep;
    if calls != [] { TablesAmong(tables, calls[..|calls| - 1]); }
  }

  /** Every id of every one of the tables is answered rightly, as long as nothing else is done to other tables. */
  ghost predicate SafeTogether(tables: set<string>) {
    forall calls, table, id :: ValidCalls(calls) && OnTables(tables, calls) && table in tables ==>
      Answer(Run(calls), table, id) == Lookup(TablesRun(calls), table, id)
  }

  lemma ApartIsRight(tables: set<string>, calls: seq<Call>, table: string, id: string)
    requires Apart(tables) && ValidCalls(calls) && OnTables(tables, calls) && table in tables
    ensures Answer(Run(calls), table, id) == Lookup(TablesRun(calls), table, id)
  {
    hide Run, TablesRun, Answer, ValidCalls, OnTables, IsUuid;
    RunSound(calls);
    TablesAmong(tables, calls);
    var key := CacheKey(table, id);
    if key in Run(calls).cache {
      var other := TableOf(key);
      KeyOfParts(key);
      OneBeginsOther(table + ":", other + ":", key);
      assert table == other;
    }
    WrongExactly(Run(calls), table, id);
  }

  lemma NestedIsWrong(tables: set<string>, t: string, u: string)
    requires t in tables && u in tables && t != u && t + ":" <= u + ":"
    ensures !SafeTogether(tables)
  {
    SomeIdIsUuid();
    hide IsUuid, Run, TablesRun, Answer, Lookup;
    var id := (u + ":")[|t| + 1..] + SOME_ID;
    assert CacheKey(t, id) == CacheKey(u, SOME_ID);
    var calls := TwoCalls(u, SOME_ID);
    Created(u, SOME_ID);
    Astray(u, SOME_ID, t, id);
    assert OnTables(tables, calls);
  }

  /** Over a set of tables every answer after all calls is right exactly when no two of them are nested. */
  lemma TablesAreSafeExactly(tables: set<string>)
    ensures SafeTogether(tables) <==> Apart(tables)
  {
    if Apart(tables) {
      hide ValidCalls, OnTables, Answer, Run, TablesRun, Nested, Lookup;
      forall calls, table, id | ValidCalls(calls) && OnTables(tables, calls) && table in tables
        ensures Answer(Run(calls), table, id) == Lookup(TablesRun(calls), table, id)
      {
        ApartIsRight(tables, calls, table, id);
      }
    } else {
      var t, u :| t in tables && u in tables && t != u && Nested(t, u);
      if t + ":" <= u + ":" { NestedIsWrong(tables, t, u); } else { NestedIsWrong(tables, u, t); }
    }
  }
}
