/** What each storage operation leaves in the tables, record by record and field by field. */
module StorageEffects {
  import opened Options
  import opened StorageCache
  import opened StorageService

  /** One field of one record, None where there is none. */
  function Field(tables: Tables, table: string, id: string, f: string): Option<string> {
    if table in tables && id in tables[table].rows && f in tables[table].rows[id]
    then Some(tables[table].rows[id][f])
    else None
  }

  predicate IsThere(tables: Tables, table: string, id: string) { table in tables && id in tables[table].rows }

  /** Everywhere but in these records of this table nothing has changed. */
  ghost predicate OthersSame(before: Tables, after: Tables, table: string, ids: set<string>) {
    && before.Keys == after.Keys
    && (forall t :: t in before && t != table ==> after[t] == before[t])
    && (forall id :: id !in ids ==> Lookup(after, table, id) == Lookup(before, table, id))
  }

  /** The record has the patch's values, a new `updatedAt`, and for the rest what it had. */
  ghost predicate PatchedRecord(before: Tables, after: Tables, table: string, id: string, data: Row, now: string) {
    && IsThere(after, table, id)
    && Field(after, table, id, "updatedAt") == Some(now)
    && (forall f :: f in data && f != "updatedAt" ==> Field(after, table, id, f) == Some(data[f]))
    && (forall f :: f !in data && f != "updatedAt" ==> Field(after, table, id, f) == Field(before, table, id, f))
  }

  lemma RunThen(calls: seq<Call>, call: Call)
    requires !call.Evict?
    ensures TablesRun(calls + [call]) == TablesStep(TablesRun(calls), call.op)
  {
    assert (calls + [call])[..|calls|] == calls;
    hide TablesStep;
  }

  /** A created record has the values given and the time of its creation wherever none was given. */
  lemma CreateWrites(calls: seq<Call>, call: Call)
    requires !call.Evict? && call.op.Create? && call.op.table in TablesRun(calls)
    ensures var op := call.op;
            var before, after := TablesRun(calls), TablesRun(calls + [call]);
            && OthersSame(before, after, op.table, {op.id})
            && IsThere(after, op.table, op.id)
            && (forall f :: f in op.data ==> Field(after, op.table, op.id, f) == Some(op.data[f]))
            && (forall f :: f !in op.data ==>
                  Field(after, op.table, op.id, f) == if f in ["createdAt", "updatedAt"] then Some(op.now) else None)
  {
    RunThen(calls, call);
    hide TablesRun;
  }

  lemma UpdateWrites(calls: seq<Call>, call: Call)
    requires !call.Evict? && call.op.UpdateById?
    ensures var op := call.op;
            var before, after := TablesRun(calls), TablesRun(calls + [call]);
            && OthersSame(before, after, op.table, {op.id})
            && (IsThere(before, op.table, op.id) ==> PatchedRecord(before, after, op.table, op.id, op.data, op.now))
            && (!IsThere(before, op.table, op.id) ==> after == before)
  {
    RunThen(calls, call);
    hide TablesRun;
    var before, op := TablesRun(calls), call.op;
    assert op.table in before ==> before[op.table := before[op.table]] == before;
  }

  /**
   * An `updateMany` patches exactly the records that match, if no record makes the filter throw; otherwise
   * some of those that match, each of them whole, and no other.
   */
  lemma UpdateManyWrites(calls: seq<Call>, call: Call) returns (ids: set<string>)
    requires !call.Evict? && call.op.UpdateMany? && call.op.table in TablesRun(calls)
    ensures var op := call.op;
            var before, after := TablesRun(calls), TablesRun(calls + [call]);
            var rows := before[op.table].rows;
            && OthersSame(before, after, op.table, ids)
            && (forall id :: id in ids ==>
                  id in rows && op.filter(id, rows[id]) == Some(true)
                  && PatchedRecord(before, after, op.table, id, op.data, op.clock(id)))
            && ((forall id :: id in rows ==> op.filter(id, rows[id]).Some?) ==>
                  forall id :: id in rows && op.filter(id, rows[id]) == Some(true) ==> id in ids)
  {
    hide TablesRun, Matching, Refuses, PatchedRecord, OthersSame;
    var op := call.op;
    ids := Matching(TablesRun(calls)[op.table], op.filter);
    RunThen(calls, call);
    FilterExactly(calls, op.table, op.filter);
    MatchingMatches(calls, op.table, op.filter);
    ManyPatched(TablesRun(calls), op);
  }

  lemma ManyPatched(tables: Tables, op: Op)
    requires op.UpdateMany? && op.table in tables
    ensures var after, ids := TablesStep(tables, op), Matching(tables[op.table], op.filter);
            && OthersSame(tables, after, op.table, ids)
            && forall id :: id in ids ==> PatchedRecord(tables, after, op.table, id, op.data, op.clock(id))
  {
    hide Matching, Updated;
    var after, t := TablesStep(tables, op), tables[op.table];
    forall id | id in Matching(t, op.filter)
      ensures PatchedRecord(tables, after, op.table, id, op.data, op.clock(id))
    {
      PatchHolds(t.rows[id], op.data, op.clock(id));
      assert after[op.table].rows[id] == Updated(t.rows[id], op.data, op.clock(id));
    }
  }

  lemma PatchHolds(row: Row, data: Row, now: string)
    ensures var next := Updated(row, data, now);
            && "updatedAt" in next && next["updatedAt"] == now
            && (forall f :: f in data && f != "updatedAt" ==> f in next && next[f] == data[f])
            && (forall f :: f !in data && f != "updatedAt" ==>
                  (f in next <==> f in row) && (f in row ==> next[f] == row[f]))
  {}

  lemma MatchingMatches(calls: seq<Call>, table: string, filter: Filter)
    requires table in TablesRun(calls)
    ensures var t := TablesRun(calls)[table];
            forall id :: id in Matching(t, filter) ==> id in t.rows && filter(id, t.rows[id]) == Some(true)
  {
    RunTidy(calls);
    hide TablesRun, Reach;
  }

  lemma DeleteRemoves(calls: seq<Call>, call: Call)
    requires !call.Evict? && call.op.DeleteById?
    ensures var op := call.op;
            var before, after := TablesRun(calls), TablesRun(calls + [call]);
            && OthersSame(before, after, op.table, {op.id})
            && !IsThere(after, op.table, op.id)
  {
    RunThen(calls, call);
    hide TablesRun;
  }

  /** A `deleteMany` removes exactly the records that match, or none if one makes the filter throw. */
  lemma DeleteManyRemoves(calls: seq<Call>, call: Call)
    requires !call.Evict? && call.op.DeleteMany? && call.op.table in TablesRun(calls)
    ensures var op := call.op;
            var before, after := TablesRun(calls), TablesRun(calls + [call]);
            var rows := before[op.table].rows;
            var matching := set id | id in rows && op.filter(id, rows[id]) == Some(true);
            if exists id :: id in rows && op.filter(id, rows[id]).None?
            then after == before
            else OthersSame(before, after, op.table, matching) && after[op.table].rows == rows - matching
  {
    hide TablesRun;
    RunThen(calls, call);
    var op := call.op;
    FilterExactly(calls, op.table, op.filter);
    hide Matching, Refuses;
    var before := TablesRun(calls);
    assert before[op.table := before[op.table]] == before;
  }

  /** Tables come empty, stay as they are when created again, and go whole. */
  lemma TablesComeAndGo(calls: seq<Call>, call: Call)
    requires !call.Evict? && (call.op.CreateTable? || call.op.DropTable?)
    ensures var op := call.op;
            var before, after := TablesRun(calls), TablesRun(calls + [call]);
            && (forall t :: t in before && t != op.table ==> t in after && after[t] == before[t])
            && (op.DropTable? ==> after.Keys == before.Keys - {op.table})
            && (op.CreateTable? ==> after.Keys == before.Keys + {op.table})
            && (op.CreateTable? ==>
                  forall id :: Lookup(after, op.table, id) ==
                    if op.table in before then Lookup(before, op.table, id) else Missing)
  {
    RunThen(calls, call);
    hide TablesRun;
  }

  /** Reading changes nothing, and where a table is missing nothing is changed by anything but its creation. */
  lemma NothingElseWrites(calls: seq<Call>, call: Call)
    requires call.Evict? || call.op.FindById? || (call.op.table !in TablesRun(calls) && !call.op.CreateTable?)
    ensures TablesRun(calls + [call]) == TablesRun(calls)
  {
    assert (calls + [call])[..|calls|] == calls;
    if !call.Evict? {
      RunThen(calls, call);
      hide TablesRun;
      var before, op := TablesRun(calls), call.op;
      assert op.table in before ==> before[op.table := before[op.table]] == before;
    }
  }

  // ── What is cached ──

  /** A record read or written by the provider is cached from then on, one that is deleted no longer. */
  lemma ProviderKeysExactly(s: Store, op: Op)
    requires !op.CreateTable? && op.table in s.tables
    ensures var rows, keys := s.tables[op.table].rows, ProviderCache(s, op).Keys;
            match op
            case Create(table, id, _, _) => keys == s.cache.Keys + {table + ":" + id}
            case FindById(table, id) => keys == s.cache.Keys + (if id in rows then {table + ":" + id} else {})
            case UpdateById(table, id, _, _) => keys == s.cache.Keys + (if id in rows then {table + ":" + id} else {})
            case DeleteById(table, id) => keys == s.cache.Keys - (if id in rows then {table + ":" + id} else {})
            case DropTable(table) => keys == set k | k in s.cache && !(table + ":" <= k)
            case _ => true
  {
    hide Matching, Refuses, NewRow, Updated;
  }

  /** The manager lets go of what it changed, and of nothing it only read. */
  lemma ManagerKeysExactly(s: Store, op: Op)
    requires !op.CreateTable? && op.table in s.tables
    ensures var rows, keys := s.tables[op.table].rows, ManagerCache(s, op).Keys;
            match op
            case Create(table, id, _, _) => keys == s.cache.Keys + {table + ":" + id}
            case FindById(table, id) => keys == s.cache.Keys + (if id in rows then {table + ":" + id} else {})
            case UpdateById(table, id, _, _) => keys == s.cache.Keys - (if id in rows then {table + ":" + id} else {})
            case DeleteById(table, id) => keys == s.cache.Keys - (if id in rows then {table + ":" + id} else {})
            case DropTable(table) => keys == set k | k in s.cache && !(table + ":" <= k)
            case _ => true
  {
    ProviderKeysExactly(s, op);
    hide Matching, Refuses, NewRow, Updated, ProviderCache;
  }

  function KeysOf(table: string, ids: set<string>): set<string> { set id | id in ids :: table + ":" + id }

  /** Deletions by filter forget what they deleted; a refused one forgets nothing. */
  lemma DeleteManyForgets(s: Store, op: Op)
    requires op.DeleteMany? && op.table in s.tables
    ensures var t := s.tables[op.table];
            ManagerCache(s, op).Keys == s.cache.Keys -
              (if Refuses(t, op.filter) then {} else KeysOf(op.table, Matching(t, op.filter)))
  {
    hide Matching, Refuses;
  }

  /**
   * An update by filter leaves cached what it wrote and does not match any more, forgets what still matches,
   * and forgets the whole table if looking for that is refused. Refused itself, it leaves cached what it wrote.
   */
  lemma UpdateManyForgets(s: Store, op: Op)
    requires op.UpdateMany? && op.table in s.tables
    ensures var before, after := s.tables[op.table], TableStep(s.tables[op.table], op);
            var written := s.cache.Keys + KeysOf(op.table, Matching(before, op.filter));
            ManagerCache(s, op).Keys ==
              if Refuses(before, op.filter) || Matching(before, op.filter) == {} then written
              else if Refuses(after, op.filter) then set k | k in written && !(op.table + ":" <= k)
              else written - KeysOf(op.table, Matching(after, op.filter))
  {
    hide Matching, Refuses;
  }
}
