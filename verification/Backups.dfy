/** Memorystore backup collections, and the aggregates recomputed from the backups they hold. */
module Backups {
  import opened Options
  import opened Text
  import opened StringOrder

  /** Sizes are decimal text, empty for none; times are ISO text, whose order is that of the times. */
  datatype Backup = Backup(collection: string, size: string, createdAt: string)

  datatype Collection = Collection(count: nat, size: string, last: Option<string>)

  type BackupTable = map<string, Backup>

  datatype State = State(collections: map<string, Collection>, backups: BackupTable)

  predicate SizeOk(size: string) { size == "" || IsInteger(size) }

  /** `BigInt(size || '0')`. */
  function Bytes(size: string): int
    requires SizeOk(size)
  {
    if size == "" then 0 else ToInt(size)
  }

  /** A size is a printed number, or nothing for zero. */
  lemma SizesRead(n: int)
    ensures SizeOk(FromInt(n)) && Bytes(FromInt(n)) == n
    ensures SizeOk("") && Bytes("") == 0
  {
    ToIntFromInt(n);
    assert FromInt(n) != "";
  }

  ghost predicate SizesOk(backups: BackupTable) { forall n :: n in backups ==> SizeOk(backups[n].size) }

  function Held(backups: BackupTable, collection: string): set<string> {
    set n | n in backups && backups[n].collection == collection
  }

  // ── Aggregates ──

  ghost function Total(backups: BackupTable, names: set<string>): int
    requires SizesOk(backups) && names <= backups.Keys
    decreases |names|
  {
    if names == {} then 0
    else
      var n :| n in names;
      Bytes(backups[n].size) + Total(backups, names - {n})
  }

  lemma {:induction false} TotalWithout(backups: BackupTable, names: set<string>, x: string)
    requires SizesOk(backups) && names <= backups.Keys && x in names
    ensures Total(backups, names) == Bytes(backups[x].size) + Total(backups, names - {x})
    decreases |names|
  {
    hide SizeOk, Bytes;
    var n :| n in names && Total(backups, names) == Bytes(backups[n].size) + Total(backups, names - {n});
    if n != x {
      TotalWithout(backups, names - {n}, x);
      TotalWithout(backups, names - {x}, n);
      assert names - {n} - {x} == names - {x} - {n};
    }
  }

  /** The latest creation time, or none. */
  ghost predicate IsLatest(backups: BackupTable, names: set<string>, last: Option<string>)
    requires names <= backups.Keys
  {
    if names == {} then last.None?
    else
      && last.Some?
      && (exists n :: n in names && backups[n].createdAt == last.value)
      && forall n :: n in names ==> Before(backups[n].createdAt, last.value)
  }

  ghost predicate Agrees(s: State, name: string)
    requires SizesOk(s.backups) && name in s.collections
  {
    var held, c := Held(s.backups, name), s.collections[name];
    && c.count == |held|
    && c.size == FromInt(Total(s.backups, held))
    && IsLatest(s.backups, held, c.last)
  }

  /** Every collection's aggregates are the count, sum and maximum over its backups. */
  ghost predicate AllAgree(s: State) {
    SizesOk(s.backups) && forall name :: name in s.collections ==> Agrees(s, name)
  }

  const NO_BACKUPS := Collection(0, "0", None)

  // ── As it is written ──

  class BackupRepository {
    var collections: map<string, Collection>
    var backups: BackupTable

    constructor ()
      ensures AllAgree(Value()) && Value() == State(map[], map[])
    {
      collections, backups := map[], map[];
    }

    ghost function Value(): State
      reads this
    {
      State(collections, backups)
    }

    method CreateBackupCollection(name: string) returns (created: bool)
      requires SizesOk(backups)
      modifies this`collections
      ensures created == (name !in old(collections))
      ensures collections == if created then old(collections)[name := NO_BACKUPS] else old(collections)
      ensures Next(old(Value()), NewCollection(name), Value())
    {
      created := name !in collections;
      if created { collections := collections[name := NO_BACKUPS]; }
    }

    method DeleteBackupCollection(name: string) returns (deleted: bool)
      modifies this`collections
      ensures deleted == (name in old(collections)) && collections == old(collections) - {name}
      ensures Next(old(Value()), DropCollection(name), Value())
    {
      deleted := name in collections;
      collections := collections - {name};
    }

    method CreateBackup(name: string, backup: Backup) returns (created: bool)
      requires SizesOk(backups) && SizeOk(backup.size)
      modifies this
      ensures created == (name !in old(backups)) && SizesOk(backups)
      ensures backups == if created then old(backups)[name := backup] else old(backups)
      ensures created ==> Refreshed(old(collections), Value(), backup.collection)
      ensures !created ==> collections == old(collections)
      ensures Next(old(Value()), NewBackup(name, backup), Value())
    {
      created := name !in backups;
      if created {
        backups := backups[name := backup];
        RefreshBackupCollectionStats(backup.collection);
      }
    }

    method DeleteBackup(name: string) returns (deleted: bool)
      requires SizesOk(backups)
      modifies this
      ensures deleted == (name in old(backups)) && SizesOk(backups)
      ensures backups == old(backups) - {name}
      ensures deleted ==> Refreshed(old(collections), Value(), old(backups)[name].collection)
      ensures !deleted ==> collections == old(collections)
      ensures Next(old(Value()), DropBackup(name), Value())
    {
      deleted := name in backups;
      if deleted {
        var collection := backups[name].collection;
        backups := backups - {name};
        RefreshBackupCollectionStats(collection);
      }
    }

    /** Recomputes one collection's columns from its rows, whatever they said before. */
    method RefreshBackupCollectionStats(name: string)
      requires SizesOk(backups)
      modifies this`collections
      ensures Refreshed(old(collections), Value(), name)
    {
      hide SizeOk, Total, IsLatest;
      if name !in collections { return; }
      var held := Held(backups, name);
      var total, last := Reduce(backups, held);
      collections := collections[name := Collection(|held|, FromInt(total), last)];
    }
  }

  /** The sum and the latest time over some backups, in whatever order they come. */
  method Reduce(backups: BackupTable, held: set<string>) returns (total: int, last: Option<string>)
    requires SizesOk(backups) && held <= backups.Keys
    ensures total == Total(backups, held) && IsLatest(backups, held, last)
  {
    hide SizeOk, Bytes, Before;
    var left := held;
    total, last := 0, None;
    while left != {}
      invariant left <= held
      invariant total + Total(backups, left) == Total(backups, held)
      invariant IsLatest(backups, held - left, last)
      decreases left
    {
      var n :| n in left;
      TotalWithout(backups, left, n);
      LatestWith(backups, held - left, n, last);
      assert held - (left - {n}) == (held - left) + {n};
      var createTime := backups[n].createdAt;
      total := total + Bytes(backups[n].size);
      last := if last.None? || !Before(createTime, last.value) then Some(createTime) else last;
      left := left - {n};
    }
    assert held - left == held;
  }

  lemma LatestWith(backups: BackupTable, names: set<string>, n: string, last: Option<string>)
    requires names <= backups.Keys && n in backups && IsLatest(backups, names, last)
    ensures IsLatest(backups, names + {n},
      if last.None? || !Before(backups[n].createdAt, last.value) then Some(backups[n].createdAt) else last)
  {
    var t := backups[n].createdAt;
    BeforeTotal(t, t);
    if last.Some? {
      BeforeTotal(t, last.value);
      forall m | m in names
        ensures Before(last.value, t) ==> Before(backups[m].createdAt, t)
      {
        if Before(last.value, t) { BeforeTransitive(backups[m].createdAt, last.value, t); }
      }
    }
  }

  /** The named collection, if there is one, has right aggregates; the others are as they were. */
  ghost predicate Refreshed(before: map<string, Collection>, s: State, name: string) {
    && SizesOk(s.backups)
    && s.collections.Keys == before.Keys
    && (forall c :: c in before && c != name ==> s.collections[c] == before[c])
    && (name in s.collections ==> Agrees(s, name))
  }

  // ── Runs ──

  datatype Op =
    | NewCollection(name: string)
    | DropCollection(name: string)
    | NewBackup(name: string, backup: Backup)
    | DropBackup(name: string)

  function BackupsAfter(backups: BackupTable, op: Op): BackupTable {
    match op
    case NewBackup(name, backup) => if name in backups then backups else backups[name := backup]
    case DropBackup(name) => backups - {name}
    case _ => backups
  }

  /** The collection an operation brings back in line, if any. */
  function Touched(backups: BackupTable, op: Op): Option<string> {
    match op
    case NewBackup(name, backup) => if name in backups then None else Some(backup.collection)
    case DropBackup(name) => if name in backups then Some(backups[name].collection) else None
    case _ => None
  }

  /** What the repository's methods promise, operation by operation. */
  ghost predicate Next(s: State, op: Op, t: State) {
    && t.backups == BackupsAfter(s.backups, op)
    && match op
       case NewCollection(name) =>
         t.collections == if name in s.collections then s.collections else s.collections[name := NO_BACKUPS]
       case DropCollection(name) => t.collections == s.collections - {name}
       case _ =>
         if Touched(s.backups, op).Some? then Refreshed(s.collections, t, Touched(s.backups, op).value)
         else t.collections == s.collections
  }

  predicate OpOk(op: Op) { op.NewBackup? ==> SizeOk(op.backup.size) }

  lemma HeldSame(backups: BackupTable, next: BackupTable, held: set<string>)
    requires SizesOk(backups) && SizesOk(next) && held <= backups.Keys && held <= next.Keys
    requires forall n :: n in held ==> next[n] == backups[n]
    ensures Total(next, held) == Total(backups, held)
    ensures forall last :: IsLatest(next, held, last) <==> IsLatest(backups, held, last)
    decreases |held|
  {
    hide SizeOk, Bytes;
    if held != {} {
      var n :| n in held;
      TotalWithout(backups, held, n);
      TotalWithout(next, held, n);
      HeldSame(backups, next, held - {n});
    }
  }

  lemma OthersAgree(s: State, op: Op, t: State, c: string)
    requires AllAgree(s) && OpOk(op) && Next(s, op, t) && SizesOk(t.backups)
    requires c in s.collections && c in t.collections && t.collections[c] == s.collections[c]
    requires Touched(s.backups, op) != Some(c)
    ensures Agrees(t, c)
  {
    hide SizeOk, IsLatest, Total;
    var held := Held(s.backups, c);
    assert Held(t.backups, c) == held;
    assert Agrees(s, c);
    HeldSame(s.backups, t.backups, held);
  }

  lemma SizesStay(s: State, op: Op, t: State)
    requires SizesOk(s.backups) && OpOk(op) && Next(s, op, t)
    ensures SizesOk(t.backups)
  {
    hide SizeOk;
  }

  lemma EmptyCollectionAgrees(s: State, name: string)
    requires SizesOk(s.backups) && name in s.collections && s.collections[name] == NO_BACKUPS
    ensures Agrees(s, name) <==> Held(s.backups, name) == {}
  {
    hide SizeOk;
    assert FromInt(0) == "0";
  }

  /** The only way aggregates go wrong: a collection created under a name that backups already refer to. */
  predicate CreatesOverBackups(s: State, op: Op) {
    op.NewCollection? && op.name !in s.collections && Held(s.backups, op.name) != {}
  }

  /** An operation keeps all aggregates right exactly when it does not do that. */
  lemma StepAgreesExactly(s: State, op: Op, t: State)
    requires AllAgree(s) && OpOk(op) && Next(s, op, t)
    ensures AllAgree(t) <==> !CreatesOverBackups(s, op)
  {
    hide SizesOk, Agrees, Held;
    SizesStay(s, op, t);
    forall c | c in t.collections && !(op.NewCollection? && op.name !in s.collections && c == op.name)
      ensures Agrees(t, c)
    {
      if Touched(s.backups, op) != Some(c) { OthersAgree(s, op, t, c); }
    }
    if op.NewCollection? && op.name !in s.collections { EmptyCollectionAgrees(t, op.name); }
  }

  /** Backups go into collections that exist, and only empty collections are dropped. */
  predicate Orderly(s: State, op: Op) {
    && OpOk(op)
    && (op.NewBackup? ==> op.backup.collection in s.collections)
    && (op.DropCollection? ==> Held(s.backups, op.name) == {})
  }

  ghost predicate NoOrphans(s: State) {
    forall n :: n in s.backups ==> s.backups[n].collection in s.collections
  }

  /** A run of the repository: every state follows from the one before. */
  ghost predicate IsRun(states: seq<State>, ops: seq<Op>) {
    && |states| == |ops| + 1 && states[0] == State(map[], map[])
    && forall i :: 0 <= i < |ops| ==> Orderly(states[i], ops[i]) && Next(states[i], ops[i], states[i + 1])
  }

  lemma OrphansStayOut(s: State, op: Op, t: State)
    requires NoOrphans(s) && Orderly(s, op) && Next(s, op, t)
    ensures NoOrphans(t)
  {
    hide SizesOk, Agrees;
    forall n | n in t.backups
      ensures t.backups[n].collection in t.collections
    {
      if op.DropCollection? { assert n !in Held(s.backups, op.name); }
    }
  }

  lemma NothingToCreateOver(s: State, op: Op)
    requires NoOrphans(s)
    ensures !CreatesOverBackups(s, op)
  {
    if op.NewCollection? {
      assert forall n :: n in s.backups && op.name !in s.collections ==> s.backups[n].collection != op.name;
    }
  }

  /** In every orderly run each collection's aggregates equal the count, sum and maximum over its backups. */
  lemma {:induction false} AggregatesAlwaysAgree(states: seq<State>, ops: seq<Op>)
    requires IsRun(states, ops)
    ensures AllAgree(states[|ops|]) && NoOrphans(states[|ops|])
    decreases |ops|
  {
    if ops != [] {
      var n := |ops| - 1;
      AggregatesAlwaysAgree(states[..|ops|], ops[..n]);
      var s, op, t := states[n], ops[n], states[|ops|];
      assert states[..|ops|][n] == s;
      assert Orderly(s, op) && Next(s, op, t);
      OrphansStayOut(s, op, t);
      NothingToCreateOver(s, op);
      hide AllAgree, Next, NoOrphans, CreatesOverBackups, Orderly;
      OrderlyIsOk(s, op);
      StepAgreesExactly(s, op, t);
    }
  }

  lemma OrderlyIsOk(s: State, op: Op)
    requires Orderly(s, op)
    ensures OpOk(op)
  {}
}
