/** ReplacingMergeTree tables, the FINAL view of them, and the client that inserts versions and erases keys. */
module ClickHouse {
  import opened Events
  import opened Reference
  import opened Sequences

  datatype Stored = Stored(key: Key, row: Row, version: nat)

  /** The merge of the engine: per key the highest `_version`; among equal versions the row inserted last. */
  function Merge(rows: seq<Stored>): map<Key, Stored> {
    if rows == [] then map[]
    else
      var last := rows[|rows| - 1];
      var merged := Merge(rows[..|rows| - 1]);
      if last.key in merged && merged[last.key].version > last.version then merged else merged[last.key := last]
  }

  /** What a query with final=1 sees. */
  function Final(rows: seq<Stored>): Table {
    var merged := Merge(rows);
    map key | key in merged :: merged[key].row
  }

  /** DELETE ... WHERE key IN (keys). */
  function Without(rows: seq<Stored>, keys: set<Key>): seq<Stored> {
    if rows == [] then []
    else if rows[|rows| - 1].key in keys then Without(rows[..|rows| - 1], keys)
    else Without(rows[..|rows| - 1], keys) + [rows[|rows| - 1]]
  }

  predicate VersionsAtMost(rows: seq<Stored>, bound: nat) {
    forall i :: 0 <= i < |rows| ==> rows[i].version <= bound
  }

  /** The rows of one insert, carrying consecutive versions from `version` on. */
  function Versioned(ids: seq<nat>, records: seq<Row>, version: nat): seq<Stored>
    requires forall row :: row in records ==> WideEnough(ids, row)
  {
    seq(|records|, i requires 0 <= i < |records| =>
      assert records[i] in records; Stored(RecordId(ids, records[i]), records[i], version + i))
  }

  /** Merge is the declarative FINAL: the winner of a key is a stored row that no stored row of the key outranks. */
  lemma {:induction false} MergeIsHighestVersion(rows: seq<Stored>, key: Key)
    ensures key in Merge(rows) <==> exists i :: 0 <= i < |rows| && rows[i].key == key
    ensures key in Merge(rows) ==>
              && Merge(rows)[key] in rows && Merge(rows)[key].key == key
              && forall i :: 0 <= i < |rows| && rows[i].key == key ==> rows[i].version <= Merge(rows)[key].version
  {
    if rows != [] {
      MergeIsHighestVersion(rows[..|rows| - 1], key);
      assert rows == rows[..|rows| - 1] + [rows[|rows| - 1]];
    }
  }

  lemma {:induction false} MergeWithout(rows: seq<Stored>, keys: set<Key>, key: Key)
    ensures key in Merge(Without(rows, keys)) <==> key in Merge(rows) && key !in keys
    ensures key in Merge(Without(rows, keys)) ==> Merge(Without(rows, keys))[key] == Merge(rows)[key]
  {
    if rows != [] {
      var rest, last := rows[..|rows| - 1], rows[|rows| - 1];
      MergeWithout(rest, keys, key);
      MergeWithout(rest, keys, last.key);
      var kept := Without(rest, keys);
      if last.key !in keys {
        assert (kept + [last])[..|kept|] == kept;
      }
    }
  }

  lemma FinalWithout(rows: seq<Stored>, keys: set<Key>)
    ensures Final(Without(rows, keys)) == Final(rows) - keys
  {
    forall key
      ensures ValueAt(Final(Without(rows, keys)), key) == ValueAt(Final(rows) - keys, key)
    {
      MergeWithout(rows, keys, key);
    }
    SameEverywhere(Final(Without(rows, keys)), Final(rows) - keys);
  }

  lemma WithoutKeepsBound(rows: seq<Stored>, keys: set<Key>, bound: nat)
    requires VersionsAtMost(rows, bound)
    ensures VersionsAtMost(Without(rows, keys), bound)
  {
  }

  lemma {:induction false} WithoutTwice(rows: seq<Stored>, a: set<Key>, b: set<Key>)
    ensures Without(Without(rows, a), b) == Without(rows, a + b)
  {
    if rows != [] {
      var rest, last := rows[..|rows| - 1], rows[|rows| - 1];
      WithoutTwice(rest, a, b);
      var kept := Without(rest, a);
      assert last.key !in a ==> (kept + [last])[..|kept|] == kept;
    }
  }

  // Several deliveries of one batch.

  /** Whatever a failed attempt left behind comes from the batch. */
  predicate Leftovers(left: seq<Stored>, batch: seq<Stored>) {
    forall s :: s in left ==> s in batch
  }

  /** A key's visible row either survives the leftovers of a batch or comes from the batch. */
  lemma {:induction false} LeftoversVisible(rows: seq<Stored>, left: seq<Stored>, batch: seq<Stored>, key: Key)
    requires Leftovers(left, batch)
    ensures ValueAt(Final(rows + left), key) == ValueAt(Final(rows), key)
            || exists s :: s in batch && s.key == key && ValueAt(Final(rows + left), key) == Some(s.row)
  {
    if left == [] {
      assert rows + left == rows;
    } else {
      var shorter, last := left[..|left| - 1], left[|left| - 1];
      assert (rows + left)[..|rows + left| - 1] == rows + shorter;
      LeftoversVisible(rows, shorter, batch, key);
      assert last in batch;
    }
  }

  lemma Winner(rows: seq<Stored>, s: Stored)
    requires s in rows
    requires forall r :: r in rows && r.key == s.key ==> r.version < s.version || r == s
    ensures ValueAt(Final(rows), s.key) == Some(s.row)
  {
    MergeIsHighestVersion(rows, s.key);
  }

  lemma {:induction false} LastRowIndex(ids: seq<nat>, rows: seq<Row>, key: Key)
    requires forall row :: row in rows ==> WideEnough(ids, row)
    ensures LastRow(ids, rows, key).None? ==> forall i :: 0 <= i < |rows| ==> RecordId(ids, rows[i]) != key
    ensures LastRow(ids, rows, key).Some? ==>
              exists j :: 0 <= j < |rows| && RecordId(ids, rows[j]) == key && LastRow(ids, rows, key).value == rows[j]
                          && forall i :: j < i < |rows| ==> RecordId(ids, rows[i]) != key
  {
    if rows != [] {
      LastRowIndex(ids, rows[..|rows| - 1], key);
    }
  }

  lemma RetriedInsertAt(ids: seq<nat>, rows: seq<Stored>, left: seq<Stored>, records: seq<Row>, version: nat, key: Key)
    requires forall row :: row in records ==> WideEnough(ids, row)
    requires forall i :: 0 <= i < |rows| ==> rows[i].version < version
    requires Leftovers(left, Versioned(ids, records, version))
    ensures ValueAt(Final(rows + left + Versioned(ids, records, version)), key) ==
            (var row := LastRow(ids, records, key); if row.Some? then row else ValueAt(Final(rows), key))
  {
    var batch := Versioned(ids, records, version);
    Associative(rows, left, batch);
    LastRowIndex(ids, records, key);
    if LastRow(ids, records, key).Some? {
      var j :| 0 <= j < |records| && RecordId(ids, records[j]) == key && LastRow(ids, records, key).value == records[j]
               && forall i :: j < i < |records| ==> RecordId(ids, records[i]) != key;
      var after := rows + left + batch;
      assert after[|rows + left| + j] == batch[j];
      forall s | s in after && s.key == key
        ensures s.version < batch[j].version || s == batch[j]
      {
        assert s in rows || s in batch;
      }
      Winner(after, batch[j]);
    } else {
      LeftoversVisible(rows, left + batch, batch, key);
    }
  }

  /** A batch with fresh ascending versions, delivered whole after any leftovers of failed attempts,
      is seen as if its records had been inserted once, one after the other. */
  lemma RetriedInsertIsOneInsert(ids: seq<nat>, rows: seq<Stored>, left: seq<Stored>, records: seq<Row>, version: nat)
    requires forall row :: row in records ==> WideEnough(ids, row)
    requires forall i :: 0 <= i < |rows| ==> rows[i].version < version
    requires Leftovers(left, Versioned(ids, records, version))
    ensures Final(rows + left + Versioned(ids, records, version)) == InsertRows(ids, Final(rows), records)
  {
    var after := rows + left + Versioned(ids, records, version);
    forall key
      ensures ValueAt(Final(after), key) == ValueAt(InsertRows(ids, Final(rows), records), key)
    {
      RetriedInsertAt(ids, rows, left, records, version, key);
      InsertRowsAt(ids, Final(rows), records, key);
    }
    SameEverywhere(Final(after), InsertRows(ids, Final(rows), records));
  }

  /** Record j is the last one of the batch under its key. */
  predicate LastUnderKey(ids: seq<nat>, records: seq<Row>, j: int)
    requires forall row :: row in records ==> WideEnough(ids, row)
  {
    0 <= j < |records| && forall i :: j < i < |records| ==> RecordId(ids, records[i]) != RecordId(ids, records[j])
  }

  /** Rows of other keys, and rows of the key with lower versions, change nothing for the key. */
  lemma {:induction false} Outranked(rows: seq<Stored>, more: seq<Stored>, key: Key)
    requires forall s :: s in more && s.key == key ==> key in Merge(rows) && s.version < Merge(rows)[key].version
    ensures key in Merge(rows + more) <==> key in Merge(rows)
    ensures key in Merge(rows) ==> Merge(rows + more)[key] == Merge(rows)[key]
  {
    if more == [] {
      assert rows + more == rows;
    } else {
      Outranked(rows, more[..|more| - 1], key);
      assert (rows + more)[..|rows + more| - 1] == rows + more[..|more| - 1];
      assert more[|more| - 1] in more;
    }
  }

  lemma TakesOver(rows: seq<Stored>, before: seq<Stored>, s: Stored)
    requires s.key in Merge(rows) ==> Merge(rows)[s.key].version <= s.version
    requires forall b :: b in before ==> b.version <= s.version
    ensures s.key in Merge(rows + before + [s]) && Merge(rows + before + [s])[s.key] == s
  {
    var upTo := rows + before;
    MergeIsHighestVersion(upTo, s.key);
    MergeIsHighestVersion(rows, s.key);
    assert (upTo + [s])[..|upTo|] == upTo;
  }

  lemma MergeAfterInsert(ids: seq<nat>, rows: seq<Stored>, records: seq<Row>, version: nat, j: nat)
    requires forall row :: row in records ==> WideEnough(ids, row)
    requires LastUnderKey(ids, records, j)
    ensures var key, merged := RecordId(ids, records[j]), Merge(rows + Versioned(ids, records, version));
            && key in merged
            && merged[key] == if key in Merge(rows) && Merge(rows)[key].version > version + j then Merge(rows)[key]
                              else Stored(key, records[j], version + j)
  {
    var key, batch := RecordId(ids, records[j]), Versioned(ids, records, version);
    if key in Merge(rows) && Merge(rows)[key].version > version + j {
      Outranked(rows, batch, key);
    } else {
      TakesOver(rows, batch[..j], batch[j]);
      Outranked(rows + batch[..j] + [batch[j]], batch[j + 1..], key);
      SplitAround(rows, batch, j);
    }
  }

  /** Exactly when an insert is seen as its records: no record may meet a higher version stored under its key,
      unless the row stored there is the same. A counter at or above every stored version guarantees it. */
  lemma InsertVisibleIff(ids: seq<nat>, rows: seq<Stored>, records: seq<Row>, version: nat)
    requires forall row :: row in records ==> WideEnough(ids, row)
    ensures Final(rows + Versioned(ids, records, version)) == InsertRows(ids, Final(rows), records) <==>
            forall j :: LastUnderKey(ids, records, j) && RecordId(ids, records[j]) in Merge(rows) ==>
              var winner := Merge(rows)[RecordId(ids, records[j])];
              winner.version <= version + j || winner.row == records[j]
  {
    var after, wanted := Final(rows + Versioned(ids, records, version)), InsertRows(ids, Final(rows), records);
    forall j | LastUnderKey(ids, records, j)
      ensures var key := RecordId(ids, records[j]);
              && ValueAt(wanted, key) == Some(records[j])
              && ValueAt(after, key) ==
                 Some(if key in Merge(rows) && Merge(rows)[key].version > version + j then Merge(rows)[key].row
                      else records[j])
    {
      MergeAfterInsert(ids, rows, records, version, j);
      InsertRowsAt(ids, Final(rows), records, RecordId(ids, records[j]));
      LastRowIndex(ids, records, RecordId(ids, records[j]));
    }
    forall key
      ensures (exists j :: LastUnderKey(ids, records, j) && RecordId(ids, records[j]) == key)
              || ValueAt(after, key) == ValueAt(wanted, key)
    {
      InsertRowsAt(ids, Final(rows), records, key);
      LastRowIndex(ids, records, key);
      if LastRow(ids, records, key).None? {
        Outranked(rows, Versioned(ids, records, version), key);
      } else {
        var j :| 0 <= j < |records| && RecordId(ids, records[j]) == key && forall i :: j < i < |records| ==>
              RecordId(ids, records[i]) != key;
        assert LastUnderKey(ids, records, j);
      }
    }
    if forall j :: LastUnderKey(ids, records, j) && RecordId(ids, records[j]) in Merge(rows) ==>
         var winner := Merge(rows)[RecordId(ids, records[j])];
         winner.version <= version + j || winner.row == records[j] {
      SameEverywhere(after, wanted);
    }
  }

  /** A counter restored to an older value numbers a newer row below the one already stored: the update is lost. */
  lemma StaleCounterLosesUpdate()
    ensures var key, old', new' := [Int(1)], [Int(1), Int(10)], [Int(1), Int(20)];
            var rows := [Stored(key, old', 2)];
            && Final(rows) == map[key := old']
            && Final(rows + Versioned([0], [new'], 1)) == map[key := old']
            && InsertRows([0], Final(rows), [new']) == map[key := new']
  {
    var key, old', new' := [Int(1)], [Int(1), Int(10)], [Int(1), Int(20)];
    var rows, batch := [Stored(key, old', 2)], Versioned([0], [new'], 1);
    assert RecordId([0], new') == key;
    assert batch == [Stored(key, new', 1)];
    assert rows[..0] == [] && Merge(rows) == map[key := rows[0]];
    assert (rows + batch)[..1] == rows && Merge(rows + batch) == map[key := rows[0]];
    assert [new'][..0] == [];
    assert Final(rows)[key := new'] == map[key := new'];
  }

  lemma LeftoversJoin(a: seq<Stored>, b: seq<Stored>, batch: seq<Stored>)
    requires Leftovers(a, batch) && Leftovers(b, batch)
    ensures Leftovers(a + b, batch)
  {
  }

  lemma BatchBounded(ids: seq<nat>, rows: seq<Stored>, left: seq<Stored>, records: seq<Row>, last: nat)
    requires forall row :: row in records ==> WideEnough(ids, row)
    requires VersionsAtMost(rows, last)
    requires Leftovers(left, Versioned(ids, records, last + 1))
    ensures VersionsAtMost(rows + left + Versioned(ids, records, last + 1), last + 1 + |records|)
  {
    var batch := Versioned(ids, records, last + 1);
    forall i | 0 <= i < |left|
      ensures left[i].version <= last + 1 + |records|
    {
      assert left[i] in batch;
    }
  }

  function KeysOf(list: seq<Key>): set<Key> {
    set i | 0 <= i < |list| :: list[i]
  }

  type Server = map<string, seq<Stored>>

  function RowsOf(server: Server, table: string): seq<Stored> {
    if table in server then server[table] else []
  }

  function CounterOf(versions: map<string, nat>, first: nat, table: string): nat {
    if table in versions then versions[table] else first
  }

  ghost predicate Bounded(server: Server, versions: map<string, nat>, first: nat) {
    forall table :: VersionsAtMost(RowsOf(server, table), CounterOf(versions, first, table))
  }

  /** The client together with the server it talks to: `tables` is what the server stores. */
  class ClickhouseApi {
    static const MAX_RETRIES: nat := 5

    const versionInitialValue: nat
    const eraseBatchSize: nat
    var tables: Server
    var tablesLastRecordVersion: map<string, nat>
    /** How many attempts to send something have been reported as failed. */
    ghost var failures: nat

    constructor (versionInitialValue: nat, eraseBatchSize: nat)
      requires 0 < eraseBatchSize
      ensures tables == map[] && tablesLastRecordVersion == map[] && failures == 0
      ensures this.versionInitialValue == versionInitialValue && this.eraseBatchSize == eraseBatchSize
      ensures Valid()
    {
      this.versionInitialValue := versionInitialValue;
      this.eraseBatchSize := eraseBatchSize;
      tables := map[];
      tablesLastRecordVersion := map[];
      failures := 0;
    }

    /** Settings validation rejects a batch size that is not positive. */
    predicate Valid() { 0 < eraseBatchSize }

    function StoredIn(table: string): seq<Stored>
      reads this
    {
      RowsOf(tables, table)
    }

    function GetLastUsedVersion(table: string): nat
      reads this
    {
      CounterOf(tablesLastRecordVersion, versionInitialValue, table)
    }

    /** Every stored version of every table lies at or below the table's counter. */
    ghost predicate Versions()
      reads this
    {
      Bounded(tables, tablesLastRecordVersion, versionInitialValue)
    }

    twostate predicate OthersSame(table: string)
      reads this
    {
      forall other :: other != table ==> RowsOf(tables, other) == RowsOf(old(tables), other)
    }

    /** An error is raised after five failed attempts only. */
    twostate predicate GivesUpAfterFive(ok: bool)
      reads this
    {
      old(failures) <= failures && (!ok ==> old(failures) + 5 <= failures)
    }

    /** Sends a batch until an attempt succeeds. A failed attempt may have left any of its rows on the server. */
    method SendBatch(table: string, batch: seq<Stored>) returns (ok: bool, ghost left: seq<Stored>)
      modifies this`tables, this`failures
      ensures Leftovers(left, batch)
      ensures StoredIn(table) == old(StoredIn(table)) + left + if ok then batch else []
      ensures OthersSame(table)
      ensures old(failures) <= failures <= old(failures) + 5 && (ok <==> failures < old(failures) + 5)
    {
      ok, left := false, [];
      var attempt := 0;
      while attempt < MAX_RETRIES
        invariant attempt <= MAX_RETRIES && failures == old(failures) + attempt
        invariant Leftovers(left, batch)
        invariant StoredIn(table) == old(StoredIn(table)) + left
        invariant OthersSame(table)
      {
        var failed: bool := *;
        if !failed {
          tables := tables[table := StoredIn(table) + batch];
          ok := true;
          return;
        }
        failures := failures + 1;
        assert Leftovers([], batch);
        var part: seq<Stored> :| Leftovers(part, batch);
        tables := tables[table := StoredIn(table) + part];
        LeftoversJoin(left, part, batch);
        left := left + part;
        attempt := attempt + 1;
      }
    }

    /** Numbers the records from the table's counter on and sends them. The counter moves only on success;
        after the last failed attempt the error is raised. */
    method Insert(table: string, ids: seq<nat>, records: seq<Row>) returns (ok: bool, ghost left: seq<Stored>)
      requires forall row :: row in records ==> WideEnough(ids, row)
      modifies this
      ensures Leftovers(left, Versioned(ids, records, old(GetLastUsedVersion(table)) + 1))
      ensures StoredIn(table) == old(StoredIn(table)) + left +
                                 if ok then Versioned(ids, records, old(GetLastUsedVersion(table)) + 1) else []
      ensures OthersSame(table)
      ensures ok ==> tablesLastRecordVersion ==
                     old(tablesLastRecordVersion)[table := old(GetLastUsedVersion(table)) + 1 + |records|]
      ensures !ok ==> tablesLastRecordVersion == old(tablesLastRecordVersion)
      ensures ok && old(Versions()) ==> Versions()
      ensures GivesUpAfterFive(ok)
    {
      var firstVersion := GetLastUsedVersion(table) + 1;
      var currentVersion := firstVersion;
      var recordsToInsert: seq<Stored> := [];
      for i := 0 to |records|
        invariant currentVersion == firstVersion + i
        invariant |recordsToInsert| == i
        invariant forall j :: 0 <= j < i ==> recordsToInsert[j] == Versioned(ids, records, firstVersion)[j]
      {
        assert records[i] in records;
        recordsToInsert := recordsToInsert + [Stored(RecordId(ids, records[i]), records[i], currentVersion)];
        currentVersion := currentVersion + 1;
      }
      assert recordsToInsert == Versioned(ids, records, firstVersion);
      ok, left := SendBatch(table, recordsToInsert);
      if ok {
        tablesLastRecordVersion := tablesLastRecordVersion[table := currentVersion];
        if old(Versions()) {
          BatchBounded(ids, old(StoredIn(table)), left, records, firstVersion - 1);
        }
      }
    }

    /** A command that is repeated until it reports success; a failed attempt may have taken effect. */
    method ExecuteDelete(table: string, keys: set<Key>) returns (ok: bool, executed: bool)
      modifies this`tables, this`failures
      ensures ok ==> executed
      ensures StoredIn(table) == if executed then Without(old(StoredIn(table)), keys) else old(StoredIn(table))
      ensures OthersSame(table)
      ensures old(Versions()) ==> Versions()
      ensures old(failures) <= failures <= old(failures) + 5 && (ok <==> failures < old(failures) + 5)
    {
      ok, executed := false, false;
      var attempt := 0;
      while attempt < MAX_RETRIES && !ok
        invariant attempt <= MAX_RETRIES && old(failures) <= failures
        invariant attempt == failures - old(failures) + if ok then 1 else 0
        invariant ok ==> executed
        invariant StoredIn(table) == if executed then Without(old(StoredIn(table)), keys) else old(StoredIn(table))
        invariant OthersSame(table)
        invariant old(Versions()) ==> Versions()
        decreases MAX_RETRIES - attempt
      {
        var failed: bool := *;
        var effective: bool := *;
        if effective || !failed {
          WithoutTwice(old(StoredIn(table)), keys, keys);
          assert keys + keys == keys;
          if old(Versions()) {
            WithoutKeepsBound(StoredIn(table), keys, GetLastUsedVersion(table));
          }
          tables := tables[table := Without(StoredIn(table), keys)];
          executed := true;
        }
        if failed {
          failures := failures + 1;
        }
        ok := !failed;
        attempt := attempt + 1;
      }
    }

    method ExecuteTruncate(table: string) returns (ok: bool, executed: bool)
      modifies this`tables, this`failures
      ensures ok ==> executed
      ensures StoredIn(table) == if executed then [] else old(StoredIn(table))
      ensures OthersSame(table)
      ensures old(Versions()) ==> Versions()
      ensures old(failures) <= failures <= old(failures) + 5 && (ok <==> failures < old(failures) + 5)
    {
      ok, executed := false, false;
      var attempt := 0;
      while attempt < MAX_RETRIES && !ok
        invariant attempt <= MAX_RETRIES && old(failures) <= failures
        invariant attempt == failures - old(failures) + if ok then 1 else 0
        invariant ok ==> executed
        invariant StoredIn(table) == if executed then [] else old(StoredIn(table))
        invariant OthersSame(table)
        invariant old(Versions()) ==> Versions()
        decreases MAX_RETRIES - attempt
      {
        var failed: bool := *;
        var effective: bool := *;
        if effective || !failed {
          tables := tables[table := []];
          executed := true;
        }
        if failed {
          failures := failures + 1;
        }
        ok := !failed;
        attempt := attempt + 1;
      }
    }

    /** The members of a set in some order. */
    static method ListOf(keys: set<Key>) returns (list: seq<Key>)
      ensures KeysOf(list) == keys && |list| == |keys|
    {
      var rest := keys;
      list := [];
      while rest != {}
        invariant rest <= keys && KeysOf(list) == keys - rest
        invariant |list| + |rest| == |keys|
        decreases |rest|
      {
        var key :| key in rest;
        KeysOfSnoc(list, key);
        list := list + [key];
        rest := rest - {key};
      }
    }

    /** Deletes the keys in batches. When it stops early, exactly the batches already executed are gone. */
    method EraseKeys(table: string, keys: set<Key>) returns (ok: bool, ghost erased: set<Key>)
      requires Valid()
      modifies this`tables, this`failures
      ensures erased <= keys && (ok ==> erased == keys)
      ensures StoredIn(table) == Without(old(StoredIn(table)), erased)
      ensures OthersSame(table)
      ensures old(Versions()) ==> Versions()
      ensures GivesUpAfterFive(ok)
    {
      var list := ListOf(keys);
      var i: nat := 0;
      ok, erased := true, {};
      ghost var rows := StoredIn(table);
      WithoutNothing(rows);
      while i < |list|
        invariant i <= |list| && ok && erased == KeysOf(list[..i])
        invariant StoredIn(table) == Without(rows, erased)
        invariant OthersSame(table)
        invariant old(Versions()) ==> Versions()
        invariant old(failures) <= failures
      {
        var end := if i + eraseBatchSize < |list| then i + eraseBatchSize else |list|;
        ok, erased := EraseBatch(table, list, i, end, rows, erased);
        if !ok {
          return;
        }
        i := end;
      }
      assert list[..|list|] == list;
    }

    /** One batch of a delete. */
    method EraseBatch(table: string, list: seq<Key>, i: nat, end: nat, ghost rows: seq<Stored>, ghost before: set<Key>)
      returns (ok: bool, ghost erased: set<Key>)
      requires i <= end <= |list| && before == KeysOf(list[..i]) && StoredIn(table) == Without(rows, before)
      modifies this`tables, this`failures
      ensures erased <= KeysOf(list) && (ok ==> erased == KeysOf(list[..end]))
      ensures StoredIn(table) == Without(rows, erased)
      ensures OthersSame(table)
      ensures old(Versions()) ==> Versions()
      ensures GivesUpAfterFive(ok)
    {
      var batch := KeysOf(list[i..end]);
      var executed: bool;
      ok, executed := ExecuteDelete(table, batch);
      WithoutTwice(rows, before, batch);
      KeysOfSlices(list, i, end);
      KeysOfSlices(list, end, |list|);
      assert list[..|list|] == list;
      erased := if executed then before + batch else before;
    }
  }

  lemma {:induction false} WithoutNothing(rows: seq<Stored>)
    ensures Without(rows, {}) == rows
  {
    if rows != [] {
      WithoutNothing(rows[..|rows| - 1]);
    }
  }

  lemma KeysOfSnoc(list: seq<Key>, key: Key)
    ensures KeysOf(list + [key]) == KeysOf(list) + {key}
  {
    forall k | k in KeysOf(list) + {key}
      ensures k in KeysOf(list + [key])
    {
      if k == key {
        assert (list + [key])[|list|] == k;
      } else {
        var i :| 0 <= i < |list| && list[i] == k;
        assert (list + [key])[i] == k;
      }
    }
  }

  lemma KeysOfSlices(list: seq<Key>, i: nat, j: nat)
    requires i <= j <= |list|
    ensures KeysOf(list[..j]) == KeysOf(list[..i]) + KeysOf(list[i..j])
  {
  }
}
