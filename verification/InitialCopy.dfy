/** The paged copy that precedes realtime replication, while the source keeps changing. */
module InitialCopy {
  import opened Events
  import opened Reference
  import opened ClickHouse
  import opened Buffers
  import opened Sequences

  type Order = (Key, Key) -> bool

  /** The collation of the source: some strict total order of the keys. */
  ghost predicate StrictTotalOrder(lt: Order) {
    && (forall a :: !lt(a, a))
    && (forall a, b :: a != b ==> lt(a, b) || lt(b, a))
    && (forall a, b, c :: lt(a, b) && lt(b, c) ==> lt(a, c))
  }

  /** WHERE key > cursor; no cursor, no condition. */
  predicate Beyond(lt: Order, cursor: Option<Key>, key: Key) {
    cursor.None? || lt(cursor.value, key)
  }

  /** The keys a query with this cursor and this worker filter selects, before ordering and limit. */
  function Selected(view: Table, lt: Order, cursor: Option<Key>, mine: Key -> bool): set<Key> {
    set key | key in view && Beyond(lt, cursor, key) && mine(key)
  }

  predicate OrderedBy(lt: Order, keys: seq<Key>) {
    forall i, j :: 0 <= i < j < |keys| ==> lt(keys[i], keys[j])
  }

  /** ORDER BY key LIMIT limit. */
  predicate IsPage(view: Table, lt: Order, cursor: Option<Key>, mine: Key -> bool, limit: nat, keys: seq<Key>) {
    && |keys| <= limit
    && OrderedBy(lt, keys)
    && (forall key :: key in keys ==> key in Selected(view, lt, cursor, mine))
    && (forall key :: key in Selected(view, lt, cursor, mine) && key !in keys ==>
          |keys| == limit && (keys != [] ==> lt(keys[|keys| - 1], key)))
  }

  lemma {:induction false} LeastExists(lt: Order, keys: set<Key>) returns (least: Key)
    requires StrictTotalOrder(lt) && keys != {}
    ensures least in keys && forall key :: key in keys && key != least ==> lt(least, key)
    decreases |keys|
  {
    var some :| some in keys;
    least := some;
    if keys != {some} {
      var rest := keys - {some};
      assert keys == {some} + rest;
      var other := LeastExists(lt, rest);
      if lt(other, some) {
        least := other;
      }
    }
  }

  function RowsAt(view: Table, keys: seq<Key>): seq<Row>
    requires forall key :: key in keys ==> key in view
  {
    seq(|keys|, i requires 0 <= i < |keys| => assert keys[i] in keys; view[keys[i]])
  }

  /** The query of one page. */
  method GetRecords(view: Table, lt: Order, cursor: Option<Key>, mine: Key -> bool, limit: nat) returns (keys: seq<Key>)
    requires StrictTotalOrder(lt)
    ensures IsPage(view, lt, cursor, mine, limit, keys)
  {
    var rest := Selected(view, lt, cursor, mine);
    keys := [];
    while |keys| < limit && rest != {}
      invariant |keys| <= limit && OrderedBy(lt, keys)
      invariant rest <= Selected(view, lt, cursor, mine)
      invariant forall key :: key in keys ==> key in Selected(view, lt, cursor, mine)
      invariant forall key :: key in Selected(view, lt, cursor, mine) ==> key in keys || key in rest
      invariant forall a, b :: a in keys && b in rest ==> lt(a, b)
      decreases |rest|
    {
      ghost var _ := LeastExists(lt, rest);
      var least :| least in rest && forall key :: key in rest && key != least ==> lt(least, key);
      assert forall a :: a in keys ==> lt(a, least);
      keys := keys + [least];
      rest := rest - {least};
    }
  }

  /** One table to copy: the source at rest, the changes made to it, and how many of these precede the position
      saved before the copy. `mine` is the hash filter of a parallel worker; a single process copies every key. */
  datatype Job = Job(cfg: Config, table: string, source: Table, log: seq<LogEvent>, from: nat,
                     lt: Order, mine: Key -> bool, limit: nat)
  {
    ghost predicate Valid() {
      && AllWellFormed(cfg, log) && from <= |log| && 0 < limit && StrictTotalOrder(lt)
      && table in cfg.keyIds && KeyedView(cfg.keyIds[table], source)
    }

    /** The source table after the first `moment` changes. */
    function At(moment: nat): Table
      requires AllWellFormed(cfg, log) && moment <= |log|
    {
      ApplyAll(cfg, table, source, log[..moment])
    }

    /** In `view` the key holds what it held in the source at some moment from `from` up to `now`. */
    ghost predicate Read(now: nat, view: Table, key: Key)
      requires AllWellFormed(cfg, log) && from <= now <= |log|
    {
      ReadBetween(cfg, table, source, log, from, now, view, key)
    }

    /** Every visible key, and every key of this worker up to the cursor, has been read since `from`. */
    ghost predicate Settled(now: nat, view: Table, cursor: Option<Key>)
      requires AllWellFormed(cfg, log) && from <= now <= |log|
    {
      forall key :: key in view || (mine(key) && !Beyond(lt, cursor, key)) ==> Read(now, view, key)
    }

    /** Every key of this worker has been read since `from`. */
    ghost predicate Complete(now: nat, view: Table)
      requires AllWellFormed(cfg, log) && from <= now <= |log|
    {
      forall key :: mine(key) ==> Read(now, view, key)
    }

    /** Every key the table holds at some moment. */
    ghost function KeysEver(moment: nat): set<Key>
      requires AllWellFormed(cfg, log) && moment <= |log|
    {
      At(moment).Keys + if moment == 0 then {} else KeysEver(moment - 1)
    }
  }

  lemma ReadLater(job: Job, now: nat, later: nat, view: Table, after: Table, key: Key)
    requires job.Valid() && job.from <= now <= later <= |job.log|
    requires job.Read(now, view, key) && ValueAt(after, key) == ValueAt(view, key)
    ensures job.Read(later, after, key)
  {
    var moment :| job.from <= moment <= now && ReadAt(job.cfg, job.table, job.source, job.log, moment, view, key);
    assert ReadAt(job.cfg, job.table, job.source, job.log, moment, after, key);
  }

  lemma ReadNow(job: Job, now: nat, view: Table, key: Key)
    requires job.Valid() && job.from <= now <= |job.log|
    requires ValueAt(view, key) == ValueAt(job.At(now), key)
    ensures job.Read(now, view, key)
  {
    assert ReadAt(job.cfg, job.table, job.source, job.log, now, view, key);
  }

  /** A batch of rows of the source as it is now. */
  ghost predicate Fresh(job: Job, now: nat, batch: seq<Stored>)
    requires AllWellFormed(job.cfg, job.log) && now <= |job.log|
  {
    forall s :: s in batch ==> ValueAt(job.At(now), s.key) == Some(s.row)
  }

  /** What an attempt left behind was read just now: nothing settled is lost. */
  lemma LeftoversSettle(job: Job, now: nat, later: nat, rows: seq<Stored>, left: seq<Stored>, batch: seq<Stored>,
                        cursor: Option<Key>)
    requires job.Valid() && job.from <= now <= later <= |job.log|
    requires job.Settled(now, Final(rows), cursor)
    requires Leftovers(left, batch) && Fresh(job, later, batch)
    ensures job.Settled(later, Final(rows + left), cursor)
  {
    var after := Final(rows + left);
    forall key | key in after || (job.mine(key) && !Beyond(job.lt, cursor, key))
      ensures job.Read(later, after, key)
    {
      LeftoversVisible(rows, left, batch, key);
      if ValueAt(after, key) == ValueAt(Final(rows), key) {
        ReadLater(job, now, later, Final(rows), after, key);
      } else {
        ReadNow(job, later, after, key);
      }
    }
  }

  lemma PageVisible(rows: seq<Stored>, batch: seq<Stored>, keys: seq<Key>)
    requires |batch| == |keys| && forall i :: 0 <= i < |keys| ==> batch[i].key == keys[i]
    ensures forall key :: key in keys ==> key in Final(rows + batch)
  {
    forall key | key in keys
      ensures key in Final(rows + batch)
    {
      var i :| 0 <= i < |keys| && keys[i] == key;
      assert (rows + batch)[|rows| + i].key == key;
      MergeIsHighestVersion(rows + batch, key);
    }
  }

  /** A page that has reached the server settles everything up to its last key. */
  lemma PageSettles(job: Job, now: nat, later: nat, rows: seq<Stored>, left: seq<Stored>, batch: seq<Stored>,
                    cursor: Option<Key>, keys: seq<Key>)
    requires job.Valid() && job.from <= now <= later <= |job.log|
    requires job.Settled(now, Final(rows), cursor)
    requires IsPage(job.At(later), job.lt, cursor, job.mine, job.limit, keys) && keys != []
    requires Leftovers(left, batch) && Fresh(job, later, batch)
    requires |batch| == |keys| && forall i :: 0 <= i < |keys| ==> batch[i].key == keys[i]
    ensures job.Settled(later, Final(rows + left + batch), Some(keys[|keys| - 1]))
  {
    var snapshot, stored := job.At(later), rows + left + batch;
    Associative(rows, left, batch);
    LeftoversSettle(job, now, later, rows, left + batch, batch, cursor);
    PageVisible(rows + left, batch, keys);
    forall key | job.mine(key) && !job.lt(keys[|keys| - 1], key) && Beyond(job.lt, cursor, key)
      ensures job.Read(later, Final(stored), key)
    {
      if key !in Final(stored) {
        assert key !in keys;
        assert key in snapshot ==> key in Selected(snapshot, job.lt, cursor, job.mine);
        ReadNow(job, later, Final(stored), key);
      }
    }
  }

  /** An empty page ends the copy: every key of this worker is settled. */
  lemma EmptyPageCompletes(job: Job, now: nat, later: nat, view: Table, cursor: Option<Key>)
    requires job.Valid() && job.from <= now <= later <= |job.log|
    requires job.Settled(now, view, cursor)
    requires IsPage(job.At(later), job.lt, cursor, job.mine, job.limit, [])
    ensures job.Complete(later, view)
  {
    forall key | job.mine(key)
      ensures job.Read(later, view, key)
    {
      if key in view || !Beyond(job.lt, cursor, key) {
        ReadLater(job, now, later, view, view, key);
      } else {
        assert key in job.At(later) ==> key in Selected(job.At(later), job.lt, cursor, job.mine);
        ReadNow(job, later, view, key);
      }
    }
  }

  lemma {:induction false} KeysEverCovers(job: Job, moment: nat, end: nat)
    requires job.Valid() && moment <= end <= |job.log|
    ensures job.At(moment).Keys <= job.KeysEver(end)
  {
    if moment < end {
      KeysEverCovers(job, moment, end - 1);
    }
  }

  /** The keys still ahead of the cursor: what makes the loop terminate. */
  ghost function KeysAhead(keys: set<Key>, lt: Order, cursor: Option<Key>): set<Key> {
    set key | key in keys && Beyond(lt, cursor, key)
  }

  lemma CursorAdvances(keys: set<Key>, lt: Order, cursor: Option<Key>, key: Key)
    requires StrictTotalOrder(lt) && key in keys && Beyond(lt, cursor, key)
    ensures KeysAhead(keys, lt, Some(key)) < KeysAhead(keys, lt, cursor)
    ensures |KeysAhead(keys, lt, Some(key))| < |KeysAhead(keys, lt, cursor)|
  {
    var less, more := KeysAhead(keys, lt, Some(key)), KeysAhead(keys, lt, cursor);
    assert key in more && key !in less;
    assert less <= more - {key};
    Smaller(less, more - {key});
  }

  lemma {:induction false} Smaller(a: set<Key>, b: set<Key>)
    requires a <= b
    ensures |a| <= |b|
  {
    if a != {} {
      var key :| key in a;
      Smaller(a - {key}, b - {key});
    }
  }

  lemma {:induction false} KeyedAlways(cfg: Config, table: string, source: Table, log: seq<LogEvent>)
    requires AllWellFormed(cfg, log) && table in cfg.keyIds && KeyedView(cfg.keyIds[table], source)
    ensures KeyedView(cfg.keyIds[table], ApplyAll(cfg, table, source, log))
  {
    if log != [] {
      var before, change := ApplyAll(cfg, table, source, log[..|log| - 1]), log[|log| - 1].change;
      KeyedAlways(cfg, table, source, log[..|log| - 1]);
      var after := Apply(cfg, table, before, change);
      forall key | key in after
        ensures WideEnough(cfg.keyIds[table], after[key]) && RecordId(cfg.keyIds[table], after[key]) == key
      {
        ApplyAt(cfg, table, before, change, key);
        assert ValueAt(after, key) == Some(after[key]);
        if change.Insert? && Concerns(cfg, table, change) {
          LastRowIndex(cfg.keyIds[table], change.rows, key);
        }
      }
    }
  }

  /** The part of state.pckl the copy depends on. */
  datatype SavedCopy = SavedCopy(table: Option<string>, maxPrimaryKey: Option<Key>, versions: map<string, nat>)

  datatype PageOutcome = Copied | NoRecords | Raised

  class DbReplicatorInitial {
    const cfg: Config
    const api: ClickhouseApi
    var replicationTable: Option<string>
    var maxPrimaryKey: Option<Key>
    var saved: SavedCopy
    /** How often the process has died. */
    ghost var deaths: nat

    constructor (cfg: Config, api: ClickhouseApi, saved: SavedCopy)
      ensures this.cfg == cfg && this.api == api && this.saved == saved && deaths == 0
      ensures replicationTable == saved.table && maxPrimaryKey == saved.maxPrimaryKey
    {
      this.cfg := cfg;
      this.api := api;
      this.saved := saved;
      replicationTable := saved.table;
      maxPrimaryKey := saved.maxPrimaryKey;
      deaths := 0;
    }

    /** What can keep a copy from being completed: a death, or five failed attempts to send something. */
    ghost function Mishaps(): nat
      reads this, api
    {
      5 * deaths + api.failures
    }

    /** The copy stops before it is complete only because of one. */
    twostate predicate StopsByMishap(ok: bool)
      reads this, api
    {
      old(deaths) <= deaths && old(api.failures) <= api.failures && (!ok ==> old(Mishaps()) + 5 <= Mishaps())
    }

    method SaveState()
      modifies this`saved
      ensures saved == SavedCopy(replicationTable, maxPrimaryKey, api.tablesLastRecordVersion)
    {
      saved := SavedCopy(replicationTable, maxPrimaryKey, api.tablesLastRecordVersion);
    }

    /** A process that dies loses everything but the state file. The counters in it cover the stored versions only if
        nothing was inserted since. */
    method Restart()
      modifies this`replicationTable, this`maxPrimaryKey, api`tablesLastRecordVersion
      ensures replicationTable == saved.table && maxPrimaryKey == saved.maxPrimaryKey
      ensures api.tablesLastRecordVersion == saved.versions
      ensures api.Versions() <==> Bounded(api.tables, saved.versions, api.versionInitialValue)
    {
      replicationTable := saved.table;
      maxPrimaryKey := saved.maxPrimaryKey;
      api.tablesLastRecordVersion := saved.versions;
    }

    /** One page: query, insert, move the cursor to the last record, save if it is due by the clock. */
    method CopyPage(job: Job, now: nat, due: bool)
      returns (outcome: PageOutcome, keys: seq<Key>, ghost left: seq<Stored>, ghost batch: seq<Stored>)
      requires job.Valid() && job.cfg == cfg && now <= |job.log|
      modifies this, api
      ensures replicationTable == old(replicationTable)
      ensures IsPage(job.At(now), job.lt, old(maxPrimaryKey), job.mine, job.limit, keys)
              && (keys == [] <==> outcome == NoRecords)
      ensures |batch| == |keys| && forall i :: 0 <= i < |keys| ==> batch[i].key == keys[i]
      ensures Fresh(job, now, batch) && Leftovers(left, batch)
      ensures api.StoredIn(job.table) == old(api.StoredIn(job.table)) + left + if outcome == Copied then batch else []
      ensures api.OthersSame(job.table)
      ensures outcome != Copied ==> maxPrimaryKey == old(maxPrimaryKey) && saved == old(saved)
      ensures outcome == NoRecords ==> left == [] && api.tablesLastRecordVersion == old(api.tablesLastRecordVersion)
      ensures outcome == Copied ==> maxPrimaryKey == Some(keys[|keys| - 1])
      ensures outcome == Copied ==>
                saved == if due then SavedCopy(replicationTable, maxPrimaryKey, api.tablesLastRecordVersion)
                    else old(saved)
      ensures outcome != Raised && old(api.Versions()) ==> api.Versions()
      ensures deaths == old(deaths) && api.GivesUpAfterFive(outcome != Raised)
    {
      var table, ids, view := job.table, cfg.keyIds[job.table], job.At(now);
      KeyedAlways(cfg, table, job.source, job.log[..now]);
      keys := GetRecords(view, job.lt, maxPrimaryKey, job.mine, job.limit);
      left, batch := [], [];
      if keys == [] {
        assert api.StoredIn(table) + [] + [] == api.StoredIn(table);
        return NoRecords, keys, left, batch;
      }
      var records := RowsAt(view, keys);
      forall row | row in records
        ensures WideEnough(ids, row)
      {
        var i :| 0 <= i < |records| && records[i] == row;
        assert keys[i] in keys;
      }
      batch := Versioned(ids, records, api.GetLastUsedVersion(table) + 1);
      forall i | 0 <= i < |keys|
        ensures batch[i].key == keys[i] && ValueAt(view, batch[i].key) == Some(batch[i].row)
      {
        assert keys[i] in keys;
      }
      var ok: bool;
      ok, left := api.Insert(table, ids, records);
      if !ok {
        return Raised, keys, left, batch;
      }
      maxPrimaryKey := Some(keys[|keys| - 1]);
      if due {
        SaveState();
      }
      outcome := Copied;
    }

    /** The copy of a table is settled at the cursor in memory and at the one in the state file. */
    ghost predicate Copying(job: Job, now: nat)
      requires AllWellFormed(job.cfg, job.log) && job.from <= now <= |job.log|
      reads this, api
    {
      && replicationTable == saved.table == Some(job.table)
      && job.Settled(now, Final(api.StoredIn(job.table)), maxPrimaryKey)
      && job.Settled(now, Final(api.StoredIn(job.table)), saved.maxPrimaryKey)
    }

    /** One turn of the loop, with the source as it is at `moment`. */
    method CopyStep(job: Job, ghost now: nat, moment: nat, ghost first: Option<Key>, ghost copied: seq<Key>)
      returns (outcome: PageOutcome, ghost copied': seq<Key>)
      requires job.Valid() && job.cfg == cfg && job.from <= now <= moment <= |job.log|
      requires Copying(job, now) && Tracked(job, first, maxPrimaryKey, copied)
      modifies this, api
      ensures api.OthersSame(job.table)
      ensures outcome != Raised ==> Copying(job, moment)
      ensures outcome == Raised ==>
                && replicationTable == saved.table == Some(job.table)
                && job.Settled(moment, Final(api.StoredIn(job.table)), saved.maxPrimaryKey)
      ensures outcome == Copied ==>
                && Tracked(job, first, maxPrimaryKey, copied')
                && |KeysAhead(job.KeysEver(|job.log|), job.lt, maxPrimaryKey)| <
                   |KeysAhead(job.KeysEver(|job.log|), job.lt, old(maxPrimaryKey))|
      ensures outcome == NoRecords ==>
                job.Complete(moment, Final(api.StoredIn(job.table))) && AllTracked(job, first, copied')
      ensures old(api.StoredIn(job.table)) <= api.StoredIn(job.table)
      ensures outcome != Raised && old(api.Versions()) ==> api.Versions()
      ensures deaths == old(deaths) && api.GivesUpAfterFive(outcome != Raised)
    {
      ghost var cursor, savedCursor, rows := maxPrimaryKey, saved.maxPrimaryKey, api.StoredIn(job.table);
      var keys;
      ghost var left, batch;
      var due: bool := *;
      outcome, keys, left, batch := CopyPage(job, moment, due);
      copied' := copied + keys;
      match outcome {
        case NoRecords =>
          AfterEmptyPage(job, now, moment, rows, cursor, savedCursor, first, copied);
          assert copied + [] == copied;
        case Raised =>
          assert rows + left + [] == rows + left;
          LeftoversSettle(job, now, moment, rows, left, batch, savedCursor);
        case Copied =>
          AfterPage(job, now, moment, rows, left, batch, cursor, savedCursor, keys, first, copied);
      }
    }

    /** Where the copy of a table starts or continues. */
    function StartCursor(table: string): Option<Key>
      reads this
    {
      if replicationTable == Some(table) then maxPrimaryKey else None
    }

    /** Copies the table page by page, each page from the source as it is at that moment. The process may die,
        or an insert may raise, after any page; the state file then still describes a settled copy. */
    method PerformInitialReplicationTable(job: Job, start: nat) returns (ok: bool, now: nat, ghost copied: seq<Key>)
      requires job.Valid() && job.cfg == cfg && job.from <= start <= |job.log|
      requires replicationTable == Some(job.table) ==>
                 saved.table == Some(job.table) && saved.maxPrimaryKey == maxPrimaryKey
      requires job.Settled(start, Final(api.StoredIn(job.table)), StartCursor(job.table))
      modifies this, api
      ensures job.from <= start <= now <= |job.log| && api.OthersSame(job.table)
      ensures replicationTable == saved.table == Some(job.table)
      ensures ok ==> job.Complete(now, Final(api.StoredIn(job.table)))
      ensures job.Settled(now, Final(api.StoredIn(job.table)), saved.maxPrimaryKey)
      ensures ok && old(api.Versions()) ==> api.Versions()
      ensures ok ==> saved == SavedCopy(replicationTable, maxPrimaryKey, api.tablesLastRecordVersion)
      ensures ok ==> AllTracked(job, old(StartCursor(job.table)), copied)
      ensures StopsByMishap(ok)
    {
      if replicationTable != Some(job.table) {
        replicationTable := Some(job.table);
        maxPrimaryKey := None;
        SaveState();
      }
      ok, now, copied := CopyPages(job, start);
    }

    /** The loop over the pages. */
    method CopyPages(job: Job, start: nat) returns (ok: bool, now: nat, ghost copied: seq<Key>)
      requires job.Valid() && job.cfg == cfg && job.from <= start <= |job.log| && Copying(job, start)
      modifies this, api
      ensures start <= now <= |job.log| && api.OthersSame(job.table)
      ensures Copying(job, now) || (!ok && replicationTable == saved.table == Some(job.table)
                                    && job.Settled(now, Final(api.StoredIn(job.table)), saved.maxPrimaryKey))
      ensures ok ==> job.Complete(now, Final(api.StoredIn(job.table)))
      ensures ok && old(api.Versions()) ==> api.Versions()
      ensures ok ==> saved == SavedCopy(replicationTable, maxPrimaryKey, api.tablesLastRecordVersion)
      ensures ok ==> AllTracked(job, old(maxPrimaryKey), copied)
      ensures StopsByMishap(ok)
    {
      ghost var first := maxPrimaryKey;
      now, copied, ok := start, [], false;
      while true
        invariant start <= now <= |job.log| && api.OthersSame(job.table)
        invariant Copying(job, now) && Tracked(job, first, maxPrimaryKey, copied)
        invariant old(api.Versions()) ==> api.Versions()
        invariant old(deaths) <= deaths && old(api.failures) <= api.failures
        decreases |KeysAhead(job.KeysEver(|job.log|), job.lt, maxPrimaryKey)|
      {
        var moment: nat :| now <= moment <= |job.log|;
        var outcome;
        outcome, copied := CopyStep(job, now, moment, first, copied);
        now := moment;
        if outcome == NoRecords {
          SaveState();
          return true, now, copied;
        }
        var dies: bool := *;
        if dies {
          deaths := deaths + 1;
        }
        if outcome == Raised || dies {
          return;
        }
      }
    }

    /** Copies table `i` of the plan, from the start or from where it was left. */
    method CopyTableOf(plan: Plan, i: nat, start: nat) returns (ok: bool, now: nat)
      requires plan.Valid() && plan.cfg == cfg && plan.from <= start <= |plan.log| && i < |plan.tables|
      requires replicationTable == Some(plan.tables[i]) ==>
                 saved.table == replicationTable && saved.maxPrimaryKey == maxPrimaryKey
      requires plan.Stage(start, api.tables, i, StartCursor(plan.tables[i]))
      modifies this, api
      ensures start <= now <= |plan.log| && replicationTable == Some(plan.tables[i])
      ensures ok ==> plan.CopiedTo(now, api.tables, i + 1) && plan.EmptyFrom(api.tables, i + 1)
      ensures !ok ==> plan.Resumable(now, api.tables, saved.table, saved.maxPrimaryKey)
      ensures ok && old(api.Versions()) ==> api.Versions()
      ensures StopsByMishap(ok)
    {
      ghost var before, copied := api.tables, [];
      ok, now, copied := PerformInitialReplicationTable(plan.JobOf(plan.tables[i]), start);
      plan.FinishTable(start, now, before, api.tables, i);
    }

    /** Copies the tables in order. A restarted process skips the tables before the saved one, continues that one
        from the saved cursor, and goes on with the rest; it can be interrupted and restarted again. */
    method PerformInitialReplication(plan: Plan, start: nat) returns (ok: bool, now: nat)
      requires plan.Valid() && plan.cfg == cfg && plan.from <= start <= |plan.log|
      requires replicationTable == saved.table && maxPrimaryKey == saved.maxPrimaryKey
      requires plan.Resumable(start, api.tables, saved.table, saved.maxPrimaryKey)
      modifies this, api
      ensures start <= now <= |plan.log|
      ensures ok ==> plan.CopiedTo(now, api.tables, |plan.tables|)
      ensures !ok ==> plan.Resumable(now, api.tables, saved.table, saved.maxPrimaryKey)
      ensures ok && old(api.Versions()) ==> api.Versions()
      ensures StopsByMishap(ok)
    {
      var startTable := replicationTable;
      ghost var k := plan.StageOf(startTable);
      ok, now := true, start;
      for i := 0 to |plan.tables|
        invariant start <= now <= |plan.log| && ok
        invariant old(deaths) <= deaths && old(api.failures) <= api.failures
        invariant old(api.Versions()) ==> api.Versions()
        invariant startTable.Some? ==>
                    && i <= k < |plan.tables| && plan.tables[k] == startTable.value
                    && replicationTable == saved.table == startTable && maxPrimaryKey == saved.maxPrimaryKey
                    && plan.Stage(now, api.tables, k, maxPrimaryKey)
        invariant startTable.None? ==>
                    && plan.CopiedTo(now, api.tables, i) && plan.EmptyFrom(api.tables, i)
                    && forall j :: i <= j < |plan.tables| ==> replicationTable != Some(plan.tables[j])
      {
        if startTable.Some? && plan.tables[i] != startTable.value {
          continue;
        }
        if startTable.None? {
          plan.BeginTable(now, api.tables, i);
        }
        ok, now := CopyTableOf(plan, i, now);
        if !ok {
          return;
        }
        startTable := None;
      }
    }

    /** The whole copy, over any number of processes that die in the middle of it. Each goes on from the state file of
        the one before. The counters are good in the end if the last process began with good ones. */
    method CopyWithRestarts(plan: Plan, start: nat, restarts: nat) returns (ok: bool, now: nat, ghost covered: bool)
      requires plan.Valid() && plan.cfg == cfg && plan.from <= start <= |plan.log|
      requires replicationTable == saved.table && maxPrimaryKey == saved.maxPrimaryKey
      requires plan.Resumable(start, api.tables, saved.table, saved.maxPrimaryKey)
      modifies this, api
      ensures start <= now <= |plan.log|
      ensures ok ==> plan.CopiedTo(now, api.tables, |plan.tables|)
      ensures !ok ==> plan.Resumable(now, api.tables, saved.table, saved.maxPrimaryKey)
      ensures ok && covered ==> api.Versions()
      ensures restarts == 0 ==> covered == old(api.Versions())
      ensures !ok ==> Mishaps() >= old(Mishaps()) + 5 * (restarts + 1)
    {
      covered := api.Versions();
      ok, now := PerformInitialReplication(plan, start);
      var left := restarts;
      while !ok && left > 0
        invariant start <= now <= |plan.log|
        invariant ok ==> plan.CopiedTo(now, api.tables, |plan.tables|)
        invariant !ok ==> plan.Resumable(now, api.tables, saved.table, saved.maxPrimaryKey)
        invariant ok && covered ==> api.Versions()
        invariant restarts == 0 ==> covered == old(api.Versions())
        invariant left <= restarts && (!ok ==> Mishaps() >= old(Mishaps()) + 5 * (restarts + 1 - left))
        decreases left
      {
        Restart();
        covered := api.Versions();
        ok, now := PerformInitialReplication(plan, now);
        left := left - 1;
      }
    }
  }

  /** A database to copy. */
  datatype Plan = Plan(cfg: Config, tables: seq<string>, sources: map<string, Table>, log: seq<LogEvent>, from: nat,
                       lt: Order, limit: nat)
  {
    function JobOf(table: string): Job {
      Job(cfg, table, ViewOf(sources, table), log, from, lt, (_: Key) => true, limit)
    }

    ghost predicate Valid() {
      && AllWellFormed(cfg, log) && from <= |log|
      && (forall i, j :: 0 <= i < j < |tables| ==> tables[i] != tables[j])
      && (forall i :: 0 <= i < |tables| ==> JobOf(tables[i]).Valid())
    }

    /** The first `k` tables are completely copied. */
    ghost predicate CopiedTo(now: nat, server: Server, k: nat)
      requires AllWellFormed(cfg, log) && from <= now <= |log| && k <= |tables|
    {
      forall i :: 0 <= i < k ==> JobOf(tables[i]).Complete(now, Final(RowsOf(server, tables[i])))
    }

    ghost predicate EmptyFrom(server: Server, k: nat) {
      forall i :: k <= i < |tables| ==> RowsOf(server, tables[i]) == []
    }

    /** The copy is in the middle of table `k`. */
    ghost predicate Stage(now: nat, server: Server, k: nat, cursor: Option<Key>)
      requires AllWellFormed(cfg, log) && from <= now <= |log| && k < |tables|
    {
      && CopiedTo(now, server, k) && EmptyFrom(server, k + 1)
      && JobOf(tables[k]).Settled(now, Final(RowsOf(server, tables[k])), cursor)
    }

    ghost function StageOf(table: Option<string>): nat {
      if table.Some? && table.value in tables then
        var k :| 0 <= k < |tables| && tables[k] == table.value; k
      else 0
    }

    /** What a saved table and cursor promise about the server. */
    ghost predicate Resumable(now: nat, server: Server, table: Option<string>, cursor: Option<Key>)
      requires AllWellFormed(cfg, log) && from <= now <= |log|
    {
      if table.None? then EmptyFrom(server, 0)
      else table.value in tables && Stage(now, server, StageOf(table), cursor)
    }

    lemma BeginTable(now: nat, server: Server, i: nat)
      requires Valid() && from <= now <= |log| && i < |tables|
      requires CopiedTo(now, server, i) && EmptyFrom(server, i)
      ensures Stage(now, server, i, None)
    {
    }

    lemma FinishTable(now: nat, later: nat, before: Server, after: Server, i: nat)
      requires Valid() && from <= now <= later <= |log| && i < |tables|
      requires CopiedTo(now, before, i) && EmptyFrom(before, i + 1)
      requires forall other :: other != tables[i] ==> RowsOf(after, other) == RowsOf(before, other)
      ensures CopiedTo(later, after, i) && EmptyFrom(after, i + 1)
    {
    }
  }

  /** The keys copied so far ascend from the first cursor to the current one. */
  ghost predicate UpTo(lt: Order, first: Option<Key>, cursor: Option<Key>, copied: seq<Key>) {
    && OrderedBy(lt, copied)
    && (forall key :: key in copied ==> Beyond(lt, first, key) && !Beyond(lt, cursor, key))
    && (copied == [] ==> cursor == first)
    && (first.Some? ==> cursor.Some? && !lt(cursor.value, first.value))
  }

  /** Of a table at rest, everything up to the cursor has been copied, and nothing else. */
  ghost predicate CopiedAll(view: Table, lt: Order, first: Option<Key>, cursor: Option<Key>, mine: Key -> bool,
                            copied: seq<Key>) {
    forall key :: key in copied <==> key in Selected(view, lt, first, mine) && !Beyond(lt, cursor, key)
  }

  lemma PageExtends(view: Table, lt: Order, first: Option<Key>, cursor: Option<Key>, mine: Key -> bool, limit: nat,
                    copied: seq<Key>, keys: seq<Key>)
    requires StrictTotalOrder(lt) && UpTo(lt, first, cursor, copied)
    requires IsPage(view, lt, cursor, mine, limit, keys) && keys != []
    ensures UpTo(lt, first, Some(keys[|keys| - 1]), copied + keys)
    ensures CopiedAll(view, lt, first, cursor, mine, copied) ==>
              CopiedAll(view, lt, first, Some(keys[|keys| - 1]), mine, copied + keys)
  {
    var end := keys[|keys| - 1];
    assert end in keys;
    forall i, j | 0 <= i < j < |copied + keys|
      ensures lt((copied + keys)[i], (copied + keys)[j])
    {
      if i < |copied| <= j {
        assert copied[i] in copied && keys[j - |copied|] in keys;
      }
    }
    forall key | key in keys
      ensures !lt(end, key)
    {
      var i :| 0 <= i < |keys| && keys[i] == key;
    }
  }

  lemma NothingAhead(view: Table, lt: Order, first: Option<Key>, cursor: Option<Key>, mine: Key -> bool, limit: nat,
                     copied: seq<Key>)
    requires StrictTotalOrder(lt) && 0 < limit && UpTo(lt, first, cursor, copied)
    ensures IsPage(view, lt, cursor, mine, limit, []) && CopiedAll(view, lt, first, cursor, mine, copied) ==>
              forall key :: key in copied <==> key in Selected(view, lt, first, mine)
  {
    if IsPage(view, lt, cursor, mine, limit, []) && CopiedAll(view, lt, first, cursor, mine, copied) {
      forall key | key in Selected(view, lt, first, mine)
        ensures key in copied
      {
        assert Beyond(lt, cursor, key) ==> key in Selected(view, lt, cursor, mine);
      }
    }
  }

  ghost predicate Tracked(job: Job, first: Option<Key>, cursor: Option<Key>, copied: seq<Key>)
    requires AllWellFormed(job.cfg, job.log)
  {
    && UpTo(job.lt, first, cursor, copied)
    && (job.from == |job.log| ==> CopiedAll(job.At(|job.log|), job.lt, first, cursor, job.mine, copied))
  }

  /** The keys were copied in order, none of them twice; of a table at rest, all of them were. */
  ghost predicate AllTracked(job: Job, first: Option<Key>, copied: seq<Key>)
    requires AllWellFormed(job.cfg, job.log)
  {
    && OrderedBy(job.lt, copied)
    && (job.from == |job.log| ==>
          forall key :: key in copied <==> key in Selected(job.At(|job.log|), job.lt, first, job.mine))
  }

  lemma AfterPage(job: Job, now: nat, moment: nat, rows: seq<Stored>, left: seq<Stored>, batch: seq<Stored>,
                  cursor: Option<Key>, savedCursor: Option<Key>, keys: seq<Key>, first: Option<Key>, copied: seq<Key>)
    requires job.Valid() && job.from <= now <= moment <= |job.log|
    requires job.Settled(now, Final(rows), cursor) && job.Settled(now, Final(rows), savedCursor)
    requires Tracked(job, first, cursor, copied)
    requires IsPage(job.At(moment), job.lt, cursor, job.mine, job.limit, keys) && keys != []
    requires Leftovers(left, batch) && Fresh(job, moment, batch)
    requires |batch| == |keys| && forall i :: 0 <= i < |keys| ==> batch[i].key == keys[i]
    ensures job.Settled(moment, Final(rows + left + batch), Some(keys[|keys| - 1]))
    ensures job.Settled(moment, Final(rows + left + batch), savedCursor)
    ensures Tracked(job, first, Some(keys[|keys| - 1]), copied + keys)
    ensures |KeysAhead(job.KeysEver(|job.log|), job.lt, Some(keys[|keys| - 1]))| <
            |KeysAhead(job.KeysEver(|job.log|), job.lt, cursor)|
  {
    PageSettles(job, now, moment, rows, left, batch, cursor, keys);
    Associative(rows, left, batch);
    LeftoversSettle(job, now, moment, rows, left + batch, batch, savedCursor);
    KeysEverCovers(job, moment, |job.log|);
    assert keys[|keys| - 1] in keys;
    CursorAdvances(job.KeysEver(|job.log|), job.lt, cursor, keys[|keys| - 1]);
    PageTracked(job, moment, first, cursor, copied, keys);
  }

  lemma PageTracked(job: Job, moment: nat, first: Option<Key>, cursor: Option<Key>, copied: seq<Key>, keys: seq<Key>)
    requires job.Valid() && job.from <= moment <= |job.log|
    requires Tracked(job, first, cursor, copied)
    requires IsPage(job.At(moment), job.lt, cursor, job.mine, job.limit, keys) && keys != []
    ensures Tracked(job, first, Some(keys[|keys| - 1]), copied + keys)
  {
    PageExtends(job.At(moment), job.lt, first, cursor, job.mine, job.limit, copied, keys);
  }

  lemma AfterEmptyPage(job: Job, now: nat, moment: nat, rows: seq<Stored>, cursor: Option<Key>,
                       savedCursor: Option<Key>,
                       first: Option<Key>, copied: seq<Key>)
    requires job.Valid() && job.from <= now <= moment <= |job.log|
    requires job.Settled(now, Final(rows), cursor) && job.Settled(now, Final(rows), savedCursor)
    requires Tracked(job, first, cursor, copied)
    requires IsPage(job.At(moment), job.lt, cursor, job.mine, job.limit, [])
    ensures rows + [] + [] == rows
    ensures job.Complete(moment, Final(rows)) && AllTracked(job, first, copied)
    ensures job.Settled(moment, Final(rows), cursor) && job.Settled(moment, Final(rows), savedCursor)
  {
    EmptyPageCompletes(job, now, moment, Final(rows), cursor);
    assert rows + [] == rows;
    LeftoversSettle(job, now, moment, rows, [], [], cursor);
    LeftoversSettle(job, now, moment, rows, [], [], savedCursor);
    NothingAhead(job.At(moment), job.lt, first, cursor, job.mine, job.limit, copied);
  }
}
