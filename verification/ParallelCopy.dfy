/** The copy of one table by several worker processes, page by page in any order. */
module ParallelCopy {
  import opened Events
  import opened Reference
  import opened ClickHouse
  import opened InitialCopy

  /** The share of a worker: the keys whose hash leaves its number as the remainder. */
  function WorkerJob(job: Job, hash: Key -> nat, total: nat, w: nat): Job
    requires 0 < total
  {
    job.(mine := key => hash(key) % total == w)
  }

  /** What a worker process remembers between two pages, and what it last wrote into its state file. `share` is the
      number of the worker; two processes may have the same one, if workers are launched while others are still
      running. */
  datatype Worker = Worker(share: nat, cursor: Option<Key>, saved: SavedCopy, versions: map<string, nat>, done: bool)

  /** Where a worker begins that finds this state file. */
  function CursorIn(table: string, saved: SavedCopy): Option<Key> {
    if saved.table == Some(table) then saved.maxPrimaryKey else None
  }

  /** The copy of a worker's share is settled at its cursor and at the one in its state file. */
  ghost predicate WorkerStands(job: Job, now: nat, view: Table, worker: Worker)
    requires AllWellFormed(job.cfg, job.log) && job.from <= now <= |job.log|
  {
    && (!worker.done ==> worker.saved.table == Some(job.table))
    && job.Settled(now, view, worker.cursor) && job.Settled(now, view, CursorIn(job.table, worker.saved))
    && (worker.done ==> job.Complete(now, view))
  }

  lemma {:induction false} StaysVisible(rows: seq<Stored>, more: seq<Stored>)
    requires rows <= more
    ensures Final(rows).Keys <= Final(more).Keys
    decreases |more|
  {
    if |rows| < |more| {
      StaysVisible(rows, more[..|more| - 1]);
    } else {
      assert rows == more;
    }
  }

  /** What another worker inserts spoils nothing: it shows keys of the source as they have been since the start. */
  lemma OtherSettled(job: Job, now: nat, later: nat, view: Table, after: Table, cursor: Option<Key>)
    requires job.Valid() && job.from <= now <= later <= |job.log|
    requires view.Keys <= after.Keys && forall key :: key in after ==> job.Read(later, after, key)
    ensures job.Settled(now, view, cursor) ==> job.Settled(later, after, cursor)
    ensures job.Complete(now, view) ==> job.Complete(later, after)
  {
    forall key | key !in after && job.Read(now, view, key)
      ensures job.Read(later, after, key)
    {
      ReadLater(job, now, later, view, after, key);
    }
  }

  lemma OtherStands(job: Job, now: nat, later: nat, view: Table, after: Table, worker: Worker)
    requires job.Valid() && job.from <= now <= later <= |job.log|
    requires view.Keys <= after.Keys && forall key :: key in after ==> job.Read(later, after, key)
    requires WorkerStands(job, now, view, worker)
    ensures WorkerStands(job, later, after, worker)
  {
    OtherSettled(job, now, later, view, after, worker.cursor);
    OtherSettled(job, now, later, view, after, CursorIn(job.table, worker.saved));
  }

  lemma WorkerJobValid(job: Job, hash: Key -> nat, total: nat, w: nat)
    requires job.Valid() && 0 < total
    ensures WorkerJob(job, hash, total, w).Valid()
  {
  }

  ghost predicate AllStand(job: Job, hash: Key -> nat, total: nat, now: nat, view: Table, workers: seq<Worker>)
    requires AllWellFormed(job.cfg, job.log) && job.from <= now <= |job.log| && 0 < total
  {
    forall w :: 0 <= w < |workers| ==>
          WorkerStands(WorkerJob(job, hash, total, workers[w].share), now, view, workers[w])
  }

  /** The keys a worker has copied so far are those of its share up to its cursor, and all of them when it is done. */
  ghost predicate Records(job: Job, first: Option<Key>, worker: Worker, copied: seq<Key>)
    requires AllWellFormed(job.cfg, job.log)
  {
    if worker.done then AllTracked(job, first, copied) else Tracked(job, first, worker.cursor, copied)
  }

  ghost predicate AllRecord(job: Job, hash: Key -> nat, total: nat, firsts: seq<Option<Key>>, workers: seq<Worker>,
                            copied: seq<seq<Key>>)
    requires AllWellFormed(job.cfg, job.log) && 0 < total
  {
    && |firsts| == |copied| == |workers|
    && forall w :: 0 <= w < |workers| ==>
         Records(WorkerJob(job, hash, total, workers[w].share), firsts[w], workers[w], copied[w])
  }

  /** A worker that is done removes its state file. */
  const NO_STATE := SavedCopy(None, None, map[])

  /** How many of the keys the table ever holds are still ahead of the cursor. */
  ghost function KeysLeft(job: Job, worker: Worker): nat
    requires AllWellFormed(job.cfg, job.log)
  {
    |KeysAhead(job.KeysEver(|job.log|), job.lt, worker.cursor)|
  }

  lemma {:induction false} SameKeysEver(job: Job, hash: Key -> nat, total: nat, share: nat, moment: nat)
    requires job.Valid() && 0 < total && moment <= |job.log|
    ensures WorkerJob(job, hash, total, share).KeysEver(moment) == job.KeysEver(moment)
  {
    assert WorkerJob(job, hash, total, share).At(moment) == job.At(moment);
    if moment > 0 {
      SameKeysEver(job, hash, total, share, moment - 1);
    }
  }

  lemma SameKeysLeft(job: Job, hash: Key -> nat, total: nat, share: nat, worker: Worker)
    requires job.Valid() && 0 < total
    ensures KeysLeft(WorkerJob(job, hash, total, share), worker) == KeysLeft(job, worker) <= |job.KeysEver(|job.log|)|
  {
    SameKeysEver(job, hash, total, share, |job.log|);
    Smaller(KeysAhead(job.KeysEver(|job.log|), job.lt, worker.cursor), job.KeysEver(|job.log|));
  }

  /** A worker process copies one page; it talks to the server the others talk to, with counters of its own. */
  method WorkerPage(settings: ClickhouseApi, job: Job, server: Server, worker: Worker, ghost now: nat, moment: nat,
                    ghost first: Option<Key>, ghost copied: seq<Key>)
    returns (outcome: PageOutcome, after: Server, worker': Worker, ghost copied': seq<Key>, ghost failed: nat)
    requires settings.Valid() && job.Valid() && job.from <= now <= moment <= |job.log| && !worker.done
    requires WorkerStands(job, now, Final(RowsOf(server, job.table)), worker) && Records(job, first, worker, copied)
    ensures RowsOf(server, job.table) <= RowsOf(after, job.table)
    ensures forall other :: other != job.table ==> RowsOf(after, other) == RowsOf(server, other)
    ensures job.Settled(moment, Final(RowsOf(after, job.table)), CursorIn(job.table, worker'.saved))
            && worker'.share == worker.share
    ensures outcome != Raised ==>
              WorkerStands(job, moment, Final(RowsOf(after, job.table)), worker')
              && Records(job, first, worker', copied')
    ensures outcome == Raised ==> failed >= 5
    ensures outcome != Raised ==> worker'.done || KeysLeft(job, worker') < KeysLeft(job, worker)
  {
    var api := new ClickhouseApi(settings.versionInitialValue, settings.eraseBatchSize);
    api.tables := server;
    api.tablesLastRecordVersion := worker.versions;
    var replicator := new DbReplicatorInitial(job.cfg, api, worker.saved);
    replicator.maxPrimaryKey := worker.cursor;
    outcome, copied' := replicator.CopyStep(job, now, moment, first, copied);
    failed, after := api.failures, api.tables;
    worker' :=
        Worker(worker.share, replicator.maxPrimaryKey, if outcome == NoRecords then NO_STATE else replicator.saved,
                      api.tablesLastRecordVersion, outcome == NoRecords);
  }

  lemma ReadByAll(job: Job, hash: Key -> nat, total: nat, w: nat, now: nat, view: Table, cursor: Option<Key>)
    requires job.Valid() && 0 < total && job.from <= now <= |job.log|
    requires WorkerJob(job, hash, total, w).Settled(now, view, cursor)
    ensures forall v: nat, key :: key in view ==> WorkerJob(job, hash, total, v).Read(now, view, key)
  {
    forall v: nat, key | key in view
      ensures WorkerJob(job, hash, total, v).Read(now, view, key)
    {
      assert WorkerJob(job, hash, total, w).Read(now, view, key);
    }
  }

  /** After a page of a worker, all processes stand where they stood. */
  lemma OthersStand(job: Job, hash: Key -> nat, total: nat, workers: seq<Worker>, share: nat, now: nat, later: nat,
                    rows: seq<Stored>, more: seq<Stored>, cursor: Option<Key>)
    requires job.Valid() && job.from <= now <= later <= |job.log| && 0 < total
    requires AllStand(job, hash, total, now, Final(rows), workers) && rows <= more
    requires WorkerJob(job, hash, total, share).Settled(later, Final(more), cursor)
    ensures AllStand(job, hash, total, later, Final(more), workers)
  {
    StaysVisible(rows, more);
    ReadByAll(job, hash, total, share, later, Final(more), cursor);
    forall v | 0 <= v < |workers|
      ensures WorkerStands(WorkerJob(job, hash, total, workers[v].share), later, Final(more), workers[v])
    {
      WorkerJobValid(job, hash, total, workers[v].share);
      OtherStands(WorkerJob(job, hash, total, workers[v].share), now, later, Final(rows), Final(more), workers[v]);
    }
  }

  /** A process copies its next page. If it fails, all stand where they stood. */
  method TakeTurn(settings: ClickhouseApi, job: Job, hash: Key -> nat, total: nat, server: Server, workers: seq<Worker>,
                  w: nat,
                  ghost now: nat, moment: nat, ghost firsts: seq<Option<Key>>, ghost copied: seq<seq<Key>>)
    returns (ok: bool, after: Server, workers': seq<Worker>, ghost copied': seq<seq<Key>>, ghost failed: nat)
    requires settings.Valid() && job.Valid() && job.from <= now <= moment <= |job.log| && 0 < total && w < |workers|
             && !workers[w].done
    requires AllStand(job, hash, total, now, Final(RowsOf(server, job.table)), workers)
    requires AllRecord(job, hash, total, firsts, workers, copied)
    ensures SameElsewhere(server, after, job.table)
    ensures AllStand(job, hash, total, moment, Final(RowsOf(after, job.table)), workers')
    ensures SameShares(workers, workers') && AllRecord(job, hash, total, firsts, workers', copied')
    ensures !ok ==> failed >= 5 && workers' == workers
    ensures ok ==> workers' == workers[w := workers'[w]]
                   && (workers'[w].done || KeysLeft(job, workers'[w]) < KeysLeft(job, workers[w]))
  {
    var share := workers[w].share;
    WorkerJobValid(job, hash, total, share);
    var outcome, worker;
    ghost var keys;
    outcome, after, worker, keys, failed :=
      WorkerPage(settings, WorkerJob(job, hash, total, share), server, workers[w], now, moment, firsts[w], copied[w]);
    OthersStand(job, hash, total, workers, share, now, moment, RowsOf(server, job.table), RowsOf(after, job.table),
                CursorIn(job.table, worker.saved));
    SameKeysLeft(job, hash, total, share, workers[w]);
    SameKeysLeft(job, hash, total, share, worker);
    ok := outcome != Raised;
    copied' := if ok then copied[w := keys] else copied;
    workers' := if ok then workers[w := worker] else workers;
  }

  ghost predicate SameShares(workers: seq<Worker>, workers': seq<Worker>) {
    |workers'| == |workers| && forall w :: 0 <= w < |workers| ==> workers'[w].share == workers[w].share
  }

  /** Workers may be launched with these state files. */
  ghost predicate AllResumable(job: Job, hash: Key -> nat, now: nat, view: Table, saved: seq<SavedCopy>)
    requires AllWellFormed(job.cfg, job.log) && job.from <= now <= |job.log|
  {
    forall w :: 0 <= w < |saved| ==> WorkerJob(job, hash, |saved|, w).Settled(now, view, CursorIn(job.table, saved[w]))
  }

  /** What a worker's state file may hold: what one of its processes has last written, or nothing. */
  ghost predicate LeftBy(workers: seq<Worker>, share: nat, saved: SavedCopy) {
    saved == NO_STATE || exists w :: 0 <= w < |workers| && workers[w].share == share && workers[w].saved == saved
  }

  /** From what processes have left in their state files all workers can be launched again. */
  lemma LeftResumable(job: Job, hash: Key -> nat, now: nat, view: Table, workers: seq<Worker>, saved: seq<SavedCopy>)
    requires job.Valid() && job.from <= now <= |job.log| && saved != []
    requires AllStand(job, hash, |saved|, now, view, workers) && workers != []
    requires forall share :: 0 <= share < |saved| ==> LeftBy(workers, share, saved[share])
    ensures AllResumable(job, hash, now, view, saved)
  {
    assert WorkerStands(WorkerJob(job, hash, |saved|, workers[0].share), now, view, workers[0]);
    ReadByAll(job, hash, |saved|, workers[0].share, now, view, workers[0].cursor);
    forall share | 0 <= share < |saved|
      ensures WorkerJob(job, hash, |saved|, share).Settled(now, view, CursorIn(job.table, saved[share]))
    {
      assert LeftBy(workers, share, saved[share]);
      if saved[share] != NO_STATE {
        var w :| 0 <= w < |workers| && workers[w].share == share && workers[w].saved == saved[share];
        assert WorkerStands(WorkerJob(job, hash, |saved|, workers[w].share), now, view, workers[w]);
      }
    }
  }

  /** A worker process starts. */
  function Launched(table: string, share: nat, saved: SavedCopy): Worker {
    Worker(share, CursorIn(table, saved),
           if saved.table == Some(table) then saved
               else SavedCopy(Some(table), None, saved.versions), saved.versions, false)
  }

  lemma LaunchRecords(job: Job, first: Option<Key>)
    requires job.Valid()
    ensures Tracked(job, first, first, [])
  {
  }

  method Launch(job: Job, hash: Key -> nat, states: seq<SavedCopy>, ghost now: nat, ghost view: Table)
    returns (workers: seq<Worker>)
    requires job.Valid() && job.from <= now <= |job.log| && AllResumable(job, hash, now, view, states) && states != []
    ensures |workers| == |states| && AllStand(job, hash, |states|, now, view, workers)
    ensures forall w :: 0 <= w < |states| ==> workers[w] == Launched(job.table, w, states[w])
  {
    workers := seq(|states|, w requires 0 <= w < |states| => Launched(job.table, w, states[w]));
  }

  ghost function CursorsOf(workers: seq<Worker>): seq<Option<Key>> {
    seq(|workers|, w requires 0 <= w < |workers| => workers[w].cursor)
  }

  /** Nothing has been copied since this moment. */
  lemma NothingRecorded(job: Job, hash: Key -> nat, total: nat, workers: seq<Worker>)
    requires job.Valid() && 0 < total && forall w :: 0 <= w < |workers| ==> !workers[w].done
    ensures AllRecord(job, hash, total, CursorsOf(workers), workers, seq(|workers|, _ => []))
  {
    var copied: seq<seq<Key>> := seq(|workers|, _ => []);
    forall w | 0 <= w < |workers|
      ensures Records(WorkerJob(job, hash, total, workers[w].share), CursorsOf(workers)[w], workers[w], copied[w])
    {
      WorkerJobValid(job, hash, total, workers[w].share);
      LaunchRecords(WorkerJob(job, hash, total, workers[w].share), workers[w].cursor);
    }
  }

  ghost predicate EveryKeyRead(job: Job, now: nat, view: Table)
    requires AllWellFormed(job.cfg, job.log) && job.from <= now <= |job.log|
  {
    forall key :: job.Read(now, view, key)
  }

  /** Every share has a process that is done. */
  ghost predicate SharesDone(workers: seq<Worker>, total: nat) {
    total <= |workers| && forall w :: 0 <= w < total ==> workers[w].share == w && workers[w].done
  }

  /** Then every key has been read. */
  lemma AllDone(job: Job, hash: Key -> nat, total: nat, now: nat, view: Table, workers: seq<Worker>)
    requires job.Valid() && job.from <= now <= |job.log| && 0 < total
    requires AllStand(job, hash, total, now, view, workers) && SharesDone(workers, total)
    ensures EveryKeyRead(job, now, view)
  {
    forall key
      ensures job.Read(now, view, key)
    {
      var w := hash(key) % total;
      var mine := WorkerJob(job, hash, total, w);
      assert WorkerStands(mine, now, view, workers[w]);
      assert mine.mine(key);
      assert mine.Read(now, view, key);
    }
  }

  /** The keys of different workers are different, none is copied twice, and together they are all the keys. */
  ghost predicate Partition(view: Table, copied: seq<seq<Key>>) {
    && (forall key :: key in view <==> exists w :: 0 <= w < |copied| && key in copied[w])
    && (forall v, w, key :: 0 <= v < w < |copied| ==> !(key in copied[v] && key in copied[w]))
    && (forall w, i, j :: 0 <= w < |copied| && 0 <= i < j < |copied[w]| ==> copied[w][i] != copied[w][j])
  }

  /** Workers that start afresh on a table at rest copy every key of it exactly once. */
  lemma WorkersPartition(job: Job, hash: Key -> nat, copied: seq<seq<Key>>)
    requires job.Valid() && job.from == |job.log| && copied != []
    requires forall w :: 0 <= w < |copied| ==> AllTracked(WorkerJob(job, hash, |copied|, w), None, copied[w])
    ensures Partition(job.At(|job.log|), copied)
  {
    var view, total := job.At(|job.log|), |copied|;
    forall w, key | 0 <= w < total
      ensures key in copied[w] <==> key in view && hash(key) % total == w
    {
      assert AllTracked(WorkerJob(job, hash, total, w), None, copied[w]);
      assert key in copied[w] <==> key in Selected(view, job.lt, None, WorkerJob(job, hash, total, w).mine);
    }
    forall key | key in view
      ensures exists w :: 0 <= w < total && key in copied[w]
    {
      assert key in copied[hash(key) % total];
    }
    forall w, i, j | 0 <= w < total && 0 <= i < j < |copied[w]|
      ensures copied[w][i] != copied[w][j]
    {
      assert AllTracked(WorkerJob(job, hash, total, w), None, copied[w]);
    }
  }

  /** SELECT MAX(_version); None if there are no rows. */
  method GetMaxRecordVersion(rows: seq<Stored>) returns (r: Option<nat>)
    ensures r.None? <==> rows == []
    ensures r.Some? ==> VersionsAtMost(rows, r.value) && exists s :: s in rows && s.version == r.value
  {
    r := None;
    for i := 0 to |rows|
      invariant r.None? <==> i == 0
      invariant r.Some? ==> VersionsAtMost(rows[..i], r.value) && exists s :: s in rows[..i] && s.version == r.value
    {
      assert rows[..i + 1] == rows[..i] + [rows[i]];
      if r.None? || r.value < rows[i].version {
        assert rows[i] in rows[..i + 1];
        r := Some(rows[i].version);
      }
    }
    assert rows[..|rows|] == rows;
  }

  /** Raises the counter of the table to the highest stored version, whichever worker stored it; nothing is done if
      the query fails. */
  method ConsolidateWorkerRecordVersions(api: ClickhouseApi, table: string)
    returns (answered: bool, ghost failed: nat)
    modifies api`tablesLastRecordVersion
    ensures answered <==> failed == 0
    ensures answered ==> VersionsAtMost(api.StoredIn(table), api.GetLastUsedVersion(table))
    ensures !answered ==> api.tablesLastRecordVersion == old(api.tablesLastRecordVersion)
    ensures forall other :: other != table ==>
              CounterOf(api.tablesLastRecordVersion, api.versionInitialValue, other) ==
              old(CounterOf(api.tablesLastRecordVersion, api.versionInitialValue, other))
  {
    answered, failed := *, 0;
    if !answered {
      failed := 1;
    } else {
      var highest := GetMaxRecordVersion(api.StoredIn(table));
      var current := if table in api.tablesLastRecordVersion then api.tablesLastRecordVersion[table] else 0;
      if highest.Some? && highest.value > 0 && highest.value > current {
        api.tablesLastRecordVersion := api.tablesLastRecordVersion[table := highest.value];
      }
    }
  }

  ghost predicate SameElsewhere(server: Server, after: Server, table: string) {
    forall other :: other != table ==> RowsOf(after, other) == RowsOf(server, other)
  }

  /** Those waited for are done, or have fewer keys left for every turn they have had. */
  ghost predicate Progress(job: Job, total: nat, workers: seq<Worker>, turns: seq<nat>)
    requires AllWellFormed(job.cfg, job.log)
  {
    forall w :: 0 <= w < total && w < |workers| ==>
      workers[w].done || multiset(turns)[w] + KeysLeft(job, workers[w]) <= |job.KeysEver(|job.log|)|
  }

  lemma NoTurns(job: Job, hash: Key -> nat, total: nat, workers: seq<Worker>)
    requires job.Valid() && 0 < total
    ensures Progress(job, total, workers, [])
  {
    forall w | 0 <= w < |workers|
      ensures KeysLeft(job, workers[w]) <= |job.KeysEver(|job.log|)|
    {
      SameKeysLeft(job, hash, total, 0, workers[w]);
    }
  }

  lemma OneTurn(job: Job, total: nat, workers: seq<Worker>, workers': seq<Worker>, turns: seq<nat>, w: nat)
    requires AllWellFormed(job.cfg, job.log) && Progress(job, total, workers, turns)
    requires |workers'| == |workers| && forall v :: 0 <= v < |workers| && v != w ==> workers'[v] == workers[v]
    requires w < total && w < |workers| ==>
               workers'[w].done || (!workers[w].done && KeysLeft(job, workers'[w]) < KeysLeft(job, workers[w]))
    ensures Progress(job, total, workers', turns + [w])
  {
    assert multiset(turns + [w]) == multiset(turns) + multiset{w};
  }

  /** The processes take turns in the order of the schedule, each page from the source as it is at that moment. The
      first `total` of them are waited for, and if one of these fails, that is the end. Others are left from an earlier
      launch. */
  method TakeTurns(settings: ClickhouseApi, job: Job, hash: Key -> nat, total: nat, server: Server,
                   launched: seq<Worker>,
                   schedule: seq<nat>, start: nat)
    returns (ok: bool, now: nat, after: Server, workers: seq<Worker>, ghost copied: seq<seq<Key>>, ghost failed: nat)
    requires settings.Valid() && job.Valid() && job.from <= start <= |job.log| && 0 < total
    requires forall w :: 0 <= w < |launched| ==> !launched[w].done
    requires AllStand(job, hash, total, start, Final(RowsOf(server, job.table)), launched)
    ensures start <= now <= |job.log| && SameElsewhere(server, after, job.table) && SameShares(launched, workers)
    ensures AllStand(job, hash, total, now, Final(RowsOf(after, job.table)), workers)
    ensures AllRecord(job, hash, total, CursorsOf(launched), workers, copied)
    ensures if ok then Progress(job, total, workers, schedule) else failed >= 5
  {
    failed := 0;
    NoTurns(job, hash, total, launched);
    assert schedule[..|schedule|] == schedule;
    ok, now, after, workers, copied := true, start, server, launched, seq(|launched|, _ => []);
    NothingRecorded(job, hash, total, launched);
    for i := 0 to |schedule|
      invariant start <= now <= |job.log| && SameElsewhere(server, after, job.table) && SameShares(launched, workers)
      invariant AllStand(job, hash, total, now, Final(RowsOf(after, job.table)), workers)
      invariant AllRecord(job, hash, total, CursorsOf(launched), workers, copied)
      invariant Progress(job, total, workers, schedule[..i])
    {
      ghost var failedNow;
      assert schedule[..i + 1] == schedule[..i] + [schedule[i]];
      ok, now, after, workers, copied, failedNow :=
        NextTurn(settings, job, hash, total, after, workers, schedule[i], now, CursorsOf(launched), copied,
                 schedule[..i]);
      failed := failed + failedNow;
      if !ok {
        return;
      }
    }
    ok := true;
  }

  /** The turn of a process, if there is one of that number that is not done. */
  method NextTurn(settings: ClickhouseApi, job: Job, hash: Key -> nat, total: nat, server: Server, workers: seq<Worker>,
                  w: nat, start: nat, ghost firsts: seq<Option<Key>>, ghost copied: seq<seq<Key>>,
                  ghost turns: seq<nat>)
    returns (ok: bool, now: nat, after: Server, workers': seq<Worker>, ghost copied': seq<seq<Key>>, ghost failed: nat)
    requires settings.Valid() && job.Valid() && job.from <= start <= |job.log| && 0 < total
    requires AllStand(job, hash, total, start, Final(RowsOf(server, job.table)), workers)
    requires AllRecord(job, hash, total, firsts, workers, copied) && Progress(job, total, workers, turns)
    ensures start <= now <= |job.log| && SameElsewhere(server, after, job.table) && SameShares(workers, workers')
    ensures AllStand(job, hash, total, now, Final(RowsOf(after, job.table)), workers')
    ensures AllRecord(job, hash, total, firsts, workers', copied')
    ensures if ok then Progress(job, total, workers', turns + [w]) else failed >= 5
  {
    ok, now, after, workers', copied', failed := true, start, server, workers, copied, 0;
    if w < |workers| && !workers[w].done {
      var moment: nat :| start <= moment <= |job.log|;
      now := moment;
      ok, after, workers', copied', failed :=
        TakeTurn(settings, job, hash, total, server, workers, w, start, moment, firsts, copied);
    }
    if ok || total <= w {
      OneTurn(job, total, workers, workers', turns, w);
      ok := true;
    }
  }

  predicate NoneBegun(table: string, states: seq<SavedCopy>) {
    forall w :: 0 <= w < |states| ==> states[w].table != Some(table)
  }

  lemma DonePartition(job: Job, hash: Key -> nat, launched: seq<Worker>, workers: seq<Worker>, copied: seq<seq<Key>>)
    requires job.Valid() && job.from == |job.log| && launched != [] && |launched| == |workers|
    requires AllRecord(job, hash, |launched|, CursorsOf(launched), workers, copied) && SharesDone(workers, |workers|)
    requires forall w :: 0 <= w < |launched| ==> launched[w].cursor == None
    ensures Partition(job.At(|job.log|), copied)
  {
    forall w | 0 <= w < |copied|
      ensures AllTracked(WorkerJob(job, hash, |copied|, w), None, copied[w])
    {
      assert Records(WorkerJob(job, hash, |launched|, workers[w].share), CursorsOf(launched)[w], workers[w], copied[w]);
    }
    WorkersPartition(job, hash, copied);
  }

  lemma StandTogether(job: Job, hash: Key -> nat, total: nat, now: nat, view: Table, a: seq<Worker>, b: seq<Worker>)
    requires job.Valid() && job.from <= now <= |job.log| && 0 < total
    requires AllStand(job, hash, total, now, view, a) && AllStand(job, hash, total, now, view, b)
    ensures AllStand(job, hash, total, now, view, a + b)
  {
  }

  /** Some worker has not had a turn for each key of the table and one more to find that there are none left. */
  ghost predicate TooShort(job: Job, total: nat, schedule: seq<nat>)
    requires AllWellFormed(job.cfg, job.log)
  {
    exists w :: 0 <= w < total && multiset(schedule)[w] <= |job.KeysEver(|job.log|)|
  }

  /** Launches the workers, beside processes that are still running, and waits for all those launched. */
  method RunWorkers(settings: ClickhouseApi, job: Job, hash: Key -> nat, server: Server, states: seq<SavedCopy>,
                    running: seq<Worker>,
                    schedule: seq<nat>, start: nat)
    returns (ok: bool, now: nat, after: Server, workers: seq<Worker>, ghost copied: seq<seq<Key>>, ghost failed: nat)
    requires settings.Valid() && job.Valid() && job.from <= start <= |job.log| && states != []
    requires AllResumable(job, hash, start, Final(RowsOf(server, job.table)), states)
    requires AllStand(job, hash, |states|, start, Final(RowsOf(server, job.table)), running)
    requires forall w :: 0 <= w < |running| ==> !running[w].done
    ensures start <= now <= |job.log| && SameElsewhere(server, after, job.table) && |workers| == |states| + |running|
    ensures AllStand(job, hash, |states|, now, Final(RowsOf(after, job.table)), workers)
    ensures ok ==> EveryKeyRead(job, now, Final(RowsOf(after, job.table)))
    ensures !ok ==> failed >= 5 || TooShort(job, |states|, schedule)
    ensures ok && job.from == |job.log| && NoneBegun(job.table, states) && running == [] ==>
              Partition(job.At(|job.log|), copied)
  {
    var total := |states|;
    var launched := Launch(job, hash, states, start, Final(RowsOf(server, job.table)));
    StandTogether(job, hash, total, start, Final(RowsOf(server, job.table)), launched, running);
    ok, now, after, workers, copied, failed :=
        TakeTurns(settings, job, hash, total, server, launched + running, schedule, start);
    ok := ok && forall w :: 0 <= w < total ==> workers[w].done;
    if ok {
      assert forall w :: 0 <= w < total ==> workers[w].share == (launched + running)[w].share == w;
      AllDone(job, hash, total, now, Final(RowsOf(after, job.table)), workers);
      if job.from == |job.log| && NoneBegun(job.table, states) && running == [] {
        assert launched + running == launched;
        DonePartition(job, hash, launched, workers, copied);
      }
    }
  }

  lemma BoundedAgain(server: Server, after: Server, versions: map<string, nat>, versions': map<string, nat>, first: nat,
                     table: string)
    requires Bounded(server, versions, first) && SameElsewhere(server, after, table)
    requires forall other :: other != table ==> CounterOf(versions', first, other) == CounterOf(versions, first, other)
    requires VersionsAtMost(RowsOf(after, table), CounterOf(versions', first, table))
    ensures Bounded(after, versions', first)
  {
    forall other
      ensures VersionsAtMost(RowsOf(after, other), CounterOf(versions', first, other))
    {
      assert other != table ==> RowsOf(after, other) == RowsOf(server, other);
    }
  }

  /** Copies a table by one worker process for each state file. When all these are done every key has been read since
      the start, and each exactly once if the workers start afresh on a table at rest; the counters are good if the
      query for the highest version is answered. Nothing is done about the other processes when one fails, so that
      workers may be launched again beside some that are still `running`. Wherever that ends, all processes stand. It
      ends without being done only after five failed attempts, or while some worker has not had turns enough. */
  method PerformInitialReplicationTableParallel(api: ClickhouseApi, job: Job, hash: Key -> nat, states: seq<SavedCopy>,
                                                running: seq<Worker>, schedule: seq<nat>, start: nat)
    returns (ok: bool, now: nat, workers: seq<Worker>, answered: bool, ghost copied: seq<seq<Key>>, ghost failed: nat)
    requires api.Valid() && job.Valid() && job.from <= start <= |job.log| && states != []
    requires AllResumable(job, hash, start, Final(api.StoredIn(job.table)), states)
    requires AllStand(job, hash, |states|, start, Final(api.StoredIn(job.table)), running)
    requires forall w :: 0 <= w < |running| ==> !running[w].done
    modifies api`tables, api`tablesLastRecordVersion
    ensures start <= now <= |job.log| && SameElsewhere(old(api.tables), api.tables, job.table)
    ensures |workers| == |states| + |running|
            && AllStand(job, hash, |states|, now, Final(api.StoredIn(job.table)), workers)
    ensures ok ==> EveryKeyRead(job, now, Final(api.StoredIn(job.table)))
    ensures !ok ==> failed >= 5 || TooShort(job, |states|, schedule)
    ensures ok && !answered ==> failed > 0
    ensures ok && answered && old(api.Versions()) ==> api.Versions()
    ensures ok && job.from == |job.log| && NoneBegun(job.table, states) && running == [] ==>
              Partition(job.At(|job.log|), copied)
  {
    answered := false;
    ghost var versions := api.tablesLastRecordVersion;
    var server;
    ok, now, server, workers, copied, failed :=
        RunWorkers(api, job, hash, api.tables, states, running, schedule, start);
    api.tables := server;
    if ok {
      ghost var unanswered;
      answered, unanswered := ConsolidateWorkerRecordVersions(api, job.table);
      failed := failed + unanswered;
      if answered && old(api.Versions()) {
        BoundedAgain(old(api.tables), server, versions, api.tablesLastRecordVersion, api.versionInitialValue,
                     job.table);
      }
    }
  }

  /** The state files as the processes of the workers have left them, whichever of them wrote last. */
  method StateFiles(workers: seq<Worker>, total: nat) returns (saved: seq<SavedCopy>)
    ensures |saved| == total && forall share :: 0 <= share < total ==> LeftBy(workers, share, saved[share])
  {
    saved := [];
    for share := 0 to total
      invariant |saved| == share && forall v :: 0 <= v < share ==> LeftBy(workers, v, saved[v])
    {
      var w: int := *;
      saved := saved + [if 0 <= w < |workers| && workers[w].share == share then workers[w].saved else NO_STATE];
    }
  }

  /** The processes that are still alive. */
  method StillRunning(job: Job, hash: Key -> nat, total: nat, ghost now: nat, ghost view: Table, workers: seq<Worker>)
    returns (running: seq<Worker>)
    requires job.Valid() && job.from <= now <= |job.log| && 0 < total && AllStand(job, hash, total, now, view, workers)
    ensures AllStand(job, hash, total, now, view, running) && forall w :: 0 <= w < |running| ==> !running[w].done
  {
    running := [];
    for w := 0 to |workers|
      invariant AllStand(job, hash, total, now, view, running) && forall v :: 0 <= v < |running| ==> !running[v].done
    {
      var alive: bool := *;
      if alive && !workers[w].done {
        running := running + [workers[w]];
      }
    }
  }

  /** Workers are launched until all of those last launched are done, each time from the state files they find and
      beside whatever is still running. */
  method CopyWithRelaunches(api: ClickhouseApi, job: Job, hash: Key -> nat, total: nat, schedules: seq<seq<nat>>,
                            start: nat)
    returns (ok: bool, now: nat, answered: bool, ghost failed: nat)
    requires api.Valid() && job.Valid() && job.from <= start <= |job.log| && 0 < total && api.StoredIn(job.table) == []
    modifies api`tables, api`tablesLastRecordVersion
    ensures start <= now <= |job.log| && SameElsewhere(old(api.tables), api.tables, job.table)
    ensures ok ==> EveryKeyRead(job, now, Final(api.StoredIn(job.table)))
    ensures !ok ==> failed >= 5 * |schedules| || SomeTooShort(job, total, schedules)
  {
    var states, running := seq(total, _ => NO_STATE), [];
    NothingStored(job, hash, start, api.StoredIn(job.table), states);
    ok, now, answered, failed := false, start, false, 0;
    for i := 0 to |schedules|
      invariant start <= now <= |job.log| && SameElsewhere(old(api.tables), api.tables, job.table) && |states| == total
      invariant AllResumable(job, hash, now, Final(api.StoredIn(job.table)), states)
      invariant AllStand(job, hash, total, now, Final(api.StoredIn(job.table)), running)
      invariant forall w :: 0 <= w < |running| ==> !running[w].done
      invariant failed >= 5 * i || SomeTooShort(job, total, schedules)
    {
      var workers;
      ghost var copied, failedNow;
      ok, now, workers, answered, copied, failedNow :=
          PerformInitialReplicationTableParallel(api, job, hash, states, running, schedules[i], now);
      failed := failed + failedNow;
      if ok {
        return;
      }
      states := StateFiles(workers, total);
      LeftResumable(job, hash, now, Final(api.StoredIn(job.table)), workers, states);
      running := StillRunning(job, hash, total, now, Final(api.StoredIn(job.table)), workers);
    }
    ok := false;
  }

  lemma NothingStored(job: Job, hash: Key -> nat, now: nat, rows: seq<Stored>, states: seq<SavedCopy>)
    requires job.Valid() && job.from <= now <= |job.log| && rows == [] && NoneBegun(job.table, states)
    ensures AllResumable(job, hash, now, Final(rows), states)
  {
  }

  ghost predicate SomeTooShort(job: Job, total: nat, schedules: seq<seq<nat>>)
    requires AllWellFormed(job.cfg, job.log)
  {
    exists i :: 0 <= i < |schedules| && TooShort(job, total, schedules[i])
  }

  /** Some table has a schedule that is too short for it. */
  ghost predicate PlanTooShort(plan: Plan, total: nat, schedules: seq<seq<nat>>)
    requires plan.Valid() && |schedules| == |plan.tables|
  {
    exists i :: 0 <= i < |schedules| && TooShort(plan.JobOf(plan.tables[i]), total, schedules[i])
  }

  /** Copies all tables of a database in order, each by `total` workers. */
  method PerformInitialReplicationParallel(api: ClickhouseApi, plan: Plan, hash: Key -> nat, total: nat,
                                           schedules: seq<seq<nat>>)
    returns (ok: bool, now: nat, answered: bool, ghost failed: nat)
    requires api.Valid() && plan.Valid() && 0 < total && |schedules| == |plan.tables| && plan.EmptyFrom(api.tables, 0)
    modifies api`tables, api`tablesLastRecordVersion
    ensures plan.from <= now <= |plan.log|
    ensures ok ==> plan.CopiedTo(now, api.tables, |plan.tables|)
    ensures ok && answered && old(api.Versions()) ==> api.Versions()
    ensures !ok ==> failed >= 5 || PlanTooShort(plan, total, schedules)
    ensures ok && !answered ==> failed > 0
  {
    ok, now, answered, failed := true, plan.from, true, 0;
    for i := 0 to |plan.tables|
      invariant plan.from <= now <= |plan.log| && plan.CopiedTo(now, api.tables, i) && plan.EmptyFrom(api.tables, i)
      invariant answered && old(api.Versions()) ==> api.Versions()
      invariant !answered ==> failed > 0
    {
      var here;
      ghost var failedNow;
      ok, now, here, failedNow := CopyTableParallel(api, plan, i, hash, total, schedules[i], now);
      failed := failed + failedNow;
      if !ok {
        return;
      }
      answered := answered && here;
    }
    ok := true;
  }

  method CopyTableParallel(api: ClickhouseApi, plan: Plan, i: nat, hash: Key -> nat, total: nat, schedule: seq<nat>,
                           start: nat)
    returns (ok: bool, now: nat, answered: bool, ghost failed: nat)
    requires api.Valid() && plan.Valid() && 0 < total && i < |plan.tables| && plan.from <= start <= |plan.log|
    requires plan.CopiedTo(start, api.tables, i) && plan.EmptyFrom(api.tables, i)
    modifies api`tables, api`tablesLastRecordVersion
    ensures start <= now <= |plan.log|
    ensures ok ==> plan.CopiedTo(now, api.tables, i + 1) && plan.EmptyFrom(api.tables, i + 1)
    ensures ok && answered && old(api.Versions()) ==> api.Versions()
    ensures ok && !answered ==> failed > 0
    ensures !ok ==> failed >= 5 || TooShort(plan.JobOf(plan.tables[i]), total, schedule)
  {
    var job, states := plan.JobOf(plan.tables[i]), seq(total, _ => NO_STATE);
    NothingStored(job, hash, start, api.StoredIn(job.table), states);
    ghost var before := api.tables;
    var workers;
    ghost var copied;
    ok, now, workers, answered, copied, failed :=
        PerformInitialReplicationTableParallel(api, job, hash, states, [], schedule, start);
    plan.FinishTable(start, now, before, api.tables, i);
  }
}
