/** Copy, replay and restarts put together: what ClickHouse shows in the end is the source. */
module Convergence {
  import opened Events
  import opened Reference
  import opened ClickHouse
  import opened Buffers
  import opened Delivery
  import opened Relay
  import opened Resuming
  import opened InitialCopy
  import opened ParallelCopy
  import opened Realtime

  /** A copy that is fuzzy from some position is fuzzy from any earlier one, and stays so as the log grows. */
  lemma FuzzyWeaken(cfg: Config, table: string, source: Table, log: seq<LogEvent>, more: seq<LogEvent>,
                    earlier: nat, from: nat, upTo: nat, copy: Table)
    requires AllWellFormed(cfg, log) && AllWellFormed(cfg, more) && earlier <= from <= upTo <= |log|
    requires FuzzyCopy(cfg, table, source, log, from, upTo, copy)
    ensures AllWellFormed(cfg, log + more)
    ensures FuzzyCopy(cfg, table, source, log + more, earlier, upTo, copy)
  {
    assert AllWellFormed(cfg, log + more);
    forall key
      ensures ReadBetween(cfg, table, source, log + more, earlier, upTo, copy, key)
    {
      assert ReadBetween(cfg, table, source, log, from, upTo, copy, key);
      var moment :| from <= moment <= upTo && ReadAt(cfg, table, source, log, moment, copy, key);
      assert (log + more)[..moment] == log[..moment];
      assert ReadAt(cfg, table, source, log + more, moment, copy, key);
    }
  }

  /** The tables of the plan are what the source tables have become. */
  ghost predicate Converged(plan: Plan, server: Server)
    requires plan.Valid()
  {
    forall i :: 0 <= i < |plan.tables| ==>
      Final(RowsOf(server, plan.tables[i])) ==
          ApplyAll(plan.cfg, plan.tables[i], ViewOf(plan.sources, plan.tables[i]), plan.log)
  }

  /** There are rows for a replicated table without a recorded structure. */
  ghost predicate SomeWithoutStructure(cfg: Config, log: seq<LogEvent>) {
    exists e :: e in log && WithoutStructure(cfg, e)
  }

  /** What remains to be done after the copy: an engine without a position of its own applies what the relay delivers,
      duplicates included. */
  method ReplayAfterCopy(api: ClickhouseApi, plan: Plan, now: nat, position: Option<Transaction>,
                         delivered: seq<LogEvent>, ghost reread: nat)
    returns (ok: bool)
    requires plan.Valid() && api.Valid() && api.Versions()
    requires reread <= plan.from <= now <= |plan.log| && plan.CopiedTo(now, api.tables, |plan.tables|)
    requires AllWellFormed(plan.cfg, delivered) && Delivers(None, delivered, plan.log, reread, |plan.log|)
    modifies api
    ensures ok ==> Converged(plan, api.tables)
    ensures api.GivesUpAfterFive(ok || SomeWithoutStructure(plan.cfg, plan.log))
  {
    ghost var copied := api.tables;
    var engine := new DbReplicatorRealtime(plan.cfg, api, SavedState(position, api.tablesLastRecordVersion), None);
    ok := engine.RunRealtimeReplication(delivered);
    if ok {
      assert plan.log[reread..|plan.log|] == plan.log[reread..];
      forall i | 0 <= i < |plan.tables|
        ensures Final(RowsOf(api.tables, plan.tables[i])) ==
                ApplyAll(plan.cfg, plan.tables[i], ViewOf(plan.sources, plan.tables[i]), plan.log)
      {
        var table := plan.tables[i];
        CopyThenReplay(plan, now, table, Final(RowsOf(copied, table)), reread);
        assert [] + plan.log[reread..] == plan.log[reread..];
      }
    }
  }

  /** A relay in which the position saved before the copy is found; what follows it there leaves nothing out and goes on
      to the end of the log. If there was nothing in the relay, there is no position, and it is read from its oldest
      file. */
  ghost predicate Relayed(plan: Plan, loads: Loads, files: Files, nums: seq<nat>, starts: seq<nat>, i: nat)
    requires plan.from <= |plan.log|
  {
    && Lists(nums, files) && Stretches(plan.log, ContentsOf(loads, files, nums), starts)
    && (plan.from == 0 ==>
          && ConsecutiveFrom(nums, 0) && Flows(ContentsOf(loads, files, nums), starts, 0, 0)
          && ReachFrom(ContentsOf(loads, files, nums), starts, 0, 0) == |plan.log|)
    && (plan.from > 0 ==>
          && Resume(loads, files, nums, plan.log, starts, plan.from - 1, i).Valid()
          && Rereads(ContentsOf(loads, files, nums), starts, plan.from - 1, i)
          && RereadEnd(ContentsOf(loads, files, nums), starts, plan.from - 1, i) == |plan.log|)
  }

  lemma {:induction false} EventsInLog(log: seq<LogEvent>, contents: seq<seq<LogEvent>>, starts: seq<nat>, j: nat)
    requires Stretches(log, contents, starts) && j <= |contents|
    ensures forall e :: e in EventsFrom(contents, j) ==> e in log
    decreases |contents| - j
  {
    if j < |contents| {
      assert Within(log, contents[j], starts[j]);
      EventsInLog(log, contents, starts, j + 1);
    }
  }

  lemma FromEventInLog(log: seq<LogEvent>, contents: seq<seq<LogEvent>>, starts: seq<nat>, k: nat, i: nat)
    requires Stretches(log, contents, starts) && HoldsAt(contents, starts, i, k) && EndOf(contents, starts, i) <= |log|
    ensures forall e :: e in FromEvent(log, contents, starts, k, i) ==> e in log
  {
    EventsInLog(log, contents, starts, i + 1);
  }

  lemma AfterPosition(loads: Loads, files: Files, nums: seq<nat>, log: seq<LogEvent>, starts: seq<nat>, k: nat, i: nat)
    requires Resume(loads, files, nums, log, starts, k, i).Valid()
             && Rereads(ContentsOf(loads, files, nums), starts, k, i)
    ensures var contents, sought := ContentsOf(loads, files, nums), Seek(loads, files, Some(log[k].transactionId));
            && sought.Some? && Reread(contents, starts, k, i) <= k + 1
            && Delivers(None, Loaded(loads, sought.value), log, Reread(contents, starts, k, i),
                        RereadEnd(contents, starts, k, i))
            && forall e :: e in Loaded(loads, sought.value) ==> e in log
  {
    var r := Resume(loads, files, nums, log, starts, k, i);
    SeekIsRest(r);
    GetsAllFrom(r);
    r.RemainderIs();
    FromEventInLog(log, r.Contents(), starts, k, i);
  }

  /** What the reader delivers from the saved position on. */
  lemma RelayDelivers(plan: Plan, loads: Loads, files: Files, nums: seq<nat>, starts: seq<nat>, i: nat)
    returns (reread: nat)
    requires plan.Valid() && Relayed(plan, loads, files, nums, starts, i)
    ensures var sought := Seek(loads, files, PositionBefore(plan.log, plan.from));
            && sought.Some? && reread <= plan.from
               && Delivers(None, Loaded(loads, sought.value), plan.log, reread, |plan.log|)
            && AllWellFormed(plan.cfg, Loaded(loads, sought.value))
  {
    if plan.from == 0 {
      ReadFromOldest(loads, files, nums, plan.log, starts);
      EventsInLog(plan.log, ContentsOf(loads, files, nums), starts, 0);
      reread := 0;
    } else {
      AfterPosition(loads, files, nums, plan.log, starts, plan.from - 1, i);
      reread := Reread(ContentsOf(loads, files, nums), starts, plan.from - 1, i);
    }
  }

  /** Positions a reader and reads to the end. */
  method ReadFrom(loads: Loads, files: Files, position: Option<Transaction>) returns (events: seq<LogEvent>)
    requires Seek(loads, files, position).Some?
    ensures events == Loaded(loads, Seek(loads, files, position).value)
  {
    var reader := new DataReader(loads);
    var found := reader.SetPosition(files, position);
    var frames := reader.ReadToEnd(files, Seek(loads, files, position).value);
    events := Loaded(loads, frames);
  }

  /** Reads the relay from the saved position on and applies it to what was copied. */
  method CatchUp(api: ClickhouseApi, plan: Plan, now: nat, loads: Loads, files: Files, ghost nums: seq<nat>,
                 ghost starts: seq<nat>, ghost i: nat)
    returns (ok: bool)
    requires plan.Valid() && api.Valid() && api.Versions()
    requires plan.from <= now <= |plan.log| && plan.CopiedTo(now, api.tables, |plan.tables|)
    requires Relayed(plan, loads, files, nums, starts, i)
    modifies api
    ensures ok ==> Converged(plan, api.tables)
    ensures api.GivesUpAfterFive(ok || SomeWithoutStructure(plan.cfg, plan.log))
  {
    var position := PositionBefore(plan.log, plan.from);
    ghost var reread := RelayDelivers(plan, loads, files, nums, starts, i);
    var delivered := ReadFrom(loads, files, position);
    ok := ReplayAfterCopy(api, plan, now, position, delivered, reread);
  }

  /** A whole first run. The position is that of the last of the first `plan.from` changes; the source changes on while
      the tables are copied; the relay is then read from the position to its end. ClickHouse ends as the source. */
  method Replicate(api: ClickhouseApi, plan: Plan, loads: Loads, files: Files, ghost nums: seq<nat>,
                   ghost starts: seq<nat>, ghost i: nat)
    returns (ok: bool, ghost died: bool)
    requires plan.Valid() && api.Valid() && api.Versions() && plan.EmptyFrom(api.tables, 0)
    requires Relayed(plan, loads, files, nums, starts, i)
    modifies api
    ensures ok ==> Converged(plan, api.tables)
    ensures api.GivesUpAfterFive(ok || died || SomeWithoutStructure(plan.cfg, plan.log))
  {
    var copy := new DbReplicatorInitial(plan.cfg, api, SavedCopy(None, None, api.tablesLastRecordVersion));
    var now: nat;
    ok, now := copy.PerformInitialReplication(plan, plan.from);
    died := copy.deaths > 0;
    if ok {
      ok := CatchUp(api, plan, now, loads, files, nums, starts, i);
    }
  }

  /** The same with the tables copied by workers, provided that the queries for the highest versions are answered. */
  method ReplicateParallel(api: ClickhouseApi, plan: Plan, hash: Key -> nat, total: nat, schedules: seq<seq<nat>>,
                           loads: Loads, files: Files, ghost nums: seq<nat>, ghost starts: seq<nat>, ghost i: nat)
    returns (ok: bool, answered: bool, ghost failed: nat)
    requires plan.Valid() && api.Valid() && api.Versions() && plan.EmptyFrom(api.tables, 0)
    requires 0 < total && |schedules| == |plan.tables|
    requires Relayed(plan, loads, files, nums, starts, i)
    modifies api
    ensures ok && answered ==> Converged(plan, api.tables)
    ensures ok && !answered ==> failed > 0
    ensures !ok ==>
              || failed >= 5 || PlanTooShort(plan, total, schedules)
              || api.failures >= old(api.failures) + 5 || SomeWithoutStructure(plan.cfg, plan.log)
  {
    var now: nat;
    ok, now, answered, failed := PerformInitialReplicationParallel(api, plan, hash, total, schedules);
    if ok && answered {
      ok := CatchUp(api, plan, now, loads, files, nums, starts, i);
    }
  }

  lemma CopyThenReplay(plan: Plan, now: nat, table: string, copy: Table, reread: nat)
    requires AllWellFormed(plan.cfg, plan.log) && reread <= plan.from <= now <= |plan.log|
    requires plan.JobOf(table).Complete(now, copy)
    ensures ApplyAll(plan.cfg, table, copy, plan.log[reread..]) ==
            ApplyAll(plan.cfg, table, ViewOf(plan.sources, table), plan.log)
  {
    var job := plan.JobOf(table);
    assert FuzzyCopy(plan.cfg, table, job.source, plan.log, plan.from, now, copy) by {
      forall key
        ensures ReadBetween(plan.cfg, table, job.source, plan.log, plan.from, now, copy, key)
      {
        assert job.Read(now, copy, key);
      }
    }
    FuzzyWeaken(plan.cfg, table, job.source, plan.log, [], reread, plan.from, now, copy);
    assert plan.log + [] == plan.log;
    FuzzyCopyConverges(plan.cfg, table, job.source, plan.log, reread, now, copy);
  }

  /** The process dies at any moment, also inside an upload, and a new one starts from the state file. The replay
      ends in the tables of an uninterrupted run, provided no stored version exceeds the counters in that file. */
  method RestartAfterCrash(engine: DbReplicatorRealtime, more: seq<LogEvent>, delivered: seq<LogEvent>)
    returns (ok: bool, next: DbReplicatorRealtime)
    requires engine.Safe() && engine.api.Valid()
    requires Bounded(engine.api.tables, engine.saved.versions, engine.api.versionInitialValue)
    requires AllWellFormed(engine.cfg, more) && AllWellFormed(engine.cfg, delivered)
    requires Accepted(engine.saved.lastProcessed, delivered) == (engine.handled + more)[engine.savedCheckpoint..]
    modifies engine.api
    ensures AllWellFormed(engine.cfg, engine.handled + more)
    ensures ok ==> Shows(engine.cfg, engine.api.tables, engine.initial, engine.handled + more)
    ensures engine.api.GivesUpAfterFive(ok || SomeWithoutStructure(engine.cfg, engine.handled + more))
  {
    var api, cfg := engine.api, engine.cfg;
    ghost var crashed, log, from := api.tables, engine.handled + more, engine.savedCheckpoint;
    assert AllWellFormed(cfg, log);
    assert ShowsFrom(cfg, crashed, engine.initial, engine.handled, from);
    api.tablesLastRecordVersion := engine.saved.versions;
    next := new DbReplicatorRealtime(cfg, api, engine.saved, engine.saved.lastProcessed);
    ok := next.RunRealtimeReplication(delivered);
    if ok {
      assert next.handled == log[from..];
      forall table
        ensures Final(RowsOf(api.tables, table)) == ApplyAll(cfg, table, ViewOf(engine.initial, table), log)
      {
        FuzzyWeaken(cfg, table, ViewOf(engine.initial, table), engine.handled, more, from, from, |engine.handled|,
                    Final(RowsOf(crashed, table)));
        FuzzyCopyConverges(cfg, table, ViewOf(engine.initial, table), log, from, |engine.handled|,
                           Final(RowsOf(crashed, table)));
      }
    }
  }

  /** The log after the checkpoint is what the engine had handled since, and more. */
  lemma SameRest(log: seq<LogEvent>, s: nat, handled: seq<LogEvent>, more: seq<LogEvent>, checkpoint: nat)
    requires s <= |log| && log[s..] == handled + more && 0 < checkpoint <= |handled|
    ensures s + checkpoint <= |log| && log[s + checkpoint - 1] == handled[checkpoint - 1]
    ensures log[s + checkpoint..|log|] == (handled + more)[checkpoint..]
  {
    assert log[s..][checkpoint - 1] == (handled + more)[checkpoint - 1];
  }

  /** The same with the relay: its log goes on, from log[s] on, with what the engine had handled and more, and the
      checkpoint is found in a file after which nothing is left out. */
  method RestartFromRelay(engine: DbReplicatorRealtime, more: seq<LogEvent>, loads: Loads, files: Files,
                          ghost r: Resume, ghost s: nat)
    returns (ok: bool, next: DbReplicatorRealtime)
    requires engine.Safe() && engine.api.Valid() && 0 < engine.savedCheckpoint
    requires Bounded(engine.api.tables, engine.saved.versions, engine.api.versionInitialValue)
    requires r.Valid() && r.loads == loads && r.files == files && AllWellFormed(engine.cfg, r.log)
    requires s <= |r.log| && r.log[s..] == engine.handled + more && r.k + 1 == s + engine.savedCheckpoint
    requires r.FlowsOn() && r.Furthest() == |r.log|
    modifies engine.api
    ensures AllWellFormed(engine.cfg, engine.handled + more)
    ensures ok ==> Shows(engine.cfg, engine.api.tables, engine.initial, engine.handled + more)
    ensures engine.api.GivesUpAfterFive(ok || SomeWithoutStructure(engine.cfg, engine.handled + more))
  {
    ghost var position := Some(r.log[r.k].transactionId);
    SameRest(r.log, s, engine.handled, more, engine.savedCheckpoint);
    assert engine.saved.lastProcessed == position;
    var delivered := ReadOn(loads, files, engine.saved.lastProcessed, r);
    AfterCheckpoint(engine.cfg, r.log, r.k, position, delivered, s, engine.handled, more, engine.savedCheckpoint);
    ok, next := RestartAfterCrash(engine, more, delivered);
  }

  /** Reads on from a checkpoint. */
  method ReadOn(loads: Loads, files: Files, position: Option<Transaction>, ghost r: Resume)
    returns (events: seq<LogEvent>)
    requires r.Valid() && r.loads == loads && r.files == files && position == Some(r.log[r.k].transactionId)
             && r.FlowsOn()
    ensures Delivers(position, events, r.log, r.k + 1, r.Furthest()) && forall e :: e in events ==> e in r.log
  {
    ghost var expected := ResumeDelivers(r);
    events := ReadFrom(loads, files, position);
  }

  lemma AfterCheckpoint(cfg: Config, log: seq<LogEvent>, k: nat, position: Option<Transaction>, events: seq<LogEvent>,
                        s: nat, handled: seq<LogEvent>, more: seq<LogEvent>, checkpoint: nat)
    requires AllWellFormed(cfg, log) && (forall e :: e in events ==> e in log)
             && Delivers(position, events, log, k + 1, |log|)
    requires s <= |log| && log[s..] == handled + more && 0 < checkpoint <= |handled| && k + 1 == s + checkpoint
    ensures log[k] == handled[checkpoint - 1] && AllWellFormed(cfg, more) && AllWellFormed(cfg, events)
    ensures Accepted(position, events) == (handled + more)[checkpoint..]
  {
    MoreWellFormed(cfg, log, s, handled, more);
    SameRest(log, s, handled, more, checkpoint);
  }

  lemma MoreWellFormed(cfg: Config, log: seq<LogEvent>, s: nat, handled: seq<LogEvent>, more: seq<LogEvent>)
    requires AllWellFormed(cfg, log) && s <= |log| && log[s..] == handled + more
    ensures AllWellFormed(cfg, more)
  {
    forall e | e in more ensures e in log {
      assert e in handled + more;
    }
  }

  lemma ResumeDelivers(r: Resume) returns (events: seq<LogEvent>)
    requires r.Valid() && r.FlowsOn()
    ensures Seek(r.loads, r.files, Some(r.log[r.k].transactionId)).Some?
    ensures events == Loaded(r.loads, Seek(r.loads, r.files, Some(r.log[r.k].transactionId)).value)
    ensures Delivers(Some(r.log[r.k].transactionId), events, r.log, r.k + 1, r.Furthest())
    ensures forall e :: e in events ==> e in r.log
  {
    ResumeExactlyOnceIff(r);
    SeekIsRest(r);
    r.RemainderIs();
    FromEventInLog(r.log, r.Contents(), r.starts, r.k, r.i);
    events := r.Remainder();
  }

  /** On a first run that has handled no event, a stop saves no position at all, whatever was saved before the copy. */
  method FirstRunStopsIdle(cfg: Config, api: ClickhouseApi, position: Transaction) returns (ok: bool, saved: SavedState)
    requires api.Valid() && api.Versions()
    modifies api
    ensures ok ==> saved.lastProcessed == None
    ensures api.GivesUpAfterFive(ok)
  {
    var engine := new DbReplicatorRealtime(cfg, api, SavedState(Some(position), api.tablesLastRecordVersion), None);
    ok := engine.StopAndResume();
    saved := engine.saved;
  }
}
