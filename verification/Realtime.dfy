/** The apply engine: buffers, uploads, checkpoints, graceful stops. */
module Realtime {
  import opened Events
  import opened Reference
  import opened ClickHouse
  import opened Buffers
  import opened Delivery
  import opened Sequences

  /** The part of state.pckl the engine depends on. */
  datatype SavedState = SavedState(lastProcessed: Option<Transaction>, versions: map<string, nat>)

  /** Rows for a replicated table without a recorded structure raise. */
  ghost predicate WithoutStructure(cfg: Config, event: LogEvent) {
    && event.change.table in cfg.replicated && event.change.table !in cfg.keyIds
    && (event.change.Insert? || (event.change.Erase? && !cfg.ignoreDeletes))
  }

  class DbReplicatorRealtime {
    static const DATA_DUMP_BATCH_SIZE: nat := 100000

    const cfg: Config
    const api: ClickhouseApi
    var recordsToInsert: Inserts
    var recordsToDelete: Deletes
    var lastProcessed: Option<Transaction>
    var lastProcessedNonUploaded: Option<Transaction>
    var saved: SavedState

    /** What FINAL showed when the engine started, and the two positions it started with. */
    ghost const initial: map<string, Table>
    ghost const startPosition: Option<Transaction>
    ghost const startNonUploaded: Option<Transaction>

    /** The events that passed the position check, in order. Of these, `checkpoint` many lie at or before
        lastProcessed, `savedCheckpoint` many at or before the saved position, and `applied` many are visible. */
    ghost var handled: seq<LogEvent>
    ghost var checkpoint: nat
    ghost var savedCheckpoint: nat
    ghost var applied: nat

    ghost predicate AtCheckpoint(position: Option<Transaction>, count: nat)
      reads this
    {
      && count <= |handled|
      && (if count == 0 then position == startPosition || position == startNonUploaded
          else position == Some(handled[count - 1].transactionId))
    }

    ghost predicate Positions()
      reads this
    {
      && AllWellFormed(cfg, handled) && StrictlyIncreasing(handled)
      && lastProcessedNonUploaded == PositionAfter(startNonUploaded, handled)
      && savedCheckpoint <= checkpoint <= applied <= |handled|
      && AtCheckpoint(lastProcessed, checkpoint)
      && AtCheckpoint(saved.lastProcessed, savedCheckpoint)
      && (applied == checkpoint || (applied == checkpoint + 1 && handled[checkpoint].change.Truncate?))
    }

    /** ClickHouse shows the handled events up to `applied`; the buffers are the net effect of the rest;
        the checkpoint trails `applied` by at most one statement, which ClickHouse has already executed. */
    ghost predicate Valid()
      reads this, api
    {
      && api.Valid() && api.Versions()
      && Positions()
      && Shows(cfg, api.tables, initial, handled[..applied])
      && Holds(cfg, handled[applied..], recordsToInsert, recordsToDelete)
    }

    /** Nothing the saved position covers is missing: every key holds a state from that position on. */
    ghost predicate Safe()
      reads this, api
    {
      && AllWellFormed(cfg, handled)
      && AtCheckpoint(saved.lastProcessed, savedCheckpoint)
      && ShowsFrom(cfg, api.tables, initial, handled, savedCheckpoint)
    }

    lemma ValidIsSafe()
      requires Valid()
      ensures Safe()
    {
      ShownIsFuzzy(cfg, initial, api.tables, handled, applied, savedCheckpoint);
    }

    /** Starts from what ClickHouse holds. On a first run the non-uploaded position is None, whatever
        position was saved before the copy; after a restart both come from the state file. */
    constructor (cfg: Config, api: ClickhouseApi, saved: SavedState, nonUploaded: Option<Transaction>)
      requires api.Valid() && api.Versions()
      ensures this.cfg == cfg && this.api == api && Valid() && handled == []
      ensures this.saved == saved && lastProcessed == saved.lastProcessed && lastProcessedNonUploaded == nonUploaded
      ensures savedCheckpoint == 0 && recordsToInsert == map[] && recordsToDelete == map[]
      ensures forall table :: ViewOf(initial, table) == Final(api.StoredIn(table))
    {
      this.cfg := cfg;
      this.api := api;
      this.saved := saved;
      recordsToInsert := map[];
      recordsToDelete := map[];
      lastProcessed := saved.lastProcessed;
      lastProcessedNonUploaded := nonUploaded;
      initial := map table | table in api.tables :: Final(api.StoredIn(table));
      startPosition := saved.lastProcessed;
      startNonUploaded := nonUploaded;
      handled := [];
      checkpoint := 0;
      savedCheckpoint := 0;
      applied := 0;
      new;
      EmptyBuffers(cfg);
    }

    /** Persists the checkpoint together with the version counters. */
    method SaveState()
      requires Valid()
      modifies this`saved, this`savedCheckpoint
      ensures Valid()
      ensures saved == SavedState(lastProcessed, api.tablesLastRecordVersion) && savedCheckpoint == checkpoint
    {
      saved := SavedState(lastProcessed, api.tablesLastRecordVersion);
      savedCheckpoint := checkpoint;
    }

    /** Saving is driven by the clock. */
    method SaveStateIfRequired(due: bool)
      requires Valid()
      modifies this`saved, this`savedCheckpoint
      ensures Valid()
      ensures if due then saved == SavedState(lastProcessed, api.tablesLastRecordVersion)
                          && savedCheckpoint == checkpoint
              else saved == old(saved) && savedCheckpoint == old(savedCheckpoint)
    {
      if due {
        SaveState();
      }
    }

    method UploadTableInserts(ghost before: Server, table: string) returns (ok: bool)
      requires api.Valid() && api.Versions() && table in recordsToInsert
      requires RowsOf(api.tables, table) == RowsOf(before, table)
      requires Keyed(cfg, table, recordsToInsert[table])
               && recordsToInsert[table].Keys !! DeletesOf(recordsToDelete, table)
      modifies api
      ensures api.OthersSame(table)
      ensures ok ==> api.Versions() && InsertedIn(before, api.tables, recordsToInsert, table)
      ensures PartwayIn(before, api.tables, recordsToInsert, recordsToDelete, table)
      ensures api.GivesUpAfterFive(ok)
    {
      var buffer := recordsToInsert[table];
      ghost var deletes := DeletesOf(recordsToDelete, table);
      ghost var rows, last := RowsOf(before, table), api.GetLastUsedVersion(table);
      if buffer == map[] {
        NothingUploaded(Final(rows), buffer, deletes);
        assert Final(rows) + buffer == Final(rows);
        return true;
      }
      var ids := cfg.keyIds[table];
      var records := ValuesOf(ids, buffer);
      ghost var left;
      ok, left := api.Insert(table, ids, records);
      if ok {
        InsertSent(ids, rows, left, records, last, buffer, deletes);
      } else {
        InsertFailed(ids, rows, left, records, last + 1, buffer, deletes);
      }
    }

    method UploadInserts() returns (ok: bool)
      requires api.Valid() && api.Versions() && Usable(cfg, recordsToInsert, recordsToDelete)
      modifies api
      ensures ok ==> api.Versions() && forall table :: InsertedIn(old(api.tables), api.tables, recordsToInsert, table)
      ensures forall table :: PartwayIn(old(api.tables), api.tables, recordsToInsert, recordsToDelete, table)
      ensures api.GivesUpAfterFive(ok)
    {
      var rest := recordsToInsert.Keys;
      ghost var before := api.tables;
      ok := true;
      NoInsertsSent(before, recordsToInsert, recordsToDelete);
      while rest != {}
        invariant ok && rest <= recordsToInsert.Keys
        invariant api.Versions()
        invariant InsertsSent(before, api.tables, recordsToInsert, recordsToDelete, rest)
        invariant old(api.failures) <= api.failures
        decreases |rest|
      {
        var table :| table in rest;
        assert InsertsOf(recordsToInsert, table) == recordsToInsert[table];
        ghost var previous := api.tables;
        ok := UploadTableInserts(before, table);
        OneMoreInsertSent(before, previous, api.tables, recordsToInsert, recordsToDelete, rest, table, ok);
        if !ok {
          return;
        }
        rest := rest - {table};
      }
    }

    method UploadTableErases(ghost before: Server, table: string) returns (ok: bool)
      requires api.Valid() && api.Versions() && table in recordsToDelete
      requires InsertsOf(recordsToInsert, table).Keys !! recordsToDelete[table]
      requires InsertedIn(before, api.tables, recordsToInsert, table)
      modifies api`tables, api`failures
      ensures api.OthersSame(table) && api.Versions()
      ensures ok ==> UploadedIn(before, api.tables, recordsToInsert, recordsToDelete, table)
      ensures PartwayIn(before, api.tables, recordsToInsert, recordsToDelete, table)
      ensures api.GivesUpAfterFive(ok)
    {
      ghost var rows := api.StoredIn(table);
      ghost var erased;
      ok, erased := api.EraseKeys(table, recordsToDelete[table]);
      FinalWithout(rows, erased);
      InsertsUploaded(Final(RowsOf(before, table)), InsertsOf(recordsToInsert, table), recordsToDelete[table], erased);
    }

    method UploadErases(ghost before: Server) returns (ok: bool)
      requires api.Valid() && api.Versions() && Usable(cfg, recordsToInsert, recordsToDelete)
      requires forall table :: InsertedIn(before, api.tables, recordsToInsert, table)
      requires forall table :: PartwayIn(before, api.tables, recordsToInsert, recordsToDelete, table)
      modifies api`tables, api`failures
      ensures api.Versions()
      ensures ok ==> forall table :: UploadedIn(before, api.tables, recordsToInsert, recordsToDelete, table)
      ensures forall table :: PartwayIn(before, api.tables, recordsToInsert, recordsToDelete, table)
      ensures api.GivesUpAfterFive(ok)
    {
      var rest := recordsToDelete.Keys;
      ghost var inserted := api.tables;
      ok := true;
      NoErasesSent(before, inserted, recordsToInsert, recordsToDelete);
      while rest != {}
        invariant ok && rest <= recordsToDelete.Keys
        invariant api.Versions()
        invariant ErasesSent(before, inserted, api.tables, recordsToInsert, recordsToDelete, rest)
        invariant old(api.failures) <= api.failures
        decreases |rest|
      {
        var table :| table in rest;
        assert DeletesOf(recordsToDelete, table) == recordsToDelete[table];
        assert InsertedIn(before, inserted, recordsToInsert, table);
        ghost var previous := api.tables;
        ok := UploadTableErases(before, table);
        OneMoreEraseSent(before, inserted, previous, api.tables, recordsToInsert, recordsToDelete, rest, table, ok);
        if !ok {
          return;
        }
        rest := rest - {table};
      }
    }

    method SendBuffers() returns (ok: bool)
      requires api.Valid() && api.Versions() && Usable(cfg, recordsToInsert, recordsToDelete)
      modifies api
      ensures ok ==>
                api.Versions()
                && forall table :: UploadedIn(old(api.tables), api.tables, recordsToInsert, recordsToDelete, table)
      ensures forall table :: PartwayIn(old(api.tables), api.tables, recordsToInsert, recordsToDelete, table)
      ensures api.GivesUpAfterFive(ok)
    {
      ghost var before := api.tables;
      ok := UploadInserts();
      if ok {
        ok := UploadErases(before);
      }
    }

    /** Everything handled is visible: the buffers start afresh and the checkpoint moves up. */
    method Checkpoint()
      requires api.Valid() && api.Versions() && Positions()
      requires Shows(cfg, api.tables, initial, handled)
      modifies this`recordsToInsert, this`recordsToDelete, this`lastProcessed, this`checkpoint, this`applied
      ensures Valid() && applied == checkpoint == |handled|
      ensures recordsToInsert == map[] && recordsToDelete == map[] && lastProcessed == lastProcessedNonUploaded
    {
      recordsToInsert := map[];
      recordsToDelete := map[];
      lastProcessed := lastProcessedNonUploaded;
      checkpoint := |handled|;
      applied := |handled|;
      WholeSlices(handled);
      EmptyBuffers(cfg);
    }

    /** Sends the buffers and moves the checkpoint to the last handled event. When a command keeps failing,
        the error is raised: the checkpoint stays, and it still covers nothing that is missing. */
    method UploadRecords() returns (ok: bool)
      requires Valid()
      modifies this`recordsToInsert, this`recordsToDelete, this`lastProcessed, this`checkpoint, this`applied,
               this`saved, this`savedCheckpoint, api
      ensures Safe()
      ensures ok ==> Valid() && applied == checkpoint == |handled|
      ensures ok ==> recordsToInsert == map[] && recordsToDelete == map[] && lastProcessed == lastProcessedNonUploaded
      ensures !ok ==> lastProcessed == old(lastProcessed) && saved == old(saved)
      ensures api.GivesUpAfterFive(ok)
    {
      ghost var before := api.tables;
      ok := SendBuffers();
      if !ok {
        UploadPartial(cfg, initial, before, api.tables, recordsToInsert, recordsToDelete, handled, applied,
                      savedCheckpoint);
        return;
      }
      UploadComplete(cfg, initial, before, api.tables, recordsToInsert, recordsToDelete, handled, applied);
      Checkpoint();
      var due: bool := *;
      SaveStateIfRequired(due);
      ValidIsSafe();
    }

    method HandleInsertEvent(event: LogEvent)
      requires Valid() && WellFormed(cfg, event.change) && event.change.Insert?
      requires event.change.table in cfg.replicated && event.change.table in cfg.keyIds
      modifies this`recordsToInsert, this`recordsToDelete
      ensures AllWellFormed(cfg, handled[applied..] + [event])
      ensures Holds(cfg, handled[applied..] + [event], recordsToInsert, recordsToDelete)
    {
      var table, rows := event.change.table, event.change.rows;
      var ids := cfg.keyIds[table];
      var toInsert, toDelete := InsertsOf(recordsToInsert, table), DeletesOf(recordsToDelete, table);
      ghost var events := handled[applied..];
      FirstRowsWellFormed(cfg, events, event, 0);
      NetEffectUntouched(cfg, table, events, FirstRows(event, 0), toInsert, toDelete);
      for i := 0 to |rows|
        invariant recordsToInsert == old(recordsToInsert) && recordsToDelete == old(recordsToDelete)
        invariant AllWellFormed(cfg, events + [FirstRows(event, i)])
        invariant Keyed(cfg, table, toInsert)
        invariant NetEffect(cfg, table, events + [FirstRows(event, i)], toInsert, toDelete)
      {
        FirstRowsWellFormed(cfg, events, event, i + 1);
        BufferInsertRow(cfg, events, event, i, toInsert, toDelete);
        var id := RecordId(ids, rows[i]);
        toInsert := toInsert[id := rows[i]];
        toDelete := toDelete - {id};
      }
      assert rows[..|rows|] == rows && FirstRows(event, |rows|) == event;
      BufferedOneMore(cfg, events, event, recordsToInsert, recordsToDelete, table, toInsert, toDelete);
      recordsToInsert := recordsToInsert[table := toInsert];
      recordsToDelete := recordsToDelete[table := toDelete];
    }

    method HandleEraseEvent(event: LogEvent)
      requires Valid() && WellFormed(cfg, event.change) && event.change.Erase?
      requires event.change.table in cfg.replicated && event.change.table in cfg.keyIds && !cfg.ignoreDeletes
      modifies this`recordsToInsert, this`recordsToDelete
      ensures AllWellFormed(cfg, handled[applied..] + [event])
      ensures Holds(cfg, handled[applied..] + [event], recordsToInsert, recordsToDelete)
    {
      var table, rows := event.change.table, event.change.rows;
      var ids := cfg.keyIds[table];
      var toInsert, toDelete := InsertsOf(recordsToInsert, table), DeletesOf(recordsToDelete, table);
      ghost var events := handled[applied..];
      FirstRowsWellFormed(cfg, events, event, 0);
      NetEffectUntouched(cfg, table, events, FirstRows(event, 0), toInsert, toDelete);
      for i := 0 to |rows|
        invariant recordsToInsert == old(recordsToInsert) && recordsToDelete == old(recordsToDelete)
        invariant AllWellFormed(cfg, events + [FirstRows(event, i)])
        invariant Keyed(cfg, table, toInsert)
        invariant NetEffect(cfg, table, events + [FirstRows(event, i)], toInsert, toDelete)
      {
        FirstRowsWellFormed(cfg, events, event, i + 1);
        BufferEraseRow(cfg, events, event, i, toInsert, toDelete);
        var id := RecordId(ids, rows[i]);
        toDelete := toDelete + {id};
        toInsert := toInsert - {id};
      }
      assert rows[..|rows|] == rows && FirstRows(event, |rows|) == event;
      BufferedOneMore(cfg, events, event, recordsToInsert, recordsToDelete, table, toInsert, toDelete);
      recordsToInsert := recordsToInsert[table := toInsert];
      recordsToDelete := recordsToDelete[table := toDelete];
    }

    ghost predicate Raises(event: LogEvent) {
      WithoutStructure(cfg, event)
    }

    ghost predicate RaisesIn(events: seq<LogEvent>) {
      exists i :: 0 <= i < |events| && Raises(events[i])
    }

    lemma NextIncreasing(event: LogEvent)
      requires StrictlyIncreasing(handled)
      requires !Covers(PositionAfter(startNonUploaded, handled), event.transactionId)
      ensures StrictlyIncreasing(handled + [event])
    {
    }

    /** The position moves to an event whose effect is in the buffers. */
    method AcceptBuffered(event: LogEvent)
      requires api.Valid() && api.Versions() && Positions() && WellFormed(cfg, event.change)
      requires !Covers(lastProcessedNonUploaded, event.transactionId)
      requires Shows(cfg, api.tables, initial, handled[..applied])
      requires AllWellFormed(cfg, handled[applied..] + [event])
      requires Holds(cfg, handled[applied..] + [event], recordsToInsert, recordsToDelete)
      modifies this`handled, this`lastProcessedNonUploaded
      ensures Valid() && handled == old(handled) + [event] && lastProcessedNonUploaded == Some(event.transactionId)
    {
      NextIncreasing(event);
      SlicesOfSnoc(handled, event, applied);
      handled := handled + [event];
      lastProcessedNonUploaded := Some(event.transactionId);
    }

    /** The position moves to a statement that ClickHouse has already executed. */
    method AcceptExecuted(event: LogEvent)
      requires api.Valid() && api.Versions() && Positions() && WellFormed(cfg, event.change) && event.change.Truncate?
      requires applied == checkpoint == |handled| && recordsToInsert == map[] && recordsToDelete == map[]
      requires !Covers(lastProcessedNonUploaded, event.transactionId)
      requires AllWellFormed(cfg, handled + [event]) && Shows(cfg, api.tables, initial, handled + [event])
      modifies this`handled, this`applied, this`lastProcessedNonUploaded
      ensures Valid() && handled == old(handled) + [event] && lastProcessedNonUploaded == Some(event.transactionId)
    {
      NextIncreasing(event);
      handled := handled + [event];
      applied := |handled|;
      lastProcessedNonUploaded := Some(event.transactionId);
      WholeSlices(handled);
      EmptyBuffers(cfg);
    }

    /** Uploads whatever is pending, for any table, and then empties the table on ClickHouse. */
    method HandleTruncateQuery(event: LogEvent) returns (ok: bool)
      requires Valid() && event.change.Truncate?
      requires !Covers(lastProcessedNonUploaded, event.transactionId)
      modifies this, api
      ensures Safe()
      ensures ok ==>
                Valid() && handled == old(handled) + [event] && lastProcessedNonUploaded == Some(event.transactionId)
      ensures !ok ==> handled == old(handled) || handled == old(handled) + [event]
      ensures api.GivesUpAfterFive(ok)
    {
      ok := UploadRecords();
      if !ok {
        return;
      }
      ok := TruncateOnServer(event);
    }

    /** Empties the table on ClickHouse; nothing is pending. */
    method TruncateOnServer(event: LogEvent) returns (ok: bool)
      requires Valid() && event.change.Truncate? && applied == checkpoint == |handled|
      requires recordsToInsert == map[] && recordsToDelete == map[]
      requires !Covers(lastProcessedNonUploaded, event.transactionId)
      modifies this, api
      ensures Safe()
      ensures ok ==>
                Valid() && handled == old(handled) + [event] && lastProcessedNonUploaded == Some(event.transactionId)
      ensures !ok ==> handled == old(handled) + [event]
      ensures api.GivesUpAfterFive(ok)
    {
      var table := event.change.table;
      ghost var before := api.tables;
      ok := true;
      var executed := false;
      WholeSlices(handled);
      if table in cfg.replicated && table in cfg.keyIds {
        // After the upload no records are pending for the table, so there is nothing to clear.
        ok, executed := api.ExecuteTruncate(table);
      }
      TruncatedViews(cfg, initial, before, api.tables, handled, event, executed);
      if ok {
        AcceptExecuted(event);
        ValidIsSafe();
      } else {
        TruncateUnconfirmed(event, executed);
      }
    }

    /** A statement that may or may not have been executed counts as handled for what ClickHouse may show. */
    ghost method TruncateUnconfirmed(event: LogEvent, executed: bool)
      requires AllWellFormed(cfg, handled + [event]) && savedCheckpoint <= |handled|
               && AtCheckpoint(saved.lastProcessed, savedCheckpoint)
      requires Shows(cfg, api.tables, initial, if executed then handled + [event] else handled)
      modifies this`handled
      ensures Safe() && handled == old(handled) + [event]
    {
      SlicesOfSnoc(handled, event, |handled|);
      WholeSlices(handled);
      WholeSlices(handled + [event]);
      handled := handled + [event];
      ShownIsFuzzy(cfg, initial, api.tables, handled, if executed then |handled| else |handled| - 1, savedCheckpoint);
    }

    /** Runs the handler of an event and moves the position to it. */
    method Dispatch(event: LogEvent) returns (ok: bool)
      requires Valid() && WellFormed(cfg, event.change)
      requires !Covers(lastProcessedNonUploaded, event.transactionId)
      modifies this, api
      ensures Safe()
      ensures ok ==>
                Valid() && handled == old(handled) + [event] && lastProcessedNonUploaded == Some(event.transactionId)
      ensures !ok ==> handled == old(handled) || handled == old(handled) + [event]
      ensures Raises(event) ==> !ok && unchanged(this) && unchanged(api)
      ensures api.GivesUpAfterFive(ok || Raises(event))
    {
      var table := event.change.table;
      ok := true;
      match event.change {
        case Truncate(_) =>
          ok := HandleTruncateQuery(event);
        case Insert(_, _) =>
          ok := BufferRows(event, table in cfg.replicated);
        case Erase(_, _) =>
          ok := BufferRows(event, table in cfg.replicated && !cfg.ignoreDeletes);
      }
    }

    /** Buffers the rows of an event, if it is for this replicator; a table without a structure raises. */
    method BufferRows(event: LogEvent, wanted: bool) returns (ok: bool)
      requires Valid() && WellFormed(cfg, event.change) && (event.change.Insert? || event.change.Erase?)
      requires wanted == (event.change.table in cfg.replicated && (event.change.Insert? || !cfg.ignoreDeletes))
      requires !Covers(lastProcessedNonUploaded, event.transactionId)
      modifies this, api
      ensures Safe()
      ensures ok ==>
                Valid() && handled == old(handled) + [event] && lastProcessedNonUploaded == Some(event.transactionId)
      ensures ok == !Raises(event)
      ensures unchanged(api) && (!ok ==> unchanged(this))
    {
      if wanted && event.change.table !in cfg.keyIds {
        ValidIsSafe();
        return false;
      }
      if wanted && event.change.Insert? {
        HandleInsertEvent(event);
      } else if wanted {
        HandleEraseEvent(event);
      } else {
        BufferedNoMore(cfg, handled[applied..], event, recordsToInsert, recordsToDelete);
      }
      AcceptBuffered(event);
      ValidIsSafe();
      ok := true;
    }

    /** Uploads when a buffer of the table is full or it is due by the clock, and otherwise does nothing. */
    method UploadRecordsIfRequired(table: Option<string>, due: bool) returns (ok: bool)
      requires Valid()
      modifies this`recordsToInsert, this`recordsToDelete, this`lastProcessed, this`checkpoint, this`applied,
               this`saved, this`savedCheckpoint, api
      ensures Safe()
      ensures ok ==> Valid()
      ensures ok && table.Some? ==>
                && |InsertsOf(recordsToInsert, table.value)| < 100_000
                && |DeletesOf(recordsToDelete, table.value)| < 100_000
      ensures ok && due ==> applied == checkpoint == |handled| && recordsToInsert == map[] && recordsToDelete == map[]
      ensures !due && (table.Some? ==> |InsertsOf(old(recordsToInsert), table.value)| < 100_000
                                       && |DeletesOf(old(recordsToDelete), table.value)| < 100_000) ==>
                ok && unchanged(this) && unchanged(api)
      ensures api.GivesUpAfterFive(ok)
    {
      var needDump := due;
      if table.Some? {
        if |InsertsOf(recordsToInsert, table.value)| >= DATA_DUMP_BATCH_SIZE {
          needDump := true;
        }
        if |DeletesOf(recordsToDelete, table.value)| >= DATA_DUMP_BATCH_SIZE {
          needDump := true;
        }
      }
      ok := true;
      if needDump {
        ok := UploadRecords();
      } else {
        ValidIsSafe();
      }
    }

    /** Skips an event at or before the position; otherwise applies it, moves the position to it, and
        uploads and saves as required. Untracked tables raise, and so do dead connections. */
    method HandleEvent(event: LogEvent) returns (ok: bool)
      requires Valid() && WellFormed(cfg, event.change)
      modifies this, api
      ensures Safe()
      ensures ok ==> Valid()
      ensures ok ==> lastProcessedNonUploaded ==
                     if old(Covers(lastProcessedNonUploaded, event.transactionId)) then old(lastProcessedNonUploaded)
                     else Some(event.transactionId)
      ensures ok ==> handled == old(handled) +
                                if old(Covers(lastProcessedNonUploaded, event.transactionId)) then [] else [event]
      ensures !ok ==> handled == old(handled) || handled == old(handled) + [event]
      ensures old(Covers(lastProcessedNonUploaded, event.transactionId)) ==> ok && unchanged(this) && unchanged(api)
      ensures !old(Covers(lastProcessedNonUploaded, event.transactionId)) && Raises(event) ==>
                !ok && unchanged(this) && unchanged(api)
      ensures api.GivesUpAfterFive(ok || Raises(event))
    {
      if Covers(lastProcessedNonUploaded, event.transactionId) {
        ValidIsSafe();
        return true;
      }
      ok := Dispatch(event);
      var uploadDue: bool, saveDue: bool := *, *;
      if ok {
        ok := UploadRecordsIfRequired(if event.change.Truncate? then Some("") else Some(event.change.table), uploadDue);
      }
      if ok {
        SaveStateIfRequired(saveDue);
        ValidIsSafe();
      }
    }

    /** A new process reads back what the old one saved. */
    method Reload()
      requires Valid() && recordsToInsert == map[] && recordsToDelete == map[]
      requires saved == SavedState(lastProcessed, api.tablesLastRecordVersion)
               && lastProcessed == lastProcessedNonUploaded
      modifies this`recordsToInsert, this`recordsToDelete, this`lastProcessed, this`lastProcessedNonUploaded,
               api`tablesLastRecordVersion
      ensures Valid() && lastProcessed == lastProcessedNonUploaded == old(lastProcessed)
    {
      recordsToInsert := map[];
      recordsToDelete := map[];
      lastProcessed := saved.lastProcessed;
      lastProcessedNonUploaded := saved.lastProcessed;
      api.tablesLastRecordVersion := saved.versions;
    }

    /** The run loop leaves: everything is uploaded and saved, and a new process starts from the saved state. */
    method StopAndResume() returns (ok: bool)
      requires Valid()
      modifies this, api
      ensures Safe()
      ensures handled == old(handled)
      ensures ok ==> Valid() && applied == savedCheckpoint == |handled|
      ensures ok ==> saved.lastProcessed == lastProcessed == lastProcessedNonUploaded == old(lastProcessedNonUploaded)
      ensures api.GivesUpAfterFive(ok)
    {
      ok := UploadRecords();
      if !ok {
        return;
      }
      SaveState();
      Reload();
      ValidIsSafe();
    }

    /** One turn of the loop: perhaps a poll that finds nothing, perhaps a graceful stop after which a new
        process continues, and then an event. */
    method Turn(event: LogEvent) returns (ok: bool)
      requires Valid() && WellFormed(cfg, event.change)
      modifies this, api
      ensures Safe()
      ensures ok ==> Valid()
      ensures ok ==> lastProcessedNonUploaded ==
                     if old(Covers(lastProcessedNonUploaded, event.transactionId)) then old(lastProcessedNonUploaded)
                     else Some(event.transactionId)
      ensures ok ==> handled == old(handled) +
                                if old(Covers(lastProcessedNonUploaded, event.transactionId)) then [] else [event]
      ensures api.GivesUpAfterFive(ok || (Raises(event)
                                          && !Covers(old(lastProcessedNonUploaded), event.transactionId)))
      ensures !Covers(old(lastProcessedNonUploaded), event.transactionId) && Raises(event) ==> !ok
    {
      var idle: bool := *;
      var stop: bool := *;
      if idle {
        var due: bool := *;
        ok := UploadRecordsIfRequired(None, due);
        if !ok {
          return;
        }
      }
      if stop && lastProcessedNonUploaded.Some? {
        ok := StopAndResume();
        if !ok {
          return;
        }
      }
      ok := HandleEvent(event);
    }

    method ProcessEvents(events: seq<LogEvent>) returns (ok: bool)
      requires Valid() && AllWellFormed(cfg, events)
      modifies this, api
      ensures Safe()
      ensures ok ==> Valid() && handled == old(handled) + Accepted(old(lastProcessedNonUploaded), events)
      ensures ok ==> !RaisesIn(Accepted(old(lastProcessedNonUploaded), events))
      ensures api.GivesUpAfterFive(ok || RaisesIn(Accepted(old(lastProcessedNonUploaded), events)))
    {
      ok := true;
      ghost var position := lastProcessedNonUploaded;
      WholeSlices(events);
      WholeSlices(handled);
      ValidIsSafe();
      for i := 0 to |events|
        invariant ok && Valid() && Safe()
        invariant handled == old(handled) + Accepted(position, events[..i])
        invariant lastProcessedNonUploaded == PositionAfter(position, Accepted(position, events[..i]))
        invariant !RaisesIn(Accepted(position, events[..i])) && old(api.failures) <= api.failures
      {
        ok := ProcessNext(events, i, position, old(handled));
        if !ok {
          RaisesStill(position, events, i + 1);
          return;
        }
      }
    }

    lemma RaisesNext(events: seq<LogEvent>, event: LogEvent)
      ensures RaisesIn(events + [event]) <==> RaisesIn(events) || Raises(event)
      ensures RaisesIn(events + []) <==> RaisesIn(events)
    {
      assert (events + [event])[|events|] == event && events + [] == events;
      assert forall i :: 0 <= i < |events| ==> (events + [event])[i] == events[i];
    }

    lemma RaisesStill(position: Option<Transaction>, events: seq<LogEvent>, i: nat)
      requires i <= |events|
      ensures RaisesIn(Accepted(position, events[..i])) ==> RaisesIn(Accepted(position, events))
    {
      assert events == events[..i] + events[i..];
      AcceptedPrefix(position, events[..i], events[i..]);
    }

    /** One event of those the reader delivers. */
    method ProcessNext(events: seq<LogEvent>, i: nat, ghost position: Option<Transaction>, ghost before: seq<LogEvent>)
      returns (ok: bool)
      requires Valid() && i < |events| && WellFormed(cfg, events[i].change)
      requires handled == before + Accepted(position, events[..i])
      requires lastProcessedNonUploaded == PositionAfter(position, Accepted(position, events[..i]))
      requires !RaisesIn(Accepted(position, events[..i]))
      modifies this, api
      ensures Safe()
      ensures ok ==> Valid() && handled == before + Accepted(position, events[..i + 1])
      ensures ok ==> lastProcessedNonUploaded == PositionAfter(position, Accepted(position, events[..i + 1]))
      ensures ok ==> !RaisesIn(Accepted(position, events[..i + 1]))
      ensures api.GivesUpAfterFive(ok || RaisesIn(Accepted(position, events[..i + 1])))
    {
      ghost var accepted := Accepted(position, events[..i]);
      AcceptOne(position, events[..i], events[i]);
      SliceLast(events, 0, i + 1);
      ok := Turn(events[i]);
      RaisesNext(accepted, events[i]);
      Associative(before, accepted, if Covers(PositionAfter(position, accepted), events[i].transactionId) then []
                  else [events[i]]);
    }

    /** The realtime loop over everything the reader delivers, and the final stop. */
    method RunRealtimeReplication(events: seq<LogEvent>) returns (ok: bool)
      requires Valid() && AllWellFormed(cfg, events)
      modifies this, api
      ensures Safe()
      ensures ok ==> Valid() && handled == old(handled) + Accepted(old(lastProcessedNonUploaded), events)
      ensures ok ==> Shows(cfg, api.tables, initial, handled)
      ensures ok ==> saved.lastProcessed == lastProcessed == PositionAfter(startNonUploaded, handled)
      ensures ok ==> !RaisesIn(Accepted(old(lastProcessedNonUploaded), events))
      ensures api.GivesUpAfterFive(ok || RaisesIn(Accepted(old(lastProcessedNonUploaded), events)))
    {
      ok := ProcessEvents(events);
      if ok {
        ok := StopAndResume();
        WholeSlices(handled);
      }
    }
  }
}
