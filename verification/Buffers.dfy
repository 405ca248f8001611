/** Coalesced insert and delete buffers against the sequence of changes they stand for. */
module Buffers {
  import opened Events
  import opened Reference
  import opened ClickHouse

  type Inserts = map<string, map<Key, Row>>
  type Deletes = map<string, set<Key>>

  function InsertsOf(buffer: Inserts, table: string): map<Key, Row> {
    if table in buffer then buffer[table] else map[]
  }

  function DeletesOf(buffer: Deletes, table: string): set<Key> {
    if table in buffer then buffer[table] else {}
  }

  /** The table an upload of the buffers produces. */
  function Overlay(view: Table, inserts: map<Key, Row>, deletes: set<Key>): Table {
    (view + inserts) - deletes
  }

  function BufferedAt(inserts: map<Key, Row>, deletes: set<Key>, key: Key): Option<Option<Row>> {
    if key in inserts then Some(Some(inserts[key])) else if key in deletes then Some(None) else None
  }

  /** The buffers hold, for every key, exactly the last thing the events wrote to it. */
  ghost predicate NetEffect(cfg: Config, table: string, events: seq<LogEvent>, inserts: map<Key, Row>,
                            deletes: set<Key>)
    requires AllWellFormed(cfg, events)
  {
    && inserts.Keys !! deletes
    && forall key :: BufferedAt(inserts, deletes, key) == LastWrite(cfg, table, key, events)
  }

  /** Buffered rows sit under their own record id. */
  ghost predicate Keyed(cfg: Config, table: string, inserts: map<Key, Row>) {
    inserts != map[] ==>
      && table in cfg.keyIds
      && forall key :: key in inserts ==>
           WideEnough(cfg.keyIds[table], inserts[key]) && RecordId(cfg.keyIds[table], inserts[key]) == key
  }

  /** Uploading the net effect of a run of events has the result of applying them one at a time. */
  lemma BatchingRefinesEvents(cfg: Config, table: string, view: Table, events: seq<LogEvent>,
                              inserts: map<Key, Row>, deletes: set<Key>)
    requires AllWellFormed(cfg, events)
    requires NetEffect(cfg, table, events, inserts, deletes)
    ensures Overlay(view, inserts, deletes) == ApplyAll(cfg, table, view, events)
  {
    forall key
      ensures ValueAt(Overlay(view, inserts, deletes), key) == ValueAt(ApplyAll(cfg, table, view, events), key)
    {
      LastWriteWins(cfg, table, view, events, key);
      assert BufferedAt(inserts, deletes, key) == LastWrite(cfg, table, key, events);
    }
    SameEverywhere(Overlay(view, inserts, deletes), ApplyAll(cfg, table, view, events));
  }

  /** An interrupted upload leaves every key either as it was or as the whole upload would. */
  ghost predicate Partway(view: Table, inserts: map<Key, Row>, deletes: set<Key>, now: Table) {
    forall key :: ValueAt(now, key) == ValueAt(view, key)
        || ValueAt(now, key) == ValueAt(Overlay(view, inserts, deletes), key)
  }

  /** The inserts of a table have reached the server. */
  ghost predicate InsertedIn(before: Server, now: Server, inserts: Inserts, table: string) {
    Final(RowsOf(now, table)) == Final(RowsOf(before, table)) + InsertsOf(inserts, table)
  }

  ghost predicate UploadedIn(before: Server, now: Server, inserts: Inserts, deletes: Deletes, table: string) {
    Final(RowsOf(now, table)) ==
    Overlay(Final(RowsOf(before, table)), InsertsOf(inserts, table), DeletesOf(deletes, table))
  }

  ghost predicate PartwayIn(before: Server, now: Server, inserts: Inserts, deletes: Deletes, table: string) {
    Partway(Final(RowsOf(before, table)), InsertsOf(inserts, table), DeletesOf(deletes, table),
            Final(RowsOf(now, table)))
  }

  lemma NothingUploaded(view: Table, inserts: map<Key, Row>, deletes: set<Key>)
    ensures Partway(view, inserts, deletes, view)
  {
  }

  lemma InsertsUploaded(view: Table, inserts: map<Key, Row>, deletes: set<Key>, erased: set<Key>)
    requires inserts.Keys !! deletes && erased <= deletes
    ensures Partway(view, inserts, deletes, (view + inserts) - erased)
  {
  }

  /** The engine stopped inside an upload of log[applied..]: every key is still a fuzzy copy from `from` on. */
  lemma PartwayIsFuzzy(cfg: Config, table: string, initial: Table, log: seq<LogEvent>, from: nat, applied: nat,
                       inserts: map<Key, Row>, deletes: set<Key>, now: Table)
    requires AllWellFormed(cfg, log) && from <= applied <= |log|
    requires NetEffect(cfg, table, log[applied..], inserts, deletes)
    requires Partway(ApplyAll(cfg, table, initial, log[..applied]), inserts, deletes, now)
    ensures FuzzyCopy(cfg, table, initial, log, from, |log|, now)
  {
    var view := ApplyAll(cfg, table, initial, log[..applied]);
    assert log == log[..applied] + log[applied..];
    ApplyAllSplit(cfg, table, initial, log[..applied], log[applied..]);
    BatchingRefinesEvents(cfg, table, view, log[applied..], inserts, deletes);
    forall key
      ensures ReadBetween(cfg, table, initial, log, from, |log|, now, key)
    {
      assert log[..|log|] == log;
      if ValueAt(now, key) == ValueAt(view, key) {
        assert ReadAt(cfg, table, initial, log, applied, now, key);
      } else {
        assert ReadAt(cfg, table, initial, log, |log|, now, key);
      }
    }
  }

  // How one more event changes the last writes.

  lemma LastWriteSnoc(cfg: Config, table: string, key: Key, events: seq<LogEvent>, event: LogEvent)
    requires AllWellFormed(cfg, events) && WellFormed(cfg, event.change)
    ensures AllWellFormed(cfg, events + [event])
    ensures LastWrite(cfg, table, key, events + [event]) ==
            (var w := Write(cfg, table, key, event.change); if w.Some? then w else LastWrite(cfg, table, key, events))
  {
  }

  lemma NetEffectUntouched(cfg: Config, table: string, events: seq<LogEvent>, event: LogEvent,
                           inserts: map<Key, Row>, deletes: set<Key>)
    requires AllWellFormed(cfg, events) && WellFormed(cfg, event.change)
    requires NetEffect(cfg, table, events, inserts, deletes)
    requires forall key :: Write(cfg, table, key, event.change) == None
    ensures AllWellFormed(cfg, events + [event])
    ensures NetEffect(cfg, table, events + [event], inserts, deletes)
  {
  }

  /** Buffering one more row of an insert event. */
  lemma BufferInsertRow(cfg: Config, events: seq<LogEvent>, event: LogEvent, i: nat,
                        inserts: map<Key, Row>, deletes: set<Key>)
    requires AllWellFormed(cfg, events) && event.change.Insert? && WellFormed(cfg, event.change)
    requires event.change.table in cfg.replicated && event.change.table in cfg.keyIds && i < |event.change.rows|
    requires AllWellFormed(cfg, events + [FirstRows(event, i)])
             && AllWellFormed(cfg, events + [FirstRows(event, i + 1)])
    requires NetEffect(cfg, event.change.table, events + [FirstRows(event, i)], inserts, deletes)
    ensures event.change.rows[i] in event.change.rows
    ensures (var row := event.change.rows[i];
             var id := RecordId(cfg.keyIds[event.change.table], row);
             NetEffect(cfg, event.change.table, events + [FirstRows(event, i + 1)], inserts[id := row], deletes - {id}))
  {
    var table, rows := event.change.table, event.change.rows;
    assert rows[i] in rows;
    var id := RecordId(cfg.keyIds[table], rows[i]);
    assert rows[..i + 1][..i] == rows[..i];
    var inserts', deletes' := inserts[id := rows[i]], deletes - {id};
    forall key
      ensures BufferedAt(inserts', deletes', key) ==
              LastWrite(cfg, table, key, events + [FirstRows(event, i + 1)])
    {
      LastWriteSnoc(cfg, table, key, events, FirstRows(event, i));
      LastWriteSnoc(cfg, table, key, events, FirstRows(event, i + 1));
      assert BufferedAt(inserts, deletes, key) == LastWrite(cfg, table, key, events + [FirstRows(event, i)]);
    }
  }

  /** Buffering one more key of an erase event. */
  lemma BufferEraseRow(cfg: Config, events: seq<LogEvent>, event: LogEvent, i: nat,
                       inserts: map<Key, Row>, deletes: set<Key>)
    requires AllWellFormed(cfg, events) && event.change.Erase? && WellFormed(cfg, event.change) && !cfg.ignoreDeletes
    requires event.change.table in cfg.replicated && event.change.table in cfg.keyIds && i < |event.change.rows|
    requires AllWellFormed(cfg, events + [FirstRows(event, i)])
             && AllWellFormed(cfg, events + [FirstRows(event, i + 1)])
    requires NetEffect(cfg, event.change.table, events + [FirstRows(event, i)], inserts, deletes)
    ensures event.change.rows[i] in event.change.rows
    ensures (var id := RecordId(cfg.keyIds[event.change.table], event.change.rows[i]);
             NetEffect(cfg, event.change.table, events + [FirstRows(event, i + 1)], inserts - {id}, deletes + {id}))
  {
    var table, rows := event.change.table, event.change.rows;
    assert rows[i] in rows;
    var id := RecordId(cfg.keyIds[table], rows[i]);
    assert rows[..i + 1][..i] == rows[..i];
    var inserts', deletes' := inserts - {id}, deletes + {id};
    forall key
      ensures BufferedAt(inserts', deletes', key) ==
              LastWrite(cfg, table, key, events + [FirstRows(event, i + 1)])
    {
      LastWriteSnoc(cfg, table, key, events, FirstRows(event, i));
      LastWriteSnoc(cfg, table, key, events, FirstRows(event, i + 1));
      assert BufferedAt(inserts, deletes, key) == LastWrite(cfg, table, key, events + [FirstRows(event, i)]);
    }
  }

  /** A row event cut down to its first rows. */
  function FirstRows(event: LogEvent, i: nat): LogEvent
    requires !event.change.Truncate? && i <= |event.change.rows|
  {
    event.(change := event.change.(rows := event.change.rows[..i]))
  }

  lemma FirstRowsWellFormed(cfg: Config, events: seq<LogEvent>, event: LogEvent, i: nat)
    requires AllWellFormed(cfg, events) && WellFormed(cfg, event.change)
    requires !event.change.Truncate? && i <= |event.change.rows|
    ensures AllWellFormed(cfg, events + [FirstRows(event, i)])
  {
  }

  /** The rows of a buffer in some order; inserting them in that order overlays the buffer. */
  method ValuesOf(ids: seq<nat>, buffer: map<Key, Row>) returns (rows: seq<Row>)
    requires forall key :: key in buffer ==> WideEnough(ids, buffer[key]) && RecordId(ids, buffer[key]) == key
    ensures RecordsOf(ids, rows, buffer)
    ensures forall view :: InsertRows(ids, view, rows) == view + buffer
  {
    var rest := buffer.Keys;
    rows := [];
    while rest != {}
      invariant rest <= buffer.Keys
      invariant RecordsOf(ids, rows, buffer)
      invariant forall view :: InsertRows(ids, view, rows) == view + (buffer - rest)
    {
      var key :| key in rest;
      var grown := rows + [buffer[key]];
      forall view
        ensures InsertRows(ids, view, grown) == view + (buffer - (rest - {key}))
      {
        assert grown[..|grown| - 1] == rows;
        assert InsertRows(ids, view, rows) == view + (buffer - rest);
      }
      rows := grown;
      rest := rest - {key};
    }
    assert buffer - rest == buffer;
  }

  // All tables at once.

  function ViewOf(views: map<string, Table>, table: string): Table {
    if table in views then views[table] else map[]
  }

  /** FINAL shows, in every table, the given views after the given events. */
  ghost predicate Shows(cfg: Config, server: Server, initial: map<string, Table>, events: seq<LogEvent>)
    requires AllWellFormed(cfg, events)
  {
    forall table :: Final(RowsOf(server, table)) == ApplyAll(cfg, table, ViewOf(initial, table), events)
  }

  ghost predicate Holds(cfg: Config, events: seq<LogEvent>, inserts: Inserts, deletes: Deletes)
    requires AllWellFormed(cfg, events)
  {
    && Usable(cfg, inserts, deletes)
    && forall table :: NetEffect(cfg, table, events, InsertsOf(inserts, table), DeletesOf(deletes, table))
  }

  ghost predicate Usable(cfg: Config, inserts: Inserts, deletes: Deletes) {
    && (forall table :: Keyed(cfg, table, InsertsOf(inserts, table)))
    && (forall table :: InsertsOf(inserts, table).Keys !! DeletesOf(deletes, table))
  }

  /** Every key of every table holds a state it had between the first `from` events and all of them. */
  ghost predicate ShowsFrom(cfg: Config, server: Server, initial: map<string, Table>, log: seq<LogEvent>, from: nat)
    requires AllWellFormed(cfg, log) && from <= |log|
  {
    forall table :: FuzzyCopy(cfg, table, ViewOf(initial, table), log, from, |log|, Final(RowsOf(server, table)))
  }

  lemma UploadComplete(cfg: Config, initial: map<string, Table>, before: Server, now: Server,
                       inserts: Inserts, deletes: Deletes, log: seq<LogEvent>, applied: nat)
    requires AllWellFormed(cfg, log) && applied <= |log|
    requires Shows(cfg, before, initial, log[..applied]) && Holds(cfg, log[applied..], inserts, deletes)
    requires forall table :: UploadedIn(before, now, inserts, deletes, table)
    ensures Shows(cfg, now, initial, log)
  {
    assert log[..applied] + log[applied..] == log;
    forall table
      ensures Final(RowsOf(now, table)) == ApplyAll(cfg, table, ViewOf(initial, table), log)
    {
      assert UploadedIn(before, now, inserts, deletes, table);
      BatchingRefinesEvents(cfg, table, Final(RowsOf(before, table)), log[applied..],
                            InsertsOf(inserts, table), DeletesOf(deletes, table));
      ApplyAllSplit(cfg, table, ViewOf(initial, table), log[..applied], log[applied..]);
    }
  }

  lemma UploadPartial(cfg: Config, initial: map<string, Table>, before: Server, now: Server,
                      inserts: Inserts, deletes: Deletes, log: seq<LogEvent>, applied: nat, from: nat)
    requires AllWellFormed(cfg, log) && from <= applied <= |log|
    requires Shows(cfg, before, initial, log[..applied]) && Holds(cfg, log[applied..], inserts, deletes)
    requires forall table :: PartwayIn(before, now, inserts, deletes, table)
    ensures ShowsFrom(cfg, now, initial, log, from)
  {
    forall table
      ensures FuzzyCopy(cfg, table, ViewOf(initial, table), log, from, |log|, Final(RowsOf(now, table)))
    {
      assert PartwayIn(before, now, inserts, deletes, table);
      PartwayIsFuzzy(cfg, table, ViewOf(initial, table), log, from, applied,
                     InsertsOf(inserts, table), DeletesOf(deletes, table), Final(RowsOf(now, table)));
    }
  }

  lemma ShownIsFuzzy(cfg: Config, initial: map<string, Table>, server: Server, log: seq<LogEvent>, applied: nat,
                     from: nat)
    requires AllWellFormed(cfg, log) && from <= applied <= |log|
    requires Shows(cfg, server, initial, log[..applied])
    ensures ShowsFrom(cfg, server, initial, log, from)
  {
    forall table, key
      ensures ReadBetween(cfg, table, ViewOf(initial, table), log, from, |log|, Final(RowsOf(server, table)), key)
    {
      assert ReadAt(cfg, table, ViewOf(initial, table), log, applied, Final(RowsOf(server, table)), key);
    }
  }

  lemma EmptyBuffers(cfg: Config)
    ensures Holds(cfg, [], map[], map[])
  {
  }

  /** Buffers of one table replaced so that they account for one more event that writes to no other table. */
  lemma BufferedOneMore(cfg: Config, events: seq<LogEvent>, event: LogEvent, inserts: Inserts, deletes: Deletes,
                        table: string, toInsert: map<Key, Row>, toDelete: set<Key>)
    requires AllWellFormed(cfg, events) && WellFormed(cfg, event.change)
    requires Holds(cfg, events, inserts, deletes)
    requires AllWellFormed(cfg, events + [event])
    requires Keyed(cfg, table, toInsert) && NetEffect(cfg, table, events + [event], toInsert, toDelete)
    requires forall other, key :: other != table ==> Write(cfg, other, key, event.change) == None
    ensures Holds(cfg, events + [event], inserts[table := toInsert], deletes[table := toDelete])
  {
    var inserts', deletes' := inserts[table := toInsert], deletes[table := toDelete];
    forall other
      ensures NetEffect(cfg, other, events + [event], InsertsOf(inserts', other), DeletesOf(deletes', other))
      ensures InsertsOf(inserts', other).Keys !! DeletesOf(deletes', other)
      ensures Keyed(cfg, other, InsertsOf(inserts', other))
    {
      if other != table {
        NetEffectUntouched(cfg, other, events, event, InsertsOf(inserts, other), DeletesOf(deletes, other));
      }
    }
  }

  lemma BufferedNoMore(cfg: Config, events: seq<LogEvent>, event: LogEvent, inserts: Inserts, deletes: Deletes)
    requires AllWellFormed(cfg, events) && WellFormed(cfg, event.change)
    requires Holds(cfg, events, inserts, deletes)
    requires forall table, key :: Write(cfg, table, key, event.change) == None
    ensures AllWellFormed(cfg, events + [event])
    ensures Holds(cfg, events + [event], inserts, deletes)
  {
  }

  /** A truncation whose table is not replicated, or whose command has run, has its effect on what FINAL shows. */
  lemma TruncatedViews(cfg: Config, initial: map<string, Table>, before: Server, now: Server,
                       log: seq<LogEvent>, event: LogEvent, executed: bool)
    requires AllWellFormed(cfg, log) && event.change.Truncate?
    requires Shows(cfg, before, initial, log)
    requires forall other :: other != event.change.table ==> RowsOf(now, other) == RowsOf(before, other)
    requires RowsOf(now, event.change.table) == if executed then [] else RowsOf(before, event.change.table)
    requires executed ==> Concerns(cfg, event.change.table, event.change)
    ensures AllWellFormed(cfg, log + [event])
    ensures executed || !Concerns(cfg, event.change.table, event.change) ==> Shows(cfg, now, initial, log + [event])
    ensures !executed ==> Shows(cfg, now, initial, log)
  {
  }

  // Progress of an upload over the tables still in `rest`.

  ghost predicate InsertsSent(before: Server, now: Server, inserts: Inserts, deletes: Deletes, rest: set<string>) {
    && (forall table :: table in rest ==> RowsOf(now, table) == RowsOf(before, table))
    && (forall table :: table !in rest ==> InsertedIn(before, now, inserts, table))
    && (forall table :: PartwayIn(before, now, inserts, deletes, table))
  }

  lemma NoInsertsSent(before: Server, inserts: Inserts, deletes: Deletes)
    ensures InsertsSent(before, before, inserts, deletes, inserts.Keys)
  {
  }

  lemma OneMoreInsertSent(before: Server, previous: Server, now: Server, inserts: Inserts, deletes: Deletes,
                          rest: set<string>, table: string, ok: bool)
    requires InsertsSent(before, previous, inserts, deletes, rest) && table in rest
    requires forall other :: other != table ==> RowsOf(now, other) == RowsOf(previous, other)
    requires ok ==> InsertedIn(before, now, inserts, table)
    requires PartwayIn(before, now, inserts, deletes, table)
    ensures forall other :: PartwayIn(before, now, inserts, deletes, other)
    ensures ok ==> InsertsSent(before, now, inserts, deletes, rest - {table})
  {
    forall other | other != table
      ensures PartwayIn(before, now, inserts, deletes, other)
      ensures InsertedIn(before, previous, inserts, other) ==> InsertedIn(before, now, inserts, other)
    {
      assert PartwayIn(before, previous, inserts, deletes, other);
    }
  }

  ghost predicate ErasesSent(before: Server, inserted: Server, now: Server, inserts: Inserts, deletes: Deletes,
                             rest: set<string>) {
    && (forall table :: table in rest ==> RowsOf(now, table) == RowsOf(inserted, table))
    && (forall table :: table !in rest ==> UploadedIn(before, now, inserts, deletes, table))
    && (forall table :: PartwayIn(before, now, inserts, deletes, table))
  }

  lemma NoErasesSent(before: Server, inserted: Server, inserts: Inserts, deletes: Deletes)
    requires forall table :: InsertedIn(before, inserted, inserts, table)
    requires forall table :: PartwayIn(before, inserted, inserts, deletes, table)
    ensures ErasesSent(before, inserted, inserted, inserts, deletes, deletes.Keys)
  {
    forall table | table !in deletes
      ensures UploadedIn(before, inserted, inserts, deletes, table)
    {
      assert InsertedIn(before, inserted, inserts, table);
      var view := Final(RowsOf(inserted, table));
      assert view - {} == view;
    }
  }

  lemma OneMoreEraseSent(before: Server, inserted: Server, previous: Server, now: Server, inserts: Inserts,
                         deletes: Deletes,
                         rest: set<string>, table: string, ok: bool)
    requires ErasesSent(before, inserted, previous, inserts, deletes, rest) && table in rest
    requires forall other :: other != table ==> RowsOf(now, other) == RowsOf(previous, other)
    requires ok ==> UploadedIn(before, now, inserts, deletes, table)
    requires PartwayIn(before, now, inserts, deletes, table)
    ensures forall other :: PartwayIn(before, now, inserts, deletes, other)
    ensures ok ==> ErasesSent(before, inserted, now, inserts, deletes, rest - {table})
  {
    forall other | other != table
      ensures PartwayIn(before, now, inserts, deletes, other)
      ensures UploadedIn(before, previous, inserts, deletes, other) ==> UploadedIn(before, now, inserts, deletes, other)
    {
      assert PartwayIn(before, previous, inserts, deletes, other);
    }
  }

  // One table's insert batch.

  predicate RecordsOf(ids: seq<nat>, records: seq<Row>, buffer: map<Key, Row>) {
    forall row :: row in records ==>
          WideEnough(ids, row) && RecordId(ids, row) in buffer && buffer[RecordId(ids, row)] == row
  }

  lemma InsertSent(ids: seq<nat>, rows: seq<Stored>, left: seq<Stored>, records: seq<Row>, last: nat,
                   buffer: map<Key, Row>, deletes: set<Key>)
    requires RecordsOf(ids, records, buffer) && buffer.Keys !! deletes
    requires InsertRows(ids, Final(rows), records) == Final(rows) + buffer
    requires VersionsAtMost(rows, last) && Leftovers(left, Versioned(ids, records, last + 1))
    ensures Final(rows + left + Versioned(ids, records, last + 1)) == Final(rows) + buffer
    ensures Partway(Final(rows), buffer, deletes, Final(rows) + buffer)
  {
    RetriedInsertIsOneInsert(ids, rows, left, records, last + 1);
    InsertsUploaded(Final(rows), buffer, deletes, {});
    assert Final(rows) + buffer - {} == Final(rows) + buffer;
  }

  lemma InsertFailed(ids: seq<nat>, rows: seq<Stored>, left: seq<Stored>, records: seq<Row>, version: nat,
                     buffer: map<Key, Row>, deletes: set<Key>)
    requires RecordsOf(ids, records, buffer) && buffer.Keys !! deletes
    requires Leftovers(left, Versioned(ids, records, version))
    ensures Partway(Final(rows), buffer, deletes, Final(rows + left + []))
  {
    var batch, view := Versioned(ids, records, version), Final(rows);
    assert rows + left + [] == rows + left;
    forall key
      ensures ValueAt(Final(rows + left), key) == ValueAt(view, key)
              || ValueAt(Final(rows + left), key) == ValueAt(Overlay(view, buffer, deletes), key)
    {
      LeftoversVisible(rows, left, batch, key);
    }
  }
}
