/** The reference semantics of replication: each change applied, one at a time, to a map from key to row. */
module Reference {
  import opened Events

  /** `keyIds` gives the primary key columns of each tracked table. */
  datatype Config = Config(keyIds: map<string, seq<nat>>, replicated: set<string>, ignoreDeletes: bool)

  type Table = map<Key, Row>

  predicate WideEnough(ids: seq<nat>, row: Row) {
    forall i :: 0 <= i < |ids| ==> ids[i] < |row|
  }

  function RecordId(ids: seq<nat>, row: Row): Key
    requires WideEnough(ids, row)
  {
    seq(|ids|, i requires 0 <= i < |ids| => row[ids[i]])
  }

  /** Two rows agree in every key column. */
  predicate SameKey(ids: seq<nat>, a: Row, b: Row)
    requires WideEnough(ids, a) && WideEnough(ids, b)
  {
    forall i :: 0 <= i < |ids| ==> a[ids[i]] == b[ids[i]]
  }

  /** The key of a row is what tells it from rows that differ from it in a key column. */
  lemma RecordIdIff(ids: seq<nat>, a: Row, b: Row)
    requires WideEnough(ids, a) && WideEnough(ids, b)
    ensures RecordId(ids, a) == RecordId(ids, b) <==> SameKey(ids, a, b)
  {
    if RecordId(ids, a) == RecordId(ids, b) {
      forall i | 0 <= i < |ids| ensures a[ids[i]] == b[ids[i]] {
        assert RecordId(ids, a)[i] == RecordId(ids, b)[i];
      }
    }
  }

  /** Rows are stored under their own key. */
  ghost predicate KeyedView(ids: seq<nat>, view: Table) {
    forall key :: key in view ==> WideEnough(ids, view[key]) && RecordId(ids, view[key]) == key
  }

  /** Rows carry a value for every key column of their table. */
  predicate WellFormed(cfg: Config, change: Change) {
    !change.Truncate? && change.table in cfg.keyIds ==>
      forall row :: row in change.rows ==> WideEnough(cfg.keyIds[change.table], row)
  }

  predicate AllWellFormed(cfg: Config, log: seq<LogEvent>) {
    forall e :: e in log ==> WellFormed(cfg, e.change)
  }

  predicate Concerns(cfg: Config, table: string, change: Change) {
    change.table == table && table in cfg.replicated && table in cfg.keyIds
  }

  function InsertRows(ids: seq<nat>, view: Table, rows: seq<Row>): Table
    requires forall row :: row in rows ==> WideEnough(ids, row)
  {
    if rows == [] then view
    else
      var row := rows[|rows| - 1];
      InsertRows(ids, view, rows[..|rows| - 1])[RecordId(ids, row) := row]
  }

  function EraseRows(ids: seq<nat>, view: Table, rows: seq<Row>): Table
    requires forall row :: row in rows ==> WideEnough(ids, row)
  {
    if rows == [] then view
    else EraseRows(ids, view, rows[..|rows| - 1]) - {RecordId(ids, rows[|rows| - 1])}
  }

  function Apply(cfg: Config, table: string, view: Table, change: Change): Table
    requires WellFormed(cfg, change)
  {
    if !Concerns(cfg, table, change) then view
    else match change
      case Insert(_, rows) => InsertRows(cfg.keyIds[table], view, rows)
      case Erase(_, rows) => if cfg.ignoreDeletes then view else EraseRows(cfg.keyIds[table], view, rows)
      case Truncate(_) => map[]
  }

  function ApplyAll(cfg: Config, table: string, view: Table, log: seq<LogEvent>): Table
    requires AllWellFormed(cfg, log)
  {
    if log == [] then view
    else Apply(cfg, table, ApplyAll(cfg, table, view, log[..|log| - 1]), log[|log| - 1].change)
  }

  function ValueAt(view: Table, key: Key): Option<Row> {
    if key in view then Some(view[key]) else None
  }

  // What one change writes to a key: nothing, a row, or an absence.

  /** The last row of `rows` stored under `key`, if any. */
  function LastRow(ids: seq<nat>, rows: seq<Row>, key: Key): Option<Row>
    requires forall row :: row in rows ==> WideEnough(ids, row)
  {
    if rows == [] then None
    else if RecordId(ids, rows[|rows| - 1]) == key then Some(rows[|rows| - 1])
    else LastRow(ids, rows[..|rows| - 1], key)
  }

  /** None: the change leaves the key alone. Some(v): afterwards the key holds v, whatever it held. */
  function Write(cfg: Config, table: string, key: Key, change: Change): Option<Option<Row>>
    requires WellFormed(cfg, change)
  {
    if !Concerns(cfg, table, change) then None
    else match change
      case Insert(_, rows) =>
        var row := LastRow(cfg.keyIds[table], rows, key);
        if row.Some? then Some(row) else None
      case Erase(_, rows) =>
        if !cfg.ignoreDeletes && LastRow(cfg.keyIds[table], rows, key).Some? then Some(None) else None
      case Truncate(_) => Some(None)
  }

  function LastWrite(cfg: Config, table: string, key: Key, log: seq<LogEvent>): Option<Option<Row>>
    requires AllWellFormed(cfg, log)
  {
    if log == [] then None
    else
      var w := Write(cfg, table, key, log[|log| - 1].change);
      if w.Some? then w else LastWrite(cfg, table, key, log[..|log| - 1])
  }

  function Resolve(write: Option<Option<Row>>, before: Option<Row>): Option<Row> {
    if write.Some? then write.value else before
  }

  lemma {:induction false} InsertRowsAt(ids: seq<nat>, view: Table, rows: seq<Row>, key: Key)
    requires forall row :: row in rows ==> WideEnough(ids, row)
    ensures ValueAt(InsertRows(ids, view, rows), key) ==
            (var row := LastRow(ids, rows, key); if row.Some? then row else ValueAt(view, key))
  {
    if rows != [] {
      InsertRowsAt(ids, view, rows[..|rows| - 1], key);
    }
  }

  lemma {:induction false} EraseRowsAt(ids: seq<nat>, view: Table, rows: seq<Row>, key: Key)
    requires forall row :: row in rows ==> WideEnough(ids, row)
    ensures ValueAt(EraseRows(ids, view, rows), key) ==
            if LastRow(ids, rows, key).Some? then None else ValueAt(view, key)
  {
    if rows != [] {
      EraseRowsAt(ids, view, rows[..|rows| - 1], key);
    }
  }

  // What the changes mean for the rows of a table, without keys.

  lemma {:induction false} LastRowNone(ids: seq<nat>, rows: seq<Row>, row: Row)
    requires (forall r :: r in rows ==> WideEnough(ids, r)) && WideEnough(ids, row)
    ensures LastRow(ids, rows, RecordId(ids, row)).None? <==>
            forall j :: 0 <= j < |rows| ==> !SameKey(ids, rows[j], row)
  {
    if rows != [] {
      LastRowNone(ids, rows[..|rows| - 1], row);
      RecordIdIff(ids, rows[|rows| - 1], row);
    }
  }

  lemma {:induction false} LastRowSome(ids: seq<nat>, rows: seq<Row>, row: Row)
    requires (forall r :: r in rows ==> WideEnough(ids, r)) && WideEnough(ids, row)
    ensures LastRow(ids, rows, RecordId(ids, row)) == Some(row) <==> exists i :: LastOfItsKey(ids, rows, row, i)
  {
    if rows != [] {
      var m := |rows| - 1;
      LastRowSome(ids, rows[..m], row);
      RecordIdIff(ids, rows[m], row);
      if rows[m] == row {
        assert LastOfItsKey(ids, rows, row, m);
      }
      if i: nat :| LastOfItsKey(ids, rows[..m], row, i) && !SameKey(ids, rows[m], row) {
        assert LastOfItsKey(ids, rows, row, i);
      }
      if i: nat :| LastOfItsKey(ids, rows, row, i) && i < m {
        assert LastOfItsKey(ids, rows[..m], row, i);
      }
    }
  }

  /** The row is rows[i], and no later one agrees with it in every key column. */
  ghost predicate LastOfItsKey(ids: seq<nat>, rows: seq<Row>, row: Row, i: nat)
    requires (forall r :: r in rows ==> WideEnough(ids, r)) && WideEnough(ids, row)
  {
    i < |rows| && rows[i] == row && forall j :: i < j < |rows| ==> !SameKey(ids, rows[j], row)
  }

  /** In a table whose rows are stored under their own keys, a row is there if it is what is found under its key. */
  lemma ThereIff(ids: seq<nat>, view: Table, row: Row)
    requires KeyedView(ids, view) && WideEnough(ids, row)
    ensures row in view.Values <==> ValueAt(view, RecordId(ids, row)) == Some(row)
  {
    if row in view.Values {
      var key :| key in view && view[key] == row;
    }
  }

  lemma {:induction false} InsertKeepsKeyed(ids: seq<nat>, view: Table, rows: seq<Row>)
    requires KeyedView(ids, view) && forall row :: row in rows ==> WideEnough(ids, row)
    ensures KeyedView(ids, InsertRows(ids, view, rows))
  {
    if rows != [] {
      InsertKeepsKeyed(ids, view, rows[..|rows| - 1]);
    }
  }

  lemma {:induction false} EraseKeepsKeyed(ids: seq<nat>, view: Table, rows: seq<Row>)
    requires KeyedView(ids, view) && forall row :: row in rows ==> WideEnough(ids, row)
    ensures KeyedView(ids, EraseRows(ids, view, rows))
  {
    if rows != [] {
      EraseKeepsKeyed(ids, view, rows[..|rows| - 1]);
    }
  }

  /** Some row of the change agrees with this one in every key column. */
  ghost predicate Hit(ids: seq<nat>, rows: seq<Row>, row: Row)
    requires (forall r :: r in rows ==> WideEnough(ids, r)) && WideEnough(ids, row)
  {
    exists j :: 0 <= j < |rows| && SameKey(ids, rows[j], row)
  }

  /** Which rows are in a table after a change, said by their columns: of the inserted rows those that no later one
      agrees with in every key column; of the rows from before those that no row of the change agrees with so. A change
      to another table, to one that is not replicated, or to one without a recorded structure changes nothing. */
  lemma ApplyMeans(cfg: Config, table: string, view: Table, change: Change, row: Row)
    requires WellFormed(cfg, change) && table in cfg.keyIds
    requires KeyedView(cfg.keyIds[table], view) && WideEnough(cfg.keyIds[table], row)
    ensures KeyedView(cfg.keyIds[table], Apply(cfg, table, view, change))
    ensures row in Apply(cfg, table, view, change).Values <==>
            if change.table != table || table !in cfg.replicated then row in view.Values
            else
              match change
              case Insert(_, rows) =>
                || (exists i :: LastOfItsKey(cfg.keyIds[table], rows, row, i))
                || (row in view.Values && !Hit(cfg.keyIds[table], rows, row))
              case Erase(_, rows) => row in view.Values && (cfg.ignoreDeletes || !Hit(cfg.keyIds[table], rows, row))
              case Truncate(_) => false
  {
    var ids, key := cfg.keyIds[table], RecordId(cfg.keyIds[table], row);
    ThereIff(ids, view, row);
    if change.table == table && table in cfg.replicated {
      match change
      case Insert(_, rows) =>
        InsertKeepsKeyed(ids, view, rows);
        ThereIff(ids, InsertRows(ids, view, rows), row);
        InsertRowsAt(ids, view, rows, key);
        LastRowNone(ids, rows, row);
        LastRowSome(ids, rows, row);
      case Erase(_, rows) =>
        EraseKeepsKeyed(ids, view, rows);
        ThereIff(ids, EraseRows(ids, view, rows), row);
        EraseRowsAt(ids, view, rows, key);
        LastRowNone(ids, rows, row);
      case Truncate(_) =>
    }
  }

  /** Of two inserted rows that differ in a key column neither replaces the other. */
  lemma BothAreThere(cfg: Config, table: string, view: Table, change: Change, a: Row, b: Row)
    requires WellFormed(cfg, change) && change.Insert? && change.rows == [a, b]
    requires change.table == table && table in cfg.replicated && table in cfg.keyIds
    requires KeyedView(cfg.keyIds[table], view) && a in change.rows && b in change.rows
    ensures a in Apply(cfg, table, view, change).Values && b in Apply(cfg, table, view, change).Values <==>
            a == b || !SameKey(cfg.keyIds[table], a, b)
  {
    var ids := cfg.keyIds[table];
    ApplyMeans(cfg, table, view, change, a);
    ApplyMeans(cfg, table, view, change, b);
    assert LastOfItsKey(ids, [a, b], b, 1);
    assert a == b || !SameKey(ids, a, b) ==> exists i :: LastOfItsKey(ids, [a, b], a, i) by {
      assert if a == b then LastOfItsKey(ids, [a, b], a, 1) else !SameKey(ids, b, a) ==>
               LastOfItsKey(ids, [a, b], a, 0);
    }
    assert SameKey(ids, a, a);
  }

  /** A log is applied from its beginning on, one event after the other. */
  lemma OneMoreEvent(cfg: Config, table: string, view: Table, log: seq<LogEvent>, event: LogEvent)
    requires AllWellFormed(cfg, log + [event])
    ensures AllWellFormed(cfg, log) && WellFormed(cfg, event.change) && ApplyAll(cfg, table, view, []) == view
    ensures ApplyAll(cfg, table, view, log + [event]) ==
            Apply(cfg, table, ApplyAll(cfg, table, view, log), event.change)
  {
    assert forall e :: e in log ==> e in log + [event];
    assert event in log + [event] && (log + [event])[..|log|] == log;
  }

  lemma ApplyAt(cfg: Config, table: string, view: Table, change: Change, key: Key)
    requires WellFormed(cfg, change)
    ensures ValueAt(Apply(cfg, table, view, change), key) == Resolve(Write(cfg, table, key, change), ValueAt(view, key))
  {
    if Concerns(cfg, table, change) {
      match change
      case Insert(_, rows) => InsertRowsAt(cfg.keyIds[table], view, rows, key);
      case Erase(_, rows) => EraseRowsAt(cfg.keyIds[table], view, rows, key);
      case Truncate(_) =>
    }
  }

  /** A key ends with the last write to it, or with its starting value when nothing wrote to it. */
  lemma {:induction false} LastWriteWins(cfg: Config, table: string, view: Table, log: seq<LogEvent>, key: Key)
    requires AllWellFormed(cfg, log)
    ensures ValueAt(ApplyAll(cfg, table, view, log), key) ==
            Resolve(LastWrite(cfg, table, key, log), ValueAt(view, key))
  {
    if log != [] {
      var rest := log[..|log| - 1];
      LastWriteWins(cfg, table, view, rest, key);
      ApplyAt(cfg, table, ApplyAll(cfg, table, view, rest), log[|log| - 1].change, key);
    }
  }

  lemma {:induction false} LastWriteSplit(cfg: Config, table: string, key: Key, a: seq<LogEvent>, b: seq<LogEvent>)
    requires AllWellFormed(cfg, a) && AllWellFormed(cfg, b)
    ensures AllWellFormed(cfg, a + b)
    ensures LastWrite(cfg, table, key, a + b) ==
            (var w := LastWrite(cfg, table, key, b); if w.Some? then w else LastWrite(cfg, table, key, a))
  {
    if b == [] {
      assert a + b == a;
    } else {
      assert (a + b)[..|a + b| - 1] == a + b[..|b| - 1];
      LastWriteSplit(cfg, table, key, a, b[..|b| - 1]);
    }
  }

  lemma {:induction false} ApplyAllSplit(cfg: Config, table: string, view: Table, a: seq<LogEvent>, b: seq<LogEvent>)
    requires AllWellFormed(cfg, a) && AllWellFormed(cfg, b)
    ensures AllWellFormed(cfg, a + b)
    ensures ApplyAll(cfg, table, view, a + b) == ApplyAll(cfg, table, ApplyAll(cfg, table, view, a), b)
  {
    if b == [] {
      assert a + b == a;
    } else {
      assert (a + b)[..|a + b| - 1] == a + b[..|b| - 1];
      ApplyAllSplit(cfg, table, view, a, b[..|b| - 1]);
    }
  }

  lemma SameEverywhere(a: Table, b: Table)
    requires forall key :: ValueAt(a, key) == ValueAt(b, key)
    ensures a == b
  {
    forall key | key in a
      ensures key in b && a[key] == b[key]
    {
      assert ValueAt(a, key) == ValueAt(b, key);
    }
    forall key | key in b
      ensures key in a
    {
      assert ValueAt(a, key) == ValueAt(b, key);
    }
  }

  // Fuzzy copies.

  /** `key` holds in `copy` what it held in the source at some moment between `from` and `upTo`. */
  ghost predicate ReadBetween(cfg: Config, table: string, source: Table, log: seq<LogEvent>,
                              from: nat, upTo: nat, copy: Table, key: Key)
    requires AllWellFormed(cfg, log) && from <= upTo <= |log|
  {
    exists moment :: from <= moment <= upTo && ReadAt(cfg, table, source, log, moment, copy, key)
  }

  ghost predicate ReadAt(cfg: Config, table: string, source: Table, log: seq<LogEvent>, moment: nat, copy: Table,
                         key: Key)
    requires AllWellFormed(cfg, log) && moment <= |log|
  {
    ValueAt(copy, key) == ValueAt(ApplyAll(cfg, table, source, log[..moment]), key)
  }

  ghost predicate FuzzyCopy(cfg: Config, table: string, source: Table, log: seq<LogEvent>, from: nat, upTo: nat,
                            copy: Table)
    requires AllWellFormed(cfg, log) && from <= upTo <= |log|
  {
    forall key :: ReadBetween(cfg, table, source, log, from, upTo, copy, key)
  }

  lemma NoWriteNoChange(cfg: Config, table: string, source: Table, log: seq<LogEvent>, from: nat, moment: nat, key: Key)
    requires AllWellFormed(cfg, log) && from <= moment <= |log|
    requires LastWrite(cfg, table, key, log[from..]).None?
    ensures ValueAt(ApplyAll(cfg, table, source, log[..moment]), key) ==
            ValueAt(ApplyAll(cfg, table, source, log[..from]), key)
  {
    assert log[from..] == log[from..moment] + log[moment..];
    LastWriteSplit(cfg, table, key, log[from..moment], log[moment..]);
    assert log[..moment] == log[..from] + log[from..moment];
    LastWriteSplit(cfg, table, key, log[..from], log[from..moment]);
    LastWriteWins(cfg, table, source, log[..moment], key);
    LastWriteWins(cfg, table, source, log[..from], key);
  }

  /** Replaying every event after the saved position turns any fuzzy copy into the source table,
      although the replay may move rows back through states older than the ones copied. */
  lemma FuzzyCopyConverges(cfg: Config, table: string, source: Table, log: seq<LogEvent>, from: nat, upTo: nat,
                           copy: Table)
    requires AllWellFormed(cfg, log) && from <= upTo <= |log|
    requires FuzzyCopy(cfg, table, source, log, from, upTo, copy)
    ensures ApplyAll(cfg, table, copy, log[from..]) == ApplyAll(cfg, table, source, log)
  {
    forall key
      ensures ValueAt(ApplyAll(cfg, table, copy, log[from..]), key) == ValueAt(ApplyAll(cfg, table, source, log), key)
    {
      assert ReadBetween(cfg, table, source, log, from, upTo, copy, key);
      var moment :| from <= moment <= upTo && ReadAt(cfg, table, source, log, moment, copy, key);
      LastWriteWins(cfg, table, copy, log[from..], key);
      assert log == log[..from] + log[from..];
      LastWriteSplit(cfg, table, key, log[..from], log[from..]);
      LastWriteWins(cfg, table, source, log, key);
      if LastWrite(cfg, table, key, log[from..]).None? {
        NoWriteNoChange(cfg, table, source, log, from, moment, key);
        LastWriteWins(cfg, table, source, log[..from], key);
      }
    }
    SameEverywhere(ApplyAll(cfg, table, copy, log[from..]), ApplyAll(cfg, table, source, log));
  }
}
