/** Rebuilding the relay of the databases from the MySQL binlog: all or nothing, and without a gap. */
module Recovery {
  import opened Events
  import opened Sequences
  import opened Framing
  import opened Relay
  import opened Writing

  /** The checkpoint of one database's replicator. */
  datatype StateInfo = StateInfo(dbName: string, lastProcessedTransaction: Transaction)

  /** One event of the binlog stream and what it converts to; None if it is filtered out. */
  datatype StreamEvent = StreamEvent(transactionId: Transaction, converted: Option<LogEvent>)

  /** state.json of the binlog replicator. */
  datatype BinlogState = BinlogState(lastSeen: Option<Transaction>, prevLastSeen: Option<Transaction>)

  /** NotRequired and Recovered are the two return values, the others are exceptions: Raised is one after which the
      relay is as it was, RaisedUnrestored one that came up while files were moved aside or back. */
  datatype Outcome = NotRequired | Recovered | Raised | RaisedUnrestored

  /** The files are partly here and partly there, each in one place. */
  ghost predicate Parted(files: Files, here: Files, there: Files) {
    && here.Keys !! there.Keys && here.Keys + there.Keys == files.Keys
    && (forall n :: n in here ==> here[n] == files[n]) && (forall n :: n in there ==> there[n] == files[n])
  }

  /** Every file is here or there, perhaps among others. */
  ghost predicate Somewhere(files: Files, here: Files, there: Files) {
    forall n :: n in files ==> (n in here && here[n] == files[n]) || (n in there && there[n] == files[n])
  }

  /** No file of any database is lost. */
  ghost predicate NoneLost(relays: map<string, Files>, now: map<string, Files>, aside: map<string, Files>) {
    forall db :: Somewhere(FilesOf(relays, db), FilesOf(now, db), FilesOf(aside, db))
  }

  /** The least transaction of some states. */
  function MinTransaction(states: seq<StateInfo>): (r: Transaction)
    requires states != []
    ensures exists s :: s in states && s.lastProcessedTransaction == r
    ensures forall s :: s in states ==> !Before(s.lastProcessedTransaction, r)
  {
    var first := states[0].lastProcessedTransaction;
    assert states[0] in states;
    if |states| == 1 then first
    else
      var rest := MinTransaction(states[1..]);
      assert states == [states[0]] + states[1..];
      assert exists s :: s in states[1..] && s.lastProcessedTransaction == rest;
      if Before(rest, first) then rest else first
  }

  /** The events the stream yields when it starts at the beginning of a binlog file. */
  function FromFile(binlog: seq<StreamEvent>, file: nat): seq<StreamEvent> {
    if binlog == [] then []
    else FromFile(binlog[..|binlog| - 1], file) + if file <= binlog[|binlog| - 1].transactionId.fileNum
        then [binlog[|binlog| - 1]] else []
  }

  /** The events the stream yields when it resumes at a saved position. */
  function AfterPosition(binlog: seq<StreamEvent>, position: Transaction): seq<StreamEvent> {
    if binlog == [] then []
    else AfterPosition(binlog[..|binlog| - 1], position) +
         if Before(position, binlog[|binlog| - 1].transactionId) then [binlog[|binlog| - 1]] else []
  }

  /** The payloads of the events of one database. */
  function BinlogPayloads(dumps: LogEvent -> Bytes, db: string, events: seq<StreamEvent>): seq<Bytes> {
    if events == [] then []
    else BinlogPayloads(dumps, db, events[..|events| - 1]) + BinlogPayload(dumps, db, events[|events| - 1])
  }

  function BinlogPayload(dumps: LogEvent -> Bytes, db: string, event: StreamEvent): seq<Bytes> {
    if event.converted.Some? && event.converted.value.dbName == db then [dumps(event.converted.value)] else []
  }

  /** An event that is to be stored but is too long for its size field. */
  ghost predicate Refused(dumps: LogEvent -> Bytes, affected: set<string>, event: StreamEvent) {
    event.converted.Some? && event.converted.value.dbName in affected
    && |dumps(event.converted.value)| >= SIZE_LIMIT
  }

  ghost predicate SomeRefused(dumps: LogEvent -> Bytes, affected: set<string>, events: seq<StreamEvent>) {
    exists e :: e in events && Refused(dumps, affected, e)
  }

  lemma NextRefused(dumps: LogEvent -> Bytes, affected: set<string>, events: seq<StreamEvent>, i: nat)
    requires i < |events|
    ensures events[..i] + [events[i]] == events[..i + 1]
    ensures SomeRefused(dumps, affected, events[..i + 1]) <==>
            SomeRefused(dumps, affected, events[..i]) || Refused(dumps, affected, events[i])
    ensures Refused(dumps, affected, events[i]) ==> SomeRefused(dumps, affected, events)
  {
    assert events[..i + 1] == events[..i] + [events[i]];
  }

  /** The relay begins with file 1 and holds these payloads. */
  ghost predicate RelayHolds(files: Files, payloads: seq<Bytes>) {
    if files == map[] then payloads == []
    else Unbroken(files, 1) && IsOldest(files, 1) && StreamFrom(files, 1) == payloads
  }

  lemma RelayHoldsMore(before: Files, after: Files, payloads: seq<Bytes>, more: seq<Bytes>)
    requires RelayHolds(before, payloads) && Appended(before, after, more)
    ensures RelayHolds(after, payloads + more)
  {
  }

  ghost predicate AllParted(relays: map<string, Files>, now: map<string, Files>, aside: map<string, Files>) {
    forall db :: Parted(FilesOf(relays, db), FilesOf(now, db), FilesOf(aside, db))
  }

  lemma PartedStep(relays: map<string, Files>, now: map<string, Files>, there: map<string, Files>,
                   later: map<string, Files>, aside: map<string, Files>, db: string)
    requires AllParted(relays, now, there) && db !in there && db in aside
    requires forall other :: other != db ==>
               FilesOf(later, other) == FilesOf(now, other) && FilesOf(aside, other) == FilesOf(there, other)
    requires Parted(FilesOf(now, db), FilesOf(later, db), aside[db])
    ensures AllParted(relays, later, aside) && FilesOf(relays, db) == FilesOf(now, db)
  {
    assert Parted(FilesOf(relays, db), FilesOf(now, db), map[]);
    PartedWhole(FilesOf(relays, db), FilesOf(now, db));
  }

  lemma PartedWhole(files: Files, whole: Files)
    ensures Parted(files, whole, map[]) || Parted(files, map[], whole) ==> whole == files
  {
    if Parted(files, whole, map[]) || Parted(files, map[], whole) {
      assert whole.Keys == files.Keys;
    }
  }

  /** The databases whose files are elsewhere than they were are among the given ones. */
  ghost predicate OthersInPlace(relays: map<string, Files>, now: map<string, Files>, databases: set<string>) {
    forall db :: db !in databases ==> FilesOf(now, db) == FilesOf(relays, db)
  }

  /** All files of the given databases are aside, and nothing else is. */
  ghost predicate SetAside(relays: map<string, Files>, aside: map<string, Files>, databases: set<string>) {
    && aside.Keys <= databases && (forall db :: db in databases ==> FilesOf(aside, db) == FilesOf(relays, db))
    && (forall db :: db in aside ==> FilesOf(relays, db) != map[])
  }

  /** Files moved aside, all or some of them, are not lost. */
  lemma PartedSafe(relays: map<string, Files>, now: map<string, Files>, aside: map<string, Files>,
                   databases: set<string>)
    requires AllParted(relays, now, aside) && aside.Keys <= databases
    ensures NoneLost(relays, now, aside) && OthersInPlace(relays, now, databases)
    ensures forall db :: db in databases && FilesOf(now, db) == map[] ==> FilesOf(aside, db) == FilesOf(relays, db)
  {
    forall db ensures Somewhere(FilesOf(relays, db), FilesOf(now, db), FilesOf(aside, db)) {
      assert Parted(FilesOf(relays, db), FilesOf(now, db), FilesOf(aside, db));
    }
    forall db ensures db !in databases ==> FilesOf(now, db) == FilesOf(relays, db)
              ensures db in databases && FilesOf(now, db) == map[] ==> FilesOf(aside, db) == FilesOf(relays, db) {
      assert Parted(FilesOf(relays, db), FilesOf(now, db), FilesOf(aside, db));
      PartedWhole(FilesOf(relays, db), FilesOf(now, db));
      PartedWhole(FilesOf(relays, db), FilesOf(aside, db));
    }
  }

  /** As long as all files are aside, whatever is written in their place. */
  lemma SetAsideSafe(relays: map<string, Files>, now: map<string, Files>, aside: map<string, Files>,
                     databases: set<string>)
    requires SetAside(relays, aside, databases) && OthersInPlace(relays, now, databases)
    ensures NoneLost(relays, now, aside)
  {
    forall db ensures Somewhere(FilesOf(relays, db), FilesOf(now, db), FilesOf(aside, db)) {
      assert db in databases || FilesOf(now, db) == FilesOf(relays, db);
    }
  }

  /** Moving them back loses none either. */
  lemma MovedBackSafe(relays: map<string, Files>, before: map<string, Files>, there: map<string, Files>,
                      now: map<string, Files>, aside: map<string, Files>, databases: set<string>)
    requires SetAside(relays, there, databases) && OthersInPlace(relays, before, databases)
    requires forall db :: Somewhere(FilesOf(there, db), FilesOf(now, db), FilesOf(aside, db))
    requires forall db :: db !in there ==> FilesOf(now, db) == FilesOf(before, db)
    ensures NoneLost(relays, now, aside) && OthersInPlace(relays, now, databases)
  {
    forall db ensures Somewhere(FilesOf(relays, db), FilesOf(now, db), FilesOf(aside, db)) {
      if db in databases {
        assert FilesOf(there, db) == FilesOf(relays, db);
      } else {
        assert FilesOf(now, db) == FilesOf(before, db) == FilesOf(relays, db);
      }
    }
  }

  lemma Fewer(files: Files, n: nat)
    requires n in files
    ensures |files| == |files - {n}| + 1
  {
    assert files == (files - {n})[n := files[n]];
  }

  lemma PartedNext(files: Files, left: Files, moved: Files, n: nat)
    requires Parted(files, left, moved) && n in left
    ensures Parted(files, left - {n}, moved[n := left[n]])
  {
    var less, more := left - {n}, moved[n := left[n]];
    assert less.Keys == left.Keys - {n} && more.Keys == moved.Keys + {n};
  }

  class RelayRecovery {
    const dir: DataDir
    const loads: Loads
    const dumps: LogEvent -> Bytes
    const recordsPerFile: int
    var binlogState: BinlogState
    /** The backup directories of the databases. */
    var aside: map<string, Files>
    /** What has gone wrong so far: a file not moved, MySQL not reached, an event not read, a state not saved. */
    ghost var mishaps: nat

    constructor (dir: DataDir, loads: Loads, dumps: LogEvent -> Bytes, recordsPerFile: int, binlogState: BinlogState)
      ensures this.dir == dir && this.loads == loads && this.dumps == dumps && this.binlogState == binlogState
      ensures aside == map[]
    {
      this.dir := dir;
      this.loads := loads;
      this.dumps := dumps;
      this.recordsPerFile := recordsPerFile;
      this.binlogState := binlogState;
      aside := map[];
    }

    /** Something goes wrong exactly when it is counted as a mishap. */
    twostate predicate FailsByMishap(ok: bool)
      reads this
    {
      old(mishaps) <= mishaps && (ok <==> mishaps == old(mishaps))
    }

    /** Takes files out of a directory one by one; any step may fail. */
    method MoveFiles(files: Files) returns (ok: bool, left: Files, moved: Files)
      modifies this`mishaps
      ensures Parted(files, left, moved)
      ensures ok ==> left == map[] && moved == files
      ensures FailsByMishap(ok)
    {
      ok, left, moved := true, files, map[];
      while ok && left != map[]
        invariant Parted(files, left, moved) && FailsByMishap(ok)
        decreases ok, |left|
      {
        ok := *;
        if ok {
          var n :| n in left;
          PartedNext(files, left, moved, n);
          Fewer(left, n);
          left, moved := left - {n}, moved[n := left[n]];
        } else {
          mishaps := mishaps + 1;
        }
      }
      PartedWhole(files, moved);
    }

    ghost predicate Locatable(relays: map<string, Files>, state: StateInfo) {
      var files := FilesOf(relays, state.dbName);
      LocateNum(loads, files, SortedNums(files.Keys), state.lastProcessedTransaction).Some?
    }

    /** A rebuilt relay in which a checkpoint is still not found. */
    ghost predicate Incomplete(rebuilt: map<string, Files>, states: seq<StateInfo>, databases: set<string>,
                               events: seq<StreamEvent>) {
      && (forall db :: db in databases ==> RelayHolds(FilesOf(rebuilt, db), BinlogPayloads(dumps, db, events)))
      && (exists s :: s in states && !Locatable(rebuilt, s))
    }

    /** Why a rebuild may fail: a mishap, an event too long for its size field, or a checkpoint that is still not
        found. */
    twostate predicate FailsFor(states: seq<StateInfo>, databases: set<string>, events: seq<StreamEvent>)
      reads this
    {
      || old(mishaps) < mishaps || SomeRefused(dumps, databases, events)
      || exists rebuilt :: Incomplete(rebuilt, states, databases, events)
    }

    /** Moves the files of one database aside. */
    method MoveAside(db: string) returns (ok: bool)
      requires db !in aside
      modifies dir, this`aside, this`mishaps
      ensures aside.Keys == old(aside.Keys) + {db} && forall other :: other in old(aside) ==>
                aside[other] == old(aside)[other]
      ensures forall other :: other != db ==> FilesOf(dir.relays, other) == old(FilesOf(dir.relays, other))
      ensures Parted(old(FilesOf(dir.relays, db)), FilesOf(dir.relays, db), aside[db])
      ensures ok ==> FilesOf(dir.relays, db) == map[]
      ensures FailsByMishap(ok)
    {
      var left, moved;
      ok, left, moved := MoveFiles(FilesOf(dir.relays, db));
      dir.relays := dir.relays[db := left];
      aside := aside[db := moved];
    }

    /** Moves the files of the given databases aside. An exception leaves each file in one of the two places. */
    method BackupBinFiles(databases: set<string>) returns (ok: bool)
      requires aside == map[]
      modifies dir, this`aside, this`mishaps
      ensures AllParted(old(dir.relays), dir.relays, aside) && aside.Keys <= databases
      ensures forall db :: db in aside ==> FilesOf(old(dir.relays), db) != map[]
      ensures ok ==> forall db :: db in databases ==> FilesOf(dir.relays, db) == map[]
      ensures FailsByMishap(ok)
    {
      var todo := databases;
      ghost var relays := dir.relays;
      while todo != {}
        invariant todo <= databases && aside.Keys <= databases - todo && mishaps == old(mishaps)
        invariant AllParted(relays, dir.relays, aside)
        invariant forall db :: db in aside ==> FilesOf(relays, db) != map[]
        invariant forall db :: db in databases - todo ==> FilesOf(dir.relays, db) == map[]
      {
        var db :| db in todo;
        if FilesOf(dir.relays, db) != map[] {
          ghost var now, there := dir.relays, aside;
          ok := MoveAside(db);
          PartedStep(relays, now, there, dir.relays, aside, db);
          if !ok {
            return;
          }
        }
        todo := todo - {db};
      }
      ok := true;
    }

    /** Removes what has been written for a database since, and moves its files back. */
    method MoveBack(db: string) returns (ok: bool)
      requires db in aside
      modifies dir, this`aside, this`mishaps
      ensures aside.Keys == old(aside.Keys) && forall other :: other in aside && other != db ==>
                aside[other] == old(aside)[other]
      ensures forall other :: other != db ==> FilesOf(dir.relays, other) == old(FilesOf(dir.relays, other))
      ensures Somewhere(old(aside)[db], FilesOf(dir.relays, db), aside[db])
      ensures ok ==> FilesOf(dir.relays, db) == old(aside)[db]
      ensures FailsByMishap(ok)
    {
      var present, removed;
      ok, present, removed := MoveFiles(FilesOf(dir.relays, db));
      dir.relays := dir.relays[db := present];
      if ok {
        var left, moved;
        ok, left, moved := MoveFiles(aside[db]);
        dir.relays := dir.relays[db := moved];
        aside := aside[db := left];
      }
    }

    /** Puts the files moved aside back, in place of whatever has been written since. */
    method RestoreBackups() returns (ok: bool)
      modifies dir, this`aside, this`mishaps
      ensures forall db :: Somewhere(FilesOf(old(aside), db), FilesOf(dir.relays, db), FilesOf(aside, db))
      ensures forall db :: db !in old(aside) ==> FilesOf(dir.relays, db) == old(FilesOf(dir.relays, db))
      ensures ok ==> forall db :: db in old(aside) ==> FilesOf(dir.relays, db) == old(aside)[db]
      ensures FailsByMishap(ok)
    {
      var todo := aside.Keys;
      while todo != {}
        invariant todo <= aside.Keys == old(aside.Keys) && mishaps == old(mishaps)
        invariant forall db :: db in todo ==> aside[db] == old(aside)[db]
        invariant forall db :: db !in old(aside) ==> FilesOf(dir.relays, db) == old(FilesOf(dir.relays, db))
        invariant forall db :: db in aside && db !in todo ==> FilesOf(dir.relays, db) == old(aside)[db]
      {
        var db :| db in todo;
        ok := MoveBack(db);
        if !ok {
          return;
        }
        todo := todo - {db};
      }
      ok := true;
    }

    /** Stores what the stream yields for the affected databases. The stream or the disk may fail at any event;
        None is an exception. */
    method RebuildRelay(writer: DataWriter, affected: set<string>, startFile: nat, events: seq<StreamEvent>,
                        position: Option<Transaction>)
      returns (final: Option<Transaction>)
      requires writer.Valid() && writer.dir == dir && writer.dumps == dumps
      requires forall db :: db in affected ==> writer.Logical(db) == map[]
      modifies writer`dbFileWriters, dir, this`mishaps
      ensures writer.Valid()
      ensures forall db :: db !in affected ==> writer.Logical(db) == old(writer.Logical(db))
      ensures old(mishaps) <= mishaps
      ensures final.Some? <==> mishaps == old(mishaps) && !SomeRefused(dumps, affected, events)
      ensures final.Some? ==>
                forall db :: db in affected ==> RelayHolds(writer.Logical(db), BinlogPayloads(dumps, db, events))
      ensures final.Some? ==> final.value == FinalTransaction(startFile, events, position)
    {
      final := Some(Transaction(startFile, 4));
      for i := 0 to |events|
        invariant writer.Valid() && mishaps == old(mishaps) && !SomeRefused(dumps, affected, events[..i])
        invariant forall db :: db !in affected ==> writer.Logical(db) == old(writer.Logical(db))
        invariant forall db :: db in affected ==> RelayHolds(writer.Logical(db), BinlogPayloads(dumps, db, events[..i]))
        invariant final == Some(FinalTransaction(startFile, events[..i], None))
      {
        var stored := ReadAndStore(writer, affected, events[i], events[..i]);
        NextRefused(dumps, affected, events, i);
        if !stored {
          return None;
        }
        final := Some(events[i].transactionId);
      }
      WholeSlices(events);
      if position.Some? {
        final := position;
      }
    }

    /** The stream may fail instead of yielding the next event. */
    method ReadAndStore(writer: DataWriter, affected: set<string>, event: StreamEvent, ghost before: seq<StreamEvent>)
      returns (ok: bool)
      requires writer.Valid() && writer.dir == dir && writer.dumps == dumps
      requires forall db :: db in affected ==> RelayHolds(writer.Logical(db), BinlogPayloads(dumps, db, before))
      modifies writer`dbFileWriters, dir, this`mishaps
      ensures writer.Valid()
      ensures old(mishaps) <= mishaps && (ok <==> mishaps == old(mishaps) && !Refused(dumps, affected, event))
      ensures forall db :: db !in affected ==> writer.Logical(db) == old(writer.Logical(db))
      ensures ok ==>
                forall db :: db in affected ==>
                  RelayHolds(writer.Logical(db), BinlogPayloads(dumps, db, before + [event]))
    {
      var fails: bool := *;
      if fails {
        mishaps := mishaps + 1;
        return false;
      }
      ok := StoreIfAffected(writer, affected, event, before);
    }

    method StoreIfAffected(writer: DataWriter, affected: set<string>, event: StreamEvent,
                           ghost before: seq<StreamEvent>) returns (ok: bool)
      requires writer.Valid() && writer.dir == dir && writer.dumps == dumps
      requires forall db :: db in affected ==> RelayHolds(writer.Logical(db), BinlogPayloads(dumps, db, before))
      modifies writer`dbFileWriters, dir
      ensures writer.Valid()
      ensures forall db :: db !in affected ==> writer.Logical(db) == old(writer.Logical(db))
      ensures ok <==> !Refused(dumps, affected, event)
      ensures ok ==>
                forall db :: db in affected ==>
                  RelayHolds(writer.Logical(db), BinlogPayloads(dumps, db, before + [event]))
    {
      ok := true;
      forall db ensures BinlogPayloads(dumps, db, before + [event]) ==
          BinlogPayloads(dumps, db, before) + BinlogPayload(dumps, db, event) {
        SlicesOfSnoc(before, event, |before|);
        WholeSlices(before);
      }
      if event.converted.Some? && event.converted.value.dbName in affected {
        var log := event.converted.value;
        ghost var was := writer.Logical(log.dbName);
        ok := writer.StoreEvent(log);
        if ok {
          RelayHoldsMore(was, writer.Logical(log.dbName), BinlogPayloads(dumps, log.dbName, before), [dumps(log)]);
        }
      }
    }

    method IsLocatable(state: StateInfo) returns (r: bool)
      ensures r <==> Locatable(dir.relays, state)
    {
      var files := FilesOf(dir.relays, state.dbName);
      var reader := new DataReader(loads);
      var n := reader.GetFileWithTransaction(files, SortedNums(files.Keys), state.lastProcessedTransaction);
      r := n.Some?;
    }

    /** The states whose transaction is not in the local relay. */
    method GetMissingStates(states: seq<StateInfo>) returns (missing: seq<StateInfo>)
      ensures forall s :: s in missing <==> s in states && !Locatable(dir.relays, s)
    {
      missing := [];
      for i := 0 to |states|
        invariant forall s :: s in missing <==> s in states[..i] && !Locatable(dir.relays, s)
      {
        assert states[..i + 1] == states[..i] + [states[i]];
        var here := IsLocatable(states[i]);
        if !here {
          missing := missing + [states[i]];
        }
      }
      WholeSlices(states);
    }

    /** The body of the try statement. Every step of it may raise. */
    method TryRebuild(writer: DataWriter, states: seq<StateInfo>, affected: set<string>, startFile: nat,
                      events: seq<StreamEvent>,
                      position: Option<Transaction>) returns (ok: bool)
      requires writer.Valid() && writer.dir == dir && writer.dumps == dumps
      requires forall db :: db in affected ==> writer.Logical(db) == map[]
      modifies writer`dbFileWriters, dir, this`binlogState, this`mishaps
      ensures writer.Valid()
      ensures old(mishaps) <= mishaps && (ok ==> mishaps == old(mishaps) && !SomeRefused(dumps, affected, events))
      ensures !ok ==> mishaps > old(mishaps) || SomeRefused(dumps, affected, events)
                      || Incomplete(dir.relays, states, affected, events)
      ensures forall db :: db !in affected ==> writer.Logical(db) == old(writer.Logical(db))
      ensures !ok ==> binlogState == old(binlogState)
      ensures ok ==> var final := Some(FinalTransaction(startFile, events, position));
              binlogState == BinlogState(final, final)
      ensures ok ==> forall db :: FilesOf(dir.relays, db) == writer.Logical(db)
      ensures ok ==>
                forall db :: db in affected ==> RelayHolds(FilesOf(dir.relays, db), BinlogPayloads(dumps, db, events))
      ensures ok ==> forall s :: s in states ==> Locatable(dir.relays, s)
    {
      var final := RebuildRelay(writer, affected, startFile, events, position);
      if final.None? {
        return false;
      }
      writer.CloseAll();
      var missing := GetMissingStates(states);
      if missing != [] {
        assert missing[0] in missing;
        return false;
      }
      forall s | s in states ensures Locatable(dir.relays, s) {
        assert s !in missing;
      }
      var fails: bool := *;
      if fails {
        mishaps := mishaps + 1;
        return false;
      }
      binlogState := BinlogState(final, final);
      return true;
    }

    /** Rebuilds the relay when a checkpoint is missing from it. `available` are the files MySQL still has, `binlog`
        the events it would yield from its first file on, and `position` is where the stream stands at the end.
        However it ends, no file of the old relay is lost. */
    method RecoverIfRequired(states: seq<StateInfo>, available: set<nat>, binlog: seq<StreamEvent>,
                             position: Option<Transaction>)
      returns (outcome: Outcome)
      requires aside == map[]
      modifies dir, this`binlogState, this`aside, this`mishaps
      ensures outcome.NotRequired? <==> forall s :: s in states ==> old(Locatable(dir.relays, s))
      ensures outcome.NotRequired? ==> dir.relays == old(dir.relays) && binlogState == old(binlogState)
      ensures outcome.Raised? || outcome.RaisedUnrestored? ==> binlogState == old(binlogState)
      ensures outcome.Raised? ==>
                forall db :: FilesOf(old(dir.relays), db) != map[] ==>
                  FilesOf(dir.relays, db) == FilesOf(old(dir.relays), db)
      ensures outcome.Raised? ==> states != []
      ensures outcome.Raised? ==>
                var file := MinTransaction(states).fileNum;
                file !in available || FailsFor(states, Databases(states), FromFile(binlog, file))
      ensures old(mishaps) <= mishaps && (outcome.RaisedUnrestored? ==> old(mishaps) < mishaps)
      ensures outcome.Recovered? ==> states != [] && MinTransaction(states).fileNum in available
      ensures outcome.Recovered? ==>
                var file := MinTransaction(states).fileNum;
                var events := FromFile(binlog, file);
                var final := Some(FinalTransaction(file, events, position));
                && binlogState == BinlogState(final, final)
                && (forall db :: db in Databases(states) ==>
                    RelayHolds(FilesOf(dir.relays, db), BinlogPayloads(dumps, db, events)))
      ensures outcome.Recovered? ==> forall s :: s in states ==> Locatable(dir.relays, s)
      ensures OthersInPlace(old(dir.relays), dir.relays, Databases(states))
      ensures NoneLost(old(dir.relays), dir.relays, aside)
    {
      var missing := GetMissingStates(states);
      if missing == [] {
        forall s | s in states ensures Locatable(dir.relays, s) {
          assert s !in missing;
        }
        return NotRequired;
      }
      assert missing[0] in missing;
      var databases := Databases(states);
      var startFile := MinTransaction(states).fileNum;
      var unreachable: bool := *;
      if unreachable {
        mishaps := mishaps + 1;
      }
      if unreachable || startFile !in available {
        return Raised;
      }
      outcome := Rebuild(states, databases, startFile, FromFile(binlog, startFile), position);
    }

    /** The events with which the binlog replicator goes on after a rebuild are stored behind those of the rebuild. */
    method StoreOn(affected: set<string>, rebuilt: seq<StreamEvent>, events: seq<StreamEvent>) returns (ok: bool)
      requires forall db :: db in affected ==> RelayHolds(FilesOf(dir.relays, db), BinlogPayloads(dumps, db, rebuilt))
      modifies dir
      ensures ok <==> !SomeRefused(dumps, affected, events)
      ensures ok ==>
                forall db :: db in affected ==>
                  RelayHolds(FilesOf(dir.relays, db), BinlogPayloads(dumps, db, rebuilt + events))
    {
      var writer := new DataWriter(dir, recordsPerFile, dumps);
      assert rebuilt + events[..0] == rebuilt;
      for i := 0 to |events|
        invariant writer.Valid() && forall e :: e in events[..i] ==> !Refused(dumps, affected, e)
        invariant forall db :: db in affected ==>
                    RelayHolds(writer.Logical(db), BinlogPayloads(dumps, db, rebuilt + events[..i]))
      {
        assert rebuilt + events[..i] + [events[i]] == rebuilt + events[..i + 1];
        ok := StoreIfAffected(writer, affected, events[i], rebuilt + events[..i]);
        if !ok {
          return;
        }
      }
      WholeSlices(events);
      writer.CloseAll();
      ok := true;
    }

    /** A rebuild and the run of the binlog replicator that resumes at the position it has saved: together they leave in
        the relay of every database exactly its events from the start file on, nothing missing and nothing twice. */
    method RecoverAndResume(states: seq<StateInfo>, available: set<nat>, binlog: seq<StreamEvent>,
                            position: Option<Transaction>,
                            later: seq<StreamEvent>)
      returns (outcome: Outcome, stored: bool)
      requires aside == map[] && states != [] && Ordered(binlog + later)
      requires var file := MinTransaction(states).fileNum;
               && (forall e :: e in later ==> Before(Transaction(file, 4), e.transactionId))
               && (position.Some? ==> Between(position.value, file, binlog, later))
      modifies dir, this`binlogState, this`aside, this`mishaps
      ensures stored <==> outcome.Recovered? && !SomeRefused(dumps, Databases(states), later)
      ensures outcome.Recovered? && stored ==> forall db :: db in Databases(states) ==>
                RelayHolds(FilesOf(dir.relays, db),
                           BinlogPayloads(dumps, db, FromFile(binlog + later, MinTransaction(states).fileNum)))
    {
      stored := false;
      outcome := RecoverIfRequired(states, available, binlog, position);
      if outcome.Recovered? {
        stored := GoOn(states, binlog, position, later);
      }
    }

    /** The run after a rebuild. */
    method GoOn(states: seq<StateInfo>, binlog: seq<StreamEvent>, position: Option<Transaction>,
                later: seq<StreamEvent>)
      returns (stored: bool)
      requires states != [] && Ordered(binlog + later)
      requires var file := MinTransaction(states).fileNum;
               && (forall e :: e in later ==> Before(Transaction(file, 4), e.transactionId))
               && (position.Some? ==> Between(position.value, file, binlog, later))
               && binlogState.prevLastSeen == Some(FinalTransaction(file, FromFile(binlog, file), position))
               && (forall db :: db in Databases(states) ==>
                   RelayHolds(FilesOf(dir.relays, db), BinlogPayloads(dumps, db, FromFile(binlog, file))))
      modifies dir
      ensures stored <==> !SomeRefused(dumps, Databases(states), later)
      ensures stored ==> forall db :: db in Databases(states) ==>
                RelayHolds(FilesOf(dir.relays, db),
                           BinlogPayloads(dumps, db, FromFile(binlog + later, MinTransaction(states).fileNum)))
    {
      var file := MinTransaction(states).fileNum;
      var resumed := binlogState.prevLastSeen.value;
      SavedPositionIsBetween(binlog, later, file, position);
      GapFree(binlog, later, file, resumed);
      stored := StoreOn(Databases(states), FromFile(binlog, file), AfterPosition(binlog + later, resumed));
    }

    /** Backs up, rebuilds, and restores if that fails. */
    method Rebuild(states: seq<StateInfo>, databases: set<string>, startFile: nat, events: seq<StreamEvent>,
                   position: Option<Transaction>)
      returns (outcome: Outcome)
      requires aside == map[]
      modifies dir, this`binlogState, this`aside, this`mishaps
      ensures outcome != NotRequired
      ensures outcome.Raised? ==> FailsFor(states, databases, events)
      ensures old(mishaps) <= mishaps && (outcome.RaisedUnrestored? ==> old(mishaps) < mishaps)
      ensures outcome.Raised? || outcome.RaisedUnrestored? ==> binlogState == old(binlogState)
      ensures outcome.Raised? ==>
                forall db :: FilesOf(old(dir.relays), db) != map[] ==>
                  FilesOf(dir.relays, db) == FilesOf(old(dir.relays), db)
      ensures outcome.Recovered? ==>
                var final := Some(FinalTransaction(startFile, events, position));
                && binlogState == BinlogState(final, final)
                && (forall db :: db in databases ==>
                    RelayHolds(FilesOf(dir.relays, db), BinlogPayloads(dumps, db, events)))
      ensures outcome.Recovered? ==> forall s :: s in states ==> Locatable(dir.relays, s)
      ensures OthersInPlace(old(dir.relays), dir.relays, databases)
      ensures NoneLost(old(dir.relays), dir.relays, aside)
    {
      var ok := BackupBinFiles(databases);
      ghost var relays, there := old(dir.relays), aside;
      PartedSafe(relays, dir.relays, aside, databases);
      if !ok {
        return RaisedUnrestored;
      }
      assert SetAside(relays, there, databases);
      var writer := new DataWriter(dir, recordsPerFile, dumps);
      ok := TryRebuild(writer, states, databases, startFile, events, position);
      if ok {
        SetAsideSafe(relays, dir.relays, aside, databases);
        return Recovered;
      }
      writer.CloseAll();
      outcome := Restore(relays, databases);
    }

    /** Puts everything back after a failure. */
    method Restore(ghost relays: map<string, Files>, ghost databases: set<string>) returns (outcome: Outcome)
      requires SetAside(relays, aside, databases) && OthersInPlace(relays, dir.relays, databases)
      modifies dir, this`aside, this`mishaps
      ensures outcome == Raised || outcome == RaisedUnrestored
      ensures FailsByMishap(outcome == Raised)
      ensures NoneLost(relays, dir.relays, aside) && OthersInPlace(relays, dir.relays, databases)
      ensures outcome == Raised ==>
                forall db :: FilesOf(relays, db) != map[] ==> FilesOf(dir.relays, db) == FilesOf(relays, db)
    {
      ghost var before, there := dir.relays, aside;
      var ok := RestoreBackups();
      MovedBackSafe(relays, before, there, dir.relays, aside, databases);
      outcome := if ok then Raised else RaisedUnrestored;
      if ok {
        forall db | FilesOf(relays, db) != map[] ensures FilesOf(dir.relays, db) == FilesOf(relays, db) {
          assert db in databases ==> db in there && there[db] == FilesOf(relays, db);
        }
      }
    }
  }

  function Databases(states: seq<StateInfo>): (r: set<string>)
    ensures forall s :: s in states ==> s.dbName in r
    ensures forall db :: db in r ==> exists s :: s in states && s.dbName == db
  {
    set s | s in states :: s.dbName
  }

  /** The position saved after a rebuild: the stream's, or that of the last event, or the start of the first file. */
  function FinalTransaction(startFile: nat, events: seq<StreamEvent>, position: Option<Transaction>): Transaction {
    if position.Some? then position.value
    else if events != [] then events[|events| - 1].transactionId
    else Transaction(startFile, 4)
  }

  lemma {:induction false} FromFileConcat(binlog: seq<StreamEvent>, later: seq<StreamEvent>, file: nat)
    requires forall e :: e in later ==> file <= e.transactionId.fileNum
    ensures FromFile(binlog + later, file) == FromFile(binlog, file) + later
  {
    if later == [] {
      assert binlog + later == binlog;
    } else {
      var m := |later| - 1;
      assert (binlog + later)[..|binlog + later| - 1] == binlog + later[..m];
      FromFileConcat(binlog, later[..m], file);
      assert later == later[..m] + [later[m]];
    }
  }

  lemma {:induction false} AfterPositionConcat(binlog: seq<StreamEvent>, later: seq<StreamEvent>, position: Transaction)
    requires forall e :: e in binlog ==> !Before(position, e.transactionId)
    requires forall e :: e in later ==> Before(position, e.transactionId)
    ensures AfterPosition(binlog + later, position) == later
    decreases |binlog| + |later|
  {
    if later != [] {
      var m := |later| - 1;
      assert (binlog + later)[..|binlog + later| - 1] == binlog + later[..m];
      AfterPositionConcat(binlog, later[..m], position);
      assert later == later[..m] + [later[m]];
    } else if binlog != [] {
      var m := |binlog| - 1;
      assert binlog + [] == binlog && binlog[..m] + [] == binlog[..m];
      AfterPositionConcat(binlog[..m], [], position);
    }
  }

  lemma {:induction false} FromFileHolds(binlog: seq<StreamEvent>, file: nat, e: StreamEvent)
    ensures e in FromFile(binlog, file) <==> e in binlog && file <= e.transactionId.fileNum
  {
    if binlog != [] {
      var m := |binlog| - 1;
      FromFileHolds(binlog[..m], file, e);
      assert binlog == binlog[..m] + [binlog[m]];
    }
  }

  /** A position at or after what the stream has yielded from a file on, and before what is still to come. */
  ghost predicate Between(position: Transaction, file: nat, binlog: seq<StreamEvent>, later: seq<StreamEvent>) {
    && file <= position.fileNum
    && (forall e :: e in FromFile(binlog, file) ==> !Before(position, e.transactionId))
    && (forall e :: e in later ==> Before(position, e.transactionId))
  }

  /** What the rebuild has read, continued from the saved position, is the binlog from the start file on. */
  lemma GapFree(binlog: seq<StreamEvent>, later: seq<StreamEvent>, file: nat, final: Transaction)
    requires Between(final, file, binlog, later)
    ensures AfterPosition(binlog + later, final) == later
    ensures FromFile(binlog, file) + AfterPosition(binlog + later, final) == FromFile(binlog + later, file)
  {
    forall e | e in binlog ensures !Before(final, e.transactionId) {
      FromFileHolds(binlog, file, e);
    }
    AfterPositionConcat(binlog, later, final);
    FromFileConcat(binlog, later, file);
  }

  /** The binlog is in transaction order. */
  ghost predicate Ordered(binlog: seq<StreamEvent>) {
    forall i, j :: 0 <= i < j < |binlog| ==> Before(binlog[i].transactionId, binlog[j].transactionId)
  }

  lemma {:induction false} FromFileIsSuffix(binlog: seq<StreamEvent>, file: nat) returns (n: nat)
    requires Ordered(binlog)
    ensures n <= |binlog| && FromFile(binlog, file) == binlog[n..]
    ensures n < |binlog| ==> file <= binlog[n].transactionId.fileNum
  {
    if binlog == [] {
      return 0;
    }
    var m := |binlog| - 1;
    n := FromFileIsSuffix(binlog[..m], file);
    assert n < m ==> Before(binlog[n].transactionId, binlog[m].transactionId);
    if file <= binlog[m].transactionId.fileNum {
      assert binlog[n..] == binlog[..m][n..] + [binlog[m]];
    } else {
      n := |binlog|;
    }
  }

  /** The position a rebuild saves leaves no gap: wherever the stream stood, given that this is after what it yielded
      and before what comes later, or, if it had no position, given that events come later than the start of the
      file. */
  lemma SavedPositionIsBetween(binlog: seq<StreamEvent>, later: seq<StreamEvent>, file: nat,
                               position: Option<Transaction>)
    requires Ordered(binlog + later)
    requires forall e :: e in later ==> Before(Transaction(file, 4), e.transactionId)
    requires position.Some? ==> Between(position.value, file, binlog, later)
    ensures Between(FinalTransaction(file, FromFile(binlog, file), position), file, binlog, later)
  {
    assert forall i :: 0 <= i < |binlog| ==> (binlog + later)[i] == binlog[i];
    assert Ordered(binlog);
    var events := FromFile(binlog, file);
    if position.None? && events != [] {
      var n := FromFileIsSuffix(binlog, file);
      var last := binlog[|binlog| - 1];
      assert events[|events| - 1] == last;
      FromFileHolds(binlog, file, last);
      forall e | e in events ensures !Before(last.transactionId, e.transactionId) {
        var i :| 0 <= i < |events| && events[i] == e;
        assert events[i] == binlog[n + i];
      }
      forall e | e in later ensures Before(last.transactionId, e.transactionId) {
        var i :| 0 <= i < |later| && later[i] == e;
        assert (binlog + later)[|binlog| + i] == e && (binlog + later)[|binlog| - 1] == last;
      }
    }
  }
}
