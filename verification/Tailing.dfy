/** Reading a relay while it is being written, and resuming in it. */
module Tailing {
  import opened Events
  import opened Sequences
  import opened Framing
  import opened Relay
  import opened Writing

  /** The reader stands where writing will be seen: no file is missing ahead of it. */
  ghost predicate Follows(reader: DataReader, logical: Files)
    reads reader, reader.currentFileReader
  {
    reader.Valid(logical) && reader.Ahead(logical)
  }

  lemma StreamSplit(files: Files, n: nat, start: nat)
    requires n in files && start <= |files[n]| && Whole(files[n][..start])
    ensures StreamFrom(files, n) == ParseFrames(files[n][..start]) + Rest(files, n, start)
  {
    ParseSplit(files[n], start);
  }

  /** What a writer appends comes after everything a reader has ahead of it. */
  lemma RestAppended(before: Files, after: Files, payloads: seq<Bytes>, n: nat, start: nat)
    requires Appended(before, after, payloads) && Unbroken(before, n)
    requires start <= |before[n]| && Whole(before[n][..start])
    ensures n in after && start <= |after[n]| && Rest(after, n, start) == Rest(before, n, start) + payloads
  {
    assert before[n] <= after[n];
    assert after[n][..start] == before[n][..start];
    StreamSplit(before, n, start);
    StreamSplit(after, n, start);
    var done := ParseFrames(before[n][..start]);
    Associative(done, Rest(before, n, start), payloads);
    assert done + Rest(after, n, start) == done + (Rest(before, n, start) + payloads);
    assert (done + Rest(after, n, start))[|done|..] == Rest(after, n, start);
    assert (done + (Rest(before, n, start) + payloads))[|done|..] == Rest(before, n, start) + payloads;
  }

  /** Writing keeps a reader in place and extends what it has ahead. */
  lemma FollowsAppended(reader: DataReader, before: Files, after: Files, payloads: seq<Bytes>)
    requires Appended(before, after, payloads) && Follows(reader, before)
    ensures Follows(reader, after) && reader.Remaining(after) == reader.Remaining(before) + payloads
  {
    var current := reader.currentFileReader;
    if current != null {
      var n := current.fileNum;
      assert after[n] == before[n] + after[n][|before[n]|..];
      current.Grown(before[n], after[n][|before[n]|..]);
      RestAppended(before, after, payloads, n, current.Start());
    } else if after != map[] {
      var n := if before == map[] then 1 else Oldest(before);
      assert IsOldest(after, n);
      assert Oldest(after) == n;
      if before != map[] {
        assert before[n][..0] == [];
        RestAppended(before, after, payloads, n, 0);
      } else {
        assert after[1][0..] == after[1];
      }
    }
  }

  lemma StoreSeen(reader: DataReader, before: Files, after: Files, rest: seq<Bytes>, payloads: seq<Bytes>)
    requires Appended(before, after, payloads) && Follows(reader, before) && reader.Remaining(before) == rest
    ensures Follows(reader, after) && reader.Remaining(after) == rest + payloads
  {
    FollowsAppended(reader, before, after, payloads);
  }

  /** Readers see a directory of which only the newest file lags behind. */
  lemma OwnedGrows(files: Files, writer: Option<FileWriter>)
    requires Owns(files, writer)
    ensures GrowsTo(files, Flushed(files, writer))
  {
  }

  lemma SameAhead(reader: DataReader, files: Files, other: Files)
    requires files.Keys == other.Keys && reader.Ahead(files)
    ensures reader.Ahead(other)
  {
  }

  /** What may happen while a reader tails the relay of a database. */
  datatype Step = Store(event: LogEvent) | Flush(db: string, count: nat) | Clean(gone: set<nat>) | Poll

  /** What one step adds to the relay of a database. */
  function StepPayload(dumps: LogEvent -> Bytes, db: string, step: Step): seq<Bytes> {
    if step.Store? && step.event.dbName == db && |dumps(step.event)| < SIZE_LIMIT then [dumps(step.event)] else []
  }

  function ScheduledPayloads(dumps: LogEvent -> Bytes, db: string, schedule: seq<Step>): seq<Bytes> {
    if schedule == [] then [] else StepPayload(dumps, db, schedule[0]) + ScheduledPayloads(dumps, db, schedule[1..])
  }

  /** The reader tails a directory that the writer writes, and has `rest` ahead of it once nothing is held back. */
  ghost predicate Attached(writer: DataWriter, reader: DataReader, db: string, rest: seq<Bytes>)
    reads writer, writer.dir, reader, reader.currentFileReader
  {
    && writer.Valid() && reader.Valid(FilesOf(writer.dir.relays, db))
    && Follows(reader, writer.Logical(db)) && reader.Remaining(writer.Logical(db)) == rest
  }

  /** One poll of a directory that is being written. It delivers the next event, if all of it is visible. */
  method PollOnce(writer: DataWriter, reader: DataReader, db: string, ghost rest: seq<Bytes>)
    returns (r: Option<Bytes>, ghost left: seq<Bytes>)
    requires Attached(writer, reader, db, rest)
    modifies reader, reader.currentFileReader
    ensures reader.currentFileReader == old(reader.currentFileReader) || fresh(reader.currentFileReader)
    ensures Attached(writer, reader, db, left) && Advances(rest, r, left)
    ensures r.None? && FilesOf(writer.dir.relays, db) == writer.Logical(db) ==> rest == []
  {
    var files := FilesOf(writer.dir.relays, db);
    ghost var logical := writer.Logical(db);
    OwnedGrows(files, WriterOf(writer.dbFileWriters, db));
    SameAhead(reader, logical, files);
    r := reader.ReadNextEvent(files, logical);
    SameAhead(reader, files, logical);
    left := reader.Remaining(logical);
  }

  /** Polls until a poll finds nothing. */
  method Drain(writer: DataWriter, reader: DataReader, db: string, ghost rest: seq<Bytes>)
    returns (delivered: seq<Bytes>)
    requires Attached(writer, reader, db, rest)
    requires FilesOf(writer.dir.relays, db) == writer.Logical(db)
    modifies reader, reader.currentFileReader
    ensures delivered == rest
    decreases |rest|
  {
    ghost var left;
    var r;
    r, left := PollOnce(writer, reader, db, rest);
    if r.None? {
      return [];
    }
    var later := Drain(writer, reader, db, left);
    return [r.value] + later;
  }

  /** A reader that has seen no more of its file than is visible reads the visible file. */
  lemma ValidVisible(reader: DataReader, files: Files, logical: Files)
    requires reader.Valid(logical) && GrowsTo(files, logical)
    requires reader.currentFileReader != null ==>
               reader.currentFileReader.pos <= |files[reader.currentFileReader.fileNum]|
    ensures reader.Valid(files)
  {
    var current := reader.currentFileReader;
    if current != null {
      var n := current.fileNum;
      assert files[n][current.Start()..current.pos] == logical[n][current.Start()..current.pos];
      assert files[n][..current.Start()] == logical[n][..current.Start()];
    }
  }

  lemma StillAttached(writer: DataWriter, reader: DataReader, db: string)
    requires writer.Valid() && Follows(reader, writer.Logical(db))
    requires var current, files := reader.currentFileReader, FilesOf(writer.dir.relays, db);
             current != null && current.fileNum in files ==> current.pos <= |files[current.fileNum]|
    ensures Attached(writer, reader, db, reader.Remaining(writer.Logical(db)))
  {
    OwnedGrows(FilesOf(writer.dir.relays, db), WriterOf(writer.dbFileWriters, db));
    ValidVisible(reader, FilesOf(writer.dir.relays, db), writer.Logical(db));
  }

  /** The writer stores one event beside the reader. */
  method StoreOne(writer: DataWriter, reader: DataReader, db: string, event: LogEvent, ghost rest: seq<Bytes>)
    requires Attached(writer, reader, db, rest)
    modifies writer`dbFileWriters, writer.dir
    ensures Attached(writer, reader, db, rest + StepPayload(writer.dumps, db, Store(event)))
  {
    ghost var before := writer.Logical(db);
    var ok := writer.StoreEvent(event);
    if event.dbName == db {
      StoreSeen(reader, before, writer.Logical(db), rest, StepPayload(writer.dumps, db, Store(event)));
    }
    StillAttached(writer, reader, db);
  }

  /** Some held-back bytes of some database become visible. */
  method FlushSome(writer: DataWriter, reader: DataReader, db: string, other: string, count: nat,
                   ghost rest: seq<Bytes>)
    requires Attached(writer, reader, db, rest)
    modifies writer`dbFileWriters, writer.dir
    ensures Attached(writer, reader, db, rest)
  {
    writer.Flush(other, count);
    StillAttached(writer, reader, db);
  }

  /** Files older than n are gone. */
  ghost predicate Cleaned(files: Files, less: Files, n: nat) {
    less.Keys <= files.Keys && forall m :: m in files && n <= m ==> m in less && less[m] == files[m]
  }

  lemma CleanedOwned(files: Files, less: Files, n: nat, w: Option<FileWriter>)
    requires Cleaned(files, less, n) && n in files && Owns(files, w)
    ensures Owns(less, w) && Cleaned(Flushed(files, w), Flushed(less, w), n)
  {
  }

  lemma CleanedRest(files: Files, less: Files, n: nat, start: nat)
    requires Cleaned(files, less, n) && Unbroken(files, n) && start <= |files[n]|
    ensures Unbroken(less, n) && less[n] == files[n] && Rest(less, n, start) == Rest(files, n, start)
  {
    SameStream(files, less, n + 1);
  }

  lemma CleanedReader(reader: DataReader, files: Files, less: Files)
    requires reader.currentFileReader != null && Follows(reader, files)
             && Cleaned(files, less, reader.currentFileReader.fileNum)
    ensures Follows(reader, less) && reader.Remaining(less) == reader.Remaining(files)
  {
    CleanedRest(files, less, reader.currentFileReader.fileNum, reader.currentFileReader.Start());
  }

  /** Cleanup removes files older than the one the reader reads. It removes no others as long as the search finds the
      reader's checkpoint in that file or an earlier one. */
  method CleanOlder(writer: DataWriter, reader: DataReader, db: string, gone: set<nat>, ghost rest: seq<Bytes>)
    requires Attached(writer, reader, db, rest)
    modifies writer.dir
    ensures Attached(writer, reader, db, rest)
  {
    var current := reader.currentFileReader;
    if current == null {
      return;
    }
    var n, files := current.fileNum, FilesOf(writer.dir.relays, db);
    var less: Files := files - (set m | m in gone && m < n);
    ghost var logical, w := writer.Logical(db), WriterOf(writer.dbFileWriters, db);
    CleanedOwned(files, less, n, w);
    RemoveFrom(writer, db, less);
    CleanedReader(reader, logical, writer.Logical(db));
  }

  /** Replaces the files of one database by others that its writer owns as well. */
  method RemoveFrom(writer: DataWriter, db: string, less: Files)
    requires writer.Valid() && Owns(less, WriterOf(writer.dbFileWriters, db))
    modifies writer.dir
    ensures writer.Valid() && FilesOf(writer.dir.relays, db) == less
    ensures writer.Logical(db) == Flushed(less, WriterOf(writer.dbFileWriters, db))
  {
    ghost var relays := writer.dir.relays;
    writer.dir.relays := writer.dir.relays[db := less];
    forall other ensures Owns(FilesOf(writer.dir.relays, other), WriterOf(writer.dbFileWriters, other)) {
      assert other != db ==> FilesOf(writer.dir.relays, other) == FilesOf(relays, other);
    }
  }

  method Perform(writer: DataWriter, reader: DataReader, db: string, step: Step, ghost rest: seq<Bytes>)
    returns (delivered: seq<Bytes>, ghost left: seq<Bytes>)
    requires Attached(writer, reader, db, rest)
    modifies writer`dbFileWriters, writer.dir, reader, reader.currentFileReader
    ensures reader.currentFileReader == old(reader.currentFileReader) || fresh(reader.currentFileReader)
    ensures Attached(writer, reader, db, left)
    ensures delivered + left == rest + StepPayload(writer.dumps, db, step)
  {
    assert rest + [] == rest;
    match step
    case Store(event) =>
      delivered, left := [], rest + StepPayload(writer.dumps, db, step);
      StoreOne(writer, reader, db, event, rest);
    case Flush(other, count) =>
      delivered, left := [], rest;
      FlushSome(writer, reader, db, other, count, rest);
    case Clean(gone) =>
      delivered, left := [], rest;
      CleanOlder(writer, reader, db, gone, rest);
    case Poll =>
      delivered, left := PollStep(writer, reader, db, rest);
  }

  method PollStep(writer: DataWriter, reader: DataReader, db: string, ghost rest: seq<Bytes>)
    returns (delivered: seq<Bytes>, ghost left: seq<Bytes>)
    requires Attached(writer, reader, db, rest)
    modifies reader, reader.currentFileReader
    ensures reader.currentFileReader == old(reader.currentFileReader) || fresh(reader.currentFileReader)
    ensures Attached(writer, reader, db, left)
    ensures delivered + left == rest
  {
    var r;
    r, left := PollOnce(writer, reader, db, rest);
    delivered := if r.Some? then [r.value] else [];
  }

  /** Writing ends, and the reader reads to the end. */
  method Finish(writer: DataWriter, reader: DataReader, db: string, ghost rest: seq<Bytes>)
    returns (delivered: seq<Bytes>)
    requires Attached(writer, reader, db, rest)
    modifies writer`dbFileWriters, writer.dir, reader, reader.currentFileReader
    ensures delivered == rest
  {
    writer.CloseAll();
    delivered := Drain(writer, reader, db, rest);
  }

  /** Events are stored, held-back bytes reach the files, older files are removed, and the reader polls, in any
      interleaving; then writing ends.
      The reader gets what it had ahead and then every stored event of its database, in order, once. */
  method TailWhileWriting(writer: DataWriter, reader: DataReader, db: string, schedule: seq<Step>,
                          ghost rest: seq<Bytes>)
    returns (delivered: seq<Bytes>)
    requires Attached(writer, reader, db, rest)
    modifies writer`dbFileWriters, writer.dir, reader, reader.currentFileReader
    ensures delivered == rest + ScheduledPayloads(writer.dumps, db, schedule)
    decreases |schedule|
  {
    if schedule == [] {
      delivered := Finish(writer, reader, db, rest);
      return;
    }
    ghost var left;
    var first;
    first, left := Perform(writer, reader, db, schedule[0], rest);
    var later := TailWhileWriting(writer, reader, db, schedule[1..], left);
    Associative(first, left, ScheduledPayloads(writer.dumps, db, schedule[1..]));
    Associative(rest, StepPayload(writer.dumps, db, schedule[0]), ScheduledPayloads(writer.dumps, db, schedule[1..]));
    return first + later;
  }
}
