/** The writing side of the relay: rotation, held-back bytes, and tailing while writing goes on. */
module Writing {
  import opened Events
  import opened Framing
  import opened Relay

  /** The directory of relay directories, one per database. */
  class DataDir {
    var relays: map<string, Files>

    constructor ()
      ensures relays == map[]
    {
      relays := map[];
    }
  }

  /** A database without a directory is one without files: the directory is made on first use. */
  function FilesOf(relays: map<string, Files>, db: string): Files {
    if db in relays then relays[db] else map[]
  }

  /** An open relay file; `pending` are the bytes that have not yet reached it. */
  datatype FileWriter = FileWriter(fileNum: nat, numRecords: nat, pending: Bytes)

  /** The files as they will be once nothing is held back. */
  ghost function Flushed(files: Files, writer: Option<FileWriter>): Files
    requires writer.Some? ==> writer.value.fileNum in files
  {
    if writer.None? then files
    else files[writer.value.fileNum := files[writer.value.fileNum] + writer.value.pending]
  }

  /** A writer owns the newest file, which holds whole frames once flushed. */
  ghost predicate Owns(files: Files, writer: Option<FileWriter>) {
    writer.Some? ==>
      && IsNewest(files, writer.value.fileNum)
      && Whole(files[writer.value.fileNum] + writer.value.pending)
  }

  function WriterOf(writers: map<string, FileWriter>, db: string): Option<FileWriter> {
    if db in writers then Some(writers[db]) else None
  }

  /** The number of the next file: one more than the newest, or 1. */
  function NextFileNum(files: Files): (r: nat)
    ensures r !in files
    ensures files == map[] ==> r == 1
    ensures forall n :: n in files ==> n < r
    ensures files != map[] ==> r - 1 in files
  {
    var nums := SortedNums(files.Keys);
    assert forall n :: n in files ==> n in nums;
    if nums == [] then 1 else
      assert nums[|nums| - 1] in nums;
      nums[|nums| - 1] + 1
  }

  /** One more payload at the end of every unbroken stream; whatever was unbroken stays so. */
  ghost predicate Appended(before: Files, after: Files, payloads: seq<Bytes>) {
    && (forall n :: Unbroken(before, n) ==>
        Unbroken(after, n) && StreamFrom(after, n) == StreamFrom(before, n) + payloads)
    && (before == map[] ==>
        after == map[] || (Unbroken(after, 1) && IsOldest(after, 1) && StreamFrom(after, 1) == payloads))
    && (after == map[] ==> payloads == [])
    && (forall n :: IsOldest(before, n) ==> IsOldest(after, n))
    && (forall n :: n in before ==> n in after && before[n] <= after[n])
  }

  ghost predicate IsOldest(files: Files, n: nat) {
    n in files && forall m :: m in files ==> n <= m
  }

  lemma AppendedNothing(files: Files)
    ensures Appended(files, files, [])
  {
  }

  lemma AppendedTwice(a: Files, b: Files, c: Files, p: seq<Bytes>)
    requires Appended(a, b, []) && Appended(b, c, p) && b != map[]
    ensures Appended(a, c, p)
  {
  }

  lemma AppendedFile(files: Files)
    ensures Appended(files, files[NextFileNum(files) := []], [])
  {
    if files == map[] {
      FirstFile();
      assert files[1 := []] == map[1 := []];
    } else {
      NextFile(files, NextFileNum(files) - 1);
    }
  }

  lemma NextFile(files: Files, top: nat)
    requires IsNewest(files, top)
    ensures Appended(files, files[top + 1 := []], [])
  {
    var extended := files[top + 1 := []];
    assert top + 1 in extended;
    forall n | Unbroken(files, n)
      ensures Unbroken(extended, n) && StreamFrom(extended, n) == StreamFrom(files, n) + []
    {
      OpenNext(files, top, n);
    }
  }

  lemma FirstFile()
    ensures var files: Files := map[1 := []]; Unbroken(files, 1) && IsOldest(files, 1) && StreamFrom(files, 1) == []
  {
  }

  lemma AppendedFrame(files: Files, top: nat, payload: Bytes)
    requires IsNewest(files, top) && Whole(files[top]) && |payload| < SIZE_LIMIT
    ensures Appended(files, files[top := files[top] + Frame(payload)], [payload])
    ensures Whole(files[top] + Frame(payload))
  {
    ParseAppend(files[top], payload);
    var grown := files[top := files[top] + Frame(payload)];
    assert top in grown;
    forall n | Unbroken(files, n)
      ensures Unbroken(grown, n) && StreamFrom(grown, n) == StreamFrom(files, n) + [payload]
    {
      AppendToNewest(files, top, payload, n);
    }
  }

  /** The files with a frame added at the end of one of them, or as the whole of a new one. */
  function WithFrame(files: Files, n: nat, data: Bytes): Files
    requires |data| < SIZE_LIMIT
  {
    files[n := (if n in files then files[n] else []) + Frame(data)]
  }

  lemma NewThenFrame(files: Files, n: nat, data: Bytes)
    requires |data| < SIZE_LIMIT
    ensures n !in files ==> WithFrame(files[n := []], n, data) == WithFrame(files, n, data)
  {
  }

  /** Where the next event goes: into the current file of the writer unless it is full, or else into the next file. */
  function FileFor(files: Files, writer: Option<FileWriter>, recordsPerFile: int): nat {
    if writer.Some? && writer.value.numRecords < recordsPerFile then writer.value.fileNum else NextFileNum(files)
  }

  /** All writers but that of one database are as they were. */
  ghost predicate OtherWriters(before: map<string, FileWriter>, after: map<string, FileWriter>, db: string) {
    forall other :: other != db ==> WriterOf(after, other) == WriterOf(before, other)
  }

  lemma NothingHeldBack(files: Files, w: FileWriter)
    requires w.fileNum in files && w.pending == []
    ensures Flushed(files, Some(w)) == files
  {
    assert files[w.fileNum] + [] == files[w.fileNum];
  }

  /** Writing a frame behind what is held back is appending it to the relay. */
  lemma HeldBack(files: Files, w: FileWriter, data: Bytes, records: nat)
    requires Owns(files, Some(w)) && |data| < SIZE_LIMIT
    ensures var written := w.(pending := w.pending + Frame(data), numRecords := records);
            && Owns(files, Some(written)) && Appended(Flushed(files, Some(w)), Flushed(files, Some(written)), [data])
            && Flushed(files, Some(written)) == WithFrame(Flushed(files, Some(w)), w.fileNum, data)
  {
    var before := Flushed(files, Some(w));
    AppendedFrame(before, w.fileNum, data);
    var written := w.(pending := w.pending + Frame(data), numRecords := records);
    assert files[w.fileNum] + written.pending == before[w.fileNum] + Frame(data);
    assert Flushed(files, Some(written)) == before[w.fileNum := before[w.fileNum] + Frame(data)];
  }

  /** No file goes away or gets shorter. */
  ghost predicate Lengthens(before: map<string, Files>, after: map<string, Files>) {
    forall db, n :: n in FilesOf(before, db) ==>
          n in FilesOf(after, db) && |FilesOf(before, db)[n]| <= |FilesOf(after, db)[n]|
  }

  class DataWriter {
    const dir: DataDir
    const recordsPerFile: int
    /** Pickling an event. */
    const dumps: LogEvent -> Bytes
    var dbFileWriters: map<string, FileWriter>

    constructor (dir: DataDir, recordsPerFile: int, dumps: LogEvent -> Bytes)
      ensures this.dir == dir && this.recordsPerFile == recordsPerFile && this.dumps == dumps
      ensures dbFileWriters == map[] && Valid()
    {
      this.dir := dir;
      this.recordsPerFile := recordsPerFile;
      this.dumps := dumps;
      dbFileWriters := map[];
    }

    ghost predicate Valid()
      reads this, dir
    {
      forall db :: Owns(FilesOf(dir.relays, db), WriterOf(dbFileWriters, db))
    }

    /** The relay of a database as it will be once nothing is held back. */
    ghost function Logical(db: string): Files
      requires Valid()
      reads this, dir
    {
      Flushed(FilesOf(dir.relays, db), WriterOf(dbFileWriters, db))
    }

    /** Some of the held-back bytes of one database reach its file. */
    method Flush(db: string, count: nat)
      requires Valid()
      modifies this`dbFileWriters, dir
      ensures Lengthens(old(dir.relays), dir.relays)
      ensures Valid() && dbFileWriters.Keys == old(dbFileWriters.Keys)
      ensures forall other :: Logical(other) == old(Logical(other))
      ensures forall other :: other != db ==> FilesOf(dir.relays, other) == old(FilesOf(dir.relays, other))
      ensures forall other :: other != db ==> WriterOf(dbFileWriters, other) == old(WriterOf(dbFileWriters, other))
      ensures db in dbFileWriters ==> dbFileWriters[db] == old(dbFileWriters)[db].(pending := dbFileWriters[db].pending)
      ensures db in dbFileWriters && |old(dbFileWriters)[db].pending| <= count ==> dbFileWriters[db].pending == []
    {
      if db !in dbFileWriters {
        return;
      }
      var w, files := dbFileWriters[db], FilesOf(dir.relays, db);
      var n := if count < |w.pending| then count else |w.pending|;
      var now := w.(pending := w.pending[n..]);
      var content := files[w.fileNum] + w.pending[..n];
      assert content + now.pending == files[w.fileNum] + w.pending;
      Put(db, files[w.fileNum := content], now);
    }

    /** Replaces the files and the writer of one database by others that amount to the same relay. */
    method Put(db: string, files: Files, writer: FileWriter)
      requires Valid() && Owns(files, Some(writer))
      modifies this`dbFileWriters, dir
      ensures Valid() && dbFileWriters == old(dbFileWriters)[db := writer] && dir.relays == old(dir.relays)[db := files]
      ensures Logical(db) == Flushed(files, Some(writer))
      ensures forall other :: other != db ==> Logical(other) == old(Logical(other))
      ensures forall other :: other != db ==> FilesOf(dir.relays, other) == old(FilesOf(dir.relays, other))
    {
      dir.relays := dir.relays[db := files];
      dbFileWriters := dbFileWriters[db := writer];
      forall other | other != db ensures Owns(FilesOf(dir.relays, other), WriterOf(dbFileWriters, other)) {
        assert FilesOf(dir.relays, other) == old(FilesOf(dir.relays, other));
        assert WriterOf(dbFileWriters, other) == old(WriterOf(dbFileWriters, other));
      }
    }

    /** FileWriter.close */
    method Close(db: string)
      requires Valid()
      modifies this`dbFileWriters, dir
      ensures Lengthens(old(dir.relays), dir.relays)
      ensures Valid() && dbFileWriters.Keys == old(dbFileWriters.Keys)
      ensures forall other :: Logical(other) == old(Logical(other))
      ensures forall other :: other != db ==> FilesOf(dir.relays, other) == old(FilesOf(dir.relays, other))
      ensures forall other :: other != db ==> WriterOf(dbFileWriters, other) == old(WriterOf(dbFileWriters, other))
      ensures FilesOf(dir.relays, db) == Logical(db)
    {
      if db in dbFileWriters {
        Flush(db, |dbFileWriters[db].pending|);
        NothingHeldBack(FilesOf(dir.relays, db), dbFileWriters[db]);
      }
    }

    /** Writing goes on in the current file unless there is none or it is full, which is when the next file is
        opened. */
    method GetOrCreateFileWriter(db: string) returns (w: FileWriter)
      requires Valid()
      modifies this`dbFileWriters, dir
      ensures Lengthens(old(dir.relays), dir.relays)
      ensures Valid() && db in dbFileWriters && dbFileWriters[db] == w && Logical(db) != map[]
      ensures Appended(old(Logical(db)), Logical(db), [])
      ensures forall other :: other != db ==> Logical(other) == old(Logical(other))
      ensures var was := old(WriterOf(dbFileWriters, db));
              if was.Some? && was.value.numRecords < recordsPerFile
              then w == was.value && Logical(db) == old(Logical(db))
              else
                && w == FileWriter(NextFileNum(old(Logical(db))), 0, [])
                && Logical(db) == old(Logical(db))[w.fileNum := []]
      ensures OtherWriters(old(dbFileWriters), dbFileWriters, db)
    {
      AppendedNothing(Logical(db));
      if db in dbFileWriters {
        if dbFileWriters[db].numRecords < recordsPerFile {
          assert dbFileWriters[db].fileNum in Logical(db);
          return dbFileWriters[db];
        }
        CloseFull(db);
      }
      w := CreateFileWriter(db);
    }

    method CloseFull(db: string)
      requires Valid() && db in dbFileWriters
      modifies this`dbFileWriters, dir
      ensures Lengthens(old(dir.relays), dir.relays)
      ensures Valid() && dbFileWriters.Keys == old(dbFileWriters.Keys) - {db}
      ensures forall other :: Logical(other) == old(Logical(other))
      ensures OtherWriters(old(dbFileWriters), dbFileWriters, db)
    {
      Close(db);
      ghost var writers := dbFileWriters;
      dbFileWriters := dbFileWriters - {db};
      assert forall other :: other != db ==> WriterOf(dbFileWriters, other) == WriterOf(writers, other);
    }

    method CreateFileWriter(db: string) returns (w: FileWriter)
      requires Valid() && db !in dbFileWriters
      modifies this`dbFileWriters, dir
      ensures Lengthens(old(dir.relays), dir.relays)
      ensures Valid() && db in dbFileWriters && dbFileWriters[db] == w && Logical(db) != map[]
      ensures w == FileWriter(NextFileNum(old(Logical(db))), 0, []) && Logical(db) == old(Logical(db))[w.fileNum := []]
      ensures OtherWriters(old(dbFileWriters), dbFileWriters, db)
      ensures Appended(old(Logical(db)), Logical(db), [])
      ensures forall other :: other != db ==> Logical(other) == old(Logical(other))
    {
      var files := FilesOf(dir.relays, db);
      AppendedFile(files);
      w := FileWriter(NextFileNum(files), 0, []);
      Put(db, files[w.fileNum := []], w);
      NothingHeldBack(files[w.fileNum := []], w);
    }

    /** Puts an event at the end of the relay of its database. An event too long for its size field is refused
        before anything of it is written. Some of the bytes may stay behind for a while. */
    method StoreEvent(event: LogEvent) returns (ok: bool)
      requires Valid()
      modifies this`dbFileWriters, dir
      ensures Lengthens(old(dir.relays), dir.relays)
      ensures Valid()
      ensures ok <==> |dumps(event)| < SIZE_LIMIT
      ensures Appended(old(Logical(event.dbName)), Logical(event.dbName), if ok then [dumps(event)] else [])
      ensures forall other :: other != event.dbName ==> Logical(other) == old(Logical(other))
      ensures OtherWriters(old(dbFileWriters), dbFileWriters, event.dbName)
      ensures ok ==>
                var n := old(FileFor(Logical(event.dbName), WriterOf(dbFileWriters, event.dbName), recordsPerFile));
                     && Logical(event.dbName) == WithFrame(old(Logical(event.dbName)), n, dumps(event))
                     && event.dbName in dbFileWriters && dbFileWriters[event.dbName].fileNum == n
    {
      var w := GetOrCreateFileWriter(event.dbName);
      ghost var before := Logical(event.dbName);
      ok := WriteEvent(event, w);
      if ok {
        NewThenFrame(old(Logical(event.dbName)), w.fileNum, dumps(event));
      }
      AppendedTwice(old(Logical(event.dbName)), before, Logical(event.dbName), if ok then [dumps(event)] else []);
    }

    /** FileWriter.write_event */
    method WriteEvent(event: LogEvent, w: FileWriter) returns (ok: bool)
      requires Valid() && event.dbName in dbFileWriters && dbFileWriters[event.dbName] == w
      modifies this`dbFileWriters, dir
      ensures Lengthens(old(dir.relays), dir.relays)
      ensures Valid()
      ensures ok <==> |dumps(event)| < SIZE_LIMIT
      ensures Appended(old(Logical(event.dbName)), Logical(event.dbName), if ok then [dumps(event)] else [])
      ensures forall other :: other != event.dbName ==> Logical(other) == old(Logical(other))
      ensures ok ==>
                event.dbName in dbFileWriters
                && dbFileWriters[event.dbName].numRecords == w.numRecords + event.recordsLen
      ensures ok ==> dbFileWriters[event.dbName].fileNum == w.fileNum
                     && Logical(event.dbName) == WithFrame(old(Logical(event.dbName)), w.fileNum, dumps(event))
      ensures OtherWriters(old(dbFileWriters), dbFileWriters, event.dbName)
    {
      var db, data := event.dbName, dumps(event);
      if |data| >= SIZE_LIMIT {
        assert w.fileNum in Logical(db);
        return false;
      }
      var files := FilesOf(dir.relays, db);
      HeldBack(files, w, data, w.numRecords + event.recordsLen);
      Put(db, files, w.(pending := w.pending + Frame(data), numRecords := w.numRecords + event.recordsLen));
      var count: nat := *;
      Flush(db, count);
      ok := true;
    }

    method CloseAll()
      requires Valid()
      modifies this`dbFileWriters, dir
      ensures Lengthens(old(dir.relays), dir.relays)
      ensures Valid()
      ensures forall db :: FilesOf(dir.relays, db) == Logical(db) == old(Logical(db))
    {
      var open := dbFileWriters.Keys;
      while open != {}
        invariant Valid() && open <= dbFileWriters.Keys
        invariant Lengthens(old(dir.relays), dir.relays)
        invariant forall db :: Logical(db) == old(Logical(db))
        invariant forall db :: db !in open ==> FilesOf(dir.relays, db) == Logical(db)
      {
        var db :| db in open;
        Close(db);
        open := open - {db};
      }
    }
  }
}
