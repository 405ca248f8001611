/** The relay of a database as the runs of the binlog reader write it, and what holds of it whatever they do. */
module RelayRuns {
  import opened Events
  import opened Sequences
  import opened Framing
  import opened Relay
  import opened Writing
  import opened Delivery
  import opened Resuming

  // ---- The events of one database

  function InDb(db: string): LogEvent -> seq<LogEvent> {
    (event: LogEvent) => if event.dbName == db then [event] else []
  }

  function OfDb(db: string, log: seq<LogEvent>): seq<LogEvent> {
    Collect(InDb(db), log)
  }

  /** How many of them come before log[i]. */
  function EventsBefore(db: string, log: seq<LogEvent>, i: nat): nat
    requires i <= |log|
  {
    CountBefore(InDb(db), log, i)
  }

  lemma NextEvent(db: string, log: seq<LogEvent>, i: nat)
    requires i < |log|
    ensures EventsBefore(db, log, i + 1) == EventsBefore(db, log, i) + if log[i].dbName == db then 1 else 0
    ensures log[i].dbName == db ==>
              EventsBefore(db, log, i) < |OfDb(db, log)| && OfDb(db, log)[EventsBefore(db, log, i)] == log[i]
  {
    CountNext(InDb(db), log, i);
  }

  lemma FurtherEvents(db: string, log: seq<LogEvent>, i: nat, j: nat)
    requires i <= |log| && j <= |log|
    ensures EventsBefore(db, log, Max(i, j)) == Max(EventsBefore(db, log, i), EventsBefore(db, log, j))
  {
    if i <= j {
      CountMonotone(InDb(db), log, i, j);
    } else {
      CountMonotone(InDb(db), log, j, i);
    }
  }

  lemma {:induction false} OfIncreasing(db: string, log: seq<LogEvent>)
    requires StrictlyIncreasing(log)
    ensures StrictlyIncreasing(OfDb(db, log)) && forall e :: e in OfDb(db, log) ==> e in log
  {
    if log != [] {
      var m := |log| - 1;
      OfIncreasing(db, log[..m]);
      assert forall e :: e in log[..m] ==> Before(e.transactionId, log[m].transactionId);
    }
  }

  // ---- Files that are added or grow

  /** One more file that starts within what has been read. */
  lemma {:induction false} FlowsNew(contents: seq<seq<LogEvent>>, starts: seq<nat>, j: nat, from: nat,
                                    events: seq<LogEvent>, s: nat)
    requires j <= |contents| == |starts| && Flows(contents, starts, j, from)
    requires events != [] ==> s <= ReachFrom(contents, starts, j, from)
    ensures Flows(contents + [events], starts + [s], j, from)
    ensures ReachFrom(contents + [events], starts + [s], j, from) ==
            if events == [] then ReachFrom(contents, starts, j, from)
                else Max(ReachFrom(contents, starts, j, from), s + |events|)
    decreases |contents| - j
  {
    var more, later := contents + [events], starts + [s];
    if j < |contents| {
      assert more[j] == contents[j] && later[j] == starts[j];
      FlowsNew(contents, starts, j + 1, After(contents, starts, j, from), events, s);
    } else {
      assert Flows(more, later, j + 1, After(more, later, j, from));
    }
  }

  /** The last file, which holds events already, gets longer. */
  lemma {:induction false} FlowsLonger(contents: seq<seq<LogEvent>>, starts: seq<nat>, j: nat, from: nat, last: nat,
                                       events: seq<LogEvent>)
    requires j <= last && last + 1 == |contents| == |starts| && Flows(contents, starts, j, from)
    requires contents[last] != [] && |contents[last]| <= |events|
    ensures Flows(contents[last := events], starts, j, from)
    ensures ReachFrom(contents[last := events], starts, j, from) ==
            Max(ReachFrom(contents, starts, j, from), starts[last] + |events|)
    decreases |contents| - j
  {
    var longer := contents[last := events];
    if j < last {
      FlowsLonger(contents, starts, j + 1, After(contents, starts, j, from), last, events);
    } else {
      assert Flows(longer, starts, j + 1, After(longer, starts, j, from));
      assert ReachFrom(longer, starts, j + 1, After(longer, starts, j, from)) == After(longer, starts, j, from);
      assert ReachFrom(contents, starts, j + 1, After(contents, starts, j, from)) == After(contents, starts, j, from);
    }
  }

  lemma ContentsNew(loads: Loads, files: Files, nums: seq<nat>, n: nat, b: Bytes)
    requires Lists(nums, files) && forall m :: m in files ==> m < n
    ensures Lists(nums + [n], files[n := b])
    ensures ContentsOf(loads, files[n := b], nums + [n]) ==
            ContentsOf(loads, files, nums) + [Loaded(loads, ParseFrames(b))]
  {
    forall i, j | 0 <= i < j < |nums + [n]| ensures (nums + [n])[i] < (nums + [n])[j] {
      assert nums[i] in nums;
    }
    assert forall i :: 0 <= i < |nums| ==> nums[i] in nums;
  }

  lemma ContentsLast(loads: Loads, files: Files, nums: seq<nat>, last: nat, b: Bytes)
    requires Lists(nums, files) && last + 1 == |nums|
    ensures Lists(nums, files[nums[last] := b])
    ensures ContentsOf(loads, files[nums[last] := b], nums) ==
            ContentsOf(loads, files, nums)[last := Loaded(loads, ParseFrames(b))]
  {
    assert forall i :: 0 <= i < |nums| ==> nums[i] in nums;
  }

  /** A relay whose files are stretches of the log of its database. Reading it from file j on, with the log read up to
      `from`, leads to `reach` and leaves nothing out; no file is missing from there on. */
  ghost predicate Carries(loads: Loads, files: Files, nums: seq<nat>, log: seq<LogEvent>, starts: seq<nat>, j: nat,
                          from: nat, reach: nat) {
    && Lists(nums, files) && ConsecutiveFrom(nums, j) && j <= |nums|
       && Stretches(log, ContentsOf(loads, files, nums), starts)
    && Flows(ContentsOf(loads, files, nums), starts, j, from)
       && ReachFrom(ContentsOf(loads, files, nums), starts, j, from) == reach
  }

  lemma StretchesNew(log: seq<LogEvent>, contents: seq<seq<LogEvent>>, starts: seq<nat>, events: seq<LogEvent>, s: nat)
    requires Stretches(log, contents, starts) && Within(log, events, s)
    ensures Stretches(log, contents + [events], starts + [s])
    ensures AtLeastOnceFiles(log, contents, starts)
            && (contents != [] ==> s <= EndOf(contents, starts, |contents| - 1)) ==>
              AtLeastOnceFiles(log, contents + [events], starts + [s])
  {
    var more, later := contents + [events], starts + [s];
    if AtLeastOnceFiles(log, contents, starts) && (contents != [] ==> s <= EndOf(contents, starts, |contents| - 1)) {
      forall i | 0 <= i < |more| ensures Chains(more, later, i) {
        assert i < |contents| ==> Chains(contents, starts, i);
      }
    }
  }

  lemma StretchesLonger(log: seq<LogEvent>, contents: seq<seq<LogEvent>>, starts: seq<nat>, last: nat,
                        events: seq<LogEvent>)
    requires Stretches(log, contents, starts) && last + 1 == |contents|
    requires |contents[last]| <= |events| && Within(log, events, starts[last])
    ensures Stretches(log, contents[last := events], starts)
    ensures AtLeastOnceFiles(log, contents, starts) ==> AtLeastOnceFiles(log, contents[last := events], starts)
  {
    var longer := contents[last := events];
    if AtLeastOnceFiles(log, contents, starts) {
      forall i | 0 <= i < |longer| ensures Chains(longer, starts, i) {
        assert Chains(contents, starts, i);
      }
    }
  }

  lemma ConsecutiveNew(nums: seq<nat>, files: Files, j: nat)
    requires Lists(nums, files) && ConsecutiveFrom(nums, j) && j <= |nums|
    ensures ConsecutiveFrom(nums + [NextFileNum(files)], j)
  {
    var n := NextFileNum(files);
    if j < |nums| {
      var last := |nums| - 1;
      assert nums[last] in nums;
      assert files != map[];
      assert n - 1 in nums;
      var m :| 0 <= m < |nums| && nums[m] == n - 1;
      assert nums[last] < n;
      assert nums[last] == n - 1;
    }
  }

  /** Each file of the relay starts no later than where the one before it ends. */
  ghost predicate ChainedFiles(loads: Loads, files: Files, nums: seq<nat>, log: seq<LogEvent>, starts: seq<nat>) {
    Lists(nums, files) && AtLeastOnceFiles(log, ContentsOf(loads, files, nums), starts)
  }

  /** A file is begun at log[s]; a run may begin it no later than where the relay reaches. */
  lemma BeginFile(loads: Loads, files: Files, nums: seq<nat>, log: seq<LogEvent>, starts: seq<nat>, j: nat, from: nat,
                  reach: nat,
                  n: nat, b: Bytes, events: seq<LogEvent>, s: nat)
    requires Carries(loads, files, nums, log, starts, j, from, reach) && n == NextFileNum(files)
    requires events == Loaded(loads, ParseFrames(b)) && Within(log, events, s) && (events != [] ==> s <= reach)
    ensures Carries(loads, files[n := b], nums + [n], log, starts + [s], j, from, if events == [] then reach
                    else Max(reach, s + |events|))
    ensures ChainedFiles(loads, files, nums, log, starts)
            && (nums != [] ==> s <= LastEnd(loads, files, nums, starts)) ==>
              ChainedFiles(loads, files[n := b], nums + [n], log, starts + [s])
  {
    var contents := ContentsOf(loads, files, nums);
    ContentsNew(loads, files, nums, n, b);
    ConsecutiveNew(nums, files, j);
    FlowsNew(contents, starts, j, from, events, s);
    StretchesNew(log, contents, starts, events, s);
    var grown := files[n := b];
    assert ContentsOf(loads, grown, nums + [n]) == contents + [events];
  }

  /** Where the newest file ends in the log. */
  function LastEnd(loads: Loads, files: Files, nums: seq<nat>, starts: seq<nat>): nat
    requires (forall n :: n in nums ==> n in files) && |nums| == |starts| != 0
  {
    EndOf(ContentsOf(loads, files, nums), starts, |nums| - 1)
  }

  /** The newest file goes on. */
  lemma ExtendFile(loads: Loads, files: Files, nums: seq<nat>, log: seq<LogEvent>, starts: seq<nat>, j: nat, from: nat,
                   reach: nat,
                   last: nat, b: Bytes)
    requires Carries(loads, files, nums, log, starts, j, from, reach) && j <= last && last + 1 == |nums|
    requires var events, before := Loaded(loads, ParseFrames(b)), ContentsOf(loads, files, nums)[last];
             Within(log, events, starts[last]) && before != [] && |before| <= |events|
    ensures Carries(loads, files[nums[last] := b], nums, log, starts, j, from,
                    Max(reach, starts[last] + |ParseFrames(b)|))
    ensures ChainedFiles(loads, files, nums, log, starts) ==>
              ChainedFiles(loads, files[nums[last] := b], nums, log, starts)
  {
    var contents, events := ContentsOf(loads, files, nums), Loaded(loads, ParseFrames(b));
    FlowsLonger(contents, starts, j, from, last, events);
    StretchesLonger(log, contents, starts, last, events);
    ContentsLast(loads, files, nums, last, b);
  }

  // ---- A run

  /** The newest file, if the run has begun it, holds events up to log[at]. */
  ghost predicate Writes(loads: Loads, files: Files, nums: seq<nat>, starts: seq<nat>, j: nat, current: Option<nat>,
                         at: nat) {
    current.Some? ==>
      && Lists(nums, files) && j < |nums| == |starts| && nums[|nums| - 1] == current.value && current.value in files
      && Whole(files[current.value]) && ParseFrames(files[current.value]) != []
      && starts[|nums| - 1] + |ParseFrames(files[current.value])| == at
  }

  lemma LoadedOne(loads: Loads, data: Bytes, event: LogEvent)
    requires |data| < SIZE_LIMIT && loads(data) == event
    ensures Whole([] + Frame(data)) && ParseFrames([] + Frame(data)) == [data] && Loaded(loads, [data]) == [event]
  {
    ParseAppend([], data);
  }

  lemma LoadedMore(loads: Loads, b: Bytes, data: Bytes, log: seq<LogEvent>, start: nat, at: nat)
    requires |data| < SIZE_LIMIT && Whole(b) && Within(log, Loaded(loads, ParseFrames(b)), start)
    requires start + |ParseFrames(b)| == at < |log| && loads(data) == log[at]
    ensures Whole(b + Frame(data)) && ParseFrames(b + Frame(data)) == ParseFrames(b) + [data]
    ensures Within(log, Loaded(loads, ParseFrames(b + Frame(data))), start)
  {
    ParseAppend(b, data);
    LoadedConcat(loads, ParseFrames(b), [data]);
    assert Loaded(loads, [data]) == [log[at]];
    SliceLast(log, start, at + 1);
  }

  /** Storing log[at] in a new file. */
  lemma StoreInNew(loads: Loads, files: Files, nums: seq<nat>, log: seq<LogEvent>, starts: seq<nat>, j: nat, from: nat,
                   reach: nat,
                   at: nat, data: Bytes)
    requires Carries(loads, files, nums, log, starts, j, from, reach)
    requires at < |log| && at <= reach && |data| < SIZE_LIMIT && loads(data) == log[at]
    ensures var n := NextFileNum(files);
            && Carries(loads, WithFrame(files, n, data), nums + [n], log, starts + [at], j, from, Max(reach, at + 1))
            && Writes(loads, WithFrame(files, n, data), nums + [n], starts + [at], j, Some(n), at + 1)
            && (ChainedFiles(loads, files, nums, log, starts)
                && (nums != [] ==> at <= LastEnd(loads, files, nums, starts)) ==>
                  ChainedFiles(loads, WithFrame(files, n, data), nums + [n], log, starts + [at]))
  {
    LoadedOne(loads, data, log[at]);
    BeginFile(loads, files, nums, log, starts, j, from, reach, NextFileNum(files), [] + Frame(data), [log[at]], at);
  }

  /** Storing log[at] in the file that ends there. */
  lemma StoreInCurrent(loads: Loads, files: Files, nums: seq<nat>, log: seq<LogEvent>, starts: seq<nat>, j: nat,
                       from: nat, reach: nat,
                       n: nat, at: nat, data: Bytes)
    requires Carries(loads, files, nums, log, starts, j, from, reach)
             && Writes(loads, files, nums, starts, j, Some(n), at)
    requires at < |log| && |data| < SIZE_LIMIT && loads(data) == log[at]
    ensures Carries(loads, WithFrame(files, n, data), nums, log, starts, j, from, Max(reach, at + 1))
    ensures Writes(loads, WithFrame(files, n, data), nums, starts, j, Some(n), at + 1)
    ensures ChainedFiles(loads, files, nums, log, starts) ==>
              ChainedFiles(loads, WithFrame(files, n, data), nums, log, starts)
  {
    var last := |nums| - 1;
    ContentAt(loads, files, nums, last);
    assert Within(log, ContentsOf(loads, files, nums)[last], starts[last]);
    LoadedMore(loads, files[n], data, log, starts[last], at);
    ExtendFile(loads, files, nums, log, starts, j, from, reach, last, files[n] + Frame(data));
    ContentsLast(loads, files, nums, last, files[n] + Frame(data));
  }

  /** A torn frame at the end of a file is no event. */
  lemma TornIsNothing(b: Bytes, torn: Bytes)
    requires Whole(b) && !StartsWithFrame(torn)
    ensures ParseFrames(b + torn) == ParseFrames(b)
  {
    ParseConcat(b, torn);
    assert ParseFrames(b) + [] == ParseFrames(b);
  }

  lemma TornInCurrent(loads: Loads, files: Files, nums: seq<nat>, log: seq<LogEvent>, starts: seq<nat>, j: nat,
                      from: nat, reach: nat,
                      n: nat, at: nat, torn: Bytes)
    requires Carries(loads, files, nums, log, starts, j, from, reach)
             && Writes(loads, files, nums, starts, j, Some(n), at)
    requires at <= reach && !StartsWithFrame(torn)
    ensures Carries(loads, files[n := files[n] + torn], nums, log, starts, j, from, reach)
    ensures ChainedFiles(loads, files, nums, log, starts) ==>
              ChainedFiles(loads, files[n := files[n] + torn], nums, log, starts)
  {
    var last := |nums| - 1;
    ContentAt(loads, files, nums, last);
    assert Within(log, ContentsOf(loads, files, nums)[last], starts[last]);
    TornIsNothing(files[n], torn);
    ExtendFile(loads, files, nums, log, starts, j, from, reach, last, files[n] + torn);
  }

  lemma TornInNew(loads: Loads, files: Files, nums: seq<nat>, log: seq<LogEvent>, starts: seq<nat>, j: nat, from: nat,
                  reach: nat,
                  at: nat, torn: Bytes)
    requires Carries(loads, files, nums, log, starts, j, from, reach) && at <= |log| && !StartsWithFrame(torn)
    ensures var n := NextFileNum(files);
            && Carries(loads, files[n := torn], nums + [n], log, starts + [at], j, from, reach)
            && (ChainedFiles(loads, files, nums, log, starts)
                && (nums != [] ==> at <= LastEnd(loads, files, nums, starts)) ==>
                  ChainedFiles(loads, files[n := torn], nums + [n], log, starts + [at]))
  {
    assert Loaded(loads, ParseFrames(torn)) == [];
    BeginFile(loads, files, nums, log, starts, j, from, reach, NextFileNum(files), torn, [], at);
  }

  /** No bytes of a database are held back. */
  ghost predicate NoneHeldBack(writers: map<string, FileWriter>, db: string) {
    var writer := WriterOf(writers, db);
    writer.Some? ==> writer.value.pending == []
  }

  lemma AllVisible(writer: DataWriter, db: string)
    requires writer.Valid() && NoneHeldBack(writer.dbFileWriters, db)
    ensures FilesOf(writer.dir.relays, db) == writer.Logical(db)
    ensures db in writer.dbFileWriters ==>
              writer.dbFileWriters[db].fileNum in writer.Logical(db)
                  && Whole(writer.Logical(db)[writer.dbFileWriters[db].fileNum])
  {
    if db in writer.dbFileWriters {
      NothingHeldBack(FilesOf(writer.dir.relays, db), writer.dbFileWriters[db]);
      assert FilesOf(writer.dir.relays, db)[writer.dbFileWriters[db].fileNum] + [] ==
             FilesOf(writer.dir.relays, db)[writer.dbFileWriters[db].fileNum];
    }
  }

  /** Stores an event and flushes it, which every write does. */
  method StoreFlushed(writer: DataWriter, event: LogEvent, ghost db: string)
    requires writer.Valid() && |writer.dumps(event)| < SIZE_LIMIT && NoneHeldBack(writer.dbFileWriters, db)
    modifies writer`dbFileWriters, writer.dir
    ensures writer.Valid() && NoneHeldBack(writer.dbFileWriters, db)
    ensures event.dbName != db ==>
              writer.Logical(db) == old(writer.Logical(db))
                  && WriterOf(writer.dbFileWriters, db) == old(WriterOf(writer.dbFileWriters, db))
    ensures event.dbName == db ==>
              var n := old(FileFor(writer.Logical(db), WriterOf(writer.dbFileWriters, db), writer.recordsPerFile));
              && writer.Logical(db) == WithFrame(old(writer.Logical(db)), n, writer.dumps(event))
              && db in writer.dbFileWriters && writer.dbFileWriters[db].fileNum == n
  {
    ghost var was := WriterOf(writer.dbFileWriters, db);
    var ok := writer.StoreEvent(event);
    assert event.dbName != db ==> WriterOf(writer.dbFileWriters, db) == was;
    writer.Flush(event.dbName, |writer.dbFileWriters[event.dbName].pending|);
    assert event.dbName != db ==> WriterOf(writer.dbFileWriters, db) == was;
  }

  /** How the files of a relay are numbered, and where in the log of the database they start. */
  datatype Shape = Shape(nums: seq<nat>, starts: seq<nat>)

  /** What is looked at while events of all databases are written: the relay of one of them, read from file j on with
      its log read up to `from`. */
  datatype View = View(loads: Loads, db: string, log: seq<LogEvent>, j: nat, from: nat)
  {
    ghost predicate Carried(files: Files, shape: Shape, reach: nat) {
      reach <= |log|
          && Carries(loads, files, shape.nums, OfDb(db, log), shape.starts, j, from, EventsBefore(db, log, reach))
    }

    /** The run has got to log[at]. */
    ghost predicate Writing(files: Files, shape: Shape, current: Option<nat>, at: nat) {
      at <= |log| && Writes(loads, files, shape.nums, shape.starts, j, current, EventsBefore(db, log, at))
    }

    /** Each file starts no later than where the one before it ends, and so would one that starts at log[at]. */
    ghost predicate Linked(files: Files, shape: Shape, at: nat) {
      && at <= |log| && ChainedFiles(loads, files, shape.nums, OfDb(db, log), shape.starts)
      && (shape.nums != [] ==> EventsBefore(db, log, at) <= LastEnd(loads, files, shape.nums, shape.starts))
    }
  }

  lemma LastEndIs(loads: Loads, files: Files, nums: seq<nat>, starts: seq<nat>, j: nat, n: nat, at: nat)
    requires Writes(loads, files, nums, starts, j, Some(n), at)
    ensures LastEnd(loads, files, nums, starts) == at
  {
    ContentAt(loads, files, nums, |nums| - 1);
  }

  lemma StepNew(v: View, files: Files, shape: Shape, reach: nat, i: nat, data: Bytes) returns (next: Shape)
    requires v.Carried(files, shape, reach) && i <= reach && i < |v.log| && v.log[i].dbName == v.db
    requires |data| < SIZE_LIMIT && v.loads(data) == v.log[i]
    ensures var n := NextFileNum(files);
            && v.Carried(WithFrame(files, n, data), next, Max(reach, i + 1))
               && v.Writing(WithFrame(files, n, data), next, Some(n), i + 1)
            && (v.Linked(files, shape, i) ==> v.Linked(WithFrame(files, n, data), next, i + 1))
    ensures shape.nums <= next.nums
  {
    var n, at := NextFileNum(files), EventsBefore(v.db, v.log, i);
    NextEvent(v.db, v.log, i);
    CountMonotone(InDb(v.db), v.log, i, reach);
    FurtherEvents(v.db, v.log, reach, i + 1);
    StoreInNew(v.loads, files, shape.nums, OfDb(v.db, v.log), shape.starts, v.j, v.from,
               EventsBefore(v.db, v.log, reach), at, data);
    next := Shape(shape.nums + [n], shape.starts + [at]);
    LastEndIs(v.loads, WithFrame(files, n, data), next.nums, next.starts, v.j, n, at + 1);
  }

  lemma StepCurrent(v: View, files: Files, shape: Shape, reach: nat, n: nat, i: nat, data: Bytes)
    requires v.Carried(files, shape, reach) && v.Writing(files, shape, Some(n), i)
    requires i < |v.log| && v.log[i].dbName == v.db && |data| < SIZE_LIMIT && v.loads(data) == v.log[i]
    ensures v.Carried(WithFrame(files, n, data), shape, Max(reach, i + 1))
            && v.Writing(WithFrame(files, n, data), shape, Some(n), i + 1)
    ensures v.Linked(files, shape, i) ==> v.Linked(WithFrame(files, n, data), shape, i + 1)
  {
    var at := EventsBefore(v.db, v.log, i);
    NextEvent(v.db, v.log, i);
    FurtherEvents(v.db, v.log, reach, i + 1);
    StoreInCurrent(v.loads, files, shape.nums, OfDb(v.db, v.log), shape.starts, v.j, v.from,
                   EventsBefore(v.db, v.log, reach), n, at, data);
    LastEndIs(v.loads, WithFrame(files, n, data), shape.nums, shape.starts, v.j, n, at + 1);
  }

  /** An event of another database. */
  lemma StepOther(v: View, files: Files, shape: Shape, reach: nat, current: Option<nat>, i: nat)
    requires v.Carried(files, shape, reach) && v.Writing(files, shape, current, i) && i < |v.log|
             && v.log[i].dbName != v.db && i <= reach
    ensures v.Carried(files, shape, Max(reach, i + 1)) && v.Writing(files, shape, current, i + 1)
    ensures v.Linked(files, shape, i) ==> v.Linked(files, shape, i + 1)
  {
    NextEvent(v.db, v.log, i);
    CountMonotone(InDb(v.db), v.log, i, reach);
    FurtherEvents(v.db, v.log, reach, i + 1);
  }

  function Current(writers: map<string, FileWriter>, db: string): Option<nat> {
    if db in writers then Some(writers[db].fileNum) else None
  }

  /** The process stores log[i]. */
  method StoreStep(writer: DataWriter, event: LogEvent, ghost v: View, ghost shape: Shape, ghost reach: nat,
                   ghost i: nat) returns (ghost next: Shape)
    requires writer.Valid() && NoneHeldBack(writer.dbFileWriters, v.db)
    requires v.Carried(writer.Logical(v.db), shape, reach)
             && v.Writing(writer.Logical(v.db), shape, Current(writer.dbFileWriters, v.db), i)
    requires i <= reach && i < |v.log| && v.log[i] == event && |writer.dumps(event)| < SIZE_LIMIT
             && v.loads(writer.dumps(event)) == event
    modifies writer`dbFileWriters, writer.dir
    ensures writer.Valid() && NoneHeldBack(writer.dbFileWriters, v.db)
    ensures v.Carried(writer.Logical(v.db), next, Max(reach, i + 1))
    ensures v.Writing(writer.Logical(v.db), next, Current(writer.dbFileWriters, v.db), i + 1) && shape.nums <= next.nums
    ensures old(v.Linked(writer.Logical(v.db), shape, i)) ==> v.Linked(writer.Logical(v.db), next, i + 1)
  {
    ghost var files, was := writer.Logical(v.db), WriterOf(writer.dbFileWriters, v.db);
    StoreFlushed(writer, event, v.db);
    next := shape;
    if event.dbName != v.db {
      StepOther(v, files, shape, reach, if was.Some? then Some(was.value.fileNum) else None, i);
    } else if was.Some? && was.value.numRecords < writer.recordsPerFile {
      StepCurrent(v, files, shape, reach, was.value.fileNum, i, writer.dumps(event));
    } else {
      next := StepNew(v, files, shape, reach, i, writer.dumps(event));
    }
  }

  lemma TearCurrent(v: View, files: Files, shape: Shape, reach: nat, n: nat, at: nat, torn: Bytes)
    requires v.Carried(files, shape, reach) && v.Writing(files, shape, Some(n), at) && at <= reach
             && !StartsWithFrame(torn)
    ensures v.Carried(files[n := files[n] + torn], shape, reach)
    ensures v.Linked(files, shape, at) ==> v.Linked(files[n := files[n] + torn], shape, at)
  {
    CountMonotone(InDb(v.db), v.log, at, reach);
    TornInCurrent(v.loads, files, shape.nums, OfDb(v.db, v.log), shape.starts, v.j, v.from,
                  EventsBefore(v.db, v.log, reach), n, EventsBefore(v.db, v.log, at), torn);
    TornIsNothing(files[n], torn);
    ContentsLast(v.loads, files, shape.nums, |shape.nums| - 1, files[n] + torn);
    ContentAt(v.loads, files, shape.nums, |shape.nums| - 1);
  }

  lemma TearNew(v: View, files: Files, shape: Shape, reach: nat, at: nat, torn: Bytes) returns (next: Shape)
    requires v.Carried(files, shape, reach) && at <= |v.log| && !StartsWithFrame(torn)
    ensures var n := NextFileNum(files);
            && v.Carried(files[n := torn], next, reach)
            && (v.Linked(files, shape, at) ==> v.Linked(files[n := torn], next, at))
    ensures shape.nums <= next.nums
  {
    var n, s := NextFileNum(files), EventsBefore(v.db, v.log, at);
    CollectPrefix(InDb(v.db), v.log, at);
    TornInNew(v.loads, files, shape.nums, OfDb(v.db, v.log), shape.starts, v.j, v.from,
              EventsBefore(v.db, v.log, reach), s, torn);
    next := Shape(shape.nums + [n], shape.starts + [s]);
  }

  /** The files with some bytes added at the end of one of them, or as the whole of a new one. */
  function WithBytes(files: Files, n: nat, b: Bytes): Files {
    files[n := (if n in files then files[n] else []) + b]
  }

  lemma TearFile(v: View, files: Files, writer: Option<FileWriter>, recordsPerFile: int, shape: Shape, reach: nat,
                 at: nat, torn: Bytes)
    returns (next: Shape)
    requires v.Carried(files, shape, reach) && at <= reach && !StartsWithFrame(torn)
    requires v.Writing(files, shape, if writer.Some? then Some(writer.value.fileNum) else None, at)
    ensures var after := WithBytes(files, FileFor(files, writer, recordsPerFile), torn);
            v.Carried(after, next, reach) && (v.Linked(files, shape, at) ==> v.Linked(after, next, at))
    ensures shape.nums <= next.nums
  {
    if writer.Some? && writer.value.numRecords < recordsPerFile {
      TearCurrent(v, files, shape, reach, writer.value.fileNum, at, torn);
      next := shape;
    } else {
      next := TearNew(v, files, shape, reach, at, torn);
      assert [] + torn == torn;
    }
  }

  /** The process dies while it writes an event, of which only a part gets into the file. */
  method WriteTorn(writer: DataWriter, db: string, torn: Bytes, ghost other: string)
    requires writer.Valid() && NoneHeldBack(writer.dbFileWriters, other)
    modifies writer`dbFileWriters, writer.dir
    ensures db != other ==> FilesOf(writer.dir.relays, other) == old(writer.Logical(other))
    ensures db == other ==>
              FilesOf(writer.dir.relays, other) ==
              old(WithBytes(writer.Logical(db),
                            FileFor(writer.Logical(db), WriterOf(writer.dbFileWriters, db), writer.recordsPerFile),
                                torn))
  {
    ghost var before := writer.Logical(db);
    var n := OpenFor(writer, db, other);
    var files := FilesOf(writer.dir.relays, db);
    BytesInNew(before, n, torn);
    writer.dir.relays := writer.dir.relays[db := WithBytes(files, n, torn)];
  }

  lemma BytesInNew(files: Files, n: nat, b: Bytes)
    ensures n !in files ==> WithBytes(files[n := []], n, b) == WithBytes(files, n, b)
  {
  }

  method OpenFor(writer: DataWriter, db: string, ghost other: string) returns (n: nat)
    requires writer.Valid() && NoneHeldBack(writer.dbFileWriters, other)
    modifies writer`dbFileWriters, writer.dir
    ensures n in FilesOf(writer.dir.relays, db)
    ensures db != other ==> FilesOf(writer.dir.relays, other) == old(writer.Logical(other))
    ensures db == other ==>
              && n == old(FileFor(writer.Logical(db), WriterOf(writer.dbFileWriters, db), writer.recordsPerFile))
              && FilesOf(writer.dir.relays, db) == if n in old(writer.Logical(db)) then old(writer.Logical(db))
                 else old(writer.Logical(db))[n := []]
  {
    ghost var was := WriterOf(writer.dbFileWriters, other);
    assert was.Some? ==> was.value.fileNum in writer.Logical(other);
    var w := writer.GetOrCreateFileWriter(db);
    assert db != other ==> WriterOf(writer.dbFileWriters, other) == was;
    assert NoneHeldBack(writer.dbFileWriters, other);
    AllVisible(writer, other);
    n := w.fileNum;
  }

  method Tear(writer: DataWriter, db: string, torn: Bytes, ghost v: View, ghost shape: Shape, ghost reach: nat,
              ghost at: nat) returns (ghost next: Shape)
    requires writer.Valid() && NoneHeldBack(writer.dbFileWriters, v.db) && !StartsWithFrame(torn) && at <= reach
    requires v.Carried(writer.Logical(v.db), shape, reach)
             && v.Writing(writer.Logical(v.db), shape, Current(writer.dbFileWriters, v.db), at)
    modifies writer`dbFileWriters, writer.dir
    ensures v.Carried(FilesOf(writer.dir.relays, v.db), next, reach) && shape.nums <= next.nums
    ensures old(v.Linked(writer.Logical(v.db), shape, at)) ==> v.Linked(FilesOf(writer.dir.relays, v.db), next, at)
  {
    next := shape;
    if db == v.db {
      next :=
          TearFile(v, writer.Logical(v.db), WriterOf(writer.dbFileWriters, v.db), writer.recordsPerFile, shape, reach,
                   at, torn);
    }
    WriteTorn(writer, db, torn, v.db);
  }

  /** Everything from log[lo] on before log[hi] can be pickled, and comes back. */
  ghost predicate Pickles(loads: Loads, dumps: LogEvent -> Bytes, log: seq<LogEvent>, lo: nat, hi: nat) {
    forall i :: lo <= i < hi && i < |log| ==> |dumps(log[i])| < SIZE_LIMIT && loads(dumps(log[i])) == log[i]
  }

  /** One run of the binlog reader, a process of its own: it stores log[lo..hi] and stops, or dies in the middle of a
      write. If it begins no later than the relay reaches, the relay goes on leaving nothing out. If it begins no later
      than where the newest file ends, so does each of its files. */
  method StoreRun(dir: DataDir, recordsPerFile: int, dumps: LogEvent -> Bytes, log: seq<LogEvent>, lo: nat, hi: nat,
                  torn: Option<(string, Bytes)>, ghost v: View, ghost shape: Shape,
                      ghost reach: nat) returns (ghost next: Shape)
    requires v.log == log && lo <= hi <= |log| && lo <= reach && Pickles(v.loads, dumps, log, lo, hi)
    requires torn.Some? ==> !StartsWithFrame(torn.value.1)
    requires v.Carried(FilesOf(dir.relays, v.db), shape, reach)
    modifies dir
    ensures v.Carried(FilesOf(dir.relays, v.db), next, Max(reach, hi)) && shape.nums <= next.nums
    ensures old(v.Linked(FilesOf(dir.relays, v.db), shape, lo)) ==> v.Linked(FilesOf(dir.relays, v.db), next, hi)
  {
    var writer := new DataWriter(dir, recordsPerFile, dumps);
    next := shape;
    for i := lo to hi
      invariant writer.Valid() && NoneHeldBack(writer.dbFileWriters, v.db)
      invariant v.Carried(writer.Logical(v.db), next, Max(reach, i)) && shape.nums <= next.nums
      invariant v.Writing(writer.Logical(v.db), next, Current(writer.dbFileWriters, v.db), i)
      invariant old(v.Linked(FilesOf(dir.relays, v.db), shape, lo)) ==> v.Linked(writer.Logical(v.db), next, i)
    {
      next := StoreStep(writer, log[i], v, next, Max(reach, i), i);
    }
    AllVisible(writer, v.db);
    if torn.Some? {
      next := Tear(writer, torn.value.0, torn.value.1, v, next, Max(reach, hi), hi);
    }
  }

  // ---- Many runs

  /** Each run begins no later than where the one before it stopped. */
  ghost predicate RunsChained(runs: seq<Segment>) {
    forall i, j :: 0 <= i && j == i + 1 && j < |runs| ==> runs[j].lo <= runs[i].hi
  }

  lemma LinkedEarlier(v: View, files: Files, shape: Shape, lo: nat, at: nat)
    requires v.Linked(files, shape, at) && lo <= at
    ensures v.Linked(files, shape, lo)
  {
    CountMonotone(InDb(v.db), v.log, lo, at);
  }

  lemma NothingYet(v: View, at: nat)
    requires StrictlyIncreasing(v.log) && v.j == v.from == 0 && at <= |v.log|
    ensures v.Carried(map[], Shape([], []), 0) && v.Linked(map[], Shape([], []), at)
  {
    OfIncreasing(v.db, v.log);
    assert v.log[..0] == [];
  }

  /** The relay after any number of runs, each of which begins no later than the ones before it had got to, as they do
      after a durable resume point: it leaves nothing out. If each begins no later than where the last one stopped, each
      file starts no later than where the one before it ends. */
  method StoreRuns(dir: DataDir, recordsPerFile: int, dumps: LogEvent -> Bytes, log: seq<LogEvent>, runs: seq<Segment>,
                   torn: seq<Option<(string, Bytes)>>, ghost v: View) returns (ghost shape: Shape)
    requires v == View(v.loads, v.db, log, 0, 0) && FilesOf(dir.relays, v.db) == map[]
    requires StrictlyIncreasing(log) && AtLeastOnce(log, 0, runs) && Pickles(v.loads, dumps, log, 0, |log|)
    requires |torn| == |runs| && forall i :: 0 <= i < |torn| && torn[i].Some? ==> !StartsWithFrame(torn[i].value.1)
    modifies dir
    ensures v.Carried(FilesOf(dir.relays, v.db), shape, Reach(0, runs))
    ensures RunsChained(runs) ==>
              ChainedFiles(v.loads, FilesOf(dir.relays, v.db), shape.nums, OfDb(v.db, log), shape.starts)
  {
    shape := Shape([], []);
    ghost var begin := if runs == [] then 0 else runs[0].lo;
    NothingYet(v, begin);
    WholeSlices(runs);
    for r := 0 to |runs|
      invariant v.Carried(FilesOf(dir.relays, v.db), shape, Reach(0, runs[..r]))
      invariant RunsChained(runs) ==>
                  v.Linked(FilesOf(dir.relays, v.db), shape, if r == 0 then begin else runs[r - 1].hi)
    {
      ReachNext(runs, r);
      if RunsChained(runs) {
        LinkedEarlier(v, FilesOf(dir.relays, v.db), shape, runs[r].lo, if r == 0 then begin else runs[r - 1].hi);
      }
      shape :=
          StoreRun(dir, recordsPerFile, dumps, log, runs[r].lo, runs[r].hi, torn[r], v, shape, Reach(0, runs[..r]));
    }
  }

  lemma ReachNext(runs: seq<Segment>, r: nat)
    requires r < |runs|
    ensures Reach(0, runs[..r + 1]) == Max(Reach(0, runs[..r]), runs[r].hi)
  {
    assert runs[..r + 1][..r] == runs[..r];
  }

  // ---- Checkpoints and removals

  /** The same files, some of those before j gone. */
  lemma {:induction false} FlowsShifted(contents: seq<seq<LogEvent>>, starts: seq<nat>, j: nat,
                                        fewer: seq<seq<LogEvent>>, fewerStarts: seq<nat>, c: nat, from: nat)
    requires j <= |contents| == |starts| && c <= |fewer| == |fewerStarts|
    requires fewer[c..] == contents[j..] && fewerStarts[c..] == starts[j..]
    ensures Flows(fewer, fewerStarts, c, from) <==> Flows(contents, starts, j, from)
    ensures ReachFrom(fewer, fewerStarts, c, from) == ReachFrom(contents, starts, j, from)
    decreases |contents| - j
  {
    assert |fewer[c..]| == |contents[j..]|;
    if j < |contents| {
      assert fewer[c] == fewer[c..][0] == contents[j] && fewerStarts[c] == fewerStarts[c..][0] == starts[j];
      assert fewer[c + 1..] == fewer[c..][1..] == contents[j + 1..]
             && fewerStarts[c + 1..] == fewerStarts[c..][1..] == starts[j + 1..];
      FlowsShifted(contents, starts, j + 1, fewer, fewerStarts, c + 1, After(contents, starts, j, from));
    }
  }

  function DropAt<T>(s: seq<T>, m: nat): (r: seq<T>)
    requires m < |s|
    ensures |r| == |s| - 1 && forall i :: 0 <= i < |r| ==> r[i] == s[if i < m then i else i + 1]
  {
    s[..m] + s[m + 1..]
  }

  lemma DropMembers(nums: seq<nat>, m: nat, n: nat)
    requires Ascending(nums) && m < |nums|
    ensures n in DropAt(nums, m) <==> n in nums && n != nums[m]
  {
    var fewer := DropAt(nums, m);
    if n in nums && n != nums[m] {
      var i :| 0 <= i < |nums| && nums[i] == n;
      assert fewer[if i < m then i else i - 1] == n;
    }
    if n in fewer {
      var i :| 0 <= i < |fewer| && fewer[i] == n;
      assert n == nums[if i < m then i else i + 1];
    }
  }

  lemma DropLists(files: Files, nums: seq<nat>, m: nat)
    requires Lists(nums, files) && m < |nums|
    ensures Lists(DropAt(nums, m), files - {nums[m]})
  {
    forall n ensures n in DropAt(nums, m) <==> n in files - {nums[m]} {
      DropMembers(nums, m, n);
    }
  }

  lemma DropListed(loads: Loads, files: Files, nums: seq<nat>, m: nat)
    requires Lists(nums, files) && m < |nums|
    ensures Lists(DropAt(nums, m), files - {nums[m]})
    ensures ContentsOf(loads, files - {nums[m]}, DropAt(nums, m)) == DropAt(ContentsOf(loads, files, nums), m)
  {
    DropLists(files, nums, m);
    SameContents(loads, files, nums, m, files - {nums[m]}, DropAt(nums, m));
  }

  lemma SameContents(loads: Loads, files: Files, nums: seq<nat>, m: nat, less: Files, fewer: seq<nat>)
    requires (forall n :: n in nums ==> n in files)
             && (forall n :: n in fewer ==> n in less && n in files && less[n] == files[n])
    requires m < |nums| && fewer == DropAt(nums, m)
    ensures ContentsOf(loads, less, fewer) == DropAt(ContentsOf(loads, files, nums), m)
  {
    forall i | 0 <= i < |fewer|
      ensures ContentsOf(loads, less, fewer)[i] == DropAt(ContentsOf(loads, files, nums), m)[i]
    {
      assert fewer[i] in fewer;
    }
  }

  lemma StretchesDrop(log: seq<LogEvent>, contents: seq<seq<LogEvent>>, starts: seq<nat>, m: nat)
    requires Stretches(log, contents, starts) && m < |contents|
    ensures Stretches(log, DropAt(contents, m), DropAt(starts, m))
  {
  }

  lemma FlowsDrop(contents: seq<seq<LogEvent>>, starts: seq<nat>, j: nat, m: nat, from: nat)
    requires m < j <= |contents| == |starts|
    ensures Flows(DropAt(contents, m), DropAt(starts, m), j - 1, from) <==> Flows(contents, starts, j, from)
    ensures ReachFrom(DropAt(contents, m), DropAt(starts, m), j - 1, from) == ReachFrom(contents, starts, j, from)
  {
    assert DropAt(contents, m)[j - 1..] == contents[j..] && DropAt(starts, m)[j - 1..] == starts[j..];
    FlowsShifted(contents, starts, j, DropAt(contents, m), DropAt(starts, m), j - 1, from);
  }

  lemma ConsecutiveDrop(nums: seq<nat>, j: nat, m: nat)
    requires m < j <= |nums| && ConsecutiveFrom(nums, j)
    ensures ConsecutiveFrom(DropAt(nums, m), j - 1)
  {
  }

  /** One file before file j is removed. */
  lemma RemoveOne(loads: Loads, files: Files, nums: seq<nat>, log: seq<LogEvent>, starts: seq<nat>, j: nat, from: nat,
                  reach: nat, m: nat)
    requires Carries(loads, files, nums, log, starts, j, from, reach) && m < j
    ensures Carries(loads, files - {nums[m]}, DropAt(nums, m), log, DropAt(starts, m), j - 1, from, reach)
  {
    var contents := ContentsOf(loads, files, nums);
    FlowsDrop(contents, starts, j, m, from);
    StretchesDrop(log, contents, starts, m);
    ConsecutiveDrop(nums, j, m);
    DropListed(loads, files, nums, m);
    var less, fewer := files - {nums[m]}, DropAt(nums, m);
    assert ContentsOf(loads, less, fewer) == DropAt(contents, m);
  }

  lemma IndexBefore(nums: seq<nat>, files: Files, j: nat, n: nat) returns (m: nat)
    requires Lists(nums, files) && j < |nums| && n in files && n < nums[j]
    ensures m < j && nums[m] == n
  {
    assert n in nums;
    m :| 0 <= m < |nums| && nums[m] == n;
  }

  lemma MinusOneMore(files: Files, n: nat, gone: set<nat>)
    requires n in gone
    ensures files - {n} - (gone - {n}) == files - gone
  {
  }

  /** The relay leaves nothing out when it is read from file `top` on. */
  ghost predicate CarriesFrom(loads: Loads, files: Files, log: seq<LogEvent>, from: nat, reach: nat, top: nat) {
    exists nums: seq<nat>, starts: seq<nat>, j: nat :: Carries(loads, files, nums, log, starts, j, from, reach)
        && j < |nums| && nums[j] == top
  }

  lemma RemoveOlder(loads: Loads, files: Files, log: seq<LogEvent>, from: nat, reach: nat, top: nat, n: nat)
    requires CarriesFrom(loads, files, log, from, reach, top) && n in files && n < top
    ensures CarriesFrom(loads, files - {n}, log, from, reach, top)
  {
    var nums: seq<nat>, starts: seq<nat>, j: nat :| Carries(loads, files, nums, log, starts, j, from, reach)
        && j < |nums| && nums[j] == top;
    var m := IndexBefore(nums, files, j, n);
    RemoveOne(loads, files, nums, log, starts, j, from, reach, m);
    assert DropAt(nums, m)[j - 1] == top;
  }

  /** Removing older files, in any order, leaves what is read from there on as it was. */
  lemma {:induction false} RemovalKeeps(loads: Loads, files: Files, log: seq<LogEvent>, from: nat, reach: nat, top: nat,
                                        gone: set<nat>)
    requires CarriesFrom(loads, files, log, from, reach, top) && forall n :: n in gone ==> n in files && n < top
    ensures CarriesFrom(loads, files - gone, log, from, reach, top)
    decreases |gone|
  {
    if gone == {} {
      assert files - gone == files;
    } else {
      var n :| n in gone;
      RemoveOlder(loads, files, log, from, reach, top, n);
      RemovalKeeps(loads, files - {n}, log, from, reach, top, gone - {n});
      MinusOneMore(files, n, gone);
    }
  }

  /** A checkpoint, in the first file from j on that holds it, protects that file: reading from it is enough. */
  lemma Protect(loads: Loads, files: Files, nums: seq<nat>, log: seq<LogEvent>, starts: seq<nat>, j: nat, from: nat,
                reach: nat, i: nat, k: nat)
    requires Carries(loads, files, nums, log, starts, j, from, reach) && from <= k && j <= i
    requires HoldsAt(ContentsOf(loads, files, nums), starts, i, k)
    requires forall m :: j <= m < i ==> !HoldsAt(ContentsOf(loads, files, nums), starts, m, k)
    ensures CarriesFrom(loads, files, log, k, reach, nums[i])
  {
    AdvanceFlows(ContentsOf(loads, files, nums), starts, j, from, i, k);
    ConsecutiveLater(nums, j, i);
    assert Carries(loads, files, nums, log, starts, i, k, reach);
  }

  lemma ConsecutiveLater(nums: seq<nat>, j: nat, i: nat)
    requires ConsecutiveFrom(nums, j) && j <= i < |nums|
    ensures ConsecutiveFrom(nums, i)
  {
  }

  lemma {:induction false} AdvanceFlows(contents: seq<seq<LogEvent>>, starts: seq<nat>, j: nat, from: nat, i: nat,
                                        k: nat)
    requires j <= i < |contents| == |starts| && Flows(contents, starts, j, from) && from <= k
    requires HoldsAt(contents, starts, i, k) && forall m :: j <= m < i ==> !HoldsAt(contents, starts, m, k)
    ensures Flows(contents, starts, i, k) && ReachFrom(contents, starts, i, k) == ReachFrom(contents, starts, j, from)
    decreases i - j
  {
    if j < i {
      assert !HoldsAt(contents, starts, j, k);
      AdvanceFlows(contents, starts, j + 1, After(contents, starts, j, from), i, k);
    }
  }

  lemma FromHolder(contents: seq<seq<LogEvent>>, starts: seq<nat>, i: nat, k: nat)
    requires |contents| == |starts| && HoldsAt(contents, starts, i, k)
    ensures Flows(contents, starts, i, k) <==> Flows(contents, starts, i + 1, EndOf(contents, starts, i))
    ensures ReachFrom(contents, starts, i, k) == ReachFrom(contents, starts, i + 1, EndOf(contents, starts, i))
  {
  }

  // ---- A protected file

  /** What happens to the relays over time: runs of the binlog reader, and removals of files from one of them. */
  datatype Happening = Run(lo: nat, hi: nat, torn: Option<(string, Bytes)>) | Removal(db: string, gone: set<nat>)

  function ReachAfter(reach: nat, happenings: seq<Happening>): nat
    decreases |happenings|
  {
    if happenings == [] then reach
    else ReachAfter(if happenings[0].Run? then Max(reach, happenings[0].hi) else reach, happenings[1..])
  }

  /** Every run begins no later than the ones before it had got to. */
  ghost predicate Possible(log: seq<LogEvent>, reach: nat, happenings: seq<Happening>)
    decreases |happenings|
  {
    happenings == [] ||
    (match happenings[0]
     case Run(lo, hi, torn) =>
       && lo <= hi <= |log| && lo <= reach && (torn.Some? ==> !StartsWithFrame(torn.value.1))
       && Possible(log, Max(reach, hi), happenings[1..])
     case Removal(_, _) => Possible(log, reach, happenings[1..]))
  }

  method OneRun(dir: DataDir, recordsPerFile: int, dumps: LogEvent -> Bytes, log: seq<LogEvent>, lo: nat, hi: nat,
                torn: Option<(string, Bytes)>,
                ghost loads: Loads, ghost db: string, ghost from: nat, ghost reach: nat, ghost top: nat)
    requires reach <= |log| && lo <= hi <= |log| && lo <= reach && Pickles(loads, dumps, log, 0, |log|)
    requires torn.Some? ==> !StartsWithFrame(torn.value.1)
    requires CarriesFrom(loads, FilesOf(dir.relays, db), OfDb(db, log), from, EventsBefore(db, log, reach), top)
    modifies dir
    ensures CarriesFrom(loads, FilesOf(dir.relays, db), OfDb(db, log), from, EventsBefore(db, log, Max(reach, hi)), top)
  {
    ghost var files, dbLog, there := FilesOf(dir.relays, db), OfDb(db, log), EventsBefore(db, log, reach);
    ghost var nums: seq<nat>, starts: seq<nat>, j: nat :| Carries(loads, files, nums, dbLog, starts, j, from, there)
        && j < |nums| && nums[j] == top;
    ghost var v, shape := View(loads, db, log, j, from), Shape(nums, starts);
    assert v.Carried(files, shape, reach);
    ghost var next := StoreRun(dir, recordsPerFile, dumps, log, lo, hi, torn, v, shape, reach);
    assert next.nums[j] == top;
  }

  /** Removes files older than the protected one. */
  method RemoveFiles(dir: DataDir, other: string, gone: set<nat>, top: nat, ghost loads: Loads, ghost db: string,
                     ghost log: seq<LogEvent>,
                     ghost from: nat, ghost reach: nat)
    requires CarriesFrom(loads, FilesOf(dir.relays, db), log, from, reach, top)
    modifies dir
    ensures CarriesFrom(loads, FilesOf(dir.relays, db), log, from, reach, top)
    ensures FilesOf(dir.relays, other) == old(FilesOf(dir.relays, other)) - (set n | n in gone && n < top)
  {
    var files := FilesOf(dir.relays, other);
    var older := set n | n in gone && n < top;
    if other == db {
      assert files - older == files - (older * files.Keys);
      RemovalKeeps(loads, files, log, from, reach, top, older * files.Keys);
    }
    dir.relays := dir.relays[other := files - older];
  }

  /** Whatever runs and removals follow, an event that has been stored stays readable from the protected file on, with
      everything after it up to where the runs have got, and nothing left out. */
  method Continue(dir: DataDir, recordsPerFile: int, dumps: LogEvent -> Bytes, log: seq<LogEvent>,
                  happenings: seq<Happening>, top: nat,
                  ghost loads: Loads, ghost db: string, ghost from: nat, ghost reach: nat)
    requires reach <= |log| && Possible(log, reach, happenings) && Pickles(loads, dumps, log, 0, |log|)
    requires CarriesFrom(loads, FilesOf(dir.relays, db), OfDb(db, log), from, EventsBefore(db, log, reach), top)
    modifies dir
    ensures ReachAfter(reach, happenings) <= |log|
    ensures CarriesFrom(loads, FilesOf(dir.relays, db), OfDb(db, log), from,
                        EventsBefore(db, log, ReachAfter(reach, happenings)), top)
    decreases |happenings|
  {
    if happenings == [] {
      return;
    }
    match happenings[0] {
      case Run(lo, hi, torn) =>
        OneRun(dir, recordsPerFile, dumps, log, lo, hi, torn, loads, db, from, reach, top);
        Continue(dir, recordsPerFile, dumps, log, happenings[1..], top, loads, db, from, Max(reach, hi));
      case Removal(other, gone) =>
        RemoveFiles(dir, other, gone, top, loads, db, OfDb(db, log), from, EventsBefore(db, log, reach));
        Continue(dir, recordsPerFile, dumps, log, happenings[1..], top, loads, db, from, reach);
    }
  }

  /** An engine that resumes at the checkpoint in the protected file gets everything after it, each event once. */
  lemma ProtectedResumes(loads: Loads, files: Files, log: seq<LogEvent>, k: nat, reach: nat, top: nat)
    requires CarriesFrom(loads, files, log, k, reach, top) && k < |log|
    requires LocateNum(loads, files, SortedNums(files.Keys), log[k].transactionId) == Some(top)
    ensures var sought := Seek(loads, files, Some(log[k].transactionId));
            sought.Some? && Delivers(Some(log[k].transactionId), Loaded(loads, sought.value), log, k + 1, reach)
  {
    var nums: seq<nat>, starts: seq<nat>, j: nat :| Carries(loads, files, nums, log, starts, j, k, reach) && j < |nums|
        && nums[j] == top;
    SameListing(nums, SortedNums(files.Keys));
    var r := Resume(loads, files, nums, log, starts, k, j);
    assert r.Valid();
    SeekIsRest(r);
    ResumesAt(r, reach);
  }

  lemma ResumesAt(r: Resume, reach: nat)
    requires r.Valid() && Flows(r.Contents(), r.starts, r.i, r.k)
             && ReachFrom(r.Contents(), r.starts, r.i, r.k) == reach
    ensures r.Gets(reach)
  {
    r.FoundHere();
    FromHolder(r.Contents(), r.starts, r.i, r.k);
    GetsAll(r);
  }
}
