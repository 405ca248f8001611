/** The binlog replicator and the relay files its runs have written. */
module RelayFiles {
  import opened Events
  import opened Sequences
  import opened Framing
  import opened Relay
  import opened Writing
  import opened Delivery
  import opened Resuming
  import opened Recovery
  import opened BinlogRun
  import opened RelayRuns

  /** What an engine without a position accepts of the relay of a database. */
  ghost function FromTheBeginning(loads: Loads, files: Files): seq<LogEvent> {
    var sought := Seek(loads, files, None);
    if sought.None? then [] else Accepted(None, Loaded(loads, sought.value))
  }

  lemma AcceptedFromFiles(v: View, files: Files, shape: Shape, reach: nat)
    requires v.Carried(files, shape, reach) && v.j == v.from == 0
    ensures FromTheBeginning(v.loads, files) == OfDb(v.db, v.log[..reach])
  {
    ReadFromOldest(v.loads, files, shape.nums, OfDb(v.db, v.log), shape.starts);
    CollectPrefix(InDb(v.db), v.log, reach);
  }

  lemma {:induction false} OfDbHolds(db: string, log: seq<LogEvent>, e: LogEvent)
    ensures e in OfDb(db, log) <==> e in log && e.dbName == db
  {
    if log != [] {
      var m := |log| - 1;
      OfDbHolds(db, log[..m], e);
      assert log == log[..m] + [log[m]];
    }
  }

  /** The event is to be relayed and lies at or before the position. */
  ghost predicate AtOrBefore(log: seq<StreamEvent>, position: Option<Transaction>, e: LogEvent) {
    exists i :: 0 <= i < |log| && log[i].converted == Some(e) && Covers(position, log[i].transactionId)
  }

  /** The runs of the binlog replicator, written through a writer of their own each, any of them torn at the end. As
      long as no run has begun behind what the relay had reached, the files of every database hold exactly the events of
      the database up to where the runs have got: an engine accepts each of them once. Everything at or before a durable
      resume point is among them. */
  method WriteRelay(replicator: BinlogReplicator, dir: DataDir, recordsPerFile: int, dumps: LogEvent -> Bytes,
                    events: seq<LogEvent>,
                    runs: seq<Segment>, torn: seq<Option<(string, Bytes)>>, ghost loads: Loads, ghost db: string)
    requires replicator.Valid() && replicator.intact && Ordered(replicator.log)
    requires forall e :: e in replicator.log && e.converted.Some? ==> e.converted.value.transactionId == e.transactionId
    requires events == Matching(replicator.log) && runs == replicator.AllRuns() && FilesOf(dir.relays, db) == map[]
    requires Pickles(loads, dumps, events, 0, |events|)
    requires |torn| == |runs| && forall i :: 0 <= i < |torn| && torn[i].Some? ==> !StartsWithFrame(torn[i].value.1)
    modifies dir
    ensures replicator.Reached() <= |replicator.log|
    ensures FromTheBeginning(loads, FilesOf(dir.relays, db)) ==
            OfDb(db, Matching(replicator.log[..replicator.Reached()]))
    ensures replicator.Durable() ==>
              forall e :: AtOrBefore(replicator.log, replicator.state.prevLastSeen, e) && e.dbName == db ==>
                e in FromTheBeginning(loads, FilesOf(dir.relays, db))
  {
    ghost var log, reached := replicator.log, replicator.Reached();
    ghost var v := View(loads, db, events, 0, 0);
    MatchingIncreasing(log);
    replicator.RunsAreAtLeastOnce();
    ghost var shape := StoreRuns(dir, recordsPerFile, dumps, events, runs, torn, v);
    AcceptedFromFiles(v, FilesOf(dir.relays, db), shape, Reach(0, runs));
    CollectPrefix(MatchingOne, log, reached);
    forall i, e | 0 <= i < reached && log[i].converted == Some(e) && e.dbName == db
      ensures e in OfDb(db, Matching(log[..reached]))
    {
      MatchingHolds(log[..reached], i);
      OfDbHolds(db, Matching(log[..reached]), e);
    }
  }
}
