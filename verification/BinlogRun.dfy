/** The loop of the binlog replicator: state is saved before the event is stored, and still no resume point
    runs ahead of the relay. */
module BinlogRun {
  import opened Events
  import opened Sequences
  import opened Delivery
  import opened Recovery

  function MatchingOne(event: StreamEvent): seq<LogEvent> {
    if event.converted.Some? then [event.converted.value] else []
  }

  /** The events to be relayed among those of the stream. */
  function Matching(events: seq<StreamEvent>): seq<LogEvent> {
    Collect(MatchingOne, events)
  }

  /** How many events before log[i] are to be relayed. */
  function MatchingBefore(log: seq<StreamEvent>, i: nat): nat
    requires i <= |log|
  {
    CountBefore(MatchingOne, log, i)
  }

  lemma {:induction false} MatchingIncreasing(log: seq<StreamEvent>)
    requires Ordered(log) && forall e :: e in log && e.converted.Some? ==>
               e.converted.value.transactionId == e.transactionId
    ensures StrictlyIncreasing(Matching(log))
    ensures forall e :: e in Matching(log) ==> exists i :: 0 <= i < |log| && log[i].converted == Some(e)
  {
    if log != [] {
      var m := |log| - 1;
      assert log == log[..m] + [log[m]];
      MatchingIncreasing(log[..m]);
      var front := Matching(log[..m]);
      forall e | e in front ensures Before(e.transactionId, log[m].transactionId) {
        var i :| 0 <= i < |log[..m]| && log[..m][i].converted == Some(e);
        assert log[i] in log && log[..m][i] == log[i];
      }
      assert log[m] in log;
      forall e | e in Matching(log) ensures exists i :: 0 <= i < |log| && log[i].converted == Some(e) {
        if e in front {
          var i :| 0 <= i < m && log[..m][i].converted == Some(e);
          assert log[i].converted == Some(e);
        } else {
          assert log[m].converted == Some(e);
        }
      }
    }
  }

  /** Everything at or before the position comes before log[reached], or is covered by `apart`. */
  ghost predicate StoredUpTo(log: seq<StreamEvent>, position: Option<Transaction>, reached: nat,
                             apart: Option<Transaction>) {
    forall i :: 0 <= i < |log| && Covers(position, log[i].transactionId) ==>
          i < reached || Covers(apart, log[i].transactionId)
  }

  /** What earlier runs have put into the relay: stretches of the log, each starting no later than where the relay
      reached before; together they reach to log[reached]. */
  ghost predicate Earlier(log: seq<StreamEvent>, relay: seq<LogEvent>, runs: seq<Segment>, reached: nat) {
    && reached <= |log| && AtLeastOnce(Matching(log), 0, runs)
    && relay == RelayOf(Matching(log), runs) && Reach(0, runs) == MatchingBefore(log, reached)
  }

  /** What the current run has added, log[start..stored]. */
  function Added(log: seq<StreamEvent>, start: nat, stored: nat): seq<LogEvent>
    requires start <= stored <= |log|
  {
    CollectPrefix(MatchingOne, log, stored);
    CountMonotone(MatchingOne, log, start, stored);
    Matching(log)[MatchingBefore(log, start)..MatchingBefore(log, stored)]
  }

  lemma AddedNext(log: seq<StreamEvent>, start: nat, stored: nat)
    requires start <= stored < |log|
    ensures Added(log, start, stored + 1) == Added(log, start, stored) + MatchingOne(log[stored])
  {
    CountNext(MatchingOne, log, stored);
    CountMonotone(MatchingOne, log, start, stored);
    var all, lo, hi, next :=
        Matching(log), MatchingBefore(log, start), MatchingBefore(log, stored), MatchingBefore(log, stored + 1);
    assert all[lo..next] == all[lo..hi] + all[hi..next];
  }

  lemma AddedNothing(log: seq<StreamEvent>, i: nat)
    requires i <= |log|
    ensures Added(log, i, i) == []
  {
    CollectPrefix(MatchingOne, log, i);
  }

  /** A run is over: what it has added is one more stretch. */
  lemma EndRun(log: seq<StreamEvent>, before: seq<LogEvent>, runs: seq<Segment>, reached: nat, start: nat, stored: nat)
    requires Earlier(log, before, runs, reached) && start <= stored <= |log| && start <= reached
    ensures Earlier(log, before + Added(log, start, stored),
                    runs + [Segment(MatchingBefore(log, start), MatchingBefore(log, stored))], Max(reached, stored))
  {
    CollectPrefix(MatchingOne, log, stored);
    CountMonotone(MatchingOne, log, start, stored);
    CountMonotone(MatchingOne, log, start, reached);
    if reached <= stored {
      CountMonotone(MatchingOne, log, reached, stored);
    } else {
      CountMonotone(MatchingOne, log, stored, reached);
    }
    AddSegment(Matching(log), 0, runs, Segment(MatchingBefore(log, start), MatchingBefore(log, stored)));
  }

  /** A relay is what earlier runs have put into it and what the current one has added. */
  ghost predicate RelayOfRuns(log: seq<StreamEvent>, relay: seq<LogEvent>, before: seq<LogEvent>, runs: seq<Segment>,
                              reached: nat, start: nat, stored: nat) {
    && Earlier(log, before, runs, reached)
    && start <= stored <= |log| && start <= reached
    && relay == before + Added(log, start, stored)
  }

  lemma NextRun(log: seq<StreamEvent>, relay: seq<LogEvent>, before: seq<LogEvent>, runs: seq<Segment>, reached: nat,
                start: nat, stored: nat, begin: nat)
    requires RelayOfRuns(log, relay, before, runs, reached, start, stored) && begin <= Max(reached, stored)
    ensures RelayOfRuns(log, relay, relay, runs + [Segment(MatchingBefore(log, start), MatchingBefore(log, stored))],
                        Max(reached, stored), begin, begin)
  {
    EndRun(log, before, runs, reached, start, stored);
    AddedNothing(log, begin);
    assert relay == relay + [];
  }

  /** A save makes what was last seen the resume point. */
  function Saved(state: BinlogState, transactionId: Option<Transaction>): BinlogState {
    BinlogState(transactionId, state.lastSeen)
  }

  /** The binlog replicator and what outlives it: the saved state and the relay. `log` is the binlog from the
      event on at which the first run began, as far as MySQL will ever have written it. */
  class BinlogReplicator {
    const log: seq<StreamEvent>
    /** state.json, which is replaced in one step. */
    var state: BinlogState
    var relay: seq<LogEvent>
    /** The stream of this run yields log[next] next. */
    var next: nat
    /** The earlier runs: what they put into the relay, and how far they got. */
    ghost var before: seq<LogEvent>
    ghost var runs: seq<Segment>
    ghost var reachedBefore: nat
    /** This run began with log[start] and has stored what matches up to log[stored]. */
    ghost var start: nat
    ghost var stored: nat
    /** The last seen transaction loaded by this run. */
    ghost var loaded: Option<Transaction>
    /** No run has begun behind what the relay had reached. */
    ghost var intact: bool
    /** How often a process has died, and how often the stream had nothing or failed before the end of the log. */
    ghost var deaths: nat
    ghost var pauses: nat

    static const MAX_EVENTS_PER_TICK: nat := 1000

    /** The first run, on an empty directory. */
    constructor (log: seq<StreamEvent>)
      ensures this.log == log && state == BinlogState(None, None) && relay == []
      ensures Valid() && intact && reachedBefore == start == stored == next == 0 && loaded == None
    {
      this.log := log;
      state := BinlogState(None, None);
      relay, before, runs, reachedBefore := [], [], [], 0;
      next, start, stored, loaded, intact := 0, 0, 0, None, true;
    }

    ghost predicate Valid()
      reads this
    {
      && Relayed() && stored <= next <= |log| && next <= stored + 1
      && StoredUpTo(log, state.prevLastSeen, stored, loaded)
      && StoredUpTo(log, state.lastSeen, next, loaded)
    }

    /** The relay holds what earlier runs and this one have stored. */
    ghost predicate Relayed()
      reads this`before, this`runs, this`reachedBefore, this`start, this`stored, this`relay, this`intact
    {
      && start <= stored <= |log| && relay == before + Added(log, start, stored)
      && (intact ==> RelayOfRuns(log, relay, before, runs, reachedBefore, start, stored))
    }

    /** In an intact relay every event before log[Reached()] that is to be relayed has been stored. */
    ghost function Reached(): nat
      reads this`reachedBefore, this`stored
    {
      Max(reachedBefore, stored)
    }

    /** The resume point does not run ahead of the relay. */
    ghost predicate Durable()
      reads this
    {
      StoredUpTo(log, state.prevLastSeen, Reached(), None)
    }

    ghost predicate LastSeenStored()
      reads this
    {
      StoredUpTo(log, state.lastSeen, Reached(), None)
    }

    /** Where the stream of a new process may start: behind the saved position, or anywhere if there is none. */
    ghost predicate MayStart(begin: nat)
      reads this
    {
      && begin <= |log|
      && (state.prevLastSeen.Some? ==>
          forall i :: 0 <= i < |log| ==> (i < begin <==> Covers(state.prevLastSeen, log[i].transactionId)))
    }

    /** A new process. With a durable resume point the relay stays intact; without any it does if and only if the
        stream starts no later than the relay reaches. */
    method Start(begin: nat)
      requires Valid() && MayStart(begin)
      modifies this
      ensures Valid() && state == old(state) && relay == old(relay) && deaths == old(deaths) && pauses == old(pauses)
      ensures start == stored == next == begin && loaded == state.lastSeen && reachedBefore == old(Reached())
      ensures intact <==> old(intact) && begin <= old(Reached())
      ensures state.prevLastSeen.Some? && old(Durable()) ==> begin <= old(Reached())
      ensures state.prevLastSeen.Some? && StoredUpTo(log, old(loaded), old(stored), None) ==> begin <= old(stored)
    {
      assert begin > 0 && state.prevLastSeen.Some? ==> Covers(state.prevLastSeen, log[begin - 1].transactionId);
      BeginRun(begin);
      loaded, next := state.lastSeen, begin;
    }

    ghost method BeginRun(begin: nat)
      requires Relayed() && begin <= |log|
      modifies this`before, this`runs, this`reachedBefore, this`start, this`stored, this`intact
      ensures Relayed() && reachedBefore == old(Reached()) && start == stored == begin
      ensures intact <==> old(intact) && begin <= old(Reached())
    {
      var all, reached := runs + [Segment(MatchingBefore(log, start), MatchingBefore(log, stored))], Reached();
      var still := intact && begin <= reached;
      if still {
        NextRun(log, relay, before, runs, reachedBefore, start, stored, begin);
        assert RelayOfRuns(log, relay, relay, all, reached, begin, begin);
      }
      AddedNothing(log, begin);
      assert relay == relay + [];
      runs := all;
      before := relay;
      reachedBefore := reached;
      start := begin;
      stored := begin;
      intact := still;
    }

    /** Saves the state if it is due, or if forced. A save makes what was last seen the resume point, which is
        durable if and only if it is stored. */
    method UpdateStateIfRequired(transactionId: Option<Transaction>, force: bool, due: bool) returns (saved: bool)
      requires Valid() && StoredUpTo(log, state.lastSeen, stored, loaded)
      requires StoredUpTo(log, transactionId, next, loaded)
      modifies this`state
      ensures Valid() && (saved <==> due || force)
      ensures state == if saved then Saved(old(state), transactionId) else old(state)
      ensures saved ==> (Durable() <==> old(LastSeenStored()))
    {
      saved := due || force;
      if saved {
        state := Saved(state, transactionId);
      }
    }

    /** Whether a position, sent with a heartbeat, is where the stream stands. */
    predicate AtCursor(position: Transaction)
      reads this
    {
      forall i :: 0 <= i < |log| ==> (i < next <==> Covers(Some(position), log[i].transactionId))
    }

    /** Stores the event received last, if it is to be relayed. */
    method StoreEvent()
      requires Valid() && next == stored + 1
      modifies this`relay, this`stored
      ensures Valid() && stored == next == old(stored) + 1
      ensures relay == old(relay) + MatchingOne(log[old(stored)])
    {
      AddedNext(log, start, stored);
      Associative(before, Added(log, start, stored), MatchingOne(log[stored]));
      if log[next - 1].converted.Some? {
        relay := relay + [log[next - 1].converted.value];
      } else {
        assert relay == relay + [];
      }
      stored := stored + 1;
    }

    /** The position of the last event of this run lies within what is stored. */
    ghost predicate StoredSoFar(last: Option<Transaction>)
      reads this
    {
      Valid() && next == stored && StoredUpTo(log, last, stored, loaded)
    }

    /** A position taken from the stream by this run is where the stream stands; there is one as soon as the run has
        received an event. */
    ghost predicate UpToDate(last: Option<Transaction>)
      reads this
    {
      && start <= next && (last.Some? ==> AtCursor(last.value)) && (start < next ==> last.Some?)
    }

    /** A process that ends otherwise than by itself has died. */
    twostate predicate EndsByDeath(alive: bool)
      reads this
    {
      old(deaths) <= deaths && (alive <==> deaths == old(deaths))
    }

    /** Receives log[next]: saves the state, if it is time to, and only then stores the event. The process may die
        in between; what it has last seen is then stored if and only if an earlier run had stored it. */
    method Receive() returns (alive: bool, last: Option<Transaction>, ghost saved: bool)
      requires Valid() && next == stored < |log| && Ordered(log)
      modifies this`state, this`relay, this`next, this`stored, this`deaths
      ensures next == old(next) + 1 && EndsByDeath(alive) && UpToDate(last)
      ensures old(stored) <= stored
      ensures Valid() && (alive ==> StoredSoFar(last))
      ensures saved ==> (Durable() <==> StoredUpTo(log, old(state.lastSeen), Reached(), None))
      ensures !alive && saved ==> (LastSeenStored() <==> old(stored) < reachedBefore)
    {
      ghost var received := next;
      last := Some(log[next].transactionId);
      next := next + 1;
      assert StoredUpTo(log, last, next, loaded);
      assert AtCursor(log[received].transactionId);
      var due: bool := *;
      saved := UpdateStateIfRequired(last, false, due);
      var dies: bool := *;
      if dies {
        deaths := deaths + 1;
        assert Covers(last, log[received].transactionId);
        return false, last, saved;
      }
      ghost var seen := old(state.lastSeen);
      StoreEvent();
      alive := true;
      assert saved ==> state.prevLastSeen == seen;
    }

    /** One turn of the outer loop. The stream yields events and heartbeats until it has none, fails, or enough
        have been read: a turn without a pause gets to the end of the log or at least a thousand events further. */
    method Tick(lastTransactionId: Option<Transaction>) returns (alive: bool, last: Option<Transaction>)
      requires StoredSoFar(lastTransactionId) && UpToDate(lastTransactionId) && Ordered(log)
      modifies this`state, this`relay, this`next, this`stored, this`deaths, this`pauses
      ensures old(stored) <= stored && EndsByDeath(alive) && old(pauses) <= pauses
      ensures Valid() && (alive ==> StoredSoFar(last) && UpToDate(last))
      ensures alive && pauses == old(pauses) ==> next == |log| || next >= old(next) + 1000
    {
      last := lastTransactionId;
      var lastReadCount := 0;
      while next < |log|
        invariant StoredSoFar(last) && UpToDate(last) && old(stored) <= stored
        invariant deaths == old(deaths) && pauses == old(pauses) && next == old(next) + lastReadCount
        decreases |log| - next
      {
        var quiet: bool := *;
        if quiet {
          pauses := pauses + 1;
          break;
        }
        lastReadCount := lastReadCount + 1;
        var matches := log[next].converted.Some?;
        ghost var saved;
        alive, last, saved := Receive();
        if !alive {
          return;
        }
        if matches && lastReadCount >= MAX_EVENTS_PER_TICK {
          break;
        }
      }
      last := EndTick(last);
      alive := true;
    }

    /** The end of a turn, which may have been brought about by a heartbeat or by a failure of the stream. */
    method EndTick(lastTransactionId: Option<Transaction>) returns (last: Option<Transaction>)
      requires StoredSoFar(lastTransactionId) && UpToDate(lastTransactionId)
      modifies this`state, this`pauses
      ensures StoredSoFar(last) && UpToDate(last) && old(pauses) <= pauses
    {
      last := lastTransactionId;
      var fails: bool := *;
      if fails {
        pauses := pauses + 1;
        return;
      }
      var heartbeat: bool, position: Transaction := *, *;
      if heartbeat && AtCursor(position) {
        last := Some(position);
        var due: bool := *;
        var _ := UpdateStateIfRequired(last, false, due);
      }
      var due: bool := *;
      var _ := UpdateStateIfRequired(last, false, due);
    }

    /** A run of some turns ends when the process dies, or gracefully with a last, forced save. At whatever point it
        ends, the resume point is stored except for what the run had loaded as last seen. A graceful end saves where the
        stream stands, which without a pause is at the end of the log or at least a thousand events further for each
        turn. */
    method Run(turns: nat) returns (graceful: bool)
      requires Valid() && start == next == stored && Ordered(log)
      modifies this`state, this`relay, this`next, this`stored, this`deaths, this`pauses
      ensures Valid() && old(stored) <= stored && EndsByDeath(graceful) && old(pauses) <= pauses
      ensures graceful ==> stored == next && StoredUpTo(log, state.lastSeen, stored, loaded) && UpToDate(state.lastSeen)
      ensures graceful && pauses == old(pauses) ==> next == |log| || next >= old(next) + 1000 * turns
    {
      var last: Option<Transaction> := None;
      for i := 0 to turns
        invariant StoredSoFar(last) && UpToDate(last) && old(stored) <= stored
        invariant deaths == old(deaths) && old(pauses) <= pauses
        invariant pauses == old(pauses) ==> next == |log| || next >= old(next) + 1000 * i
      {
        var alive;
        alive, last := Tick(last);
        if !alive {
          return false;
        }
      }
      var dies: bool := *;
      if dies {
        deaths := deaths + 1;
        return false;
      }
      var _ := UpdateStateIfRequired(last, true, false);
      graceful := true;
    }

    /** Runs begun with everything stored up to what was last seen: at whatever point the run ends, everything up to
        the resume point is stored; if it ends gracefully, the next run begins in the same way. */
    method RunFromStored(begin: nat, turns: nat) returns (graceful: bool)
      requires Valid() && Durable() && LastSeenStored() && Ordered(log) && MayStart(begin)
      modifies this
      ensures Valid() && Durable() && old(Reached()) <= Reached()
      ensures graceful ==> LastSeenStored() && UpToDate(state.lastSeen)
      ensures EndsByDeath(graceful) && old(pauses) <= pauses
      ensures graceful && pauses == old(pauses) ==> stored == |log| || stored >= begin + 1000 * turns
      ensures intact <==> old(intact) && begin <= old(Reached())
      ensures old(state).prevLastSeen.Some? ==> (intact <==> old(intact))
    {
      Start(begin);
      ghost var reached := reachedBefore;
      assert StoredUpTo(log, loaded, reached, None);
      graceful := Run(turns);
    }

    /** After a crash only the resume point is known to be stored. A run that gets past what the crashed one
        had last seen makes up for it. */
    method RunAfterCrash(begin: nat, turns: nat) returns (graceful: bool)
      requires Valid() && Durable() && Ordered(log) && MayStart(begin)
      modifies this
      ensures Valid() && old(Reached()) <= Reached()
      ensures EndsByDeath(graceful) && old(pauses) <= pauses
      ensures graceful && pauses == old(pauses) ==> stored == |log| || stored >= begin + 1000 * turns
      ensures graceful ==> UpToDate(state.lastSeen)
      ensures StoredUpTo(log, old(state.lastSeen), Reached(), None) ==> Durable() && (graceful ==> LastSeenStored())
      ensures intact <==> old(intact) && begin <= old(Reached())
      ensures old(state).prevLastSeen.Some? ==> (intact <==> old(intact))
    {
      Start(begin);
      graceful := Run(turns);
    }

    /** All runs so far, by what each has stored of the events to be relayed. */
    ghost function AllRuns(): seq<Segment>
      requires Relayed()
      reads this
    {
      runs + [Segment(MatchingBefore(log, start), MatchingBefore(log, stored))]
    }

    /** As long as no run has begun behind what the relay had reached, each run begins no later than all before it had
        got to; this is what the files of the relay depend on. */
    lemma RunsAreAtLeastOnce()
      requires Valid() && intact
      ensures AtLeastOnce(Matching(log), 0, AllRuns()) && relay == RelayOf(Matching(log), AllRuns())
      ensures Reach(0, AllRuns()) == MatchingBefore(log, Reached())
    {
      EndRun(log, before, runs, reachedBefore, start, stored);
    }

    /** Whatever runs there have been, the engine accepts from the relay exactly the events to be relayed, as far as
        the relay reaches, each once. */
    lemma RelayExactlyOnce()
      requires Valid() && intact && Ordered(log)
      requires forall e :: e in log && e.converted.Some? ==> e.converted.value.transactionId == e.transactionId
      ensures Reached() <= |log| && Accepted(None, relay) == Matching(log[..Reached()])
    {
      EndRun(log, before, runs, reachedBefore, start, stored);
      MatchingIncreasing(log);
      ExactlyOnce(None, Matching(log), 0, AllRuns());
      CollectPrefix(MatchingOne, log, Reached());
    }

    /** Every event to be relayed that lies at or before the resume point is in the relay. */
    lemma ResumePointInRelay(i: nat)
      requires Valid() && intact && Durable() && Ordered(log)
      requires forall e :: e in log && e.converted.Some? ==> e.converted.value.transactionId == e.transactionId
      requires i < |log| && log[i].converted.Some? && Covers(state.prevLastSeen, log[i].transactionId)
      ensures log[i].converted.value in relay
    {
      RelayExactlyOnce();
      AcceptedIncreasing(None, relay);
      MatchingHolds(log[..Reached()], i);
    }
  }

  lemma {:induction false} MatchingHolds(log: seq<StreamEvent>, i: nat)
    requires i < |log| && log[i].converted.Some?
    ensures log[i].converted.value in Matching(log)
  {
    var m := |log| - 1;
    if i < m {
      MatchingHolds(log[..m], i);
    }
  }

  /** When a save runs ahead of the relay: exactly if what was last seen covers the first event not stored. After a
      crash between a save and the store of log[reached] it does, so a second crash loses that event. */
  lemma SaveRunsAheadIff(log: seq<StreamEvent>, state: BinlogState, reached: nat, transactionId: Option<Transaction>)
    requires Ordered(log) && reached < |log|
    ensures StoredUpTo(log, Saved(state, transactionId).prevLastSeen, reached, None) <==>
              !Covers(state.lastSeen, log[reached].transactionId)
  {
    assert forall i :: reached < i < |log| ==> Before(log[reached].transactionId, log[i].transactionId);
  }

  /** A run that begins at log[begin], wherever that is, loses nothing if and only if it begins no later than the relay
      reaches, or nothing in between is to be relayed. */
  lemma RestartLosesNothingIff(log: seq<StreamEvent>, before: seq<LogEvent>, runs: seq<Segment>, reached: nat,
                               begin: nat, stored: nat)
    requires Ordered(log) && forall e :: e in log && e.converted.Some? ==>
               e.converted.value.transactionId == e.transactionId
    requires Earlier(log, before, runs, reached) && begin <= stored <= |log|
    ensures Accepted(None, before + Added(log, begin, stored)) == Matching(log[..Max(reached, stored)]) <==>
            begin <= reached || MatchingBefore(log, begin) == MatchingBefore(log, reached)
  {
    var all := Matching(log);
    MatchingIncreasing(log);
    ExactlyOnce(None, all, 0, runs);
    CollectPrefix(MatchingOne, log, Max(reached, stored));
    CollectPrefix(MatchingOne, log, stored);
    CountMonotone(MatchingOne, log, begin, stored);
    if begin <= reached {
      CountMonotone(MatchingOne, log, begin, reached);
      if reached <= stored {
        CountMonotone(MatchingOne, log, reached, stored);
      } else {
        CountMonotone(MatchingOne, log, stored, reached);
      }
      AcceptSegment(None, all, 0, before, MatchingBefore(log, reached), MatchingBefore(log, begin),
                    MatchingBefore(log, stored));
    } else {
      CountMonotone(MatchingOne, log, reached, begin);
      AcceptBeyond(None, all, 0, before, MatchingBefore(log, reached), MatchingBefore(log, begin),
                   MatchingBefore(log, stored));
      GapShows(all, MatchingBefore(log, reached), MatchingBefore(log, begin), MatchingBefore(log, stored));
    }
  }

  lemma GapShows(all: seq<LogEvent>, reached: nat, begin: nat, stored: nat)
    requires reached <= begin <= stored <= |all|
    ensures all[0..reached] + all[begin..stored] == all[..stored] <==> begin == reached
  {
    assert |all[0..reached] + all[begin..stored]| == reached + (stored - begin);
    if begin == reached {
      assert all[0..reached] + all[begin..stored] == all[..stored];
    }
  }
}
