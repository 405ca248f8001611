/** The position check of the apply engine makes an at-least-once relay exactly-once. */
module Delivery {
  import opened Events
  import opened Sequences

  /** The position of the engine after it has accepted some events. */
  function PositionAfter(position: Option<Transaction>, accepted: seq<LogEvent>): Option<Transaction> {
    if accepted == [] then position else Some(accepted[|accepted| - 1].transactionId)
  }

  /** The events that pass the check, read in order from `position`. */
  function Accepted(position: Option<Transaction>, events: seq<LogEvent>): seq<LogEvent> {
    if events == [] then []
    else
      var before := Accepted(position, events[..|events| - 1]);
      var event := events[|events| - 1];
      if Covers(PositionAfter(position, before), event.transactionId) then before else before + [event]
  }

  /** One run of the binlog reader appended log[lo..hi] to the relay. */
  datatype Segment = Segment(lo: nat, hi: nat)

  /** How far into the log the relay reaches. */
  function Reach(start: nat, segments: seq<Segment>): nat {
    if segments == [] then start else Max(Reach(start, segments[..|segments| - 1]), segments[|segments| - 1].hi)
  }

  /** Every run restarts at or before the point its predecessors had reached. */
  ghost predicate AtLeastOnce(log: seq<LogEvent>, start: nat, segments: seq<Segment>) {
    start <= |log| && forall i :: 0 <= i < |segments| ==>
      segments[i].lo <= segments[i].hi <= |log| && segments[i].lo <= Reach(start, segments[..i])
  }

  lemma {:induction false} ReachInLog(log: seq<LogEvent>, start: nat, segments: seq<Segment>)
    requires AtLeastOnce(log, start, segments)
    ensures start <= Reach(start, segments) <= |log|
  {
    if segments != [] {
      AtLeastOncePrefix(log, start, segments);
      ReachInLog(log, start, segments[..|segments| - 1]);
    }
  }

  lemma AtLeastOncePrefix(log: seq<LogEvent>, start: nat, segments: seq<Segment>)
    requires segments != [] && AtLeastOnce(log, start, segments)
    ensures AtLeastOnce(log, start, segments[..|segments| - 1])
  {
    var shorter := segments[..|segments| - 1];
    forall i | 0 <= i < |shorter|
      ensures shorter[i].lo <= shorter[i].hi <= |log| && shorter[i].lo <= Reach(start, shorter[..i])
    {
      assert shorter[i] == segments[i] && shorter[..i] == segments[..i];
    }
  }

  function RelayOf(log: seq<LogEvent>, segments: seq<Segment>): seq<LogEvent>
    requires forall i :: 0 <= i < |segments| ==> segments[i].lo <= segments[i].hi <= |log|
  {
    if segments == [] then []
    else
      var last := segments[|segments| - 1];
      RelayOf(log, segments[..|segments| - 1]) + log[last.lo..last.hi]
  }

  /** One more run. */
  lemma AddSegment(log: seq<LogEvent>, start: nat, segments: seq<Segment>, last: Segment)
    requires AtLeastOnce(log, start, segments) && last.lo <= last.hi <= |log| && last.lo <= Reach(start, segments)
    ensures AtLeastOnce(log, start, segments + [last])
    ensures RelayOf(log, segments + [last]) == RelayOf(log, segments) + log[last.lo..last.hi]
    ensures Reach(start, segments + [last]) == Max(Reach(start, segments), last.hi)
  {
    var longer := segments + [last];
    assert longer[..|segments|] == segments;
    forall i | 0 <= i < |longer|
      ensures longer[i].lo <= longer[i].hi <= |log| && longer[i].lo <= Reach(start, longer[..i])
    {
      assert i < |segments| ==> longer[i] == segments[i] && longer[..i] == segments[..i];
    }
  }

  /** The position lies before log[start..] and at or after everything earlier. */
  predicate Splits(position: Option<Transaction>, log: seq<LogEvent>, start: nat)
    requires start <= |log|
  {
    forall i :: 0 <= i < |log| ==> (Covers(position, log[i].transactionId) <==> i < start)
  }

  /** Having accepted log[start..reached], the engine has covered exactly the log before `reached`. */
  lemma CoveredSoFar(position: Option<Transaction>, log: seq<LogEvent>, start: nat, reached: nat)
    requires StrictlyIncreasing(log) && start <= reached <= |log|
    requires Splits(position, log, start)
    ensures Splits(PositionAfter(position, log[start..reached]), log, reached)
  {
  }

  lemma AcceptOne(position: Option<Transaction>, events: seq<LogEvent>, event: LogEvent)
    ensures Accepted(position, events + [event]) ==
            Accepted(position, events) +
            if Covers(PositionAfter(position, Accepted(position, events)), event.transactionId) then [] else [event]
  {
  }

  lemma {:induction false} AcceptedPrefix(position: Option<Transaction>, a: seq<LogEvent>, b: seq<LogEvent>)
    ensures Accepted(position, a) <= Accepted(position, a + b)
    decreases |b|
  {
    if b == [] {
      assert a + b == a;
    } else {
      AcceptedPrefix(position, a, b[..|b| - 1]);
      assert (a + b)[..|a + b| - 1] == a + b[..|b| - 1];
    }
  }

  lemma {:induction false} AcceptSegment(position: Option<Transaction>, log: seq<LogEvent>, start: nat,
                                         before: seq<LogEvent>, reach: nat, lo: nat, hi: nat)
    requires StrictlyIncreasing(log) && start <= reach <= |log| && lo <= hi <= |log| && lo <= reach
    requires Splits(position, log, start)
    requires Accepted(position, before) == log[start..reach]
    ensures Accepted(position, before + log[lo..hi]) == log[start..Max(reach, hi)]
    decreases hi
  {
    if lo == hi {
      assert before + log[lo..hi] == before;
    } else {
      AcceptSegment(position, log, start, before, reach, lo, hi - 1);
      var shorter := before + log[lo..hi - 1];
      var reached := Max(reach, hi - 1);
      CoveredSoFar(position, log, start, reached);
      AppendSliceLast(before, log, lo, hi);
      AcceptOne(position, shorter, log[hi - 1]);
      if reached == hi - 1 {
        SliceLast(log, start, hi);
      }
    }
  }

  /** Over any relay whose runs restart at or before where they stopped, the engine accepts
      exactly the log from its position on, in order, each event once. */
  lemma {:induction false} ExactlyOnce(position: Option<Transaction>, log: seq<LogEvent>, start: nat,
                                       segments: seq<Segment>)
    requires StrictlyIncreasing(log) && AtLeastOnce(log, start, segments)
    requires Splits(position, log, start)
    ensures start <= Reach(start, segments) <= |log|
    ensures Accepted(position, RelayOf(log, segments)) == log[start..Reach(start, segments)]
  {
    ReachInLog(log, start, segments);
    if segments != [] {
      var shorter, last := segments[..|segments| - 1], segments[|segments| - 1];
      AtLeastOncePrefix(log, start, segments);
      ReachInLog(log, start, shorter);
      ExactlyOnce(position, log, start, shorter);
      AcceptSegment(position, log, start, RelayOf(log, shorter), Reach(start, shorter), last.lo, last.hi);
    }
  }

  /** Whatever the relay holds, accepted events are strictly increasing and lie after the position. */
  lemma {:induction false} AcceptedIncreasing(position: Option<Transaction>, events: seq<LogEvent>)
    ensures StrictlyIncreasing(Accepted(position, events))
    ensures forall e :: e in Accepted(position, events) ==> e in events && !Covers(position, e.transactionId)
  {
    if events != [] {
      AcceptedIncreasing(position, events[..|events| - 1]);
      assert events == events[..|events| - 1] + [events[|events| - 1]];
    }
  }

  /** A stretch that starts behind what has been reached is accepted whole, and what lies between is missing. */
  lemma {:induction false} AcceptBeyond(position: Option<Transaction>, log: seq<LogEvent>, start: nat,
                                        before: seq<LogEvent>, reach: nat, lo: nat, hi: nat)
    requires StrictlyIncreasing(log) && start <= reach <= lo <= hi <= |log|
    requires Splits(position, log, start) && Accepted(position, before) == log[start..reach]
    ensures Accepted(position, before + log[lo..hi]) == log[start..reach] + log[lo..hi]
    decreases hi
  {
    if lo == hi {
      assert before + log[lo..hi] == before && log[start..reach] + log[lo..hi] == log[start..reach];
    } else {
      AcceptBeyond(position, log, start, before, reach, lo, hi - 1);
      NotYetCovered(position, log, start, reach, lo, hi);
      AcceptNew(position, before + log[lo..hi - 1], log[start..reach] + log[lo..hi - 1], log[hi - 1]);
      AppendSliceLast(before, log, lo, hi);
      AppendSliceLast(log[start..reach], log, lo, hi);
    }
  }

  lemma AcceptNew(position: Option<Transaction>, events: seq<LogEvent>, accepted: seq<LogEvent>, event: LogEvent)
    requires Accepted(position, events) == accepted && !Covers(PositionAfter(position, accepted), event.transactionId)
    ensures Accepted(position, events + [event]) == accepted + [event]
  {
    AcceptOne(position, events, event);
  }

  lemma NotYetCovered(position: Option<Transaction>, log: seq<LogEvent>, start: nat, reach: nat, lo: nat, hi: nat)
    requires StrictlyIncreasing(log) && start <= reach <= lo < hi <= |log| && Splits(position, log, start)
    ensures !Covers(PositionAfter(position, log[start..reach] + log[lo..hi - 1]), log[hi - 1].transactionId)
  {
    var accepted := log[start..reach] + log[lo..hi - 1];
    if accepted != [] {
      var last := accepted[|accepted| - 1];
      assert lo < hi - 1 ==> last == log[hi - 2];
      assert lo == hi - 1 ==> last == log[reach - 1];
    }
  }
}
