/** Resuming in a relay that may repeat itself: what the engine gets, and when that is all of it. */
module Resuming {
  import opened Events
  import opened Sequences
  import opened Framing
  import opened Positioning
  import opened Relay
  import opened Delivery

  ghost predicate Within(log: seq<LogEvent>, events: seq<LogEvent>, start: nat) {
    start + |events| <= |log| && events == log[start..start + |events|]
  }

  /** The files of a relay, as lists of events: file i holds log[starts[i]..], as far as it goes. */
  ghost predicate Stretches(log: seq<LogEvent>, contents: seq<seq<LogEvent>>, starts: seq<nat>) {
    StrictlyIncreasing(log) && |starts| == |contents| && forall i :: 0 <= i < |contents| ==>
          Within(log, contents[i], starts[i])
  }

  function EndOf(contents: seq<seq<LogEvent>>, starts: seq<nat>, i: nat): nat
    requires i < |contents| == |starts|
  {
    starts[i] + |contents[i]|
  }

  // ---- Reading on

  /** How far the log has been read when file j has been read too. */
  function After(contents: seq<seq<LogEvent>>, starts: seq<nat>, j: nat, reach: nat): nat
    requires j < |contents| == |starts|
  {
    if contents[j] == [] then reach else Max(reach, EndOf(contents, starts, j))
  }

  /** Reading the files from j on, with the log read up to `reach`, leaves nothing out. */
  ghost predicate Flows(contents: seq<seq<LogEvent>>, starts: seq<nat>, j: nat, reach: nat)
    requires j <= |contents| == |starts|
    decreases |contents| - j
  {
    j < |contents| ==>
      && (contents[j] != [] ==> starts[j] <= reach)
      && Flows(contents, starts, j + 1, After(contents, starts, j, reach))
  }

  /** How far the log has been read when all files from j on have been read. */
  function ReachFrom(contents: seq<seq<LogEvent>>, starts: seq<nat>, j: nat, reach: nat): (r: nat)
    requires j <= |contents| == |starts|
    ensures reach <= r && forall i :: j <= i < |contents| && contents[i] != [] ==> EndOf(contents, starts, i) <= r
    decreases |contents| - j
  {
    if j == |contents| then reach else ReachFrom(contents, starts, j + 1, After(contents, starts, j, reach))
  }

  /** All the events from file j on. */
  function EventsFrom(contents: seq<seq<LogEvent>>, j: nat): seq<LogEvent>
    requires j <= |contents|
    decreases |contents| - j
  {
    if j == |contents| then [] else contents[j] + EventsFrom(contents, j + 1)
  }

  /** The events accepted from a position are log[start..end]. */
  ghost predicate Delivers(position: Option<Transaction>, events: seq<LogEvent>, log: seq<LogEvent>, start: nat,
                           end: nat) {
    start <= end <= |log| && Accepted(position, events) == log[start..end]
  }

  lemma AcceptFile(log: seq<LogEvent>, events: seq<LogEvent>, lo: nat, position: Option<Transaction>,
                   start: nat, before: seq<LogEvent>, reach: nat)
    requires StrictlyIncreasing(log) && Within(log, events, lo) && start <= |log| && Splits(position, log, start)
    requires Delivers(position, before, log, start, reach) && (events != [] ==> lo <= reach)
    ensures Delivers(position, before + events, log, start, if events == [] then reach else Max(reach, lo + |events|))
  {
    if events == [] {
      assert before + events == before;
    } else {
      AcceptSegment(position, log, start, before, reach, lo, lo + |events|);
    }
  }

  /** Files that flow carry the engine as far as they go. */
  lemma {:induction false} AcceptFiles(log: seq<LogEvent>, contents: seq<seq<LogEvent>>, starts: seq<nat>,
                                       position: Option<Transaction>,
                                       start: nat, before: seq<LogEvent>, reach: nat, j: nat)
    requires Stretches(log, contents, starts) && j <= |starts| && Flows(contents, starts, j, reach)
    requires start <= |log| && Splits(position, log, start) && Delivers(position, before, log, start, reach)
    ensures Delivers(position, before + EventsFrom(contents, j), log, start, ReachFrom(contents, starts, j, reach))
    decreases |starts| - j
  {
    if j == |starts| {
      assert before + [] == before;
    } else {
      AcceptFile(log, contents[j], starts[j], position, start, before, reach);
      AcceptFiles(log, contents, starts, position, start, before + contents[j], After(contents, starts, j, reach),
                  j + 1);
      Associative(before, contents[j], EventsFrom(contents, j + 1));
    }
  }

  /** After a file that starts behind what has been read, what is accepted is no stretch of the log any more. */
  lemma GapStays(log: seq<LogEvent>, events: seq<LogEvent>, lo: nat, position: Option<Transaction>,
                 start: nat, before: seq<LogEvent>, reach: nat, later: seq<LogEvent>, end: nat)
    requires StrictlyIncreasing(log) && Within(log, events, lo) && start <= |log| && Splits(position, log, start)
    requires Delivers(position, before, log, start, reach) && events != [] && reach < lo
    ensures !Delivers(position, before + events + later, log, start, end)
  {
    AcceptBeyond(position, log, start, before, reach, lo, lo + |events|);
    AcceptedPrefix(position, before + events, later);
    NoStretch(log, start, reach, events, lo, Accepted(position, before + events + later), end);
  }

  lemma NoStretch(log: seq<LogEvent>, start: nat, reach: nat, events: seq<LogEvent>, lo: nat, accepted: seq<LogEvent>,
                  end: nat)
    requires StrictlyIncreasing(log) && start <= reach < lo < |log| && events != [] && events[0] == log[lo]
    requires log[start..reach] + events <= accepted
    ensures start <= end <= |log| ==> accepted != log[start..end]
  {
    var m := reach - start;
    assert (log[start..reach] + events)[m] == log[lo];
    assert Before(log[reach].transactionId, log[lo].transactionId);
  }

  /** Files that do not flow leave something out. */
  lemma {:induction false} LeavesOut(log: seq<LogEvent>, contents: seq<seq<LogEvent>>, starts: seq<nat>,
                                     position: Option<Transaction>,
                                     start: nat, before: seq<LogEvent>, reach: nat, j: nat, end: nat)
    requires Stretches(log, contents, starts) && j <= |starts| && !Flows(contents, starts, j, reach)
    requires start <= |log| && Splits(position, log, start) && Delivers(position, before, log, start, reach)
    ensures !Delivers(position, before + EventsFrom(contents, j), log, start, end)
    decreases |starts| - j
  {
    assert j < |contents|;
    var later := EventsFrom(contents, j + 1);
    Associative(before, contents[j], later);
    assert Within(log, contents[j], starts[j]);
    if contents[j] != [] && reach < starts[j] {
      GapStays(log, contents[j], starts[j], position, start, before, reach, later, end);
    } else {
      AcceptFile(log, contents[j], starts[j], position, start, before, reach);
      LeavesOut(log, contents, starts, position, start, before + contents[j], After(contents, starts, j, reach), j + 1,
                end);
    }
  }

  // ---- Files that flow

  /** File j starts no later than the one before it ends. */
  ghost predicate Chains(contents: seq<seq<LogEvent>>, starts: seq<nat>, j: nat)
    requires j < |contents| == |starts|
  {
    j > 0 ==> starts[j] <= EndOf(contents, starts, j - 1)
  }

  /** A relay in which every run of the binlog reader started no later than where the one before it stopped. */
  ghost predicate AtLeastOnceFiles(log: seq<LogEvent>, contents: seq<seq<LogEvent>>, starts: seq<nat>) {
    Stretches(log, contents, starts) && forall i :: 0 <= i < |contents| ==> Chains(contents, starts, i)
  }

  /** Such a relay flows from any file on. */
  lemma {:induction false} ChainedFlows(log: seq<LogEvent>, contents: seq<seq<LogEvent>>, starts: seq<nat>, j: nat,
                                        reach: nat)
    requires AtLeastOnceFiles(log, contents, starts) && j <= |contents|
    requires j < |contents| ==> starts[j] <= reach
    ensures Flows(contents, starts, j, reach)
    decreases |contents| - j
  {
    if j < |contents| {
      assert j + 1 < |contents| ==> Chains(contents, starts, j + 1);
      ChainedFlows(log, contents, starts, j + 1, After(contents, starts, j, reach));
    }
  }

  ghost predicate HoldsAt(contents: seq<seq<LogEvent>>, starts: seq<nat>, i: nat, k: nat)
    requires |contents| == |starts|
  {
    i < |contents| && starts[i] <= k < EndOf(contents, starts, i)
  }

  /** A relay that flows from its beginning flows from the first file on that holds an event. */
  lemma {:induction false} FirstHolderFlows(contents: seq<seq<LogEvent>>, starts: seq<nat>, j: nat, reach: nat, i: nat,
                                            k: nat)
    requires j <= i < |contents| == |starts| && Flows(contents, starts, j, reach) && reach <= k
    requires HoldsAt(contents, starts, i, k) && forall m :: j <= m < i ==> !HoldsAt(contents, starts, m, k)
    ensures Flows(contents, starts, i + 1, EndOf(contents, starts, i))
    decreases i - j
  {
    if j < i {
      assert !HoldsAt(contents, starts, j, k);
      FirstHolderFlows(contents, starts, j + 1, After(contents, starts, j, reach), i, k);
    }
  }

  // ---- In a directory

  function TransactionsOf(log: seq<LogEvent>): seq<Transaction> {
    seq(|log|, i requires 0 <= i < |log| => log[i].transactionId)
  }

  function IdsPerFile(contents: seq<seq<LogEvent>>): seq<seq<Transaction>> {
    seq(|contents|, i requires 0 <= i < |contents| => TransactionsOf(contents[i]))
  }

  lemma RelayIsSliced(log: seq<LogEvent>, contents: seq<seq<LogEvent>>, starts: seq<nat>)
    requires Stretches(log, contents, starts)
    ensures Sliced(TransactionsOf(log), IdsPerFile(contents), starts)
  {
    forall i | 0 <= i < |contents|
      ensures var n := |contents[i]|;
              starts[i] + n <= |log| && IdsPerFile(contents)[i] == TransactionsOf(log)[starts[i]..starts[i] + n]
    {
      assert Within(log, contents[i], starts[i]);
    }
  }

  lemma RelayIsChained(log: seq<LogEvent>, contents: seq<seq<LogEvent>>, starts: seq<nat>)
    requires AtLeastOnceFiles(log, contents, starts)
    ensures Chained(TransactionsOf(log), IdsPerFile(contents), starts)
  {
    RelayIsSliced(log, contents, starts);
    forall i, j | 0 <= i && j == i + 1 && j < |contents| ensures starts[j] <= starts[i] + |contents[i]| {
      assert Chains(contents, starts, j);
    }
  }

  /** In such a relay the search finds an event of the log exactly when the relay straddles it or one of the last eleven
      files holds it. */
  lemma FoundIff(loads: Loads, files: Files, nums: seq<nat>, log: seq<LogEvent>, starts: seq<nat>, k: nat)
    requires Lists(nums, files) && AtLeastOnceFiles(log, ContentsOf(loads, files, nums), starts) && k < |log|
    ensures var ids, tx := IdsOf(loads, files, nums), log[k].transactionId;
            LocateNum(loads, files, nums, tx).Some? <==>
                  (BeginsBy(ids, tx) && SomeFileAfter(ids, tx)) || HeldAtTheEnd(ids, tx)
  {
    RelayIsChained(log, ContentsOf(loads, files, nums), starts);
    SameIds(loads, files, nums);
    LocateIff(TransactionsOf(log), IdsOf(loads, files, nums), starts, k);
  }

  /** The events of the files in a directory. */
  function ContentsOf(loads: Loads, files: Files, nums: seq<nat>): seq<seq<LogEvent>>
    requires forall n :: n in nums ==> n in files
  {
    seq(|nums|, i requires 0 <= i < |nums| => Loaded(loads, ParseFrames(files[nums[i]])))
  }

  lemma ContentAt(loads: Loads, files: Files, nums: seq<nat>, i: nat)
    requires (forall n :: n in nums ==> n in files) && i < |nums| && nums[i] in files
    ensures ContentsOf(loads, files, nums)[i] == Loaded(loads, ParseFrames(files[nums[i]]))
  {
  }

  lemma SameIds(loads: Loads, files: Files, nums: seq<nat>)
    requires forall n :: n in nums ==> n in files
    ensures IdsPerFile(ContentsOf(loads, files, nums)) == IdsOf(loads, files, nums)
  {
    forall i | 0 <= i < |nums|
      ensures var frames := ParseFrames(files[nums[i]]);
              TransactionsOf(Loaded(loads, frames)) == IdsOfFrames(loads, frames)
    {
    }
  }

  lemma LoadedConcat(loads: Loads, a: seq<Bytes>, b: seq<Bytes>)
    ensures Loaded(loads, a + b) == Loaded(loads, a) + Loaded(loads, b)
  {
  }

  /** No number is missing from nums[i] on. */
  ghost predicate ConsecutiveFrom(nums: seq<nat>, i: nat) {
    forall j :: i <= j < |nums| ==> nums[j] == nums[i] + (j - i)
  }

  /** Reading on from a file goes through all the files after it. */
  lemma {:induction false} StreamIsEvents(loads: Loads, files: Files, nums: seq<nat>, i: nat, j: nat)
    requires Lists(nums, files) && i < |nums| && ConsecutiveFrom(nums, i) && i <= j <= |nums|
    ensures Loaded(loads, StreamFrom(files, nums[i] + (j - i))) == EventsFrom(ContentsOf(loads, files, nums), j)
    decreases |nums| - j
  {
    var n := nums[i] + (j - i);
    if j < |nums| {
      assert nums[j] == n && n in nums;
      StreamIsEvents(loads, files, nums, i, j + 1);
      LoadedConcat(loads, ParseFrames(files[n]), StreamFrom(files, n + 1));
    } else {
      assert nums[j - 1] == n - 1;
      assert n !in nums;
    }
  }

  /** In a file with increasing transactions the skip ends just behind the one looked for. */
  lemma {:induction false} SkipFinds(loads: Loads, frames: seq<Bytes>, tx: Transaction, p: nat)
    requires p < |frames| && loads(frames[p]).transactionId == tx
    requires forall i :: 0 <= i < p ==> Before(loads(frames[i]).transactionId, tx)
    ensures SkipTo(loads, frames, tx) == Some(frames[p + 1..])
  {
    if p > 0 {
      assert frames[1..][p - 1] == frames[p] && frames[1..][p..] == frames[p + 1..];
      assert Before(loads(frames[0]).transactionId, tx);
      SkipFinds(loads, frames[1..], tx, p - 1);
    }
  }

  lemma LoadedAt(loads: Loads, frames: seq<Bytes>, log: seq<LogEvent>, start: nat, i: nat)
    requires Within(log, Loaded(loads, frames), start) && i < |frames|
    ensures loads(frames[i]) == log[start + i]
  {
  }

  lemma LoadedTail(loads: Loads, frames: seq<Bytes>, log: seq<LogEvent>, start: nat, p: nat)
    requires Within(log, Loaded(loads, frames), start) && p <= |frames|
    ensures Loaded(loads, frames[p..]) == log[start + p..start + |frames|]
  {
    assert Loaded(loads, frames[p..]) == Loaded(loads, frames)[p..];
  }

  lemma EarlierInFile(loads: Loads, frames: seq<Bytes>, log: seq<LogEvent>, start: nat, i: nat, p: nat)
    requires StrictlyIncreasing(log) && Within(log, Loaded(loads, frames), start) && i < p < |frames|
    ensures Before(loads(frames[i]).transactionId, log[start + p].transactionId)
  {
    LoadedAt(loads, frames, log, start, i);
  }

  /** In a file that holds a stretch of the log, the skip ends behind the transaction looked for. */
  lemma SkipInFile(loads: Loads, frames: seq<Bytes>, log: seq<LogEvent>, start: nat, p: nat)
    requires StrictlyIncreasing(log) && Within(log, Loaded(loads, frames), start) && p < |frames|
    ensures SkipTo(loads, frames, log[start + p].transactionId) == Some(frames[p + 1..])
  {
    var tx := log[start + p].transactionId;
    LoadedAt(loads, frames, log, start, p);
    forall i | 0 <= i < p ensures Before(loads(frames[i]).transactionId, tx) {
      EarlierInFile(loads, frames, log, start, i, p);
    }
    SkipFinds(loads, frames, tx, p);
  }

  /** What positioning in a file leaves to be read. */
  lemma SeekInFile(loads: Loads, files: Files, n: nat, log: seq<LogEvent>, start: nat, k: nat)
    requires n in files && StrictlyIncreasing(log)
    requires var frames := ParseFrames(files[n]);
             Within(log, Loaded(loads, frames), start) && start <= k < start + |frames|
    ensures var rest := SeekIn(loads, files, n, log[k].transactionId);
            rest.Some?
                && Loaded(loads, rest.value) ==
                log[k + 1..start + |ParseFrames(files[n])|] + Loaded(loads, StreamFrom(files, n + 1))
  {
    var frames := ParseFrames(files[n]);
    SkipInFile(loads, frames, log, start, k - start);
    LoadedTail(loads, frames, log, start, k - start + 1);
    LoadedConcat(loads, frames[k - start + 1..], StreamFrom(files, n + 1));
  }

  lemma SeekParts(loads: Loads, files: Files, n: nat, log: seq<LogEvent>, contents: seq<seq<LogEvent>>,
                  starts: seq<nat>, k: nat, i: nat)
    requires n in files && StrictlyIncreasing(log) && |contents| == |starts| && HoldsAt(contents, starts, i, k)
    requires contents[i] == Loaded(loads, ParseFrames(files[n])) && Within(log, contents[i], starts[i])
    requires Loaded(loads, StreamFrom(files, n + 1)) == EventsFrom(contents, i + 1)
    ensures var rest := SeekIn(loads, files, n, log[k].transactionId);
            rest.Some? && Loaded(loads, rest.value) == FromEvent(log, contents, starts, k, i)
  {
    SeekInFile(loads, files, n, log, starts[i], k);
  }

  lemma StreamAfter(loads: Loads, files: Files, nums: seq<nat>, i: nat)
    requires Lists(nums, files) && i < |nums| && ConsecutiveFrom(nums, i)
    ensures Loaded(loads, StreamFrom(files, nums[i] + 1)) == EventsFrom(ContentsOf(loads, files, nums), i + 1)
  {
    StreamIsEvents(loads, files, nums, i, i + 1);
  }

  lemma RestHere(loads: Loads, files: Files, nums: seq<nat>, log: seq<LogEvent>, contents: seq<seq<LogEvent>>,
                 starts: seq<nat>, k: nat, i: nat)
    requires Lists(nums, files) && i < |nums| && ConsecutiveFrom(nums, i) && nums[i] in files
             && contents == ContentsOf(loads, files, nums)
    requires StrictlyIncreasing(log) && |contents| == |starts| && HoldsAt(contents, starts, i, k)
             && Within(log, contents[i], starts[i])
    ensures var rest := SeekIn(loads, files, nums[i], log[k].transactionId);
            rest.Some? && Loaded(loads, rest.value) == FromEvent(log, contents, starts, k, i)
  {
    StreamAfter(loads, files, nums, i);
    ContentAt(loads, files, nums, i);
    SeekParts(loads, files, nums[i], log, contents, starts, k, i);
  }

  /** A relay directory as the search sees it: its files in order, the stretches of the log they hold, and the file in
      which the event log[k] is found, with no file missing after it. */
  datatype Resume = Resume(loads: Loads, files: Files, nums: seq<nat>, log: seq<LogEvent>, starts: seq<nat>, k: nat,
                           i: nat)
  {
    function Contents(): seq<seq<LogEvent>>
      requires forall n :: n in nums ==> n in files
    {
      ContentsOf(loads, files, nums)
    }

    ghost predicate Valid() {
      && Lists(nums, files) && Stretches(log, Contents(), starts) && k < |log|
      && i < |nums| && ConsecutiveFrom(nums, i) && LocateNum(loads, files, nums, log[k].transactionId) == Some(nums[i])
    }

    /** What the reader delivers after it has been positioned. */
    ghost function Remainder(): seq<LogEvent>
      requires Valid()
    {
      FoundHere();
      Loaded(loads, SeekIn(loads, files, nums[i], log[k].transactionId).value)
    }

    /** The event is in the file in which it is found, and positioning finds it there. */
    lemma FoundHere()
      requires Valid()
      ensures HoldsAt(Contents(), starts, i, k) && Within(log, Contents()[i], starts[i])
      ensures nums[i] in files && SeekIn(loads, files, nums[i], log[k].transactionId).Some?
    {
      assert nums[i] in nums;
      SameIds(loads, files, nums);
      RelayIsSliced(log, Contents(), starts);
      InFile(TransactionsOf(log), IdsPerFile(Contents()), starts, k, i);
      var found := Locate(IdsOf(loads, files, nums), log[k].transactionId).value;
      assert nums[found] == nums[i];
      assert found == i;
      SeekInFile(loads, files, nums[i], log, starts[i], k);
    }

    lemma RemainderIs()
      requires Valid()
      ensures HoldsAt(Contents(), starts, i, k)
      ensures EndOf(Contents(), starts, i) <= |log| && Remainder() == FromEvent(log, Contents(), starts, k, i)
    {
      FoundHere();
      RestHere(loads, files, nums, log, Contents(), starts, k, i);
    }

    /** The files after the one found leave nothing out. */
    ghost predicate FlowsOn()
      requires Valid()
    {
      Flows(Contents(), starts, i + 1, EndOf(Contents(), starts, i))
    }

    /** How far into the log they go. */
    ghost function Furthest(): nat
      requires Valid()
    {
      ReachFrom(Contents(), starts, i + 1, EndOf(Contents(), starts, i))
    }

    /** An engine without a position accepts log[lo..end], which begins no later than behind the checkpoint. */
    ghost predicate GetsFrom(lo: nat, end: nat)
      requires Valid()
    {
      lo <= k + 1 && Delivers(None, Remainder(), log, lo, end)
    }

    /** An engine whose position is the checkpoint accepts log[k + 1..end] from what is delivered. */
    ghost predicate Gets(end: nat)
      requires Valid()
    {
      Delivers(Some(log[k].transactionId), Remainder(), log, k + 1, end)
    }
  }

  /** The reader's search and skip lead there. */
  lemma SeekIsRest(r: Resume)
    requires r.Valid()
    ensures var sought := Seek(r.loads, r.files, Some(r.log[r.k].transactionId));
            sought.Some? && Loaded(r.loads, sought.value) == r.Remainder()
  {
    SameListing(r.nums, SortedNums(r.files.Keys));
    r.FoundHere();
  }

  lemma SplitsAt(log: seq<LogEvent>, k: nat)
    requires StrictlyIncreasing(log) && k < |log|
    ensures Splits(Some(log[k].transactionId), log, k + 1)
  {
  }

  lemma AcceptStretch(log: seq<LogEvent>, k: nat, hi: nat)
    requires StrictlyIncreasing(log) && k < hi <= |log|
    ensures Delivers(Some(log[k].transactionId), log[k + 1..hi], log, k + 1, hi)
  {
    var tx := Some(log[k].transactionId);
    SplitsAt(log, k);
    assert Accepted(tx, []) == log[k + 1..k + 1];
    AcceptSegment(tx, log, k + 1, [], k + 1, k + 1, hi);
    assert [] + log[k + 1..hi] == log[k + 1..hi];
  }

  /** The rest of one file and all the files after it. */
  function FromEvent(log: seq<LogEvent>, contents: seq<seq<LogEvent>>, starts: seq<nat>, k: nat, i: nat): seq<LogEvent>
    requires |contents| == |starts| && HoldsAt(contents, starts, i, k) && EndOf(contents, starts, i) <= |log|
  {
    log[k + 1..EndOf(contents, starts, i)] + EventsFrom(contents, i + 1)
  }

  lemma AcceptFrom(log: seq<LogEvent>, contents: seq<seq<LogEvent>>, starts: seq<nat>, k: nat, i: nat)
    requires Stretches(log, contents, starts) && HoldsAt(contents, starts, i, k) && EndOf(contents, starts, i) <= |log|
    requires Flows(contents, starts, i + 1, EndOf(contents, starts, i))
    ensures Delivers(Some(log[k].transactionId), FromEvent(log, contents, starts, k, i), log, k + 1,
                     ReachFrom(contents, starts, i + 1, EndOf(contents, starts, i)))
  {
    var hi := EndOf(contents, starts, i);
    SplitsAt(log, k);
    AcceptStretch(log, k, hi);
    AcceptFiles(log, contents, starts, Some(log[k].transactionId), k + 1, log[k + 1..hi], hi, i + 1);
  }

  lemma LeavesOutFrom(log: seq<LogEvent>, contents: seq<seq<LogEvent>>, starts: seq<nat>, k: nat, i: nat, end: nat)
    requires Stretches(log, contents, starts) && HoldsAt(contents, starts, i, k) && EndOf(contents, starts, i) <= |log|
    requires !Flows(contents, starts, i + 1, EndOf(contents, starts, i))
    ensures !Delivers(Some(log[k].transactionId), FromEvent(log, contents, starts, k, i), log, k + 1, end)
  {
    var hi := EndOf(contents, starts, i);
    SplitsAt(log, k);
    AcceptStretch(log, k, hi);
    LeavesOut(log, contents, starts, Some(log[k].transactionId), k + 1, log[k + 1..hi], hi, i + 1, end);
  }

  lemma RemainderAccepted(log: seq<LogEvent>, contents: seq<seq<LogEvent>>, starts: seq<nat>, k: nat, i: nat,
                          events: seq<LogEvent>)
    requires Stretches(log, contents, starts) && HoldsAt(contents, starts, i, k) && EndOf(contents, starts, i) <= |log|
    requires Flows(contents, starts, i + 1, EndOf(contents, starts, i))
    requires events == FromEvent(log, contents, starts, k, i)
    ensures Delivers(Some(log[k].transactionId), events, log, k + 1,
                     ReachFrom(contents, starts, i + 1, EndOf(contents, starts, i)))
  {
    AcceptFrom(log, contents, starts, k, i);
  }

  lemma GetsAll(r: Resume)
    requires r.Valid() && r.FlowsOn()
    ensures r.Gets(r.Furthest())
  {
    r.RemainderIs();
    RemainderAccepted(r.log, r.Contents(), r.starts, r.k, r.i, r.Remainder());
  }

  lemma GetsNone(r: Resume, end: nat)
    requires r.Valid() && !r.FlowsOn()
    ensures !r.Gets(end)
  {
    r.RemainderIs();
    LeavesOutFrom(r.log, r.Contents(), r.starts, r.k, r.i, end);
  }

  /** Resuming at a checkpoint the search finds, the engine gets a stretch of the log, each event once, if and only if
      the files after the one found leave nothing out. It is then the whole log after the checkpoint, as far as these
      files go, however often they repeat it. */
  lemma ResumeExactlyOnceIff(r: Resume)
    requires r.Valid()
    ensures r.FlowsOn() <==> exists end :: r.Gets(end)
    ensures r.FlowsOn() ==> r.Gets(r.Furthest())
  {
    if r.FlowsOn() {
      GetsAll(r);
    } else {
      forall end ensures !r.Gets(end) {
        GetsNone(r, end);
      }
    }
  }

  /** That is so if each run of the binlog reader started no later than where the one before it stopped. */
  lemma ResumeInChained(r: Resume)
    requires r.Valid() && AtLeastOnceFiles(r.log, r.Contents(), r.starts)
    ensures r.FlowsOn()
  {
    assert r.i + 1 < |r.nums| ==> Chains(r.Contents(), r.starts, r.i + 1);
    ChainedFlows(r.log, r.Contents(), r.starts, r.i + 1, EndOf(r.Contents(), r.starts, r.i));
  }

  lemma FlowsFromFirst(contents: seq<seq<LogEvent>>, starts: seq<nat>, begin: nat, i: nat, k: nat)
    requires |contents| == |starts| && Flows(contents, starts, 0, begin) && begin <= k
             && HoldsAt(contents, starts, i, k)
    requires forall m :: 0 <= m < i ==> !HoldsAt(contents, starts, m, k)
    ensures Flows(contents, starts, i + 1, EndOf(contents, starts, i))
  {
    FirstHolderFlows(contents, starts, 0, begin, i, k);
  }

  /** It is also so if no run started later than where all runs before it had got to, and the file found is the first
      that holds the checkpoint. */
  lemma ResumeInFirst(r: Resume, begin: nat)
    requires r.Valid() && begin <= r.k && Flows(r.Contents(), r.starts, 0, begin)
    requires forall m :: 0 <= m < r.i ==> !HoldsAt(r.Contents(), r.starts, m, r.k)
    ensures r.FlowsOn()
  {
    r.FoundHere();
    FlowsFromFirst(r.Contents(), r.starts, begin, r.i, r.k);
  }

  // ---- An engine without a position

  /** Where the first event from file j on is in the log. */
  function FirstStart(contents: seq<seq<LogEvent>>, starts: seq<nat>, j: nat, otherwise: nat): nat
    requires j <= |contents| == |starts|
    decreases |contents| - j
  {
    if j == |contents| then otherwise
    else if contents[j] != [] then starts[j]
    else FirstStart(contents, starts, j + 1, otherwise)
  }

  lemma {:induction false} FirstStartIs(log: seq<LogEvent>, contents: seq<seq<LogEvent>>, starts: seq<nat>, j: nat,
                                        otherwise: nat)
    requires Stretches(log, contents, starts) && j <= |contents|
    ensures var events, first := EventsFrom(contents, j), FirstStart(contents, starts, j, otherwise);
            if events == [] then first == otherwise && Flows(contents, starts, j, first)
            else first < |log| && events[0] == log[first]
    decreases |contents| - j
  {
    if j < |contents| {
      if contents[j] == [] {
        FirstStartIs(log, contents, starts, j + 1, otherwise);
        assert EventsFrom(contents, j) == EventsFrom(contents, j + 1);
      } else {
        FirstEventIs(log, contents[j], starts[j], EventsFrom(contents, j + 1));
      }
    }
  }

  lemma FirstEventIs(log: seq<LogEvent>, events: seq<LogEvent>, start: nat, later: seq<LogEvent>)
    requires Within(log, events, start) && events != []
    ensures events + later != [] && start < |log| && (events + later)[0] == log[start]
  {
  }

  lemma {:induction false} FirstStartFlows(log: seq<LogEvent>, contents: seq<seq<LogEvent>>, starts: seq<nat>, j: nat,
                                           otherwise: nat)
    requires AtLeastOnceFiles(log, contents, starts) && j <= |contents| && (j < |contents| ==> starts[j] <= otherwise)
    ensures var first := FirstStart(contents, starts, j, otherwise);
            first <= otherwise && Flows(contents, starts, j, first)
    decreases |contents| - j
  {
    if j < |contents| {
      if contents[j] == [] {
        assert j + 1 < |contents| ==> Chains(contents, starts, j + 1);
        FirstStartFlows(log, contents, starts, j + 1, otherwise);
      } else {
        ChainedFlows(log, contents, starts, j, starts[j]);
      }
    }
  }

  /** Two positions that do not cover the first event lead to the same, beginning with it. */
  lemma {:induction false} SameFromFirst(p: Option<Transaction>, q: Option<Transaction>, events: seq<LogEvent>)
    requires events != [] && !Covers(p, events[0].transactionId) && !Covers(q, events[0].transactionId)
    ensures Accepted(p, events) == Accepted(q, events) != [] && Accepted(p, events)[0] == events[0]
  {
    var front := events[..|events| - 1];
    if front != [] {
      SameFromFirst(p, q, front);
    } else {
      assert Accepted(p, front) == Accepted(q, front) == [];
    }
  }

  /** The position just before log[k]. */
  function PositionBefore(log: seq<LogEvent>, k: nat): Option<Transaction>
    requires k <= |log|
  {
    if k == 0 then None else Some(log[k - 1].transactionId)
  }

  lemma SplitsBefore(log: seq<LogEvent>, k: nat)
    requires StrictlyIncreasing(log) && k <= |log|
    ensures Splits(PositionBefore(log, k), log, k)
  {
  }

  /** Events that begin with log[lo] are accepted by an engine without a position as by one that stands before
      log[lo]. */
  lemma WithoutPosition(log: seq<LogEvent>, events: seq<LogEvent>, lo: nat)
    requires StrictlyIncreasing(log) && lo <= |log| && (events != [] ==> lo < |log| && events[0] == log[lo])
    ensures Accepted(None, events) == Accepted(PositionBefore(log, lo), events)
    ensures events != [] ==> Accepted(None, events) != [] && Accepted(None, events)[0] == log[lo]
  {
    if events != [] {
      SplitsBefore(log, lo);
      SameFromFirst(None, PositionBefore(log, lo), events);
    }
  }

  /** Where an engine begins that is positioned at log[k] in file i but has no position of its own, as after the
      copy. */
  function Reread(contents: seq<seq<LogEvent>>, starts: seq<nat>, k: nat, i: nat): nat
    requires i < |contents| == |starts|
  {
    if k + 1 < EndOf(contents, starts, i) then k + 1 else FirstStart(contents, starts, i + 1, k + 1)
  }

  /** How far it has read when it comes to the end of that file. */
  function RereadIn(contents: seq<seq<LogEvent>>, starts: seq<nat>, k: nat, i: nat): nat
    requires i < |contents| == |starts|
  {
    if k + 1 < EndOf(contents, starts, i) then EndOf(contents, starts, i) else Reread(contents, starts, k, i)
  }

  /** How far it gets. */
  function RereadEnd(contents: seq<seq<LogEvent>>, starts: seq<nat>, k: nat, i: nat): nat
    requires i < |contents| == |starts|
  {
    ReachFrom(contents, starts, i + 1, RereadIn(contents, starts, k, i))
  }

  /** It begins no later than behind log[k], and from there on nothing is left out. */
  ghost predicate Rereads(contents: seq<seq<LogEvent>>, starts: seq<nat>, k: nat, i: nat)
    requires i < |contents| == |starts|
  {
    Reread(contents, starts, k, i) <= k + 1 && Flows(contents, starts, i + 1, RereadIn(contents, starts, k, i))
  }

  lemma RereadFirst(log: seq<LogEvent>, contents: seq<seq<LogEvent>>, starts: seq<nat>, k: nat, i: nat)
    requires Stretches(log, contents, starts) && HoldsAt(contents, starts, i, k) && EndOf(contents, starts, i) <= |log|
    ensures var events, lo := FromEvent(log, contents, starts, k, i), Reread(contents, starts, k, i);
            && lo <= |log| && Accepted(None, events) == Accepted(PositionBefore(log, lo), events)
            && (if events == [] then Rereads(contents, starts, k, i)
                else lo < |log| && Accepted(None, events) != [] && Accepted(None, events)[0] == log[lo])
  {
    var events, lo := FromEvent(log, contents, starts, k, i), Reread(contents, starts, k, i);
    FirstStartIs(log, contents, starts, i + 1, k + 1);
    if k + 1 == EndOf(contents, starts, i) {
      assert events == EventsFrom(contents, i + 1);
    }
    WithoutPosition(log, events, lo);
  }

  /** The engine has read the rest of the file. */
  lemma RereadBegins(log: seq<LogEvent>, contents: seq<seq<LogEvent>>, starts: seq<nat>, k: nat, i: nat)
    requires Stretches(log, contents, starts) && HoldsAt(contents, starts, i, k) && EndOf(contents, starts, i) <= |log|
    requires Reread(contents, starts, k, i) <= |log|
    ensures var lo := Reread(contents, starts, k, i);
            && Splits(PositionBefore(log, lo), log, lo)
            && Delivers(PositionBefore(log, lo), log[k + 1..EndOf(contents, starts, i)], log, lo,
                        RereadIn(contents, starts, k, i))
  {
    var lo, hi := Reread(contents, starts, k, i), EndOf(contents, starts, i);
    SplitsBefore(log, lo);
    if k + 1 < hi {
      AcceptStretch(log, k, hi);
    } else {
      assert log[k + 1..hi] == [] && log[lo..lo] == [];
    }
  }

  lemma RereadsAll(log: seq<LogEvent>, contents: seq<seq<LogEvent>>, starts: seq<nat>, k: nat, i: nat)
    requires Stretches(log, contents, starts) && HoldsAt(contents, starts, i, k) && EndOf(contents, starts, i) <= |log|
    requires Rereads(contents, starts, k, i)
    ensures Delivers(None, FromEvent(log, contents, starts, k, i), log, Reread(contents, starts, k, i),
                     RereadEnd(contents, starts, k, i))
  {
    var lo := Reread(contents, starts, k, i);
    RereadFirst(log, contents, starts, k, i);
    RereadBegins(log, contents, starts, k, i);
    AcceptFiles(log, contents, starts, PositionBefore(log, lo), lo, log[k + 1..EndOf(contents, starts, i)],
                RereadIn(contents, starts, k, i), i + 1);
  }

  lemma RereadsNone(log: seq<LogEvent>, contents: seq<seq<LogEvent>>, starts: seq<nat>, k: nat, i: nat, lo: nat,
                    end: nat)
    requires Stretches(log, contents, starts) && HoldsAt(contents, starts, i, k) && EndOf(contents, starts, i) <= |log|
    requires !Rereads(contents, starts, k, i) && lo <= k + 1
    ensures !Delivers(None, FromEvent(log, contents, starts, k, i), log, lo, end)
  {
    var first := Reread(contents, starts, k, i);
    RereadFirst(log, contents, starts, k, i);
    if Delivers(None, FromEvent(log, contents, starts, k, i), log, lo, end) {
      assert log[lo..end][0] == log[lo];
      assert lo == first;
      RereadBegins(log, contents, starts, k, i);
      LeavesOut(log, contents, starts, PositionBefore(log, first), first, log[k + 1..EndOf(contents, starts, i)],
                RereadIn(contents, starts, k, i), i + 1, end);
    }
  }

  /** An engine without a position gets a stretch of the log that begins at or before what comes after the checkpoint if
      and only if it rereads so: it may apply again what lies at or before the checkpoint, but leaves nothing out. */
  lemma ResumeWithoutPositionIff(r: Resume)
    requires r.Valid()
    ensures Rereads(r.Contents(), r.starts, r.k, r.i) <==> exists lo, end :: r.GetsFrom(lo, end)
    ensures Rereads(r.Contents(), r.starts, r.k, r.i) ==>
              r.GetsFrom(Reread(r.Contents(), r.starts, r.k, r.i), RereadEnd(r.Contents(), r.starts, r.k, r.i))
  {
    if Rereads(r.Contents(), r.starts, r.k, r.i) {
      GetsAllFrom(r);
    } else {
      forall lo, end ensures !r.GetsFrom(lo, end) {
        GetsNoneFrom(r, lo, end);
      }
    }
  }

  lemma GetsAllFrom(r: Resume)
    requires r.Valid() && Rereads(r.Contents(), r.starts, r.k, r.i)
    ensures r.GetsFrom(Reread(r.Contents(), r.starts, r.k, r.i), RereadEnd(r.Contents(), r.starts, r.k, r.i))
  {
    r.RemainderIs();
    RereadsAll(r.log, r.Contents(), r.starts, r.k, r.i);
  }

  lemma GetsNoneFrom(r: Resume, lo: nat, end: nat)
    requires r.Valid() && !Rereads(r.Contents(), r.starts, r.k, r.i)
    ensures !r.GetsFrom(lo, end)
  {
    r.RemainderIs();
    if lo <= r.k + 1 {
      RereadsNone(r.log, r.Contents(), r.starts, r.k, r.i, lo, end);
    }
  }

  /** It does if no file starts later than where the one before it ends. */
  lemma ChainedRereads(log: seq<LogEvent>, contents: seq<seq<LogEvent>>, starts: seq<nat>, k: nat, i: nat)
    requires AtLeastOnceFiles(log, contents, starts) && HoldsAt(contents, starts, i, k)
    ensures Rereads(contents, starts, k, i)
  {
    assert i + 1 < |contents| ==> Chains(contents, starts, i + 1);
    if k + 1 < EndOf(contents, starts, i) {
      ChainedFlows(log, contents, starts, i + 1, EndOf(contents, starts, i));
    } else {
      FirstStartFlows(log, contents, starts, i + 1, k + 1);
    }
  }

  lemma OldestIsFirst(files: Files, nums: seq<nat>)
    requires Lists(nums, files)
    ensures if nums == [] then files == map[] else files != map[] && Oldest(files) == nums[0]
  {
    if nums != [] {
      assert nums[0] in nums;
      assert Oldest(files) in nums;
    } else {
      assert forall n :: n in files ==> n in nums;
    }
  }

  lemma FromOldest(loads: Loads, files: Files, nums: seq<nat>)
    requires Lists(nums, files) && ConsecutiveFrom(nums, 0)
    ensures var sought := Seek(loads, files, None);
            sought.Some? && Loaded(loads, sought.value) == EventsFrom(ContentsOf(loads, files, nums), 0)
  {
    OldestIsFirst(files, nums);
    if nums != [] {
      StreamIsEvents(loads, files, nums, 0, 0);
    }
  }

  /** Without a checkpoint the relay is read from its oldest file on. */
  lemma ReadFromOldest(loads: Loads, files: Files, nums: seq<nat>, log: seq<LogEvent>, starts: seq<nat>)
    requires Lists(nums, files) && Stretches(log, ContentsOf(loads, files, nums), starts) && ConsecutiveFrom(nums, 0)
    requires Flows(ContentsOf(loads, files, nums), starts, 0, 0)
    ensures var sought := Seek(loads, files, None);
            && sought.Some? && Loaded(loads, sought.value) == EventsFrom(ContentsOf(loads, files, nums), 0)
            && Delivers(None, Loaded(loads, sought.value), log, 0,
                        ReachFrom(ContentsOf(loads, files, nums), starts, 0, 0))
  {
    FromOldest(loads, files, nums);
    var contents := ContentsOf(loads, files, nums);
    assert log[0..0] == [] && [] + EventsFrom(contents, 0) == EventsFrom(contents, 0);
    AcceptFiles(log, contents, starts, None, 0, [], 0, 0);
  }

  // ---- A relay without repetitions

  /** Every file continues where the one before it ended. */
  ghost predicate OnceFiles(log: seq<LogEvent>, contents: seq<seq<LogEvent>>, starts: seq<nat>) {
    Stretches(log, contents, starts) && forall i :: 0 <= i < |contents| ==> Meets(contents, starts, i)
  }

  ghost predicate Meets(contents: seq<seq<LogEvent>>, starts: seq<nat>, i: nat)
    requires i < |contents| == |starts|
  {
    i > 0 ==> starts[i] == EndOf(contents, starts, i - 1)
  }

  lemma {:induction false} EventsOnce(log: seq<LogEvent>, contents: seq<seq<LogEvent>>, starts: seq<nat>, j: nat)
    requires OnceFiles(log, contents, starts) && j < |contents|
    ensures starts[j] <= EndOf(contents, starts, |contents| - 1) <= |log|
    ensures EventsFrom(contents, j) == log[starts[j]..EndOf(contents, starts, |contents| - 1)]
    decreases |contents| - j
  {
    assert Within(log, contents[j], starts[j]);
    if j + 1 < |contents| {
      EventsOnce(log, contents, starts, j + 1);
      assert Meets(contents, starts, j + 1);
    }
  }

  lemma RestOnce(log: seq<LogEvent>, contents: seq<seq<LogEvent>>, starts: seq<nat>, k: nat, i: nat)
    requires OnceFiles(log, contents, starts) && HoldsAt(contents, starts, i, k) && EndOf(contents, starts, i) <= |log|
    ensures k < EndOf(contents, starts, |contents| - 1) <= |log|
    ensures FromEvent(log, contents, starts, k, i) == log[k + 1..EndOf(contents, starts, |contents| - 1)]
  {
    assert Within(log, contents[i], starts[i]);
    if i + 1 < |contents| {
      EventsOnce(log, contents, starts, i + 1);
      assert Meets(contents, starts, i + 1);
    }
  }

  lemma OnceRemains(log: seq<LogEvent>, contents: seq<seq<LogEvent>>, starts: seq<nat>, k: nat, i: nat,
                    events: seq<LogEvent>)
    requires OnceFiles(log, contents, starts) && HoldsAt(contents, starts, i, k) && EndOf(contents, starts, i) <= |log|
    requires events == FromEvent(log, contents, starts, k, i)
    ensures k < EndOf(contents, starts, |contents| - 1) <= |log|
            && events == log[k + 1..EndOf(contents, starts, |contents| - 1)]
  {
    RestOnce(log, contents, starts, k, i);
  }

  /** Resuming in a relay without repetitions delivers exactly the events after the checkpoint, to the end of the
      relay. */
  lemma ResumeDeliversRest(r: Resume)
    requires r.Valid() && OnceFiles(r.log, r.Contents(), r.starts)
    ensures var end := EndOf(r.Contents(), r.starts, |r.Contents()| - 1);
            r.k < end <= |r.log| && r.Remainder() == r.log[r.k + 1..end]
  {
    r.RemainderIs();
    OnceRemains(r.log, r.Contents(), r.starts, r.k, r.i, r.Remainder());
  }
}
