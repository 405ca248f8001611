/** Finding the relay file of a transaction: what the bounded search finds, and when. */
module Positioning {
  import opened Events

  /** The transactions of one relay file, in order. */
  type Ids = seq<Transaction>

  /** How far from its guess the search looks, on either side. */
  const WINDOW: nat := 10

  predicate StartsAfter(file: Ids, tx: Transaction) {
    file != [] && Before(tx, file[0])
  }

  /** The first file, from `i` on, that starts after the transaction. */
  function FirstAfter(files: seq<Ids>, tx: Transaction, i: nat): (r: nat)
    requires i <= |files|
    ensures i <= r <= |files| && (r < |files| ==> StartsAfter(files[r], tx))
    ensures forall j :: i <= j < r ==> !StartsAfter(files[j], tx)
    decreases |files| - i
  {
    if i == |files| || StartsAfter(files[i], tx) then i else FirstAfter(files, tx, i + 1)
  }

  /** The last file before `i` that holds an event. */
  function LastNonEmpty(files: seq<Ids>, i: nat): (r: Option<nat>)
    requires i <= |files|
    ensures r.Some? ==> r.value < i && files[r.value] != [] && forall j :: r.value < j < i ==> files[j] == []
    ensures r.None? ==> forall j :: 0 <= j < i ==> files[j] == []
  {
    if i == 0 then None else if files[i - 1] != [] then Some(i - 1) else LastNonEmpty(files, i - 1)
  }

  /** The first file of files[from..end] that holds the transaction. */
  function FirstHolding(files: seq<Ids>, tx: Transaction, from: nat, end: nat): (r: Option<nat>)
    requires from <= end <= |files|
    ensures r.Some? ==>
              from <= r.value < end && tx in files[r.value] && forall j :: from <= j < r.value ==> tx !in files[j]
    ensures r.None? ==> forall j :: from <= j < end ==> tx !in files[j]
    decreases end - from
  {
    if from == end then None else if tx in files[from] then Some(from) else FirstHolding(files, tx, from + 1, end)
  }

  /** The file around which the search looks. */
  function Guess(files: seq<Ids>, tx: Transaction): (r: nat)
    requires files != []
    ensures r < |files|
  {
    var after := FirstAfter(files, tx, 0);
    var before := if after < |files| then LastNonEmpty(files, after) else None;
    if before.Some? then before.value else |files| - 1
  }

  function WindowStart(guess: nat): (r: nat)
    ensures r <= guess
  {
    if guess < WINDOW then 0 else guess - WINDOW
  }

  function WindowEnd(guess: nat, count: nat): (r: nat)
    requires guess < count
    ensures guess < r <= count
  {
    if guess + WINDOW < count then guess + WINDOW else count
  }

  /** The index of the file the search settles on; None is the TransactionNotFound outcome. */
  function Locate(files: seq<Ids>, tx: Transaction): (r: Option<nat>)
    ensures r.Some? ==> r.value < |files| && tx in files[r.value]
  {
    if files == [] then None
    else
      var guess := Guess(files, tx);
      FirstHolding(files, tx, WindowStart(guess), WindowEnd(guess, |files|))
  }

  /** The transactions of the log are in strictly increasing order. */
  ghost predicate Increasing(log: seq<Transaction>) {
    forall i, j :: 0 <= i < j < |log| ==> Before(log[i], log[j])
  }

  /** File i holds log[starts[i]..], as far as it goes. */
  ghost predicate Sliced(log: seq<Transaction>, files: seq<Ids>, starts: seq<nat>) {
    && Increasing(log) && |starts| == |files|
    && (forall i :: 0 <= i < |files| ==>
        starts[i] + |files[i]| <= |log| && files[i] == log[starts[i]..starts[i] + |files[i]|])
  }

  /** No file starts later than where the one before it ended. This is the relay of a binlog reader that may have been
      restarted, and so may repeat itself. */
  ghost predicate Chained(log: seq<Transaction>, files: seq<Ids>, starts: seq<nat>) {
    && Sliced(log, files, starts)
    && (forall i, j :: 0 <= i && j == i + 1 && j < |files| ==> starts[j] <= starts[i] + |files[i]|)
  }

  lemma {:induction false} ChainOverEmpty(log: seq<Transaction>, files: seq<Ids>, starts: seq<nat>, i: nat, j: nat)
    requires Chained(log, files, starts) && i < j < |files|
    requires forall k :: i < k < j ==> files[k] == []
    ensures starts[j] <= starts[i] + |files[i]|
  {
    if i + 1 < j {
      ChainOverEmpty(log, files, starts, i, j - 1);
    }
  }

  /** Whether a file holds or follows a transaction of the log is a matter of log indices. */
  lemma InFile(log: seq<Transaction>, files: seq<Ids>, starts: seq<nat>, k: nat, i: nat)
    requires Sliced(log, files, starts) && k < |log| && i < |files|
    ensures log[k] in files[i] <==> starts[i] <= k < starts[i] + |files[i]|
    ensures StartsAfter(files[i], log[k]) <==> files[i] != [] && k < starts[i]
  {
  }

  /** The relay begins at or before the transaction. */
  ghost predicate BeginsBy(files: seq<Ids>, tx: Transaction) {
    exists i :: 0 <= i < |files| && files[i] != [] && !StartsAfter(files[i], tx) && forall j :: 0 <= j < i ==>
          files[j] == []
  }

  ghost predicate SomeFileAfter(files: seq<Ids>, tx: Transaction) {
    exists i :: 0 <= i < |files| && StartsAfter(files[i], tx)
  }

  /** One of the last eleven files holds the transaction. */
  ghost predicate HeldAtTheEnd(files: seq<Ids>, tx: Transaction) {
    exists i :: 0 <= i < |files| && |files| - 11 <= i && tx in files[i]
  }

  /** When a file starting at or before the transaction is followed by one starting after it, the first holds it. */
  lemma GuessHolds(log: seq<Transaction>, files: seq<Ids>, starts: seq<nat>, k: nat)
    requires Chained(log, files, starts) && k < |log|
    requires BeginsBy(files, log[k]) && SomeFileAfter(files, log[k])
    ensures log[k] in files[Guess(files, log[k])]
  {
    var tx := log[k];
    var after := FirstAfter(files, tx, 0);
    var first :| 0 <= first < |files| && files[first] != [] && !StartsAfter(files[first], tx) && forall j ::
          0 <= j < first ==> files[j] == [];
    assert first < after < |files|;
    var before := LastNonEmpty(files, after).value;
    ChainOverEmpty(log, files, starts, before, after);
    InFile(log, files, starts, k, after);
    InFile(log, files, starts, k, before);
  }

  /** The search finds a transaction of the log exactly when the relay straddles it or one of the last eleven files
      holds it. */
  lemma LocateIff(log: seq<Transaction>, files: seq<Ids>, starts: seq<nat>, k: nat)
    requires Chained(log, files, starts) && k < |log|
    ensures Locate(files, log[k]).Some? <==>
              (BeginsBy(files, log[k]) && SomeFileAfter(files, log[k])) || HeldAtTheEnd(files, log[k])
  {
    var tx := log[k];
    if files != [] {
      var after, guess := FirstAfter(files, tx, 0), Guess(files, tx);
      if BeginsBy(files, tx) && SomeFileAfter(files, tx) {
        GuessHolds(log, files, starts, k);
      } else if after < |files| && LastNonEmpty(files, after).Some? {
        StraddledFromGuess(files, tx);
        assert false;
      } else {
        assert guess == |files| - 1;
      }
      if HeldAtTheEnd(files, tx) && after < |files| && LastNonEmpty(files, after).Some? {
        StraddledFromGuess(files, tx);
      }
    }
  }

  /** A guess that is not the fallback means that the relay straddles the transaction. */
  lemma StraddledFromGuess(files: seq<Ids>, tx: Transaction)
    requires FirstAfter(files, tx, 0) < |files| && LastNonEmpty(files, FirstAfter(files, tx, 0)).Some?
    ensures BeginsBy(files, tx) && SomeFileAfter(files, tx)
  {
    var first := FirstNonEmpty(files, LastNonEmpty(files, FirstAfter(files, tx, 0)).value);
    assert !StartsAfter(files[first], tx);
  }

  lemma FirstNonEmpty(files: seq<Ids>, i: nat) returns (first: nat)
    requires i < |files| && files[i] != []
    ensures first <= i && files[first] != [] && forall j :: 0 <= j < first ==> files[j] == []
  {
    first := 0;
    while files[first] == []
      invariant first <= i && forall j :: 0 <= j < first ==> files[j] == []
      decreases i - first
    {
      first := first + 1;
    }
  }

  /** Only file i holds the transaction: files before it do not start after the transaction, later ones do. */
  ghost predicate Around(files: seq<Ids>, tx: Transaction, i: nat) {
    && i < |files| && tx in files[i]
    && (forall j :: 0 <= j <= i ==> !StartsAfter(files[j], tx))
    && (forall j :: i < j < |files| && files[j] != [] ==> StartsAfter(files[j], tx))
    && (forall j :: 0 <= j < |files| && j != i ==> tx !in files[j])
  }

  /** In a relay without repetitions the bounded search misses a stored transaction
      exactly when more than ten files follow its own and all of them are empty. */
  lemma LocateSole(files: seq<Ids>, tx: Transaction, i: nat)
    requires Around(files, tx, i)
    ensures Locate(files, tx) == Some(i) <==>
              (|files| - 1 - i <= 10 || exists j :: i < j < |files| && files[j] != [])
    ensures Locate(files, tx) == Some(i) || Locate(files, tx) == None
  {
  }

  /** A relay without repetitions: every file continues where the one before it ended. */
  ghost predicate Contiguous(log: seq<Transaction>, files: seq<Ids>, starts: seq<nat>) {
    && Chained(log, files, starts)
    && (forall i, j :: 0 <= i && j == i + 1 && j < |files| ==> starts[j] == starts[i] + |files[i]|)
  }

  lemma {:induction false} ContiguousStarts(log: seq<Transaction>, files: seq<Ids>, starts: seq<nat>, i: nat, j: nat)
    requires Contiguous(log, files, starts) && i < j < |files|
    ensures starts[i] + |files[i]| <= starts[j]
  {
    if i + 1 < j {
      ContiguousStarts(log, files, starts, i, j - 1);
    }
  }

  lemma ContiguousAround(log: seq<Transaction>, files: seq<Ids>, starts: seq<nat>, k: nat, i: nat)
    requires Contiguous(log, files, starts) && k < |log| && i < |files| && log[k] in files[i]
    ensures Around(files, log[k], i)
  {
    InFile(log, files, starts, k, i);
    forall j | 0 <= j < |files|
      ensures j <= i ==> !StartsAfter(files[j], log[k])
      ensures i < j && files[j] != [] ==> StartsAfter(files[j], log[k])
      ensures j != i ==> log[k] !in files[j]
    {
      InFile(log, files, starts, k, j);
      if j < i {
        ContiguousStarts(log, files, starts, j, i);
      } else if i < j {
        ContiguousStarts(log, files, starts, i, j);
      }
    }
  }

  /** A guess that holds the transaction is an upper bound for what is found. */
  lemma FoundByGuess(files: seq<Ids>, tx: Transaction)
    requires files != [] && tx in files[Guess(files, tx)] && BeginsBy(files, tx)
    ensures Locate(files, tx).Some? && Locate(files, tx).value <= Guess(files, tx)
    ensures FirstAfter(files, tx, 0) < |files| ==>
              LastNonEmpty(files, FirstAfter(files, tx, 0)) == Some(Guess(files, tx))
  {
  }

  /** Some of the files before files[i] are gone; from it on, which is now kept[c], all are there. */
  ghost predicate RemovedBefore(files: seq<Ids>, i: nat, kept: seq<Ids>, c: nat) {
    && i < |files| && c < |kept| && |kept| - c == |files| - i
    && (forall j :: c <= j < |kept| ==> kept[j] == files[j - c + i])
    && (forall j :: 0 <= j < c ==> kept[j] in files[..i])
  }

  lemma NoneStartsAfter(files: seq<Ids>, tx: Transaction, i: nat, kept: seq<Ids>, c: nat)
    requires RemovedBefore(files, i, kept, c) && i <= FirstAfter(files, tx, 0)
    ensures forall j :: 0 <= j < c ==> !StartsAfter(kept[j], tx)
  {
    forall j | 0 <= j < c ensures !StartsAfter(kept[j], tx) {
      assert kept[j] in files[..i];
      var m :| 0 <= m < |files[..i]| && files[..i][m] == kept[j];
      assert kept[j] == files[m];
    }
  }

  lemma AfterRemoval(files: seq<Ids>, tx: Transaction, i: nat, kept: seq<Ids>, c: nat)
    requires RemovedBefore(files, i, kept, c) && i <= FirstAfter(files, tx, 0)
    ensures FirstAfter(kept, tx, 0) == FirstAfter(files, tx, 0) - i + c
  {
    NoneStartsAfter(files, tx, i, kept, c);
    var after, later := FirstAfter(files, tx, 0), FirstAfter(kept, tx, 0);
    assert later >= c;
    assert later < |kept| ==> kept[later] == files[later - c + i];
    assert after < |files| ==> kept[after - i + c] == files[after];
  }

  lemma LastAfterRemoval(files: seq<Ids>, i: nat, kept: seq<Ids>, c: nat, m: nat)
    requires RemovedBefore(files, i, kept, c) && i <= m <= |files| && LastNonEmpty(files, m).Some?
             && i <= LastNonEmpty(files, m).value
    ensures LastNonEmpty(kept, m - i + c) == Some(LastNonEmpty(files, m).value - i + c)
  {
    var last := LastNonEmpty(files, m).value;
    assert kept[last - i + c] == files[last];
    assert forall j :: last - i + c < j < m - i + c ==> kept[j] == files[j - c + i];
  }

  lemma GuessAfterRemoval(files: seq<Ids>, tx: Transaction, i: nat, kept: seq<Ids>, c: nat)
    requires BeginsBy(files, tx) && i <= Guess(files, tx) && RemovedBefore(files, i, kept, c)
    ensures Guess(kept, tx) == Guess(files, tx) - i + c
  {
    var after := FirstAfter(files, tx, 0);
    GuessIsBefore(files, tx);
    AfterRemoval(files, tx, i, kept, c);
    if after < |files| {
      LastAfterRemoval(files, i, kept, c, after);
    }
  }

  /** If the relay begins at or before the transaction, the guess is the last file that does not start after it. */
  lemma GuessIsBefore(files: seq<Ids>, tx: Transaction)
    requires files != [] && BeginsBy(files, tx)
    ensures Guess(files, tx) < FirstAfter(files, tx, 0)
    ensures FirstAfter(files, tx, 0) < |files| ==>
              LastNonEmpty(files, FirstAfter(files, tx, 0)) == Some(Guess(files, tx))
  {
    var first :| 0 <= first < |files| && files[first] != [] && !StartsAfter(files[first], tx) && forall j ::
          0 <= j < first ==> files[j] == [];
    var after := FirstAfter(files, tx, 0);
    assert after < |files| ==> first < after;
  }

  /** No file that the search now looks at before kept[c] holds the transaction. */
  ghost predicate NoneBefore(kept: seq<Ids>, tx: Transaction, guess: nat, c: nat) {
    forall j :: WindowStart(guess) <= j < c && j < |kept| ==> tx !in kept[j]
  }

  /** The search looks at files[c], and at no file before it that holds the transaction. */
  ghost predicate Leads(files: seq<Ids>, tx: Transaction, c: nat)
    requires c < |files|
  {
    var guess := Guess(files, tx);
    WindowStart(guess) <= c < WindowEnd(guess, |files|) && NoneBefore(files, tx, guess, c)
  }

  /** Removing files before one that holds the transaction leaves it to be found if and only if the search looks at it
      and at none of the files left before it that hold the transaction. */
  lemma LocateAfterRemovalIff(files: seq<Ids>, tx: Transaction, i: nat, kept: seq<Ids>, c: nat)
    requires RemovedBefore(files, i, kept, c) && tx in files[i]
    ensures Locate(kept, tx) == Some(c) <==> Leads(kept, tx, c)
  {
    assert kept[c] == files[i];
  }

  /** If the relay begins at or before the transaction, the search goes on looking at the file. */
  lemma LeadsUnlessBefore(files: seq<Ids>, tx: Transaction, i: nat, kept: seq<Ids>, c: nat)
    requires BeginsBy(files, tx) && Locate(files, tx) == Some(i) && i <= Guess(files, tx)
             && RemovedBefore(files, i, kept, c)
    ensures Leads(kept, tx, c) <==> NoneBefore(kept, tx, Guess(files, tx) - i + c, c)
  {
    GuessAfterRemoval(files, tx, i, kept, c);
  }

  /** Unless the relay straddles the transaction, the search looks at the newest files. */
  lemma FallbackGuess(files: seq<Ids>, tx: Transaction)
    requires files != [] && !(BeginsBy(files, tx) && SomeFileAfter(files, tx))
    ensures Guess(files, tx) == |files| - 1
  {
    if FirstAfter(files, tx, 0) < |files| && LastNonEmpty(files, FirstAfter(files, tx, 0)).Some? {
      StraddledFromGuess(files, tx);
    }
  }

  lemma ChainedSuffix(log: seq<Transaction>, files: seq<Ids>, starts: seq<nat>, d: nat)
    requires Chained(log, files, starts) && d <= |files|
    ensures Chained(log, files[d..], starts[d..])
  {
  }

  /** In a relay whose files leave nothing out between them, a transaction that is found is found again, in that file or
      another, when the oldest files before it go. */
  lemma StillFound(log: seq<Transaction>, files: seq<Ids>, starts: seq<nat>, k: nat, i: nat, d: nat)
    requires Chained(log, files, starts) && k < |log| && Locate(files, log[k]) == Some(i) && d <= i
    ensures Locate(files[d..], log[k]).Some?
    ensures BeginsBy(files, log[k]) ==> Locate(files[d..], log[k]) == Some(i - d)
  {
    var kept, tx := files[d..], log[k];
    ChainedSuffix(log, files, starts, d);
    assert kept[i - d] == files[i];
    if BeginsBy(files, tx) {
      FoundNoLater(log, files, starts, k);
      OldestRemoved(files, tx, i, d);
      LeadsUnlessBefore(files, tx, i, kept, i - d);
      LocateAfterRemovalIff(files, tx, i, kept, i - d);
    } else {
      FallbackGuess(files, tx);
      assert HeldAtTheEnd(kept, tx);
      LocateIff(log, kept, starts[d..], k);
    }
  }

  /** None is left before it if the files that go are the oldest. */
  lemma OldestRemoved(files: seq<Ids>, tx: Transaction, i: nat, d: nat)
    requires Locate(files, tx) == Some(i) && d <= i <= Guess(files, tx)
    ensures RemovedBefore(files, i, files[d..], i - d) && NoneBefore(files[d..], tx, Guess(files, tx) - d, i - d)
  {
    var kept := files[d..];
    forall j | 0 <= j < i - d ensures kept[j] in files[..i] {
      assert files[..i][d + j] == kept[j];
    }
    assert forall j :: 0 <= j < |kept| ==> kept[j] == files[d + j];
  }

  /** In a relay without repetitions that is always so. */
  lemma LocateSoleAfterRemoval(files: seq<Ids>, kept: seq<Ids>, tx: Transaction, i: nat, c: nat)
    requires Around(files, tx, i) && RemovedBefore(files, i, kept, c) && Locate(files, tx).Some?
    ensures Locate(kept, tx) == Some(c)
  {
    AroundAfterRemoval(files, kept, tx, i, c);
    LocateSole(files, tx, i);
    if j :| i < j < |files| && files[j] != [] {
      assert kept[j - i + c] == files[j];
    }
    LocateSole(kept, tx, c);
  }

  lemma AroundAfterRemoval(files: seq<Ids>, kept: seq<Ids>, tx: Transaction, i: nat, c: nat)
    requires Around(files, tx, i) && RemovedBefore(files, i, kept, c)
    ensures Around(kept, tx, c)
  {
    forall j | 0 <= j < c ensures !StartsAfter(kept[j], tx) && tx !in kept[j] {
      assert kept[j] in files[..i];
      var m :| 0 <= m < |files[..i]| && files[..i][m] == kept[j];
      assert kept[j] == files[m];
    }
  }

  /** In a relay whose files leave nothing out between them, a transaction is found no later than the guess. */
  lemma FoundNoLater(log: seq<Transaction>, files: seq<Ids>, starts: seq<nat>, k: nat)
    requires Chained(log, files, starts) && k < |log| && BeginsBy(files, log[k]) && Locate(files, log[k]).Some?
    ensures Locate(files, log[k]).value <= Guess(files, log[k])
  {
    if FirstAfter(files, log[k], 0) < |files| {
      GuessHolds(log, files, starts, k);
      FoundByGuess(files, log[k]);
    }
  }

  /** Twenty files, of which the first and the last five hold a transaction b, the others only one before it. */
  ghost predicate FirstAndLastFive(files: seq<Ids>, a: Transaction, b: Transaction) {
    |files| == 20 && forall i :: 0 <= i < 20 ==> files[i] == if i == 0 || i >= 15 then [a, b] else [a]
  }

  /** What an older copy does that is kept while files behind it go: b is found in the sixteenth file; with the second
      to the fourteenth gone it is found in the first. */
  lemma OlderCopyComesFirst(files: seq<Ids>, a: Transaction, b: Transaction)
    requires FirstAndLastFive(files, a, b) && Before(a, b)
    ensures Chained([a, b], files, seq(20, _ => 0)) && BeginsBy(files, b)
    ensures Locate(files, b) == Some(15) && Locate([files[0]] + files[14..], b) == Some(0)
  {
    var starts, kept := seq(20, _ => 0), [files[0]] + files[14..];
    assert [a, b][0..2] == [a, b] && [a, b][0..1] == [a];
    assert forall j :: 0 <= j < 20 ==> !StartsAfter(files[j], b);
    assert forall j :: 0 <= j < |kept| ==> kept[j] == files[if j == 0 then 0 else j + 13];
    assert FirstAfter(files, b, 0) == 20 && FirstAfter(kept, b, 0) == 7;
    assert [a, b][1] == b && b in files[15] && b in kept[0];
    assert forall j :: 1 <= j < 15 ==> b !in files[j];
  }
}
