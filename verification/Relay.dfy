/** The relay directory of a database: files appended and rotated by one process, tailed by another. */
module Relay {
  import opened Events
  import opened Sequences
  import opened Framing
  import opened Positioning

  /** The `.bin` files of one database, by number. */
  type Files = map<nat, Bytes>

  predicate Ascending(nums: seq<nat>) {
    forall i, j :: 0 <= i < j < |nums| ==> nums[i] < nums[j]
  }

  lemma {:induction false} LargestExists(s: set<nat>)
    requires s != {}
    ensures exists m :: m in s && forall n :: n in s ==> n <= m
    decreases |s|
  {
    var x :| x in s;
    if s != {x} {
      var rest := s - {x};
      assert s == rest + {x};
      LargestExists(rest);
      var m :| m in rest && forall n :: n in rest ==> n <= m;
      var larger := if m < x then x else m;
      forall n | n in s ensures n <= larger {
        assert n == x || n in rest;
      }
      assert larger in s;
    }
  }

  /** The numbers of a set in increasing order. */
  function SortedNums(s: set<nat>): (r: seq<nat>)
    ensures Ascending(r) && forall n :: n in r <==> n in s
    decreases |s|
  {
    if s == {} then [] else
      LargestExists(s);
      var m :| m in s && forall n :: n in s ==> n <= m;
      SortedNums(s - {m}) + [m]
  }

  lemma LastListed(a: seq<nat>)
    requires Ascending(a) && a != []
    ensures forall n :: n in a[..|a| - 1] <==> n in a && n != a[|a| - 1]
  {
  }

  /** There is one way to list a set in increasing order. */
  lemma {:induction false} SameListing(a: seq<nat>, b: seq<nat>)
    requires Ascending(a) && Ascending(b) && forall n :: n in a <==> n in b
    ensures a == b
    decreases |a|
  {
    assert (a != [] ==> a[0] in b) && (b != [] ==> b[0] in a);
    if a != [] {
      var m, k := |a| - 1, |b| - 1;
      assert a[m] in b && b[k] in a;
      assert a[m] == b[k];
      LastListed(a);
      LastListed(b);
      forall n ensures n in a[..m] <==> n in b[..k] {
        assert n in a[..m] <==> n in a && n != a[m];
        assert n in b[..k] <==> n in b && n != b[k];
      }
      SameListing(a[..m], b[..k]);
      assert a == a[..m] + [a[m]] && b == b[..k] + [b[k]];
    }
  }

  ghost predicate Lists(nums: seq<nat>, files: Files) {
    Ascending(nums) && forall n :: n in nums <==> n in files
  }

  ghost function Above(files: Files, n: nat): set<nat> {
    set m | m in files && n <= m
  }

  lemma AboveShrinks(files: Files, n: nat)
    requires n in files
    ensures |Above(files, n + 1)| < |Above(files, n)|
  {
    assert Above(files, n) == Above(files, n + 1) + {n};
  }

  /** The frames of file n and of the files that follow it without a gap. */
  ghost function StreamFrom(files: Files, n: nat): seq<Bytes>
    decreases |Above(files, n)|
  {
    if n !in files then []
    else
      AboveShrinks(files, n);
      ParseFrames(files[n]) + StreamFrom(files, n + 1)
  }

  /** What is delivered from file n on depends on the files from n on only. */
  lemma {:induction false} SameStream(files: Files, other: Files, n: nat)
    requires forall m :: n <= m ==> (m in files <==> m in other)
    requires forall m :: n <= m && m in files ==> files[m] == other[m]
    ensures StreamFrom(files, n) == StreamFrom(other, n)
    decreases |Above(files, n)|
  {
    if n in files {
      AboveShrinks(files, n);
      SameStream(files, other, n + 1);
    }
  }

  /** No file is missing between n and the newest one. */
  ghost predicate Unbroken(files: Files, n: nat) {
    n in files && forall m :: m in files && n < m ==> m - 1 in files
  }

  ghost predicate IsNewest(files: Files, n: nat) {
    n in files && forall m :: m in files ==> m <= n
  }

  lemma UnbrokenNext(files: Files, n: nat, top: nat)
    requires Unbroken(files, n) && IsNewest(files, top) && n < top
    ensures Unbroken(files, n + 1)
  {
    Reaches(files, n, top);
  }

  lemma {:induction false} Reaches(files: Files, n: nat, m: nat)
    requires Unbroken(files, n) && n < m && m in files
    ensures n + 1 in files
  {
    if n + 1 < m {
      Reaches(files, n, m - 1);
    }
  }

  /** A frame appended to the newest file comes at the end of every unbroken stream. */
  lemma {:induction false} AppendToNewest(files: Files, top: nat, payload: Bytes, n: nat)
    requires IsNewest(files, top) && Whole(files[top]) && |payload| < SIZE_LIMIT && Unbroken(files, n)
    ensures StreamFrom(files[top := files[top] + Frame(payload)], n) == StreamFrom(files, n) + [payload]
    decreases top - n
  {
    var grown := files[top := files[top] + Frame(payload)];
    if n == top {
      assert StreamFrom(files, top + 1) == [] && StreamFrom(grown, top + 1) == [];
      ParseAppend(files[top], payload);
    } else {
      UnbrokenNext(files, n, top);
      AppendToNewest(files, top, payload, n + 1);
      Associative(ParseFrames(files[n]), StreamFrom(files, n + 1), [payload]);
    }
  }

  /** Opening the next file adds nothing to the stream, and continues it. */
  lemma {:induction false} OpenNext(files: Files, top: nat, n: nat)
    requires IsNewest(files, top) && Unbroken(files, n)
    ensures StreamFrom(files[top + 1 := []], n) == StreamFrom(files, n) && Unbroken(files[top + 1 := []], n)
    decreases top - n
  {
    if n < top {
      UnbrokenNext(files, n, top);
      OpenNext(files, top, n + 1);
    } else {
      var extended := files[top + 1 := []];
      assert StreamFrom(extended, top + 2) == [] && StreamFrom(extended, top + 1) == [];
    }
  }

  /** The writer's view of a directory and the readers': the newest file may lag behind, every other one is complete. */
  ghost predicate GrowsTo(files: Files, logical: Files) {
    && files.Keys == logical.Keys
    && (forall n :: n in files ==> files[n] <= logical[n])
    && (forall n :: n in files && n + 1 in files ==> files[n] == logical[n])
  }

  lemma GrowsToItself(files: Files)
    ensures GrowsTo(files, files)
  {
  }

  /** The frames after byte `start` of file n and in the files that follow it. */
  ghost function Rest(files: Files, n: nat, start: int): seq<Bytes>
    requires n in files && 0 <= start <= |files[n]|
  {
    ParseFrames(files[n][start..]) + StreamFrom(files, n + 1)
  }

  lemma RestStep(files: Files, logical: Files, n: nat, start: nat, end: nat, payload: Bytes)
    requires GrowsTo(files, logical) && n in files && start <= end <= |files[n]|
    requires |payload| < SIZE_LIMIT && files[n][start..end] == Frame(payload)
    ensures Rest(files, n, start) == [payload] + Rest(files, n, end)
    ensures Rest(logical, n, start) == [payload] + Rest(logical, n, end)
  {
    assert logical[n][start..end] == files[n][start..end];
    FrameStep(logical[n], start, end, payload);
    FrameStep(files[n], start, end, payload);
  }

  lemma RestOfNext(files: Files, logical: Files, n: nat, start: nat)
    requires GrowsTo(files, logical) && n in files && n + 1 in files && start <= |files[n]|
    requires ParseFrames(files[n][start..]) == []
    ensures Rest(files, n, start) == Rest(files, n + 1, 0) && Rest(logical, n, start) == Rest(logical, n + 1, 0)
  {
  }

  /** The oldest file. */
  function Oldest(files: Files): (r: nat)
    requires files != map[]
    ensures r in files && forall n :: n in files ==> r <= n
  {
    var nums := SortedNums(files.Keys);
    assert nums != [] by { var n :| n in files; assert n in nums; }
    assert nums[0] in nums;
    assert forall n :: n in files ==> n in nums;
    nums[0]
  }

  lemma SameOldest(files: Files, other: Files)
    requires files.Keys == other.Keys && files != map[]
    ensures other != map[] && Oldest(files) == Oldest(other)
  {
  }

  /** Unpickling a payload. */
  type Loads = Bytes -> LogEvent

  function Loaded(loads: Loads, frames: seq<Bytes>): seq<LogEvent> {
    seq(|frames|, i requires 0 <= i < |frames| => loads(frames[i]))
  }

  function IdsOfFrames(loads: Loads, frames: seq<Bytes>): Ids {
    seq(|frames|, i requires 0 <= i < |frames| => loads(frames[i]).transactionId)
  }

  lemma HasFirst(loads: Loads, frame: Bytes, rest: seq<Bytes>, tx: Transaction)
    ensures tx in IdsOfFrames(loads, [frame] + rest) <==>
              loads(frame).transactionId == tx || tx in IdsOfFrames(loads, rest)
  {
    assert IdsOfFrames(loads, [frame] + rest) == [loads(frame).transactionId] + IdsOfFrames(loads, rest);
  }

  /** The transactions of the listed files, file by file. */
  function IdsOf(loads: Loads, files: Files, nums: seq<nat>): seq<Ids>
    requires forall n :: n in nums ==> n in files
  {
    seq(|nums|, i requires 0 <= i < |nums| => IdsOfFrames(loads, ParseFrames(files[nums[i]])))
  }

  /** The number of the file the search settles on. */
  function LocateNum(loads: Loads, files: Files, nums: seq<nat>, tx: Transaction): (r: Option<nat>)
    requires forall n :: n in nums ==> n in files
    ensures r.Some? ==> r.value in nums
  {
    match Locate(IdsOf(loads, files, nums), tx)
    case None => None
    case Some(i) => Some(nums[i])
  }

  /** What follows the transaction in a file read from its beginning; None when a later transaction comes up first. */
  function SkipTo(loads: Loads, frames: seq<Bytes>, tx: Transaction): Option<seq<Bytes>> {
    if frames == [] then None
    else if loads(frames[0]).transactionId == tx then Some(frames[1..])
    else if Before(tx, loads(frames[0]).transactionId) then None
    else SkipTo(loads, frames[1..], tx)
  }

  /** The frames delivered after positioning; None is the TransactionNotFound outcome. */
  ghost function Seek(loads: Loads, files: Files, tx: Option<Transaction>): Option<seq<Bytes>> {
    if tx.Some? then SeekAfter(loads, files, tx.value)
    else Some(if files == map[] then [] else StreamFrom(files, Oldest(files)))
  }

  ghost function SeekAfter(loads: Loads, files: Files, tx: Transaction): Option<seq<Bytes>> {
    var n := LocateNum(loads, files, SortedNums(files.Keys), tx);
    if n.None? then None else SeekIn(loads, files, n.value, tx)
  }

  ghost function SeekIn(loads: Loads, files: Files, n: nat, tx: Transaction): Option<seq<Bytes>>
    requires n in files
  {
    var rest := SkipTo(loads, ParseFrames(files[n]), tx);
    if rest.None? then None else Some(rest.value + StreamFrom(files, n + 1))
  }

  class DataReader {
    const loads: Loads
    var currentFileReader: FileReader?

    constructor (loads: Loads)
      ensures currentFileReader == null && this.loads == loads
    {
      this.loads := loads;
      currentFileReader := null;
    }

    /** The first transaction of a file, if it holds a complete event. */
    method GetFirstTransactionInFile(files: Files, n: nat) returns (r: Option<Transaction>)
      requires n in files
      ensures var ids := IdsOfFrames(loads, ParseFrames(files[n])); r == if ids == [] then None else Some(ids[0])
    {
      var reader := new FileReader(n);
      assert files[n][0..] == files[n];
      var first := reader.ReadNextEvent(files[n]);
      r := if first.None? then None else Some(loads(first.value).transactionId);
    }

    method FileHasTransaction(files: Files, n: nat, tx: Transaction) returns (r: bool)
      requires n in files
      ensures r <==> tx in IdsOfFrames(loads, ParseFrames(files[n]))
    {
      var content := files[n];
      var reader := new FileReader(n);
      assert content[0..] == content;
      ghost var rest := ParseFrames(content);
      while true
        invariant fresh(reader) && reader.Valid(content) && reader.Remaining(content) == rest
        invariant tx in IdsOfFrames(loads, ParseFrames(content)) <==> tx in IdsOfFrames(loads, rest)
        decreases |rest|
      {
        var event := reader.ReadNextEvent(content);
        if event.None? {
          return false;
        }
        rest := rest[1..];
        HasFirst(loads, event.value, rest, tx);
        if loads(event.value).transactionId == tx {
          return true;
        }
      }
    }

    /** The search around a guessed file refines `Locate`. */
    method GetFileWithTransaction(files: Files, existing: seq<nat>, tx: Transaction) returns (r: Option<nat>)
      requires forall n :: n in existing ==> n in files
      ensures r == LocateNum(loads, files, existing, tx)
    {
      if existing == [] {
        return None;
      }
      ghost var ids := IdsOf(loads, files, existing);
      var guess := GuessFile(files, existing, tx);
      var start, end := WindowStart(guess), WindowEnd(guess, |existing|);
      for i := start to end
        invariant FirstHolding(ids, tx, start, end) == FirstHolding(ids, tx, i, end)
      {
        var has := FileHasTransaction(files, existing[i], tx);
        if has {
          return Some(existing[i]);
        }
      }
      return None;
    }

    method GuessFile(files: Files, existing: seq<nat>, tx: Transaction) returns (matching: nat)
      requires existing != [] && forall n :: n in existing ==> n in files
      ensures matching == Guess(IdsOf(loads, files, existing), tx)
    {
      ghost var ids := IdsOf(loads, files, existing);
      var prev := None;
      for i := 0 to |existing|
        invariant prev == LastNonEmpty(ids, i)
        invariant FirstAfter(ids, tx, 0) == FirstAfter(ids, tx, i)
      {
        var first := GetFirstTransactionInFile(files, existing[i]);
        if first.Some? {
          if CompareTransactions(first.value, tx) > 0 {
            return if prev.Some? then prev.value else |existing| - 1;
          }
          prev := Some(i);
        }
      }
      return |existing| - 1;
    }

    /** Positions the reader at the oldest file, or just after the given transaction. */
    method SetPosition(files: Files, tx: Option<Transaction>) returns (found: bool)
      modifies this
      ensures currentFileReader == old(currentFileReader) || currentFileReader == null || fresh(currentFileReader)
      ensures found <==> Seek(loads, files, tx).Some?
      ensures found ==> Valid(files) && Some(Remaining(files)) == Seek(loads, files, tx)
    {
      if tx.None? {
        SetToOldest(files);
        return true;
      }
      var n := GetFileWithTransaction(files, SortedNums(files.Keys), tx.value);
      if n.None? {
        return false;
      }
      Open(files, files, n.value);
      found := Skip(files, tx.value);
    }

    method SetToOldest(files: Files)
      modifies this
      ensures currentFileReader == null || fresh(currentFileReader)
      ensures Valid(files) && Some(Remaining(files)) == Seek(loads, files, None)
    {
      if files == map[] {
        currentFileReader := null;
      } else {
        Open(files, files, Oldest(files));
        assert files[Oldest(files)][0..] == files[Oldest(files)];
      }
    }

    method Skip(files: Files, tx: Transaction) returns (found: bool)
      requires currentFileReader != null && currentFileReader.pos == 0 && currentFileReader.currentBuffer == []
      requires currentFileReader.fileNum in files
      modifies currentFileReader
      ensures Valid(files)
      ensures found <==> SeekIn(loads, files, currentFileReader.fileNum, tx).Some?
      ensures found ==> Some(Remaining(files)) == SeekIn(loads, files, currentFileReader.fileNum, tx)
    {
      var content := files[currentFileReader.fileNum];
      ghost var all := ParseFrames(content);
      assert content[0..] == content;
      while true
        invariant currentFileReader.Valid(content)
        invariant SkipTo(loads, all, tx) == SkipTo(loads, currentFileReader.Remaining(content), tx)
        decreases |currentFileReader.Remaining(content)|
      {
        var event := currentFileReader.ReadNextEvent(content);
        if event.None? {
          return false;
        }
        var id := loads(event.value).transactionId;
        if id == tx {
          return true;
        }
        if CompareTransactions(id, tx) > 0 {
          return false;
        }
      }
    }

    ghost predicate Valid(files: Files)
      reads this, currentFileReader
    {
      currentFileReader != null ==>
            currentFileReader.fileNum in files && currentFileReader.Valid(files[currentFileReader.fileNum])
    }

    /** The frames still to be delivered, were the files to stay as they are. */
    ghost function Remaining(files: Files): seq<Bytes>
      requires Valid(files)
      reads this, currentFileReader
    {
      if currentFileReader != null then Rest(files, currentFileReader.fileNum, currentFileReader.Start())
      else if files == map[] then [] else Rest(files, Oldest(files), 0)
    }

    /** No file is missing ahead of the reader. */
    ghost predicate Ahead(files: Files)
      reads this, currentFileReader
    {
      && (currentFileReader != null ==> Unbroken(files, currentFileReader.fileNum))
      && (currentFileReader == null && files != map[] ==> Unbroken(files, Oldest(files)))
    }

    lemma ValidGrown(files: Files, logical: Files)
      requires Valid(files) && GrowsTo(files, logical)
      ensures Valid(logical)
    {
      if currentFileReader != null {
        var n := currentFileReader.fileNum;
        assert logical[n] == files[n] + logical[n][|files[n]|..];
        currentFileReader.Grown(files[n], logical[n][|files[n]|..]);
      }
    }

    method Open(files: Files, ghost logical: Files, n: nat)
      requires n in files && n in logical
      modifies this
      ensures fresh(currentFileReader) && currentFileReader.fileNum == n && Valid(files) && Valid(logical)
      ensures currentFileReader.pos == 0 && currentFileReader.currentBuffer == []
      ensures Remaining(files) == Rest(files, n, 0) && Remaining(logical) == Rest(logical, n, 0)
    {
      currentFileReader := new FileReader(n);
    }

    /** Reads from the current file, of which the writer may still hold back a part. */
    method ReadCurrent(files: Files, ghost logical: Files) returns (r: Option<Bytes>)
      requires currentFileReader != null && Valid(files) && Valid(logical) && GrowsTo(files, logical)
      modifies currentFileReader
      ensures Valid(files) && Valid(logical)
      ensures Advances(old(Remaining(files)), r, Remaining(files))
      ensures Advances(old(Remaining(logical)), r, Remaining(logical))
      ensures r.None? ==> currentFileReader.Remaining(files[currentFileReader.fileNum]) == []
    {
      var n := currentFileReader.fileNum;
      ghost var start := currentFileReader.Start();
      r := currentFileReader.ReadNextEvent(files[n]);
      ValidGrown(files, logical);
      if r.Some? {
        RestStep(files, logical, n, start, currentFileReader.Start(), r.value);
      }
    }

    /** Opens the oldest file. */
    method OpenFirst(files: Files, ghost logical: Files)
      requires currentFileReader == null && files != map[] && files.Keys == logical.Keys
      modifies this
      ensures fresh(currentFileReader) && Valid(files) && Valid(logical)
      ensures Remaining(files) == old(Remaining(files)) && Remaining(logical) == old(Remaining(logical))
      ensures currentFileReader.fileNum == Oldest(files)
    {
      SameOldest(files, logical);
      Open(files, logical, Oldest(files));
    }

    /** One poll, atomic as seen by the writer. Whatever the writer still holds back (`logical`),
        a poll delivers the next frame or leaves all that is to come in place. */
    method ReadNextEvent(files: Files, ghost logical: Files) returns (r: Option<Bytes>)
      requires Valid(files) && Valid(logical) && GrowsTo(files, logical)
      modifies this, currentFileReader
      ensures currentFileReader == old(currentFileReader) || fresh(currentFileReader)
      ensures Valid(files) && Valid(logical)
      ensures old(Ahead(files)) ==> Ahead(files)
      ensures r.None? <==> old(Remaining(files)) == []
      ensures Advances(old(Remaining(files)), r, Remaining(files))
      ensures Advances(old(Remaining(logical)), r, Remaining(logical))
    {
      if currentFileReader == null {
        if files == map[] {
          return None;
        }
        OpenFirst(files, logical);
      }
      ghost var shown, rest;
      r, shown, rest := ReadOn(files, logical, Remaining(files), Remaining(logical));
    }

    /** Polls until there is nothing more. */
    method ReadToEnd(files: Files, ghost rest: seq<Bytes>) returns (frames: seq<Bytes>)
      requires Valid(files) && Remaining(files) == rest
      modifies this, currentFileReader
      ensures frames == rest
      decreases |rest|
    {
      GrowsToItself(files);
      var r := ReadNextEvent(files, files);
      if r.None? {
        return [];
      }
      var later := ReadToEnd(files, rest[1..]);
      return [r.value] + later;
    }

    /** The frames ahead, in the files as they are and as they will be once nothing is held back. */
    ghost predicate Facing(files: Files, logical: Files, shown: seq<Bytes>, rest: seq<Bytes>)
      reads this, currentFileReader
    {
      && GrowsTo(files, logical) && currentFileReader != null
      && Valid(files) && Valid(logical) && Remaining(files) == shown && Remaining(logical) == rest
    }

    /** Reads from the current file or, when it is at its end, from the ones after it. */
    method ReadOn(files: Files, ghost logical: Files, ghost shown: seq<Bytes>, ghost rest: seq<Bytes>)
      returns (r: Option<Bytes>, ghost shownLeft: seq<Bytes>, ghost left: seq<Bytes>)
      requires Facing(files, logical, shown, rest)
      modifies this, currentFileReader
      ensures currentFileReader == old(currentFileReader) || fresh(currentFileReader)
      ensures Facing(files, logical, shownLeft, left)
      ensures old(Unbroken(files, currentFileReader.fileNum)) ==> Unbroken(files, currentFileReader.fileNum)
      ensures (r.None? <==> shown == []) && Advances(shown, r, shownLeft) && Advances(rest, r, left)
      decreases |Above(files, currentFileReader.fileNum)|
    {
      var n := currentFileReader.fileNum;
      r := ReadCurrent(files, logical);
      shownLeft, left := Remaining(files), Remaining(logical);
      if r.Some? || n + 1 !in files {
        return;
      }
      AboveShrinks(files, n);
      OpenNextFile(files, logical);
      r, shownLeft, left := ReadOn(files, logical, shown, rest);
    }

    /** Switches from a file that is read to its end to the one after it. */
    method OpenNextFile(files: Files, ghost logical: Files)
      requires currentFileReader != null && currentFileReader.fileNum + 1 in files
      requires Valid(files) && Valid(logical) && GrowsTo(files, logical)
      requires currentFileReader.Remaining(files[currentFileReader.fileNum]) == []
      modifies this
      ensures fresh(currentFileReader) && currentFileReader.fileNum == old(currentFileReader.fileNum) + 1
      ensures Valid(files) && Valid(logical)
      ensures Remaining(files) == old(Remaining(files)) && Remaining(logical) == old(Remaining(logical))
    {
      RestOfNext(files, logical, currentFileReader.fileNum, currentFileReader.Start());
      Open(files, logical, currentFileReader.fileNum + 1);
    }
  }
}
