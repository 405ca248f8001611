/** Retention: which relay files may be removed, and why no saved checkpoint notices. */
module Cleanup {
  import opened Events
  import opened Framing
  import opened Positioning
  import opened Relay
  import opened Resuming
  import opened Writing
  import opened Tailing

  const PRESERVE_FILES_COUNT: nat := 5

  /** The files of the checkpoints, where each of them is found. */
  ghost predicate FoundAt(loads: Loads, files: Files, nums: seq<nat>, protected: seq<Transaction>, at: seq<nat>)
    requires forall n :: n in nums ==> n in files
  {
    |at| == |protected| && forall i :: 0 <= i < |protected| ==>
          LocateNum(loads, files, nums, protected[i]) == Some(at[i])
  }

  ghost predicate SomeMissing(loads: Loads, files: Files, nums: seq<nat>, protected: seq<Transaction>)
    requires forall n :: n in nums ==> n in files
  {
    exists i :: 0 <= i < |protected| && LocateNum(loads, files, nums, protected[i]) == None
  }

  /** Files before which nothing is needed, apart from the current writer's and the five closed before it. */
  predicate Removable(nums: seq<nat>, at: seq<nat>, aged: nat -> bool, n: nat) {
    && n in nums[..if |nums| <= 6 then 0 else |nums| - 6]
    && aged(n)
    && forall m :: m in at ==> n < m
  }

  /** The files without the removable ones. */
  ghost predicate Retained(nums: seq<nat>, at: seq<nat>, aged: nat -> bool, files: Files, kept: Files) {
    && (forall n :: n in kept <==> n in files && !Removable(nums, at, aged, n))
    && (forall n :: n in kept ==> kept[n] == files[n])
  }

  function Least(nums: seq<nat>): (r: nat)
    requires nums != []
    ensures r in nums && forall n :: n in nums ==> r <= n
  {
    if |nums| == 1 then nums[0]
    else
      var rest := Least(nums[1..]);
      assert nums == [nums[0]] + nums[1..];
      if nums[0] < rest then nums[0] else rest
  }

  /** The file of every checkpoint, or None if there is one that cannot be found. */
  method ProtectedFileNums(loads: Loads, files: Files, existing: seq<nat>, protected: seq<Transaction>)
    returns (r: Option<seq<nat>>)
    requires forall n :: n in existing ==> n in files
    ensures r.None? <==> SomeMissing(loads, files, existing, protected)
    ensures r.Some? ==> FoundAt(loads, files, existing, protected, r.value)
  {
    var reader := new DataReader(loads);
    var at := [];
    for i := 0 to |protected|
      invariant |at| == i && forall j :: 0 <= j < i ==> LocateNum(loads, files, existing, protected[j]) == Some(at[j])
    {
      var n := reader.GetFileWithTransaction(files, existing, protected[i]);
      if n.None? {
        return None;
      }
      at := at + [n.value];
    }
    return Some(at);
  }

  method RemoveFiles(files: Files, existing: seq<nat>, at: seq<nat>, aged: nat -> bool) returns (kept: Files)
    requires Lists(existing, files)
    ensures Retained(existing, at, aged, files, kept)
  {
    kept := files;
    var count := if |existing| <= PRESERVE_FILES_COUNT + 1 then 0 else |existing| - (PRESERVE_FILES_COUNT + 1);
    for i := 0 to count
      invariant forall n :: n in kept <==>
                  n in files && !(n in existing[..i] && aged(n) && forall m :: m in at ==> n < m)
      invariant forall n :: n in kept ==> kept[n] == files[n]
    {
      var n := existing[i];
      assert existing[..i + 1] == existing[..i] + [n];
      if (at == [] || n < Least(at)) && aged(n) {
        assert forall m :: m in at ==> n < m;
        kept := kept - {n};
      } else {
        assert aged(n) ==> Least(at) in at;
      }
    }
  }

  /** With a checkpoint that cannot be found nothing goes, otherwise exactly the removable files do. */
  ghost predicate CleanedUp(loads: Loads, files: Files, kept: Files, protected: seq<Transaction>, aged: nat -> bool) {
    var nums := SortedNums(files.Keys);
    if SomeMissing(loads, files, nums, protected) then kept == files
    else exists at :: FoundAt(loads, files, nums, protected, at) && Retained(nums, at, aged, files, kept)
  }

  /** remove_old_files, for the directory of one database. */
  method RemoveOldFilesOf(loads: Loads, files: Files, protected: seq<Transaction>, aged: nat -> bool)
    returns (kept: Files)
    ensures CleanedUp(loads, files, kept, protected, aged)
  {
    var existing := SortedNums(files.Keys);
    var found := ProtectedFileNums(loads, files, existing, protected);
    if found.None? {
      return files;
    }
    kept := RemoveFiles(files, existing, found.value, aged);
  }

  lemma OwnsKept(loads: Loads, files: Files, kept: Files, protected: seq<Transaction>, aged: nat -> bool,
                 writer: Option<FileWriter>)
    requires CleanedUp(loads, files, kept, protected, aged) && Owns(files, writer)
    ensures Owns(kept, writer)
  {
  }

  method CleanOne(writer: DataWriter, loads: Loads, db: string, protected: seq<Transaction>, aged: nat -> bool)
    requires writer.Valid() && db in writer.dir.relays
    modifies writer.dir
    ensures writer.Valid() && writer.dir.relays == old(writer.dir.relays)[db := FilesOf(writer.dir.relays, db)]
    ensures CleanedUp(loads, old(FilesOf(writer.dir.relays, db)), FilesOf(writer.dir.relays, db), protected, aged)
  {
    var files := FilesOf(writer.dir.relays, db);
    var kept := RemoveOldFilesOf(loads, files, protected, aged);
    OwnsKept(loads, files, kept, protected, aged, WriterOf(writer.dbFileWriters, db));
    Keep(writer, db, kept);
  }

  /** Leaves only some of the files of a database. */
  method Keep(writer: DataWriter, db: string, kept: Files)
    requires writer.Valid() && Owns(kept, WriterOf(writer.dbFileWriters, db))
    modifies writer.dir
    ensures writer.Valid() && writer.dir.relays == old(writer.dir.relays)[db := kept]
  {
    ghost var relays := writer.dir.relays;
    writer.dir.relays := writer.dir.relays[db := kept];
    assert forall other :: other != db ==> FilesOf(writer.dir.relays, other) == FilesOf(relays, other);
  }

  /** Some databases have been cleaned up, the others are as they were. */
  ghost predicate CleanedSome(loads: Loads, before: map<string, Files>, after: map<string, Files>, todo: set<string>,
                              checkpoints: string -> seq<Transaction>, aged: string -> nat -> bool) {
    && before.Keys == after.Keys
    && (forall db :: db in before && db in todo ==> after[db] == before[db])
    && (forall db :: db in before && db !in todo ==> CleanedUp(loads, before[db], after[db], checkpoints(db), aged(db)))
  }

  /** Cleans up every database; the files being written stay as they are. */
  method RemoveOldFiles(writer: DataWriter, loads: Loads, checkpoints: string -> seq<Transaction>,
                        aged: string -> nat -> bool)
    requires writer.Valid()
    modifies writer.dir
    ensures writer.Valid() && CleanedSome(loads, old(writer.dir.relays), writer.dir.relays, {}, checkpoints, aged)
  {
    ghost var relays := writer.dir.relays;
    var todo := writer.dir.relays.Keys;
    while todo != {}
      invariant todo <= relays.Keys && writer.Valid()
      invariant CleanedSome(loads, relays, writer.dir.relays, todo, checkpoints, aged)
    {
      var db :| db in todo;
      CleanOne(writer, loads, db, checkpoints(db), aged(db));
      todo := todo - {db};
    }
  }

  /** Every file from the one of a checkpoint on is kept, and so is all that is read from there. */
  lemma KeptFrom(nums: seq<nat>, at: seq<nat>, aged: nat -> bool, files: Files, kept: Files, n: nat)
    requires Retained(nums, at, aged, files, kept) && n in at
    ensures forall m :: n <= m ==> (m in kept <==> m in files)
    ensures forall m :: n <= m && m in kept ==> kept[m] == files[m]
    ensures forall m :: n <= m ==> StreamFrom(kept, m) == StreamFrom(files, m)
  {
    forall m | n <= m ensures StreamFrom(kept, m) == StreamFrom(files, m) {
      SameStream(kept, files, m);
    }
  }

  /** The file a reader reads, and all after it, stay, if a checkpoint is found in that file or an earlier one. If one
      cannot be found, nothing goes at all. */
  lemma KeptForReader(loads: Loads, files: Files, kept: Files, protected: seq<Transaction>, aged: nat -> bool, p: nat,
                      n: nat)
    requires CleanedUp(loads, files, kept, protected, aged) && p < |protected|
    requires var found := LocateNum(loads, files, SortedNums(files.Keys), protected[p]);
             found.Some? ==> found.value <= n
    ensures Cleaned(files, kept, n)
  {
    var nums := SortedNums(files.Keys);
    if !SomeMissing(loads, files, nums, protected) {
      var at :| FoundAt(loads, files, nums, protected, at) && Retained(nums, at, aged, files, kept);
      KeptFrom(nums, at, aged, files, kept, at[p]);
    }
  }

  /** Cleanup beside a reader that reads no earlier file than that in which its checkpoint is found takes nothing away
      from what the reader has ahead. */
  method RemoveBesideReader(writer: DataWriter, reader: DataReader, loads: Loads, db: string,
                            checkpoints: string -> seq<Transaction>,
                            aged: string -> nat -> bool, ghost p: nat, ghost rest: seq<Bytes>)
    requires Attached(writer, reader, db, rest) && db in writer.dir.relays && reader.currentFileReader != null
    requires p < |checkpoints(db)|
    requires var files := FilesOf(writer.dir.relays, db);
             var found := LocateNum(loads, files, SortedNums(files.Keys), checkpoints(db)[p]);
             found.Some? ==> found.value <= reader.currentFileReader.fileNum
    modifies writer.dir
    ensures Attached(writer, reader, db, rest)
  {
    ghost var n, files, w :=
        reader.currentFileReader.fileNum, FilesOf(writer.dir.relays, db), WriterOf(writer.dbFileWriters, db);
    ghost var logical := writer.Logical(db);
    RemoveOldFiles(writer, loads, checkpoints, aged);
    KeptForReader(loads, files, FilesOf(writer.dir.relays, db), checkpoints(db), aged(db), p, n);
    CleanedOwned(files, FilesOf(writer.dir.relays, db), n, w);
    CleanedReader(reader, logical, writer.Logical(db));
  }

  /** Both listings agree from a number on from which the same files exist. */
  lemma SameTail(nums: seq<nat>, files: Files, keptNums: seq<nat>, kept: Files, i: nat, c: nat)
    requires Lists(nums, files) && Lists(keptNums, kept) && kept.Keys <= files.Keys && i < |nums| && c < |keptNums|
    requires nums[i] == keptNums[c] && forall m :: nums[i] <= m && m in files ==> m in kept
    ensures keptNums[c..] == nums[i..]
  {
    forall m ensures m in keptNums[c..] <==> m in nums[i..] {
      AscendingFrom(nums, i, m);
      AscendingFrom(keptNums, c, m);
      assert m in kept ==> m in files;
    }
    SameListing(keptNums[c..], nums[i..]);
  }

  lemma AscendingFrom(nums: seq<nat>, i: nat, m: nat)
    requires Ascending(nums) && i < |nums|
    ensures m in nums[i..] <==> m in nums && nums[i] <= m
    ensures m in nums[..i] <==> m in nums && m < nums[i]
  {
  }

  lemma HeadIds(loads: Loads, files: Files, nums: seq<nat>, kept: Files, keptNums: seq<nat>, i: nat, c: nat)
    requires Lists(nums, files) && Lists(keptNums, kept) && i < |nums| && c < |keptNums| && keptNums[c] == nums[i]
    requires forall m :: m in kept ==> m in files && kept[m] == files[m]
    ensures forall j :: 0 <= j < c ==> IdsOf(loads, kept, keptNums)[j] in IdsOf(loads, files, nums)[..i]
  {
    forall j | 0 <= j < c ensures IdsOf(loads, kept, keptNums)[j] in IdsOf(loads, files, nums)[..i] {
      var n := keptNums[j];
      assert n in keptNums;
      assert n in nums;
      var m :| 0 <= m < |nums| && nums[m] == n;
      assert IdsOf(loads, files, nums)[..i][m] == IdsOf(loads, kept, keptNums)[j];
    }
  }

  lemma TailIds(loads: Loads, files: Files, nums: seq<nat>, kept: Files, keptNums: seq<nat>, i: nat, c: nat)
    requires Lists(nums, files) && Lists(keptNums, kept) && i < |nums| && c < |keptNums| && keptNums[c..] == nums[i..]
    requires forall m :: m in kept ==> m in files && kept[m] == files[m]
    ensures |keptNums| - c == |nums| - i
    ensures forall j :: c <= j < |keptNums| ==> IdsOf(loads, kept, keptNums)[j] == IdsOf(loads, files, nums)[j - c + i]
  {
  }

  /** The files kept are those from the one of a checkpoint on, and some of those before it. */
  lemma KeptRemoves(loads: Loads, files: Files, nums: seq<nat>, kept: Files, keptNums: seq<nat>, at: seq<nat>,
                    aged: nat -> bool, i: nat) returns (c: nat)
    requires Lists(nums, files) && Lists(keptNums, kept) && Retained(nums, at, aged, files, kept) && i < |nums|
             && nums[i] in at
    ensures c == |keptNums| - (|nums| - i) && c < |keptNums| && keptNums[c] == nums[i]
    ensures RemovedBefore(IdsOf(loads, files, nums), i, IdsOf(loads, kept, keptNums), c)
  {
    KeptFrom(nums, at, aged, files, kept, nums[i]);
    assert nums[i] in nums;
    c :| 0 <= c < |keptNums| && keptNums[c] == nums[i];
    SameTail(nums, files, keptNums, kept, i, c);
    TailIds(loads, files, nums, kept, keptNums, i, c);
    HeadIds(loads, files, nums, kept, keptNums, i, c);
  }

  lemma IndexOfLocated(loads: Loads, files: Files, nums: seq<nat>, tx: Transaction) returns (i: nat)
    requires Lists(nums, files) && LocateNum(loads, files, nums, tx).Some?
    ensures i < |nums| && Locate(IdsOf(loads, files, nums), tx) == Some(i)
            && LocateNum(loads, files, nums, tx) == Some(nums[i])
  {
    i := Locate(IdsOf(loads, files, nums), tx).value;
  }

  /** The search now looks at the file of the checkpoint, and at no kept file before it that holds the checkpoint. */
  ghost predicate Undisturbed(loads: Loads, files: Files, nums: seq<nat>, kept: Files, keptNums: seq<nat>,
                              tx: Transaction)
    requires Lists(nums, files) && Lists(keptNums, kept) && LocateNum(loads, files, nums, tx).Some?
  {
    var c := |keptNums| - (|nums| - Locate(IdsOf(loads, files, nums), tx).value);
    0 <= c < |keptNums| && Leads(IdsOf(loads, kept, keptNums), tx, c)
  }

  /** The search settles on the same file as before the cleanup if and only if that is so. */
  lemma SameFileIff(loads: Loads, files: Files, nums: seq<nat>, kept: Files, keptNums: seq<nat>, at: seq<nat>,
                    aged: nat -> bool, tx: Transaction, n: nat)
    requires Lists(nums, files) && Lists(keptNums, kept) && Retained(nums, at, aged, files, kept)
    requires LocateNum(loads, files, nums, tx) == Some(n) && n in at
    ensures LocateNum(loads, kept, keptNums, tx) == Some(n) <==> Undisturbed(loads, files, nums, kept, keptNums, tx)
  {
    var i := IndexOfLocated(loads, files, nums, tx);
    var c := KeptRemoves(loads, files, nums, kept, keptNums, at, aged, i);
    LocateAfterRemovalIff(IdsOf(loads, files, nums), tx, i, IdsOf(loads, kept, keptNums), c);
    NumIsIndex(loads, kept, keptNums, tx, c);
  }

  lemma NumIsIndex(loads: Loads, files: Files, nums: seq<nat>, tx: Transaction, c: nat)
    requires Lists(nums, files) && c < |nums|
    ensures LocateNum(loads, files, nums, tx) == Some(nums[c]) <==> Locate(IdsOf(loads, files, nums), tx) == Some(c)
  {
  }

  lemma SameSeek(loads: Loads, files: Files, kept: Files, tx: Transaction, n: nat)
    requires LocateNum(loads, files, SortedNums(files.Keys), tx) == Some(n) ==
             LocateNum(loads, kept, SortedNums(kept.Keys), tx)
    requires n in files && n in kept && kept[n] == files[n] && StreamFrom(kept, n + 1) == StreamFrom(files, n + 1)
    ensures Seek(loads, kept, Some(tx)) == Seek(loads, files, Some(tx))
  {
  }

  lemma KeptSeek(loads: Loads, files: Files, kept: Files, at: seq<nat>, aged: nat -> bool, tx: Transaction, n: nat)
    requires Retained(SortedNums(files.Keys), at, aged, files, kept) && n in at
    requires LocateNum(loads, files, SortedNums(files.Keys), tx) == Some(n) ==
             LocateNum(loads, kept, SortedNums(kept.Keys), tx)
    ensures Seek(loads, kept, Some(tx)) == Seek(loads, files, Some(tx))
  {
    KeptFrom(SortedNums(files.Keys), at, aged, files, kept, n);
    SameSeek(loads, files, kept, tx, n);
  }

  /** Everything delivered after positioning at a protected checkpoint is then as before. */
  lemma CleanupKeepsFuture(loads: Loads, files: Files, kept: Files, protected: seq<Transaction>, aged: nat -> bool,
                           p: nat)
    requires CleanedUp(loads, files, kept, protected, aged) && p < |protected|
    requires var nums, tx := SortedNums(files.Keys), protected[p];
             LocateNum(loads, files, nums, tx).Some? ==>
                   Undisturbed(loads, files, nums, kept, SortedNums(kept.Keys), tx)
    ensures Seek(loads, kept, Some(protected[p])) == Seek(loads, files, Some(protected[p]))
  {
    var nums, tx := SortedNums(files.Keys), protected[p];
    if !SomeMissing(loads, files, nums, protected) {
      var at :| FoundAt(loads, files, nums, protected, at) && Retained(nums, at, aged, files, kept);
      SameFileIff(loads, files, nums, kept, SortedNums(kept.Keys), at, aged, tx, at[p]);
      KeptSeek(loads, files, kept, at, aged, tx, at[p]);
    }
  }

  /** Ages in file order: files are written one after the other. Touching all files keeps that, unless it fails for
      some. */
  ghost predicate AgedInOrder(files: Files, aged: nat -> bool) {
    forall m, n :: m in files && n in files && m < n && aged(n) ==> aged(m)
  }

  lemma FirstKept(nums: seq<nat>, kept: Files, i: nat) returns (d: nat)
    requires i < |nums| && nums[i] in kept
    ensures d <= i && nums[d] in kept && forall j :: 0 <= j < d ==> nums[j] !in kept
  {
    d := 0;
    while nums[d] !in kept
      invariant d <= i && forall j :: 0 <= j < d ==> nums[j] !in kept
      decreases i - d
    {
      d := d + 1;
    }
  }

  /** What goes is then a beginning of the relay. */
  lemma KeptIsSuffix(nums: seq<nat>, at: seq<nat>, aged: nat -> bool, files: Files, kept: Files, keptNums: seq<nat>,
                     i: nat) returns (d: nat)
    requires Lists(nums, files) && Lists(keptNums, kept) && Retained(nums, at, aged, files, kept)
    requires AgedInOrder(files, aged) && i < |nums| && nums[i] in kept
    ensures d <= i && keptNums == nums[d..]
    ensures forall j :: d <= j < |nums| ==> nums[j] in kept && kept[nums[j]] == files[nums[j]]
  {
    d := FirstKept(nums, kept, i);
    forall j | d <= j < |nums| ensures nums[j] in kept {
      KeptAfter(nums, at, aged, files, kept, d, j);
    }
    ListedSuffix(nums, files, kept, keptNums, d);
  }

  lemma ListedSuffix(nums: seq<nat>, files: Files, kept: Files, keptNums: seq<nat>, d: nat)
    requires Lists(nums, files) && Lists(keptNums, kept) && kept.Keys <= files.Keys && d <= |nums|
    requires forall j :: 0 <= j < |nums| ==> (nums[j] in kept <==> d <= j)
    ensures keptNums == nums[d..]
  {
    forall n ensures n in nums[d..] <==> n in keptNums {
      if n in keptNums {
        assert n in nums;
        var j :| 0 <= j < |nums| && nums[j] == n;
        assert nums[d..][j - d] == n;
      }
    }
    SameListing(keptNums, nums[d..]);
  }

  lemma KeptAfter(nums: seq<nat>, at: seq<nat>, aged: nat -> bool, files: Files, kept: Files, d: nat, j: nat)
    requires Lists(nums, files) && Retained(nums, at, aged, files, kept) && AgedInOrder(files, aged)
    requires d <= j < |nums| && nums[d] in kept
    ensures nums[j] in kept
  {
  }

  lemma IdsOfSuffix(loads: Loads, files: Files, kept: Files, nums: seq<nat>, d: nat)
    requires d <= |nums| && (forall n :: n in nums ==> n in files)
    requires forall j :: d <= j < |nums| ==> nums[j] in kept && kept[nums[j]] == files[nums[j]]
    ensures (forall n :: n in nums[d..] ==> n in kept)
            && IdsOf(loads, kept, nums[d..]) == IdsOf(loads, files, nums)[d..]
  {
  }

  lemma KeptIds(loads: Loads, files: Files, nums: seq<nat>, kept: Files, keptNums: seq<nat>, at: seq<nat>,
                aged: nat -> bool, i: nat) returns (d: nat)
    requires Lists(nums, files) && Lists(keptNums, kept) && Retained(nums, at, aged, files, kept)
             && AgedInOrder(files, aged)
    requires i < |nums| && nums[i] in at
    ensures d <= i && keptNums == nums[d..] && IdsOf(loads, kept, keptNums) == IdsOf(loads, files, nums)[d..]
    ensures forall j :: d <= j < |nums| ==> nums[j] in kept && kept[nums[j]] == files[nums[j]]
  {
    assert nums[i] in nums;
    d := KeptIsSuffix(nums, at, aged, files, kept, keptNums, i);
    IdsOfSuffix(loads, files, kept, nums, d);
  }

  /** In a relay whose files leave nothing out between them, after cleanup in file order every protected checkpoint that
      was found is found, and in the same file if the relay begins at or before it. */
  lemma CleanupInOrder(loads: Loads, files: Files, kept: Files, protected: seq<Transaction>, aged: nat -> bool,
                       log: seq<Transaction>, starts: seq<nat>, p: nat, k: nat)
    requires CleanedUp(loads, files, kept, protected, aged) && AgedInOrder(files, aged)
    requires Chained(log, IdsOf(loads, files, SortedNums(files.Keys)), starts)
    requires p < |protected| && k < |log| && protected[p] == log[k]
    ensures LocateNum(loads, files, SortedNums(files.Keys), log[k]).Some? ==>
              LocateNum(loads, kept, SortedNums(kept.Keys), log[k]).Some?
    ensures BeginsBy(IdsOf(loads, files, SortedNums(files.Keys)), log[k]) ==>
              Seek(loads, kept, Some(log[k])) == Seek(loads, files, Some(log[k]))
  {
    var nums, keptNums := SortedNums(files.Keys), SortedNums(kept.Keys);
    if !SomeMissing(loads, files, nums, protected) {
      var at :| FoundAt(loads, files, nums, protected, at) && Retained(nums, at, aged, files, kept);
      FoundInOrder(loads, files, nums, kept, keptNums, at, aged, log, starts, k);
      if BeginsBy(IdsOf(loads, files, nums), log[k]) {
        KeptSeek(loads, files, kept, at, aged, log[k], at[p]);
      }
    }
  }

  lemma FoundInOrder(loads: Loads, files: Files, nums: seq<nat>, kept: Files, keptNums: seq<nat>, at: seq<nat>,
                     aged: nat -> bool,
                     log: seq<Transaction>, starts: seq<nat>, k: nat)
    requires Lists(nums, files) && Lists(keptNums, kept) && Retained(nums, at, aged, files, kept)
             && AgedInOrder(files, aged)
    requires Chained(log, IdsOf(loads, files, nums), starts) && k < |log|
    requires LocateNum(loads, files, nums, log[k]).Some? && LocateNum(loads, files, nums, log[k]).value in at
    ensures LocateNum(loads, kept, keptNums, log[k]).Some?
    ensures BeginsBy(IdsOf(loads, files, nums), log[k]) ==>
              LocateNum(loads, kept, keptNums, log[k]) == LocateNum(loads, files, nums, log[k])
  {
    var i := IndexOfLocated(loads, files, nums, log[k]);
    var d := KeptIds(loads, files, nums, kept, keptNums, at, aged, i);
    FoundAgain(loads, IdsOf(loads, files, nums), nums, kept, keptNums, log, starts, k, i, d);
  }

  lemma FoundAgain(loads: Loads, ids: seq<Ids>, nums: seq<nat>, kept: Files, keptNums: seq<nat>, log: seq<Transaction>,
                   starts: seq<nat>,
                   k: nat, i: nat, d: nat)
    requires (forall n :: n in keptNums ==> n in kept) && d <= i < |nums| && keptNums == nums[d..]
    requires Chained(log, ids, starts) && k < |log| && Locate(ids, log[k]) == Some(i)
             && IdsOf(loads, kept, keptNums) == ids[d..]
    ensures LocateNum(loads, kept, keptNums, log[k]).Some?
    ensures BeginsBy(ids, log[k]) ==> LocateNum(loads, kept, keptNums, log[k]) == Some(nums[i])
  {
    StillFound(log, ids, starts, k, i, d);
    NumAt(loads, kept, keptNums, log[k]);
    assert keptNums[i - d] == nums[i];
  }

  lemma NumAt(loads: Loads, files: Files, nums: seq<nat>, tx: Transaction)
    requires forall n :: n in nums ==> n in files
    ensures var c, n := Locate(IdsOf(loads, files, nums), tx), LocateNum(loads, files, nums, tx);
            (n.Some? <==> c.Some?) && (c.Some? ==> n == Some(nums[c.value]))
  {
  }

  /** The files that are left, from the d-th on, as stretches of the log. */
  lemma ContentsOfSuffix(loads: Loads, files: Files, kept: Files, nums: seq<nat>, d: nat)
    requires d <= |nums| && (forall n :: n in nums ==> n in files) && (forall n :: n in nums[d..] ==> n in kept)
    requires forall j :: d <= j < |nums| ==> nums[j] in kept && kept[nums[j]] == files[nums[j]]
    ensures ContentsOf(loads, kept, nums[d..]) == ContentsOf(loads, files, nums)[d..]
  {
  }

  lemma AtLeastOnceSuffix(log: seq<LogEvent>, contents: seq<seq<LogEvent>>, starts: seq<nat>, d: nat)
    requires AtLeastOnceFiles(log, contents, starts) && d <= |contents|
    ensures AtLeastOnceFiles(log, contents[d..], starts[d..])
  {
    forall i | 0 <= i < |contents[d..]| ensures Chains(contents[d..], starts[d..], i) {
      assert Chains(contents, starts, d + i);
    }
  }

  /** A relay as a reader that resumes in it sees it. */
  ghost predicate Readable(loads: Loads, files: Files, nums: seq<nat>, log: seq<LogEvent>, starts: seq<nat>, k: nat) {
    && Lists(nums, files) && ConsecutiveFrom(nums, 0) && AtLeastOnceFiles(log, ContentsOf(loads, files, nums), starts)
    && k < |log| && LocateNum(loads, files, nums, log[k].transactionId).Some?
  }

  lemma ResumeInReadable(loads: Loads, files: Files, nums: seq<nat>, log: seq<LogEvent>, starts: seq<nat>, k: nat)
    returns (r: Resume)
    requires Readable(loads, files, nums, log, starts, k)
    ensures r.Valid() && r.FlowsOn() && r == Resume(loads, files, nums, log, starts, k, r.i)
  {
    var i := IndexOfLocated(loads, files, nums, log[k].transactionId);
    r := Resume(loads, files, nums, log, starts, k, i);
    ResumeInChained(r);
  }

  lemma FoundInSuffix(loads: Loads, files: Files, nums: seq<nat>, kept: Files, keptNums: seq<nat>, log: seq<LogEvent>,
                      starts: seq<nat>,
                      k: nat, i: nat, d: nat)
    requires (forall n :: n in nums ==> n in files) && (forall n :: n in keptNums ==> n in kept)
    requires AtLeastOnceFiles(log, ContentsOf(loads, files, nums), starts) && k < |log| && d <= i < |nums|
             && keptNums == nums[d..]
    requires Locate(IdsOf(loads, files, nums), log[k].transactionId) == Some(i)
    requires IdsOf(loads, kept, keptNums) == IdsOf(loads, files, nums)[d..]
    ensures LocateNum(loads, kept, keptNums, log[k].transactionId).Some?
  {
    SameIds(loads, files, nums);
    RelayIsChained(log, ContentsOf(loads, files, nums), starts);
    FoundAgain(loads, IdsOf(loads, files, nums), nums, kept, keptNums, TransactionsOf(log), starts, k, i, d);
  }

  lemma ConsecutiveSuffix(nums: seq<nat>, d: nat)
    requires ConsecutiveFrom(nums, 0) && d <= |nums|
    ensures ConsecutiveFrom(nums[d..], 0)
  {
    if d < |nums| {
      assert nums[d..][0] == nums[d] == nums[0] + d;
      assert forall j :: 0 <= j < |nums[d..]| ==> nums[d..][j] == nums[d + j];
    }
  }

  lemma SuffixAtLeastOnce(loads: Loads, files: Files, nums: seq<nat>, kept: Files, keptNums: seq<nat>,
                          log: seq<LogEvent>, starts: seq<nat>, d: nat)
    requires (forall n :: n in nums ==> n in files) && (forall n :: n in keptNums ==> n in kept)
    requires d <= |nums| && keptNums == nums[d..] && AtLeastOnceFiles(log, ContentsOf(loads, files, nums), starts)
    requires forall j :: d <= j < |nums| ==> nums[j] in kept && kept[nums[j]] == files[nums[j]]
    ensures d <= |starts| && AtLeastOnceFiles(log, ContentsOf(loads, kept, keptNums), starts[d..])
  {
    ContentsOfSuffix(loads, files, kept, nums, d);
    AtLeastOnceSuffix(log, ContentsOf(loads, files, nums), starts, d);
  }

  lemma ReadableSuffix(loads: Loads, files: Files, nums: seq<nat>, kept: Files, keptNums: seq<nat>, at: seq<nat>,
                       aged: nat -> bool,
                       log: seq<LogEvent>, starts: seq<nat>, k: nat) returns (d: nat)
    requires Readable(loads, files, nums, log, starts, k) && Lists(keptNums, kept)
    requires Retained(nums, at, aged, files, kept) && AgedInOrder(files, aged)
    requires LocateNum(loads, files, nums, log[k].transactionId).value in at
    ensures d <= |starts| && Readable(loads, kept, keptNums, log, starts[d..], k)
  {
    var i := IndexOfLocated(loads, files, nums, log[k].transactionId);
    d := KeptIds(loads, files, nums, kept, keptNums, at, aged, i);
    SuffixAtLeastOnce(loads, files, nums, kept, keptNums, log, starts, d);
    FoundInSuffix(loads, files, nums, kept, keptNums, log, starts, k, i, d);
    ConsecutiveSuffix(nums, d);
  }

  /** Wherever it is found, the engine gets everything after it. */
  lemma CleanupInOrderResumes(loads: Loads, files: Files, kept: Files, protected: seq<Transaction>, aged: nat -> bool,
                              log: seq<LogEvent>, starts: seq<nat>, p: nat, k: nat) returns (r: Resume)
    requires CleanedUp(loads, files, kept, protected, aged) && AgedInOrder(files, aged)
    requires Readable(loads, files, SortedNums(files.Keys), log, starts, k)
    requires p < |protected| && protected[p] == log[k].transactionId
    ensures r.Valid() && r.loads == loads && r.files == kept && r.log == log && r.k == k && r.FlowsOn()
  {
    var nums, keptNums := SortedNums(files.Keys), SortedNums(kept.Keys);
    if SomeMissing(loads, files, nums, protected) {
      r := ResumeInReadable(loads, kept, nums, log, starts, k);
    } else {
      var at :| FoundAt(loads, files, nums, protected, at) && Retained(nums, at, aged, files, kept);
      var d := ReadableSuffix(loads, files, nums, kept, keptNums, at, aged, log, starts, k);
      r := ResumeInReadable(loads, kept, keptNums, log, starts[d..], k);
    }
  }

  /** In a relay without repetitions nothing is disturbed, whatever the ages of the files. */
  lemma CleanupKeepsFutureSorted(loads: Loads, files: Files, kept: Files, protected: seq<Transaction>,
                                 aged: nat -> bool,
                                 log: seq<Transaction>, starts: seq<nat>, p: nat, k: nat)
    requires CleanedUp(loads, files, kept, protected, aged)
    requires Contiguous(log, IdsOf(loads, files, SortedNums(files.Keys)), starts)
    requires p < |protected| && k < |log| && protected[p] == log[k]
    ensures Seek(loads, kept, Some(log[k])) == Seek(loads, files, Some(log[k]))
  {
    var nums, keptNums := SortedNums(files.Keys), SortedNums(kept.Keys);
    if !SomeMissing(loads, files, nums, protected) {
      var at :| FoundAt(loads, files, nums, protected, at) && Retained(nums, at, aged, files, kept);
      var i := IndexOfLocated(loads, files, nums, log[k]);
      ContiguousAround(log, IdsOf(loads, files, nums), starts, k, i);
      var c := KeptRemoves(loads, files, nums, kept, keptNums, at, aged, i);
      LocateSoleAfterRemoval(IdsOf(loads, files, nums), IdsOf(loads, kept, keptNums), log[k], i, c);
      NumIsIndex(loads, kept, keptNums, log[k], c);
      KeptSeek(loads, files, kept, at, aged, log[k], at[p]);
    }
  }

  function OneToTwenty(): seq<nat> {
    seq(20, i => i + 1)
  }

  function LeftAlone(n: nat): bool { 2 <= n <= 14 }

  /** What an older copy does that is kept while files behind it go. The checkpoint b is found in file 16. File 1 holds
      it too and is kept, for it was touched last; files 2 to 14 go. Then b is found in file 1, behind which there is no
      file for the reader to go on with. */
  lemma OlderCopyDisturbs() returns (loads: Loads, files: Files, kept: Files, keptNums: seq<nat>)
    ensures Lists(OneToTwenty(), files) && Lists(keptNums, kept)
            && Retained(OneToTwenty(), [16], LeftAlone, files, kept)
    ensures var ids, a, b := IdsOf(loads, files, OneToTwenty()), Transaction(1, 10), Transaction(1, 20);
            && Chained([a, b], ids, seq(20, _ => 0)) && BeginsBy(ids, b)
            && LocateNum(loads, files, OneToTwenty(), b) == Some(16) && LocateNum(loads, kept, keptNums, b) == Some(1)
               && 2 !in kept
  {
    var nums, a, b := OneToTwenty(), Transaction(1, 10), Transaction(1, 20);
    loads := (bytes: Bytes) => LogEvent(if bytes == [0] then a else b, "db", 0, Truncate("t"));
    files := map n | n in nums :: Frames(if n == 1 || n >= 16 then [[0], [1]] else [[0]]);
    kept := map n | n in files && !(2 <= n <= 14) :: files[n];
    keptNums := [1] + nums[14..];
    FilesHold(loads, a, b, nums, files);
    KeptListed(nums, files, kept, keptNums);
    FoundInFirst(loads, nums, files, kept, keptNums, a, b);
  }

  lemma FoundInFirst(loads: Loads, nums: seq<nat>, files: Files, kept: Files, keptNums: seq<nat>, a: Transaction,
                     b: Transaction)
    requires nums == OneToTwenty() && Lists(nums, files) && keptNums == [1] + nums[14..] && Lists(keptNums, kept)
    requires forall n :: n in kept ==> n in files && kept[n] == files[n]
    requires FirstAndLastFive(IdsOf(loads, files, nums), a, b) && Before(a, b)
    ensures Chained([a, b], IdsOf(loads, files, nums), seq(20, _ => 0)) && BeginsBy(IdsOf(loads, files, nums), b)
    ensures LocateNum(loads, files, nums, b) == Some(16) && LocateNum(loads, kept, keptNums, b) == Some(1)
  {
    OlderCopyComesFirst(IdsOf(loads, files, nums), a, b);
    KeptIdsListed(loads, nums, files, kept, keptNums);
    NumIsIndex(loads, files, nums, b, 15);
    NumIsIndex(loads, kept, keptNums, b, 0);
  }

  lemma KeptIdsListed(loads: Loads, nums: seq<nat>, files: Files, kept: Files, keptNums: seq<nat>)
    requires nums == OneToTwenty() && Lists(nums, files) && keptNums == [1] + nums[14..] && Lists(keptNums, kept)
    requires forall n :: n in kept ==> n in files && kept[n] == files[n]
    ensures IdsOf(loads, kept, keptNums) == [IdsOf(loads, files, nums)[0]] + IdsOf(loads, files, nums)[14..]
  {
    forall j | 14 <= j < |nums| ensures nums[j] in kept {
      assert keptNums[j - 13] == nums[j];
    }
    IdsOfSuffix(loads, files, kept, nums, 14);
    assert keptNums[0] == 1;
    IdsOfFirst(loads, kept, 1, nums[14..]);
  }

  lemma IdsOfFirst(loads: Loads, files: Files, n: nat, rest: seq<nat>)
    requires n in files && forall m :: m in rest ==> m in files
    ensures IdsOf(loads, files, [n] + rest) == [IdsOfFrames(loads, ParseFrames(files[n]))] + IdsOf(loads, files, rest)
  {
  }

  lemma FilesHold(loads: Loads, a: Transaction, b: Transaction, nums: seq<nat>, files: Files)
    requires nums == OneToTwenty()
             && files == map n | n in nums :: Frames(if n == 1 || n >= 16 then [[0], [1]] else [[0]])
    requires loads([0]).transactionId == a && loads([1]).transactionId == b
    ensures FirstAndLastFive(IdsOf(loads, files, nums), a, b)
  {
    ParseWritten([[0], [1]], []);
    ParseWritten([[0]], []);
    assert Frames([[0], [1]]) + [] == Frames([[0], [1]]) && Frames([[0]]) + [] == Frames([[0]]);
    assert IdsOfFrames(loads, [[0], [1]]) == [a, b] && IdsOfFrames(loads, [[0]]) == [a];
  }

  lemma KeptListed(nums: seq<nat>, files: Files, kept: Files, keptNums: seq<nat>)
    requires nums == OneToTwenty() && files.Keys == (set n | n in nums) && keptNums == [1] + nums[14..]
    requires kept == map n | n in files && !(2 <= n <= 14) :: files[n]
    ensures Lists(nums, files) && Lists(keptNums, kept) && Retained(nums, [16], LeftAlone, files, kept)
  {
    Numbered(nums);
    assert nums == nums[..14] + nums[14..];
    forall n: nat ensures Removable(nums, [16], LeftAlone, n) <==> 2 <= n <= 14 {
      assert 16 in [16];
    }
  }

  lemma Numbered(nums: seq<nat>)
    requires nums == OneToTwenty()
    ensures forall n: nat :: n in nums[..14] <==> 1 <= n <= 14
    ensures forall n: nat :: n in nums[14..] <==> 15 <= n <= 20
  {
    forall n: nat | 1 <= n <= 14 ensures n in nums[..14] {
      assert nums[..14][n - 1] == n;
    }
    forall n: nat | 15 <= n <= 20 ensures n in nums[14..] {
      assert nums[14..][n - 15] == n;
    }
  }
}
