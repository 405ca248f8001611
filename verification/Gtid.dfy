/** GTIDs: adding, subtracting and comparing the transactions of a server. */
module Gtids {
  import opened Events
  import opened GtidIntervals

  /** The rest of the loop of an addition. */
  function MergeAll(s: seq<Interval>, kept: seq<Interval>, t: Interval): seq<Interval> {
    if s == [] then InsertSorted(kept, t)
    else
      var r := MergeStep(s[0], kept, t);
      MergeAll(s[1..], r.0, r.1)
  }

  predicate AnyOverlap(s: seq<Interval>, t: Interval) {
    exists i :: 0 <= i < |s| && Overlap(s[i], t)
  }

  /** An interval added to a sorted list; None is an exception. */
  function Added(s: seq<Interval>, t: Interval): Option<seq<Interval>> {
    if t.lo > t.hi || AnyOverlap(s, t) then None else Some(MergeAll(s, [], t))
  }

  function CutAll(s: seq<Interval>, t: Interval): seq<Interval> {
    if s == [] then [] else CutAll(s[..|s| - 1], t) + CutStep(s[|s| - 1], t)
  }

  /** An interval removed from a sorted list; None is an exception. */
  function Removed(s: seq<Interval>, t: Interval): Option<seq<Interval>> {
    if t.lo > t.hi then None else Some(if AnyOverlap(s, t) then CutAll(s, t) else s)
  }

  lemma {:induction false} MergeAllKeeps(s: seq<Interval>, i: nat, original: Interval, kept: seq<Interval>, t: Interval)
    requires Canonical(s) && Merging(s, i, original, kept, t)
    ensures var r := MergeAll(s[i..], kept, t);
            Canonical(r) && forall x :: Member(x, r) <==> Member(x, s) || InInterval(x, original)
    decreases |s| - i
  {
    if i == |s| {
      assert s[..i] == s;
      InsertCanonical(kept, t);
    } else {
      var r := MergeStep(s[i], kept, t);
      MergeStepKeeps(s, i, original, kept, t);
      MergeAllKeeps(s, i + 1, original, r.0, r.1);
      assert s[i..][0] == s[i] && s[i..][1..] == s[i + 1..];
    }
  }

  /** Addition keeps the list canonical and is set union; it is refused exactly when the sets meet. */
  lemma AddedIsUnion(s: seq<Interval>, t: Interval)
    requires Canonical(s) && t.lo < t.hi
    ensures Added(s, t).None? <==> exists x :: Member(x, s) && InInterval(x, t)
    ensures Added(s, t).Some? ==>
              Canonical(Added(s, t).value) && forall x :: Member(x, Added(s, t).value) <==>
                    Member(x, s) || InInterval(x, t)
  {
    OverlapIsCommon(s, t);
    if !AnyOverlap(s, t) {
      assert forall i :: 0 <= i < |s| ==> !Overlap(s[i], t);
      assert s[0..] == s && s[..0] == [];
      assert Merging(s, 0, t, [], t);
      MergeAllKeeps(s, 0, t, [], t);
    }
  }

  lemma OverlapIsCommon(s: seq<Interval>, t: Interval)
    requires Canonical(s) && t.lo < t.hi
    ensures AnyOverlap(s, t) <==> exists x :: Member(x, s) && InInterval(x, t)
  {
    if AnyOverlap(s, t) {
      var i :| 0 <= i < |s| && Overlap(s[i], t);
      var x := if s[i].lo < t.lo then t.lo else s[i].lo;
      assert InInterval(x, s[i]) && InInterval(x, t);
      assert Member(x, s);
    }
    if x :| Member(x, s) && InInterval(x, t) {
      var i :| 0 <= i < |s| && InInterval(x, s[i]);
      assert Overlap(s[i], t);
    }
  }

  lemma {:induction false} CutAllKeeps(s: seq<Interval>, i: nat, t: Interval)
    requires Canonical(s) && t.lo < t.hi && i <= |s|
    ensures Cutting(s, i, t, CutAll(s[..i], t))
  {
    if i > 0 {
      CutAllKeeps(s, i - 1, t);
      CutStepKeeps(s, i - 1, t, CutAll(s[..i - 1], t));
      assert s[..i][..i - 1] == s[..i - 1];
    } else {
      assert s[..0] == [];
    }
  }

  /** Subtraction keeps the list canonical and is set difference. */
  lemma RemovedIsDifference(s: seq<Interval>, t: Interval)
    requires Canonical(s) && t.lo < t.hi
    ensures Removed(s, t).Some? && Canonical(Removed(s, t).value)
    ensures forall x :: Member(x, Removed(s, t).value) <==> Member(x, s) && !InInterval(x, t)
  {
    OverlapIsCommon(s, t);
    if AnyOverlap(s, t) {
      CutAllKeeps(s, |s|, t);
      assert s[..|s|] == s;
    }
  }

  /** Intervals not adjacent to the new one are kept as they are. */
  lemma {:induction false} MergePast(a: seq<Interval>, b: seq<Interval>, kept: seq<Interval>, t: Interval)
    requires forall i :: 0 <= i < |a| ==> t.lo != a[i].hi && t.hi != a[i].lo
    ensures MergeAll(a + b, kept, t) == MergeAll(b, kept + a, t)
    decreases |a|
  {
    if a == [] {
      assert a + b == b && kept + a == kept;
    } else {
      assert (a + b)[0] == a[0] && (a + b)[1..] == a[1..] + b;
      MergePast(a[1..], b, kept + [a[0]], t);
      assert kept + [a[0]] + a[1..] == kept + a;
    }
  }

  ghost predicate StrictlyInside(s: seq<Interval>, n: nat) {
    exists i :: 0 <= i < |s| && s[i].lo < n < s[i].hi
  }

  ghost predicate AtBound(s: seq<Interval>, n: nat) {
    exists i :: 0 <= i < |s| && (n == s[i].lo || n == s[i].hi)
  }

  /** What becomes of an empty interval: inside an interval of the list it is refused, although no transaction meets;
      at a bound of one it vanishes; anywhere else it is kept, and the list is no longer canonical. */
  lemma EmptyInterval(s: seq<Interval>, n: nat)
    requires Canonical(s)
    ensures Added(s, Interval(n, n)).None? <==> StrictlyInside(s, n)
    ensures Added(s, Interval(n, n)) == Some(s) <==> AtBound(s, n)
    ensures Added(s, Interval(n, n)).Some? && !AtBound(s, n) ==> !Canonical(Added(s, Interval(n, n)).value)
  {
    EmptyOverlaps(s, n);
    if AtBound(s, n) {
      EmptyAtBound(s, n);
    } else {
      EmptyElsewhere(s, n);
    }
  }

  lemma EmptyOverlaps(s: seq<Interval>, n: nat)
    ensures AnyOverlap(s, Interval(n, n)) <==> StrictlyInside(s, n)
  {
    if StrictlyInside(s, n) {
      var i :| 0 <= i < |s| && s[i].lo < n < s[i].hi;
      assert Overlap(s[i], Interval(n, n));
    }
  }

  lemma EmptyElsewhere(s: seq<Interval>, n: nat)
    requires Canonical(s) && !AtBound(s, n)
    ensures var r := MergeAll(s, [], Interval(n, n)); r != s && !Canonical(r)
  {
    var t := Interval(n, n);
    MergePast(s, [], [], t);
    assert s + [] == s && [] + s == s;
    InsertedThere(s, t);
    var r := MergeAll(s, [], t);
    var i :| 0 <= i < |r| && r[i] == t;
  }

  lemma {:induction false} InsertedThere(s: seq<Interval>, t: Interval)
    ensures t in InsertSorted(s, t)
  {
    if !(s == [] || t.lo < s[0].lo || (t.lo == s[0].lo && t.hi < s[0].hi)) {
      InsertedThere(s[1..], t);
    }
  }

  lemma EmptyAtBound(s: seq<Interval>, n: nat)
    requires Canonical(s) && AtBound(s, n)
    ensures Added(s, Interval(n, n)) == Some(s)
  {
    var t := Interval(n, n);
    EmptyOverlaps(s, n);
    var i :| 0 <= i < |s| && (n == s[i].lo || n == s[i].hi);
    BoundIsOutside(s, i, n);
    MergeAtBound(s, i, n);
    InsertBack(s, i);
  }

  lemma BoundIsOutside(s: seq<Interval>, i: nat, n: nat)
    requires Canonical(s) && i < |s| && (n == s[i].lo || n == s[i].hi)
    ensures !StrictlyInside(s, n)
  {
  }

  lemma MergeAtBound(s: seq<Interval>, i: nat, n: nat)
    requires Canonical(s) && i < |s| && (n == s[i].lo || n == s[i].hi)
    ensures MergeAll(s, [], Interval(n, n)) == InsertSorted(s[..i] + s[i + 1..], s[i])
  {
    var a, b := s[..i], s[i + 1..];
    Around(s, i, a, b);
    MergeInto(a, s[i], b, Interval(n, n));
    CutAt(s, i);
  }

  lemma Around(s: seq<Interval>, i: nat, a: seq<Interval>, b: seq<Interval>)
    requires Canonical(s) && i < |s| && a == s[..i] && b == s[i + 1..]
    ensures forall j :: 0 <= j < |a| ==> a[j].lo < a[j].hi < s[i].lo
    ensures forall j :: 0 <= j < |b| ==> s[i].hi < b[j].lo < b[j].hi
    ensures s[i].lo < s[i].hi
  {
  }

  lemma CutAt(s: seq<Interval>, i: nat)
    requires i < |s|
    ensures s == s[..i] + ([s[i]] + s[i + 1..])
  {
  }

  /** An interval that merges into one of the list, and touches no other. */
  lemma MergeInto(a: seq<Interval>, e: Interval, b: seq<Interval>, t: Interval)
    requires forall i :: 0 <= i < |a| ==> t.lo != a[i].hi && t.hi != a[i].lo
    requires forall i :: 0 <= i < |b| ==> e.lo != b[i].hi && e.hi != b[i].lo
    requires MergeStep(e, a, t) == (a, e)
    ensures MergeAll(a + ([e] + b), [], t) == InsertSorted(a + b, e)
  {
    MergePast(a, [e] + b, [], t);
    assert [] + a == a && ([e] + b)[1..] == b;
    MergePast(b, [], a, e);
    assert b + [] == b;
  }

  lemma InsertBack(s: seq<Interval>, i: nat)
    requires Canonical(s) && i < |s|
    ensures InsertSorted(s[..i] + s[i + 1..], s[i]) == s
  {
    var others := s[..i] + s[i + 1..];
    assert forall j :: 0 <= j < |others| ==> others[j] == s[if j < i then j else j + 1];
    InsertCanonical(others, s[i]);
    assert s == s[..i] + [s[i]] + s[i + 1..];
    forall x ensures Member(x, s) <==> Member(x, others) || InInterval(x, s[i]) {
      MemberConcat(x, s[..i], s[i + 1..]);
      MemberConcat(x, s[..i] + [s[i]], s[i + 1..]);
      MemberOne(x, s[..i], s[i]);
    }
    SameSetSameList(InsertSorted(others, s[i]), s);
  }

  /** Lists added one interval at a time. */
  function AddAll(s: seq<Interval>, ts: seq<Interval>): Option<seq<Interval>> {
    if ts == [] then Some(s)
    else
      var r := AddAll(s, ts[..|ts| - 1]);
      if r.None? then None else Added(r.value, ts[|ts| - 1])
  }

  function RemoveAll(s: seq<Interval>, ts: seq<Interval>): Option<seq<Interval>> {
    if ts == [] then Some(s)
    else
      var r := RemoveAll(s, ts[..|ts| - 1]);
      if r.None? then None else Removed(r.value, ts[|ts| - 1])
  }

  lemma CanonicalPrefix(s: seq<Interval>, m: nat)
    requires Canonical(s) && m < |s|
    ensures Canonical(s[..m]) && s == s[..m] + s[m..] && s[..m + 1] == s[..m] + [s[m]]
    ensures forall x :: Member(x, s[..m]) ==> !InInterval(x, s[m])
  {
  }

  ghost predicate Disjoint(a: seq<Interval>, b: seq<Interval>) {
    forall x :: !(Member(x, a) && Member(x, b))
  }

  /** Adding a canonical list is set union, refused exactly when the sets meet. */
  lemma {:induction false} AddAllIsUnion(s: seq<Interval>, ts: seq<Interval>)
    requires Canonical(s) && Canonical(ts)
    ensures AddAll(s, ts).Some? <==> Disjoint(s, ts)
    ensures AddAll(s, ts).Some? ==>
              Canonical(AddAll(s, ts).value) && forall x :: Member(x, AddAll(s, ts).value) <==>
                    Member(x, s) || Member(x, ts)
  {
    if ts != [] {
      var m := |ts| - 1;
      CanonicalPrefix(ts, m);
      AddAllIsUnion(s, ts[..m]);
      assert ts[..m + 1] == ts;
      forall x ensures Member(x, ts) <==> Member(x, ts[..m]) || InInterval(x, ts[m]) {
        MemberOne(x, ts[..m], ts[m]);
      }
      if AddAll(s, ts[..m]).Some? {
        AddedIsUnion(AddAll(s, ts[..m]).value, ts[m]);
      }
    }
  }

  /** Subtracting a canonical list is set difference. */
  lemma {:induction false} RemoveAllIsDifference(s: seq<Interval>, ts: seq<Interval>)
    requires Canonical(s) && Canonical(ts)
    ensures RemoveAll(s, ts).Some? && Canonical(RemoveAll(s, ts).value)
    ensures forall x :: Member(x, RemoveAll(s, ts).value) <==> Member(x, s) && !Member(x, ts)
  {
    if ts != [] {
      var m := |ts| - 1;
      CanonicalPrefix(ts, m);
      RemoveAllIsDifference(s, ts[..m]);
      assert ts[..m + 1] == ts;
      forall x ensures Member(x, ts) <==> Member(x, ts[..m]) || InInterval(x, ts[m]) {
        MemberOne(x, ts[..m], ts[m]);
      }
      RemovedIsDifference(RemoveAll(s, ts[..m]).value, ts[m]);
    }
  }

  /** Adding and taking away again gives the list back. */
  lemma AddThenRemove(s: seq<Interval>, ts: seq<Interval>)
    requires Canonical(s) && Canonical(ts) && Disjoint(s, ts)
    ensures AddAll(s, ts).Some? && RemoveAll(AddAll(s, ts).value, ts) == Some(s)
  {
    AddAllIsUnion(s, ts);
    var sum := AddAll(s, ts).value;
    RemoveAllIsDifference(sum, ts);
    SameSetSameList(RemoveAll(sum, ts).value, s);
  }

  /** A server's transactions. */
  class Gtid {
    const sid: string
    var intervals: seq<Interval>

    constructor (sid: string, intervals: seq<Interval>)
      ensures this.sid == sid && this.intervals == intervals
    {
      this.sid := sid;
      this.intervals := intervals;
    }

    ghost predicate Valid()
      reads this
    {
      Canonical(intervals)
    }

    /** Adds one interval; false is an exception. */
    method AddInterval(t: Interval) returns (ok: bool)
      modifies this
      ensures ok <==> Added(old(intervals), t).Some?
      ensures intervals == if ok then Added(old(intervals), t).value else old(intervals)
    {
      if t.lo > t.hi || AnyOverlap(intervals, t) {
        return false;
      }
      var kept, merged := [], t;
      assert intervals[0..] == intervals;
      for i := 0 to |intervals|
        invariant MergeAll(intervals, [], t) == MergeAll(intervals[i..], kept, merged)
      {
        assert intervals[i..][0] == intervals[i] && intervals[i..][1..] == intervals[i + 1..];
        var existing := intervals[i];
        if merged.lo == existing.hi {
          merged := Interval(existing.lo, merged.hi);
        } else if merged.hi == existing.lo {
          merged := Interval(merged.lo, existing.hi);
        } else {
          kept := kept + [existing];
        }
      }
      intervals := InsertSorted(kept, merged);
      return true;
    }

    /** Removes one interval; false is an exception. */
    method SubInterval(t: Interval) returns (ok: bool)
      modifies this
      ensures ok <==> Removed(old(intervals), t).Some?
      ensures intervals == if ok then Removed(old(intervals), t).value else old(intervals)
    {
      if t.lo > t.hi {
        return false;
      }
      if !AnyOverlap(intervals, t) {
        return true;
      }
      var left: seq<Interval> := [];
      for i := 0 to |intervals|
        invariant left == CutAll(intervals[..i], t)
      {
        assert intervals[..i + 1][..i] == intervals[..i];
        var existing := intervals[i];
        if Overlap(existing, t) {
          if existing.lo < t.lo {
            left := left + [Interval(existing.lo, t.lo)];
          }
          if existing.hi > t.hi {
            left := left + [Interval(t.hi, existing.hi)];
          }
        } else {
          left := left + [existing];
        }
      }
      assert intervals[..|intervals|] == intervals;
      intervals := left;
      return true;
    }

    /** self + other: a new Gtid with the union, or null for the exception that refuses it. */
    method Add(other: Gtid) returns (r: Gtid?)
      requires Valid() && other.Valid()
      ensures r == null <==> sid != other.sid || !Disjoint(intervals, other.intervals)
      ensures r != null ==> fresh(r) && r.Valid() && r.sid == sid
      ensures r != null ==> forall x :: Member(x, r.intervals) <==> Member(x, intervals) || Member(x, other.intervals)
    {
      if sid != other.sid {
        return null;
      }
      AddAllIsUnion(intervals, other.intervals);
      var result := new Gtid(sid, intervals);
      var added := result.AddEach(other.intervals);
      return if added then result else null;
    }

    method AddEach(ts: seq<Interval>) returns (ok: bool)
      modifies this
      ensures ok <==> AddAll(old(intervals), ts).Some?
      ensures ok ==> Some(intervals) == AddAll(old(intervals), ts)
    {
      for i := 0 to |ts|
        invariant Some(intervals) == AddAll(old(intervals), ts[..i])
      {
        assert ts[..i + 1][..i] == ts[..i];
        var added := AddInterval(ts[i]);
        if !added {
          AddAllFails(old(intervals), ts, i + 1);
          return false;
        }
      }
      assert ts[..|ts|] == ts;
      return true;
    }

    /** self - other: a new Gtid with the difference; another server's transactions are ignored. */
    method Sub(other: Gtid) returns (r: Gtid)
      requires Valid() && other.Valid()
      ensures fresh(r) && r.Valid() && r.sid == sid
      ensures forall x :: Member(x, r.intervals) <==>
                Member(x, intervals) && (sid != other.sid || !Member(x, other.intervals))
    {
      r := new Gtid(sid, intervals);
      if sid != other.sid {
        return;
      }
      RemoveAllIsDifference(intervals, other.intervals);
      var removed := r.SubEach(other.intervals);
    }

    method SubEach(ts: seq<Interval>) returns (ok: bool)
      modifies this
      ensures ok <==> RemoveAll(old(intervals), ts).Some?
      ensures ok ==> Some(intervals) == RemoveAll(old(intervals), ts)
    {
      for i := 0 to |ts|
        invariant Some(intervals) == RemoveAll(old(intervals), ts[..i])
      {
        assert ts[..i + 1][..i] == ts[..i];
        var removed := SubInterval(ts[i]);
        if !removed {
          RemoveAllFails(old(intervals), ts, i + 1);
          return false;
        }
      }
      assert ts[..|ts|] == ts;
      return true;
    }

    /** other in self */
    predicate Includes(other: Gtid)
      reads this, other
    {
      other.sid == sid && ContainsAll(intervals, other.intervals)
    }

    predicate Equals(other: Gtid)
      reads this, other
    {
      other.sid == sid && intervals == other.intervals
    }

    /** `in` is the subset relation, and equality is equality of sets. */
    lemma ComparisonsAreOfSets(other: Gtid)
      requires Valid() && other.Valid()
      ensures Includes(other) <==> other.sid == sid && Subset(other.intervals, intervals)
      ensures Equals(other) <==> other.sid == sid && forall x :: Member(x, intervals) <==> Member(x, other.intervals)
    {
      ContainsIffSubset(intervals, other.intervals);
      if forall x :: Member(x, intervals) <==> Member(x, other.intervals) {
        SameSetSameList(intervals, other.intervals);
      }
    }
  }

  lemma {:induction false} AddAllFails(s: seq<Interval>, ts: seq<Interval>, i: nat)
    requires i <= |ts| && AddAll(s, ts[..i]).None?
    ensures AddAll(s, ts).None?
    decreases |ts| - i
  {
    if i < |ts| {
      assert ts[..i + 1][..i] == ts[..i];
      AddAllFails(s, ts, i + 1);
    } else {
      assert ts[..i] == ts;
    }
  }

  lemma {:induction false} RemoveAllFails(s: seq<Interval>, ts: seq<Interval>, i: nat)
    requires i <= |ts| && RemoveAll(s, ts[..i]).None?
    ensures RemoveAll(s, ts).None?
    decreases |ts| - i
  {
    if i < |ts| {
      assert ts[..i + 1][..i] == ts[..i];
      RemoveAllFails(s, ts, i + 1);
    } else {
      assert ts[..i] == ts;
    }
  }
}
