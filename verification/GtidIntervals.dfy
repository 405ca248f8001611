/** The transactions of one server, as a list of right-open intervals. */
module GtidIntervals {
  /** All x with lo <= x < hi. */
  datatype Interval = Interval(lo: nat, hi: nat)

  predicate Overlap(a: Interval, b: Interval) { a.lo < b.hi && a.hi > b.lo }
  predicate Contains(a: Interval, b: Interval) { b.lo >= a.lo && b.hi <= a.hi }
  predicate InInterval(x: nat, a: Interval) { a.lo <= x < a.hi }

  /** Neither overlapping nor adjacent. */
  predicate Apart(a: Interval, b: Interval) { a.hi < b.lo || b.hi < a.lo }

  /** Not overlapping. */
  predicate Beside(a: Interval, b: Interval) { a.hi <= b.lo || b.hi <= a.lo }

  /** The set denoted by a list. */
  ghost predicate Member(x: nat, s: seq<Interval>) {
    exists i :: 0 <= i < |s| && InInterval(x, s[i])
  }

  /** Non-empty intervals in increasing order, with gaps between them. */
  ghost predicate Canonical(s: seq<Interval>) {
    && (forall i :: 0 <= i < |s| ==> s[i].lo < s[i].hi)
    && (forall i, j :: 0 <= i < j < |s| ==> s[i].hi < s[j].lo)
  }

  /** sorted(s + [t]), for an increasing list. */
  function InsertSorted(s: seq<Interval>, t: Interval): seq<Interval> {
    if s == [] || t.lo < s[0].lo || (t.lo == s[0].lo && t.hi < s[0].hi) then [t] + s
        else [s[0]] + InsertSorted(s[1..], t)
  }

  lemma MemberConcat(x: nat, a: seq<Interval>, b: seq<Interval>)
    ensures Member(x, a + b) <==> Member(x, a) || Member(x, b)
  {
    if Member(x, a) {
      var i :| 0 <= i < |a| && InInterval(x, a[i]);
      assert (a + b)[i] == a[i];
    }
    if Member(x, b) {
      var i :| 0 <= i < |b| && InInterval(x, b[i]);
      assert (a + b)[|a| + i] == b[i];
    }
  }

  lemma MemberOne(x: nat, a: seq<Interval>, t: Interval)
    ensures Member(x, a + [t]) <==> Member(x, a) || InInterval(x, t)
    ensures Member(x, [t] + a) <==> Member(x, a) || InInterval(x, t)
  {
    MemberConcat(x, a, [t]);
    MemberConcat(x, [t], a);
    assert [t][0] == t;
  }

  /** Inserting an interval apart from all the others. */
  lemma {:induction false} InsertCanonical(s: seq<Interval>, t: Interval)
    requires Canonical(s) && t.lo < t.hi && forall i :: 0 <= i < |s| ==> Apart(s[i], t)
    ensures Canonical(InsertSorted(s, t))
    ensures forall x :: Member(x, InsertSorted(s, t)) <==> Member(x, s) || InInterval(x, t)
    ensures forall u :: u in InsertSorted(s, t) <==> u in s || u == t
  {
    if s == [] || t.lo < s[0].lo {
      forall x ensures Member(x, [t] + s) <==> Member(x, s) || InInterval(x, t) {
        MemberOne(x, s, t);
      }
    } else {
      var rest := InsertSorted(s[1..], t);
      InsertCanonical(s[1..], t);
      assert s == [s[0]] + s[1..];
      forall x ensures Member(x, [s[0]] + rest) <==> Member(x, s) || InInterval(x, t) {
        MemberOne(x, rest, s[0]);
        MemberOne(x, s[1..], s[0]);
      }
      FirstIsBelow(s, t, rest);
    }
  }

  lemma FirstIsBelow(s: seq<Interval>, t: Interval, rest: seq<Interval>)
    requires Canonical(s) && s != [] && s[0].hi < t.lo && forall u :: u in rest ==> u in s[1..] || u == t
    ensures forall i :: 0 <= i < |rest| ==> s[0].hi < rest[i].lo
  {
    forall i | 0 <= i < |rest| ensures s[0].hi < rest[i].lo {
      assert rest[i] in rest;
      if rest[i] != t {
        var j :| 0 <= j < |s[1..]| && s[1..][j] == rest[i];
        assert s[j + 1] == rest[i];
      }
    }
  }

  /** What the loop of an addition has done with the first intervals: merged those adjacent into `t`, kept the
      others. */
  ghost predicate Merging(s: seq<Interval>, i: nat, original: Interval, kept: seq<Interval>, t: Interval) {
    && i <= |s| && t.lo < t.hi && Canonical(kept)
    && (forall j :: 0 <= j < |kept| ==> Apart(kept[j], t))
    && (forall j :: i <= j < |s| ==> Beside(s[j], t))
    && (forall j, k :: 0 <= j < |kept| && i <= k < |s| ==> kept[j].hi < s[k].lo)
    && (forall x :: Member(x, s[..i]) || InInterval(x, original) <==> Member(x, kept) || InInterval(x, t))
  }

  function MergeStep(existing: Interval, kept: seq<Interval>, t: Interval): (seq<Interval>, Interval) {
    if t.lo == existing.hi then (kept, Interval(existing.lo, t.hi))
    else if t.hi == existing.lo then (kept, Interval(t.lo, existing.hi))
    else (kept + [existing], t)
  }

  lemma MergeStepKeeps(s: seq<Interval>, i: nat, original: Interval, kept: seq<Interval>, t: Interval)
    requires Canonical(s) && i < |s| && Merging(s, i, original, kept, t)
    ensures var r := MergeStep(s[i], kept, t); Merging(s, i + 1, original, r.0, r.1)
  {
    var r := MergeStep(s[i], kept, t);
    assert s[..i + 1] == s[..i] + [s[i]];
    forall x ensures Member(x, s[..i + 1]) || InInterval(x, original) <==> Member(x, r.0) || InInterval(x, r.1) {
      MemberOne(x, s[..i], s[i]);
      MemberOne(x, kept, s[i]);
    }
    assert Beside(s[i], t);
  }

  /** What the loop of a subtraction has left of the first intervals. */
  ghost predicate Cutting(s: seq<Interval>, i: nat, t: Interval, left: seq<Interval>) {
    && i <= |s| && Canonical(left)
    && (forall j, k :: 0 <= j < |left| && i <= k < |s| ==> left[j].hi < s[k].lo)
    && (forall x :: Member(x, left) <==> Member(x, s[..i]) && !InInterval(x, t))
  }

  function CutStep(existing: Interval, t: Interval): seq<Interval> {
    if !Overlap(existing, t) then [existing]
    else
      (if existing.lo < t.lo then [Interval(existing.lo, t.lo)] else []) +
      (if existing.hi > t.hi then [Interval(t.hi, existing.hi)] else [])
  }

  lemma CutMember(existing: Interval, t: Interval, x: nat)
    requires existing.lo < existing.hi && t.lo < t.hi
    ensures Canonical(CutStep(existing, t))
    ensures Member(x, CutStep(existing, t)) <==> InInterval(x, existing) && !InInterval(x, t)
    ensures forall j :: 0 <= j < |CutStep(existing, t)| ==>
              existing.lo <= CutStep(existing, t)[j].lo && CutStep(existing, t)[j].hi <= existing.hi
  {
    var cut := CutStep(existing, t);
    if InInterval(x, existing) && !InInterval(x, t) {
      if !Overlap(existing, t) || x < t.lo {
        assert InInterval(x, cut[0]);
      } else {
        assert InInterval(x, cut[|cut| - 1]);
      }
    }
  }

  lemma CutStepKeeps(s: seq<Interval>, i: nat, t: Interval, left: seq<Interval>)
    requires Canonical(s) && t.lo < t.hi && i < |s| && Cutting(s, i, t, left)
    ensures Cutting(s, i + 1, t, left + CutStep(s[i], t))
  {
    var cut := CutStep(s[i], t);
    CutMember(s[i], t, 0);
    assert s[..i + 1] == s[..i] + [s[i]];
    forall x ensures Member(x, left + cut) <==> Member(x, s[..i + 1]) && !InInterval(x, t) {
      MemberConcat(x, left, cut);
      CutMember(s[i], t, x);
      MemberOne(x, s[..i], s[i]);
    }
  }

  predicate Covered(a: seq<Interval>, t: Interval) {
    exists i :: 0 <= i < |a| && Contains(a[i], t)
  }

  /** `in` on lists of intervals. */
  predicate ContainsAll(a: seq<Interval>, b: seq<Interval>) {
    forall j :: 0 <= j < |b| ==> Covered(a, b[j])
  }

  ghost predicate Subset(a: seq<Interval>, b: seq<Interval>) {
    forall x :: Member(x, a) ==> Member(x, b)
  }

  /** Between canonical lists, containment of intervals is containment of sets. */
  lemma ContainsIffSubset(a: seq<Interval>, b: seq<Interval>)
    requires Canonical(a) && Canonical(b)
    ensures ContainsAll(a, b) <==> Subset(b, a)
  {
    if ContainsAll(a, b) {
      forall x | Member(x, b) ensures Member(x, a) {
        var j :| 0 <= j < |b| && InInterval(x, b[j]);
        assert Covered(a, b[j]);
        var i :| 0 <= i < |a| && Contains(a[i], b[j]);
        assert InInterval(x, a[i]);
      }
    }
    if Subset(b, a) {
      forall j | 0 <= j < |b| ensures Covered(a, b[j]) {
        SubsetCovers(a, b, j);
      }
    }
  }

  lemma SubsetCovers(a: seq<Interval>, b: seq<Interval>, j: nat)
    requires Canonical(a) && Canonical(b) && Subset(b, a) && j < |b|
    ensures Covered(a, b[j])
  {
    var lo := b[j].lo;
    assert InInterval(lo, b[j]);
    assert Member(lo, b);
    var i :| 0 <= i < |a| && InInterval(lo, a[i]);
    EndIsOutside(a, i);
    var end, t := a[i].hi, b[j];
    assert end < t.hi ==> InInterval(end, t);
    assert Contains(a[i], b[j]);
  }

  lemma EndIsOutside(a: seq<Interval>, i: nat)
    requires Canonical(a) && i < |a|
    ensures !Member(a[i].hi, a)
  {
  }

  /** Two canonical lists denote the same set only if they are the same list. */
  lemma {:induction false} SameSetSameList(a: seq<Interval>, b: seq<Interval>)
    requires Canonical(a) && Canonical(b) && forall x :: Member(x, a) <==> Member(x, b)
    ensures a == b
    decreases |a|
  {
    FirstIsMember(a);
    FirstIsMember(b);
    if a != [] && b != [] {
      SameFirst(a, b);
      forall x ensures Member(x, a[1..]) <==> Member(x, b[1..]) {
        MemberTail(a, x);
        MemberTail(b, x);
      }
      SameSetSameList(a[1..], b[1..]);
      assert a == [a[0]] + a[1..] && b == [b[0]] + b[1..];
    }
  }

  lemma FirstIsMember(a: seq<Interval>)
    requires Canonical(a)
    ensures a != [] ==> Member(a[0].lo, a)
  {
  }

  lemma MemberTail(a: seq<Interval>, x: nat)
    requires Canonical(a) && a != []
    ensures Member(x, a[1..]) <==> Member(x, a) && a[0].hi <= x
  {
  }

  lemma SameFirst(a: seq<Interval>, b: seq<Interval>)
    requires Canonical(a) && Canonical(b) && a != [] && b != [] && forall x :: Member(x, a) <==> Member(x, b)
    ensures a[0] == b[0]
  {
    FirstBelow(a, b);
    FirstBelow(b, a);
  }

  /** The first interval of a set starts no later than that of a subset, and extends no less far if they start
      together. */
  lemma FirstBelow(a: seq<Interval>, b: seq<Interval>)
    requires Canonical(a) && Canonical(b) && a != [] && b != [] && Subset(b, a)
    ensures a[0].lo <= b[0].lo
    ensures a[0].lo == b[0].lo ==> b[0].hi <= a[0].hi
  {
    assert InInterval(b[0].lo, b[0]);
    assert Member(b[0].lo, b);
    var i :| 0 <= i < |a| && InInterval(b[0].lo, a[i]);
    EndIsOutside(a, 0);
    var end, t := a[0].hi, b[0];
    assert t.lo <= end < t.hi ==> InInterval(end, t);
  }
}
