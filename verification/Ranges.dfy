/** Highlight ranges brought into one form. */
module Ranges {

  import opened Arithmetic

  datatype Range = Range(start: nat, end: nat)

  predicate Before(a: Range, b: Range) {
    a.start < b.start || (a.start == b.start && a.end <= b.end)
  }

  predicate Sorted(ranges: seq<Range>) {
    forall i, j :: 0 <= i < j < |ranges| ==> Before(ranges[i], ranges[j])
  }

  function Proper(ranges: seq<Range>): seq<Range> {
    if ranges == [] then []
    else if ranges[0].end > ranges[0].start then [ranges[0]] + Proper(ranges[1..])
    else Proper(ranges[1..])
  }

  function Insert(r: Range, sorted: seq<Range>): seq<Range> {
    if sorted == [] || Before(r, sorted[0]) then [r] + sorted else [sorted[0]] + Insert(r, sorted[1..])
  }

  /** The library's sort by start, then by end. */
  function Sort(ranges: seq<Range>): seq<Range> {
    if ranges == [] then [] else Insert(ranges[0], Sort(ranges[1..]))
  }

  /** Merging what is left into the last range so far. */
  function MergeFrom(last: Range, rest: seq<Range>): (merged: seq<Range>)
    ensures merged != [] && merged[0].start == last.start
    decreases |rest|
  {
    if rest == [] then [last]
    else if rest[0].start <= last.end then MergeFrom(Range(last.start, Max(last.end, rest[0].end)), rest[1..])
    else [last] + MergeFrom(rest[0], rest[1..])
  }

  function Merged(ranges: seq<Range>): seq<Range> {
    var sorted := Sort(Proper(ranges));
    if sorted == [] then [] else MergeFrom(sorted[0], sorted[1..])
  }

  method MergeSearchRanges(ranges: seq<Range>) returns (out: seq<Range>)
    ensures out == Merged(ranges)
  {
    var sorted := Sort(Proper(ranges));
    if sorted == [] {
      return [];
    }
    out := [sorted[0]];
    for i := 1 to |sorted|
      invariant out != []
      invariant Merged(ranges) == out[..|out| - 1] + MergeFrom(out[|out| - 1], sorted[i..])
    {
      var cur, last := sorted[i], out[|out| - 1];
      assert sorted[i..][1..] == sorted[i + 1..];
      if cur.start <= last.end {
        out := out[|out| - 1 := Range(last.start, Max(last.end, cur.end))];
      } else {
        assert out[..|out| - 1] + ([last] + MergeFrom(cur, sorted[i + 1..])) == out + MergeFrom(cur, sorted[i + 1..]);
        out := out + [cur];
      }
    }
    assert out == out[..|out| - 1] + [out[|out| - 1]];
  }

  // ---------- the form ----------

  ghost predicate Covers(ranges: seq<Range>, x: nat) {
    exists i :: 0 <= i < |ranges| && ranges[i].start <= x < ranges[i].end
  }

  ghost predicate SameCover(a: seq<Range>, b: seq<Range>) {
    forall x: nat :: Covers(a, x) <==> Covers(b, x)
  }

  /** No empty range, in order, and a position between any two neighbours that neither touches. */
  predicate Canonical(ranges: seq<Range>) {
    && (forall i :: 0 <= i < |ranges| ==> ranges[i].start < ranges[i].end)
    && (forall i, j :: 0 <= i < j < |ranges| ==> ranges[i].end < ranges[j].start)
  }

  lemma CoversSplit(r: Range, rest: seq<Range>, x: nat)
    ensures Covers([r] + rest, x) <==> r.start <= x < r.end || Covers(rest, x)
  {
    var all := [r] + rest;
    if r.start <= x < r.end {
      assert all[0] == r;
    }
    if Covers(rest, x) {
      var i :| 0 <= i < |rest| && rest[i].start <= x < rest[i].end;
      assert all[i + 1] == rest[i];
    }
    if Covers(all, x) && !(r.start <= x < r.end) {
      var i :| 0 <= i < |all| && all[i].start <= x < all[i].end;
      assert all[i] == rest[i - 1];
    }
  }

  lemma CoversFirst(ranges: seq<Range>, x: nat)
    requires ranges != []
    ensures Covers(ranges, x) <==> ranges[0].start <= x < ranges[0].end || Covers(ranges[1..], x)
  {
  }

  lemma {:induction false} ProperCovers(ranges: seq<Range>, x: nat)
    ensures Covers(Proper(ranges), x) <==> Covers(ranges, x)
    ensures forall r :: r in Proper(ranges) ==> r.start < r.end
  {
    if ranges != [] {
      ProperCovers(ranges[1..], x);
      CoversFirst(ranges, x);
      CoversSplit(ranges[0], Proper(ranges[1..]), x);
    }
  }

  lemma SortedBehind(first: Range, rest: seq<Range>)
    requires Sorted(rest) && forall r :: r in rest ==> Before(first, r)
    ensures Sorted([first] + rest)
  {
  }

  lemma {:induction false} InsertCovers(r: Range, sorted: seq<Range>, x: nat)
    requires Sorted(sorted)
    ensures Sorted(Insert(r, sorted))
    ensures Covers(Insert(r, sorted), x) <==> r.start <= x < r.end || Covers(sorted, x)
    ensures forall s :: s in Insert(r, sorted) <==> s == r || s in sorted
  {
    CoversSplit(r, sorted, x);
    if sorted != [] && !Before(r, sorted[0]) {
      InsertCovers(r, sorted[1..], x);
      CoversFirst(sorted, x);
      CoversSplit(sorted[0], Insert(r, sorted[1..]), x);
      assert forall s :: s in sorted <==> s == sorted[0] || s in sorted[1..];
      SortedBehind(sorted[0], Insert(r, sorted[1..]));
    } else {
      SortedBehind(r, sorted);
    }
  }

  lemma {:induction false} SortCovers(ranges: seq<Range>, x: nat)
    ensures Sorted(Sort(ranges))
    ensures Covers(Sort(ranges), x) <==> Covers(ranges, x)
    ensures forall s :: s in Sort(ranges) <==> s in ranges
  {
    if ranges != [] {
      SortCovers(ranges[1..], x);
      InsertCovers(ranges[0], Sort(ranges[1..]), x);
      CoversFirst(ranges, x);
    }
  }

  lemma TailSorted(rest: seq<Range>)
    requires Sorted(rest) && rest != []
    ensures Sorted(rest[1..]) && forall r :: r in rest[1..] ==> rest[0].start <= r.start
  {
  }

  lemma {:induction false} MergeCovers(last: Range, rest: seq<Range>, x: nat)
    requires last.start < last.end && Sorted(rest)
    requires forall r :: r in rest ==> r.start < r.end && last.start <= r.start
    ensures Covers(MergeFrom(last, rest), x) <==> last.start <= x < last.end || Covers(rest, x)
    decreases |rest|
  {
    if rest == [] {
      CoversSplit(last, [], x);
      assert [last] + [] == [last];
    } else {
      var cur := rest[0];
      TailSorted(rest);
      CoversFirst(rest, x);
      if cur.start <= last.end {
        MergeCovers(Range(last.start, Max(last.end, cur.end)), rest[1..], x);
      } else {
        MergeCovers(cur, rest[1..], x);
        CoversSplit(last, MergeFrom(cur, rest[1..]), x);
      }
    }
  }

  lemma {:induction false} MergeIsCanonical(last: Range, rest: seq<Range>)
    requires last.start < last.end && Sorted(rest)
    requires forall r :: r in rest ==> r.start < r.end && last.start <= r.start
    ensures Canonical(MergeFrom(last, rest))
    decreases |rest|
  {
    if rest != [] {
      var cur := rest[0];
      TailSorted(rest);
      if cur.start <= last.end {
        MergeIsCanonical(Range(last.start, Max(last.end, cur.end)), rest[1..]);
      } else {
        MergeIsCanonical(cur, rest[1..]);
        FarApart(last, MergeFrom(cur, rest[1..]));
      }
    }
  }

  lemma FarApart(last: Range, tail: seq<Range>)
    requires Canonical(tail) && tail != [] && last.start < last.end < tail[0].start
    ensures Canonical([last] + tail)
  {
  }

  /** The merged ranges have the form and cover exactly what the non-empty ranges cover. */
  lemma MergedIsCanonical(ranges: seq<Range>)
    ensures Canonical(Merged(ranges)) && SameCover(Merged(ranges), ranges)
  {
    forall x: nat ensures Covers(Merged(ranges), x) <==> Covers(ranges, x) {
      MergedCovers(ranges, x);
    }
    MergedCovers(ranges, 0);
  }

  lemma MergedCovers(ranges: seq<Range>, x: nat)
    ensures Covers(Merged(ranges), x) <==> Covers(ranges, x)
    ensures Canonical(Merged(ranges))
  {
    var kept := Proper(ranges);
    var sorted := Sort(kept);
    ProperCovers(ranges, x);
    SortCovers(kept, x);
    if sorted != [] {
      TailSorted(sorted);
      MergeCovers(sorted[0], sorted[1..], x);
      MergeIsCanonical(sorted[0], sorted[1..]);
      CoversFirst(sorted, x);
    }
  }

  /** There is only one list of this form for what it covers. */
  lemma {:induction false} CanonicalIsUnique(a: seq<Range>, b: seq<Range>)
    requires Canonical(a) && Canonical(b) && SameCover(a, b)
    ensures a == b
    decreases |a|
  {
    FirstIsCovered(a);
    FirstIsCovered(b);
    if a != [] {
      FirstAgrees(a, b);
      FirstAgrees(b, a);
      TailsAgree(a, b);
      CanonicalIsUnique(a[1..], b[1..]);
      assert a == [a[0]] + a[1..] && b == [b[0]] + b[1..];
    }
  }

  lemma FirstIsCovered(a: seq<Range>)
    requires Canonical(a)
    ensures a != [] ==> Covers(a, a[0].start)
  {
  }

  lemma FirstAgrees(a: seq<Range>, b: seq<Range>)
    requires Canonical(a) && Canonical(b) && SameCover(a, b) && a != [] && b != []
    ensures b[0].start <= a[0].start
    ensures b[0].start == a[0].start ==> a[0].end <= b[0].end
  {
    assert Covers(a, a[0].start);
    var i :| 0 <= i < |b| && b[i].start <= a[0].start < b[i].end;
    assert b[0].start <= b[i].start;
    EndIsFree(b);
    InsideIsCovered(a, b[0].end);
  }

  lemma EndIsFree(a: seq<Range>)
    requires Canonical(a) && a != []
    ensures !Covers(a, a[0].end)
  {
  }

  lemma InsideIsCovered(a: seq<Range>, x: nat)
    requires a != []
    ensures a[0].start <= x < a[0].end ==> Covers(a, x)
  {
  }

  lemma TailsAgree(a: seq<Range>, b: seq<Range>)
    requires Canonical(a) && Canonical(b) && SameCover(a, b) && a != [] && b != [] && a[0] == b[0]
    ensures SameCover(a[1..], b[1..])
  {
    forall x: nat ensures Covers(a[1..], x) <==> Covers(b[1..], x) {
      CoversFirst(a, x);
      CoversFirst(b, x);
      BehindFirst(a, x);
      BehindFirst(b, x);
      assert Covers(a, x) <==> Covers(b, x);
    }
  }

  lemma BehindFirst(a: seq<Range>, x: nat)
    requires Canonical(a) && a != []
    ensures Covers(a[1..], x) ==> a[0].end < x
  {
  }

  /** The result depends only on the positions covered: not on the order of the ranges, not on
      repeats, and merging again changes nothing. */
  lemma MergedDependsOnCover(a: seq<Range>, b: seq<Range>)
    requires SameCover(a, b)
    ensures Merged(a) == Merged(b)
  {
    MergedIsCanonical(a);
    MergedIsCanonical(b);
    forall x: nat ensures Covers(Merged(a), x) <==> Covers(Merged(b), x) {
      assert Covers(a, x) <==> Covers(b, x);
    }
    CanonicalIsUnique(Merged(a), Merged(b));
  }

  lemma OrderDoesNotMatter(a: seq<Range>, b: seq<Range>)
    requires multiset(a) == multiset(b)
    ensures Merged(a) == Merged(b)
  {
    forall x: nat ensures Covers(a, x) <==> Covers(b, x) {
      if Covers(a, x) {
        SameRangesCover(a, b, x);
      }
      if Covers(b, x) {
        SameRangesCover(b, a, x);
      }
    }
    MergedDependsOnCover(a, b);
  }

  lemma SameRangesCover(a: seq<Range>, b: seq<Range>, x: nat)
    requires multiset(a) == multiset(b) && Covers(a, x)
    ensures Covers(b, x)
  {
    var i :| 0 <= i < |a| && a[i].start <= x < a[i].end;
    assert a[i] in multiset(b);
    var j :| 0 <= j < |b| && b[j] == a[i];
  }

  lemma MergingIsIdempotent(ranges: seq<Range>)
    ensures Merged(Merged(ranges)) == Merged(ranges)
  {
    MergedIsCanonical(ranges);
    MergedDependsOnCover(Merged(ranges), ranges);
  }
}
