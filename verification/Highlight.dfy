/** Which positions of a text a query lights up. Texts and needles are folded already. */
module Highlight {

  import opened Options
  import opened Pinyin
  import opened Ranges

  ghost predicate Occurs(hay: string, needle: string, i: nat) {
    i + |needle| <= |hay| && hay[i..i + |needle|] == needle
  }

  ghost predicate IsFirst(hay: string, needle: string, from: nat, found: Option<nat>) {
    match found
    case None => forall i: nat :: from <= i ==> !Occurs(hay, needle, i)
    case Some(k) =>
      from <= k && Occurs(hay, needle, k) && forall i: nat :: from <= i < k ==> !Occurs(hay, needle, i)
  }

  /** The first occurrence from a position on. */
  method FindChars(hay: string, needle: string, from: nat) returns (r: Option<nat>)
    ensures needle == [] ==> r == Some(if from < |hay| then from else |hay|)
    ensures needle != [] ==> IsFirst(hay, needle, from, r)
  {
    if needle == [] {
      return Some(if from < |hay| then from else |hay|);
    }
    if |needle| > |hay| {
      return None;
    }
    var last := |hay| - |needle|;
    var i := from;
    while i <= last
      invariant from <= i
      invariant forall k: nat :: from <= k < i ==> !Occurs(hay, needle, k)
      decreases last - i
    {
      if hay[i..i + |needle|] == needle {
        return Some(i);
      }
      i := i + 1;
    }
    r := None;
  }

  /** A reading of `needle` in pinyin begins at `start`, at a character that counts, and ends at `end`. */
  ghost predicate Spelt(hay: string, needle: string, dict: Dict, start: nat, end: nat) {
    && start < end <= |hay| && IsQuery(needle) && Eligible(hay[start], dict)
    && exists pieces :: IsCut(hay[start..], NeedleChars(needle), dict, pieces) && start + |pieces| == end
  }

  /** A range that a needle gives: one of its occurrences or one of its readings. */
  ghost predicate Hit(hay: string, needle: string, dict: Dict, r: Range) {
    || (needle != [] && Occurs(hay, needle, r.start) && r.end == r.start + |needle|)
    || Spelt(hay, needle, dict, r.start, r.end)
  }

  /** A reading may begin here. */
  ghost predicate SpeltFrom(hay: string, needle: string, dict: Dict, s: nat) {
    && s < |hay| && IsQuery(needle) && (exists c :: c in hay && c in dict.byChar)
    && Eligible(hay[s], dict) && Matches(hay[s..], NeedleChars(needle), dict)
  }

  /** Every occurrence and every reading that begins before `upto` begins inside one of the ranges. */
  ghost predicate OccurrencesMet(hay: string, needle: string, ranges: seq<Range>, upto: nat) {
    forall s: nat :: s < upto && Occurs(hay, needle, s) ==> Covers(ranges, s)
  }

  ghost predicate ReadingsMet(hay: string, needle: string, dict: Dict, ranges: seq<Range>, upto: nat) {
    forall s: nat :: s < upto && SpeltFrom(hay, needle, dict, s) ==> Covers(ranges, s)
  }

  lemma CoversAppend(ranges: seq<Range>, r: Range)
    ensures forall x: nat :: Covers(ranges + [r], x) <==> Covers(ranges, x) || r.start <= x < r.end
  {
    var all := ranges + [r];
    forall x: nat ensures Covers(all, x) <==> Covers(ranges, x) || r.start <= x < r.end {
      if Covers(all, x) {
        var i :| 0 <= i < |all| && all[i].start <= x < all[i].end;
        assert i < |ranges| ==> ranges[i] == all[i];
      }
      if Covers(ranges, x) {
        var i :| 0 <= i < |ranges| && ranges[i].start <= x < ranges[i].end;
        assert all[i] == ranges[i];
      }
      assert all[|ranges|] == r;
    }
  }

  /** All ranges of one needle: hits only, and no hit begins outside of them. */
  method TokenRanges(hay: string, needle: string, dict: Dict) returns (ranges: seq<Range>)
    requires Sound(dict)
    ensures needle == [] ==> ranges == []
    ensures forall r :: r in ranges ==> Hit(hay, needle, dict, r)
    ensures needle != [] ==> OccurrencesMet(hay, needle, ranges, |hay|)
    ensures needle != [] ==> ReadingsMet(hay, needle, dict, ranges, |hay|)
  {
    ranges := [];
    if needle == [] {
      return;
    }
    ranges := Occurrences(hay, needle, dict);
    ranges := WithReadings(hay, needle, dict, ranges);
  }

  // ---------- occurrences that overlap ----------

  function FirstFrom(hay: string, needle: string, from: nat): (r: Option<nat>)
    ensures r.Some? ==> from <= r.value && r.value + |needle| <= |hay|
    decreases |hay| - from
  {
    if from + |needle| > |hay| then None
    else if hay[from..from + |needle|] == needle then Some(from)
    else FirstFrom(hay, needle, from + 1)
  }

  lemma {:induction false} FirstFromIs(hay: string, needle: string, from: nat, found: Option<nat>)
    requires IsFirst(hay, needle, from, found)
    ensures FirstFrom(hay, needle, from) == found
    decreases |hay| - from
  {
    if from + |needle| <= |hay| {
      if hay[from..from + |needle|] == needle {
        assert Occurs(hay, needle, from);
      } else {
        FirstFromIs(hay, needle, from + 1, found);
      }
    }
  }

  /** From the left, each occurrence that does not overlap the one taken before it. */
  function Starts(hay: string, needle: string, from: nat): seq<nat>
    requires needle != []
    decreases |hay| - from
  {
    match FirstFrom(hay, needle, from)
    case None => []
    case Some(i) => [i] + Starts(hay, needle, i + |needle|)
  }

  function RangesAt(starts: seq<nat>, length: nat): seq<Range> {
    seq(|starts|, i requires 0 <= i < |starts| => Range(starts[i], starts[i] + length))
  }

  lemma {:induction false} StartsApart(hay: string, needle: string, from: nat, i: nat, j: nat)
    requires needle != []
    requires i < |Starts(hay, needle, from)|
    ensures from <= Starts(hay, needle, from)[i]
    ensures i < j < |Starts(hay, needle, from)| ==> Starts(hay, needle, from)[i] + |needle| <= Starts(hay, needle, from)[j]
    decreases |hay| - from
  {
    var first := FirstFrom(hay, needle, from).value;
    if i > 0 {
      StartsApart(hay, needle, first + |needle|, i - 1, if j > 0 then j - 1 else 0);
    } else if j > 0 && j < |Starts(hay, needle, from)| {
      StartsApart(hay, needle, first + |needle|, j - 1, 0);
    }
  }

  lemma {:induction false} FirstIsNoLater(hay: string, needle: string, from: nat, s: nat)
    requires from <= s && Occurs(hay, needle, s)
    ensures FirstFrom(hay, needle, from).Some? && FirstFrom(hay, needle, from).value <= s
    decreases |hay| - from
  {
    if hay[from..from + |needle|] != needle {
      FirstIsNoLater(hay, needle, from + 1, s);
    }
  }

  /** Every occurrence begins inside one that is taken. */
  lemma {:induction false} StartsMeet(hay: string, needle: string, from: nat, s: nat) returns (i: nat)
    requires needle != [] && from <= s && Occurs(hay, needle, s)
    ensures var starts := Starts(hay, needle, from); i < |starts| && starts[i] <= s < starts[i] + |needle|
    decreases |hay| - from
  {
    FirstIsNoLater(hay, needle, from, s);
    var first := FirstFrom(hay, needle, from).value;
    if s < first + |needle| {
      i := 0;
    } else {
      i := StartsMeet(hay, needle, first + |needle|, s);
      i := i + 1;
    }
  }

  lemma CoveredByStart(starts: seq<nat>, length: nat, x: nat)
    ensures Covers(RangesAt(starts, length), x) <==> exists i :: 0 <= i < |starts| && starts[i] <= x < starts[i] + length
  {
    var ranges := RangesAt(starts, length);
    if Covers(ranges, x) {
      var i :| 0 <= i < |ranges| && ranges[i].start <= x < ranges[i].end;
      assert starts[i] <= x < starts[i] + length;
    }
    if i :| 0 <= i < |starts| && starts[i] <= x < starts[i] + length {
      assert ranges[i].start <= x < ranges[i].end;
    }
  }

  ghost predicate WhollyLit(ranges: seq<Range>, s: nat, length: nat) {
    forall x: nat :: s <= x < s + length ==> Covers(ranges, x)
  }

  /** An occurrence is lit whole by the occurrences of its needle exactly if it is one of those taken, or
      the one it begins inside is followed by the next at once. */
  lemma WhollyLitIff(hay: string, needle: string, s: nat)
    requires needle != [] && Occurs(hay, needle, s)
    ensures var starts := Starts(hay, needle, 0);
      WhollyLit(RangesAt(starts, |needle|), s, |needle|)
      <==> s in starts || exists i :: 0 <= i < |starts| - 1 && starts[i] < s < starts[i + 1] == starts[i] + |needle|
  {
    var starts, n := Starts(hay, needle, 0), |needle|;
    var ranges := RangesAt(starts, n);
    var i := StartsMeet(hay, needle, 0, s);
    if WhollyLit(ranges, s, n) && s !in starts {
      NextFollows(hay, needle, s, i);
    }
    forall x: nat | s <= x < s + n && (s in starts || exists k :: 0 <= k < |starts| - 1 && starts[k] < s < starts[k + 1] == starts[k] + n)
      ensures Covers(ranges, x)
    {
      CoveredByStart(starts, n, x);
      if s in starts {
        var k :| 0 <= k < |starts| && starts[k] == s;
      } else {
        var k :| 0 <= k < |starts| - 1 && starts[k] < s < starts[k + 1] == starts[k] + n;
        assert starts[k] <= x < starts[k] + n || starts[k + 1] <= x < starts[k + 1] + n;
      }
    }
  }

  /** An occurrence that is not: the second one here. */
  lemma OverlapStaysDark(hay: string, needle: string)
    requires hay == "aaa" && needle == "aa"
    ensures Occurs(hay, needle, 1) && !WhollyLit(RangesAt(Starts(hay, needle, 0), |needle|), 1, |needle|)
  {
    assert hay[0..2] == needle && hay[1..3] == needle;
    assert Starts(hay, needle, 0) == [0] + Starts(hay, needle, 2);
    assert Starts(hay, needle, 2) == [] && Starts(hay, needle, 0) == [0];
    CoveredByStart([0], |needle|, 2);
    assert !Covers(RangesAt([0], |needle|), 2);
  }

  lemma NextFollows(hay: string, needle: string, s: nat, i: nat)
    requires needle != []
    requires var starts := Starts(hay, needle, 0);
      i < |starts| && starts[i] < s < starts[i] + |needle| && WhollyLit(RangesAt(starts, |needle|), s, |needle|)
    ensures var starts := Starts(hay, needle, 0);
      i < |starts| - 1 && starts[i + 1] == starts[i] + |needle|
  {
    var starts, n := Starts(hay, needle, 0), |needle|;
    var x := starts[i] + n;
    assert Covers(RangesAt(starts, n), x);
    CoveredByStart(starts, n, x);
    var j :| 0 <= j < |starts| && starts[j] <= x < starts[j] + n;
    if j < i {
      StartsApart(hay, needle, 0, j, i);
    } else if j > i + 1 {
      StartsApart(hay, needle, 0, i, i + 1);
      StartsApart(hay, needle, 0, i + 1, j);
    } else if j == i + 1 {
      StartsApart(hay, needle, 0, i, j);
    }
  }

  /** The occurrences taken so far are all but those from `from` on. */
  ghost predicate Gathered(hay: string, needle: string, from: nat, ranges: seq<Range>)
    requires needle != []
  {
    RangesAt(Starts(hay, needle, 0), |needle|) == ranges + RangesAt(Starts(hay, needle, from), |needle|)
  }

  lemma GatherNext(hay: string, needle: string, from: nat, ranges: seq<Range>, start: nat)
    requires needle != [] && Gathered(hay, needle, from, ranges) && FirstFrom(hay, needle, from) == Some(start)
    ensures Gathered(hay, needle, start + |needle|, ranges + [Range(start, start + |needle|)])
  {
    var n := |needle|;
    var rest := Starts(hay, needle, start + n);
    RangesOfFirst(start, rest, n);
    Regroup(ranges, Range(start, start + n), RangesAt(rest, n));
  }

  lemma RangesOfFirst(start: nat, rest: seq<nat>, length: nat)
    ensures RangesAt([start] + rest, length) == [Range(start, start + length)] + RangesAt(rest, length)
  {
  }

  lemma Regroup<T>(a: seq<T>, x: T, b: seq<T>)
    ensures a + ([x] + b) == a + [x] + b
  {
  }

  lemma GatherAll(hay: string, needle: string, dict: Dict, from: nat, ranges: seq<Range>)
    requires needle != [] && Gathered(hay, needle, from, ranges) && FirstFrom(hay, needle, from).None?
    ensures ranges == RangesAt(Starts(hay, needle, 0), |needle|)
    ensures forall r :: r in ranges ==> Hit(hay, needle, dict, r)
    ensures OccurrencesMet(hay, needle, ranges, |hay|)
  {
    TakenAreHits(hay, needle, dict);
    TakenMeet(hay, needle);
  }

  lemma {:induction false} StartsOccur(hay: string, needle: string, from: nat, i: nat)
    requires needle != [] && i < |Starts(hay, needle, from)|
    ensures Occurs(hay, needle, Starts(hay, needle, from)[i])
    decreases |hay| - from
  {
    FirstOccurs(hay, needle, from);
    if i > 0 {
      StartsOccur(hay, needle, FirstFrom(hay, needle, from).value + |needle|, i - 1);
    }
  }

  lemma {:induction false} FirstOccurs(hay: string, needle: string, from: nat)
    ensures FirstFrom(hay, needle, from).Some? ==> Occurs(hay, needle, FirstFrom(hay, needle, from).value)
    decreases |hay| - from
  {
    if from + |needle| <= |hay| && hay[from..from + |needle|] != needle {
      FirstOccurs(hay, needle, from + 1);
    }
  }

  lemma TakenAreHits(hay: string, needle: string, dict: Dict)
    requires needle != []
    ensures forall r :: r in RangesAt(Starts(hay, needle, 0), |needle|) ==> Hit(hay, needle, dict, r)
  {
    var starts := Starts(hay, needle, 0);
    forall i | 0 <= i < |starts| ensures Hit(hay, needle, dict, RangesAt(starts, |needle|)[i]) {
      StartsOccur(hay, needle, 0, i);
    }
  }

  lemma TakenMeet(hay: string, needle: string)
    requires needle != []
    ensures OccurrencesMet(hay, needle, RangesAt(Starts(hay, needle, 0), |needle|), |hay|)
  {
    forall s: nat | Occurs(hay, needle, s) ensures Covers(RangesAt(Starts(hay, needle, 0), |needle|), s) {
      var i := StartsMeet(hay, needle, 0, s);
      CoveredByStart(Starts(hay, needle, 0), |needle|, s);
    }
  }

  method Occurrences(hay: string, needle: string, dict: Dict) returns (ranges: seq<Range>)
    requires needle != []
    ensures forall r :: r in ranges ==> Hit(hay, needle, dict, r)
    ensures OccurrencesMet(hay, needle, ranges, |hay|)
    ensures ranges == RangesAt(Starts(hay, needle, 0), |needle|)
  {
    ranges := [];
    var from := 0;
    var found := FindChars(hay, needle, from);
    FirstFromIs(hay, needle, from, found);
    while found.Some?
      invariant from <= |hay| && found == FirstFrom(hay, needle, from)
      invariant Gathered(hay, needle, from, ranges)
      decreases |hay| - from, found.Some?
    {
      var start := found.value;
      var end := start + |needle|;
      GatherNext(hay, needle, from, ranges, start);
      ranges := ranges + [Range(start, end)];
      from := if end > start + 1 then end else start + 1;
      if from > |hay| {
        break;
      }
      found := FindChars(hay, needle, from);
      FirstFromIs(hay, needle, from, found);
    }
    GatherAll(hay, needle, dict, from, ranges);
  }

  method WithReadings(hay: string, needle: string, dict: Dict, before: seq<Range>) returns (ranges: seq<Range>)
    requires Sound(dict) && needle != []
    requires forall r :: r in before ==> Hit(hay, needle, dict, r)
    requires OccurrencesMet(hay, needle, before, |hay|)
    ensures forall r :: r in ranges ==> Hit(hay, needle, dict, r)
    ensures OccurrencesMet(hay, needle, ranges, |hay|) && ReadingsMet(hay, needle, dict, ranges, |hay|)
  {
    ranges := before;
    var from := 0;
    var found := FindSpan(hay, needle, from, dict);
    SpanMeans(hay, needle, dict, from, found);
    while found.Some?
      invariant from <= |hay|
      invariant forall r :: r in ranges ==> Hit(hay, needle, dict, r)
      invariant OccurrencesMet(hay, needle, ranges, |hay|) && ReadingsMet(hay, needle, dict, ranges, from)
      invariant found.Some? ==> from <= found.value.0 && Spelt(hay, needle, dict, found.value.0, found.value.1)
      invariant NoReadingBetween(hay, needle, dict, from, if found.Some? then found.value.0 else |hay|)
      decreases |hay| - from, found.Some?
    {
      var (start, end) := found.value;
      CoversAppend(ranges, Range(start, end));
      ranges := ranges + [Range(start, end)];
      from := if end > start + 1 then end else start + 1;
      if from > |hay| {
        break;
      }
      found := FindSpan(hay, needle, from, dict);
      SpanMeans(hay, needle, dict, from, found);
    }
  }

  ghost predicate NoReadingBetween(hay: string, needle: string, dict: Dict, from: nat, upto: nat) {
    forall s: nat :: from <= s < upto ==> !SpeltFrom(hay, needle, dict, s)
  }

  /** What a search for a reading says about where readings begin. */
  lemma SpanMeans(hay: string, needle: string, dict: Dict, from: nat, found: Option<(nat, nat)>)
    requires found.Some? <==>
      && IsQuery(needle) && (exists c :: c in hay && c in dict.byChar)
      && exists s :: from <= s <= |hay| && Matches(hay[s..], NeedleChars(needle), dict)
    requires found.Some? ==>
      var (start, end) := found.value;
      && from <= start < end <= |hay| && Eligible(hay[start], dict)
      && (exists pieces :: IsCut(hay[start..], NeedleChars(needle), dict, pieces) && start + |pieces| == end)
      && (forall s :: from <= s < start ==> !(Eligible(hay[s], dict) && Matches(hay[s..], NeedleChars(needle), dict)))
    ensures found.Some? ==> Spelt(hay, needle, dict, found.value.0, found.value.1)
    ensures NoReadingBetween(hay, needle, dict, from, if found.Some? then found.value.0 else |hay|)
  {
  }

  /** Over all needles of a query: in merged form, nothing lit but hits, and no hit begins in the dark. */
  method SearchHighlightRanges(hay: string, needles: seq<string>, dict: Dict) returns (out: seq<Range>)
    requires Sound(dict)
    ensures Canonical(out)
    ensures forall x: nat :: Covers(out, x) ==>
      exists needle, r :: needle in needles && Hit(hay, needle, dict, r) && r.start <= x < r.end
    ensures forall needle :: needle in needles ==> Lit(hay, needle, dict, out)
  {
    var ranges: seq<Range> := [];
    for n := 0 to |needles|
      invariant forall r :: r in ranges ==> HitOfAny(hay, needles, dict, r)
      invariant forall k :: 0 <= k < n ==> Lit(hay, needles[k], dict, ranges)
    {
      var more := TokenRanges(hay, needles[n], dict);
      LitStays(hay, needles[..n], needles[n], dict, ranges, more);
      ranges := ranges + more;
    }
    out := MergeSearchRanges(ranges);
    MergedIsCanonical(ranges);
    forall x: nat | Covers(out, x)
      ensures exists needle, r :: needle in needles && Hit(hay, needle, dict, r) && r.start <= x < r.end
    {
      assert Covers(ranges, x);
      var i :| 0 <= i < |ranges| && ranges[i].start <= x < ranges[i].end;
      assert HitOfAny(hay, needles, dict, ranges[i]);
    }
    forall needle | needle in needles ensures Lit(hay, needle, dict, out) {
      var k :| 0 <= k < |needles| && needles[k] == needle;
      assert Lit(hay, needles[k], dict, ranges);
      assert forall x: nat :: Covers(ranges, x) ==> Covers(out, x);
    }
  }

  ghost predicate HitOfAny(hay: string, needles: seq<string>, dict: Dict, r: Range) {
    exists needle :: needle in needles && Hit(hay, needle, dict, r)
  }

  ghost predicate Lit(hay: string, needle: string, dict: Dict, ranges: seq<Range>) {
    needle != [] ==> OccurrencesMet(hay, needle, ranges, |hay|) && ReadingsMet(hay, needle, dict, ranges, |hay|)
  }

  lemma LitStays(hay: string, before: seq<string>, needle: string, dict: Dict, ranges: seq<Range>, more: seq<Range>)
    requires forall k :: 0 <= k < |before| ==> Lit(hay, before[k], dict, ranges)
    requires Lit(hay, needle, dict, more)
    ensures forall k :: 0 <= k < |before| ==> Lit(hay, before[k], dict, ranges + more)
    ensures Lit(hay, needle, dict, ranges + more)
  {
    forall x: nat ensures Covers(ranges, x) || Covers(more, x) ==> Covers(ranges + more, x) {
      CoversBoth(ranges, more, x);
    }
    forall k | 0 <= k < |before| ensures Lit(hay, before[k], dict, ranges + more) {
      assert Lit(hay, before[k], dict, ranges);
    }
  }

  lemma CoversBoth(a: seq<Range>, b: seq<Range>, x: nat)
    ensures Covers(a, x) || Covers(b, x) ==> Covers(a + b, x)
  {
    if Covers(a, x) {
      var i :| 0 <= i < |a| && a[i].start <= x < a[i].end;
      assert (a + b)[i] == a[i];
    }
    if Covers(b, x) {
      var i :| 0 <= i < |b| && b[i].start <= x < b[i].end;
      assert (a + b)[|a| + i] == b[i];
    }
  }
}
