/** Facts about the hit index that do not depend on how it is reached. */
module WindowFacts {

  import opened Arithmetic
  import opened Options
  import opened Ring
  import opened Windows

  ghost predicate Ascending(hits: seq<Hit>) {
    forall i, j :: 0 <= i < j < |hits| ==> hits[i].n < hits[j].n
  }

  ghost predicate AllBelow(hits: seq<Hit>, n: nat) {
    forall i :: 0 <= i < |hits| ==> hits[i].n < n
  }

  ghost predicate AllFrom(hits: seq<Hit>, n: nat) {
    forall i :: 0 <= i < |hits| ==> n <= hits[i].n
  }

  // ---------- records that a window has not been shown ----------

  /** Numbers that passed a window by: everything below `floor`, and from `lo` up to `hi`. */
  datatype Blind = Blind(floor: nat, lo: nat, hi: nat)

  const NONE_MISSED := Blind(0, 0, 0)

  predicate Misses(blind: Blind, n: nat) {
    n < blind.floor || blind.lo <= n < blind.hi
  }

  function Seen(buf: seq<Record>, blind: Blind): seq<Record> {
    if buf == [] then []
    else if Misses(blind, buf[0].seq_) then Seen(buf[1..], blind)
    else [buf[0]] + Seen(buf[1..], blind)
  }

  /** The index of what was seen. */
  function IndexBut(buf: seq<Record>, w: Window, sig: Test, blind: Blind): seq<Hit> {
    Index(Seen(buf, blind), w.fromSeq, w.filter, sig)
  }

  lemma {:induction false} SeenAppend(a: seq<Record>, b: seq<Record>, blind: Blind)
    ensures Seen(a + b, blind) == Seen(a, blind) + Seen(b, blind)
  {
    if a == [] {
      assert a + b == b;
    } else {
      assert (a + b)[1..] == a[1..] + b;
      SeenAppend(a[1..], b, blind);
    }
  }

  lemma {:induction false} MatchingAppend(a: seq<Record>, b: seq<Record>, from: nat, filter: Test)
    ensures Matching(a + b, from, filter) == Matching(a, from, filter) + Matching(b, from, filter)
  {
    if a == [] {
      assert a + b == b;
    } else {
      assert (a + b)[1..] == a[1..] + b;
      MatchingAppend(a[1..], b, from, filter);
    }
  }

  lemma IndexAppend(a: seq<Record>, b: seq<Record>, w: Window, sig: Test, blind: Blind)
    ensures IndexBut(a + b, w, sig, blind) == IndexBut(a, w, sig, blind) + IndexBut(b, w, sig, blind)
  {
    SeenAppend(a, b, blind);
    MatchingAppend(Seen(a, blind), Seen(b, blind), w.fromSeq, w.filter);
  }

  lemma IndexOne(line: Record, w: Window, sig: Test, blind: Blind)
    ensures IndexBut([line], w, sig, blind) ==
            if Wants(w.fromSeq, w.filter, line) && !Misses(blind, line.seq_) then [HitOf(line, sig)] else []
  {
    assert [line][1..] == [];
    assert Seen([line], blind) == if Misses(blind, line.seq_) then [] else [line];
    assert Matching([line], w.fromSeq, w.filter) == if Wants(w.fromSeq, w.filter, line) then [line] else [];
  }

  /** What is missed or not wanted takes nothing away from the order. */
  lemma {:induction false} IndexBounds(r: State, i: nat, j: nat, w: Window, sig: Test, blind: Blind)
    requires Valid(r) && i <= j <= |r.buf|
    ensures var hits := IndexBut(r.buf[i..j], w, sig, blind);
      Ascending(hits) && AllFrom(hits, Oldest(r) + i) && AllBelow(hits, Oldest(r) + j) && |hits| <= j - i
    decreases j - i
  {
    if i < j {
      IndexBounds(r, i + 1, j, w, sig, blind);
      assert r.buf[i..j] == [r.buf[i]] + r.buf[i + 1..j];
      IndexAppend([r.buf[i]], r.buf[i + 1..j], w, sig, blind);
      IndexOne(r.buf[i], w, sig, blind);
    }
  }

  lemma {:induction false} SameSeen(buf: seq<Record>, a: Blind, b: Blind)
    requires forall line :: line in buf ==> (Misses(a, line.seq_) <==> Misses(b, line.seq_))
    ensures Seen(buf, a) == Seen(buf, b)
  {
    if buf != [] {
      assert buf[0] in buf && forall line :: line in buf[1..] ==> line in buf;
      SameSeen(buf[1..], a, b);
    }
  }

  lemma {:induction false} NoneMissed(buf: seq<Record>)
    ensures Seen(buf, NONE_MISSED) == buf
  {
    if buf != [] {
      NoneMissed(buf[1..]);
      assert buf == [buf[0]] + buf[1..];
    }
  }

  lemma {:induction false} AllMissed(buf: seq<Record>, blind: Blind)
    requires forall line :: line in buf ==> Misses(blind, line.seq_)
    ensures Seen(buf, blind) == []
  {
    if buf != [] {
      assert buf[0] in buf && forall line :: line in buf[1..] ==> line in buf;
      AllMissed(buf[1..], blind);
    }
  }

  /** The window has been shown every record of the ring that it wants. */
  ghost predicate Shown(w: Window, buf: seq<Record>, blind: Blind) {
    forall line :: line in buf && Wants(w.fromSeq, w.filter, line) ==> !Misses(blind, line.seq_)
  }

  lemma {:induction false} ShownMatches(w: Window, buf: seq<Record>, blind: Blind)
    ensures |Matching(Seen(buf, blind), w.fromSeq, w.filter)| <= |Matching(buf, w.fromSeq, w.filter)|
    ensures Matching(Seen(buf, blind), w.fromSeq, w.filter) == Matching(buf, w.fromSeq, w.filter)
            <==> Shown(w, buf, blind)
  {
    if buf != [] {
      ShownMatches(w, buf[1..], blind);
      var first := buf[0];
      assert Shown(w, buf, blind) <==>
        Shown(w, buf[1..], blind) && (Wants(w.fromSeq, w.filter, first) ==> !Misses(blind, first.seq_)) by {
        assert forall line :: line in buf <==> line == first || line in buf[1..];
      }
      if !Misses(blind, first.seq_) {
        var rest := Seen(buf[1..], blind);
        assert Seen(buf, blind) == [first] + rest && ([first] + rest)[1..] == rest;
        if Wants(w.fromSeq, w.filter, first) {
          SameRest(first, Matching(rest, w.fromSeq, w.filter), Matching(buf[1..], w.fromSeq, w.filter));
        }
      }
    }
  }

  lemma SameRest<T>(first: T, a: seq<T>, b: seq<T>)
    ensures [first] + a == [first] + b <==> a == b
  {
    if [first] + a == [first] + b {
      assert a == ([first] + a)[1..] == ([first] + b)[1..] == b;
    }
  }

  /** Hits tell which records they came from. */
  lemma SameHits(w: Window, buf: seq<Record>, sig: Test, blind: Blind)
    ensures IndexBut(buf, w, sig, blind) == Index(buf, w.fromSeq, w.filter, sig) <==> Shown(w, buf, blind)
  {
    ShownMatches(w, buf, blind);
    if !Shown(w, buf, blind) {
      FewerMatch(w, buf, blind);
    }
  }

  lemma {:induction false} FewerMatch(w: Window, buf: seq<Record>, blind: Blind)
    requires !Shown(w, buf, blind)
    ensures |Matching(Seen(buf, blind), w.fromSeq, w.filter)| < |Matching(buf, w.fromSeq, w.filter)|
  {
    var line :| line in buf && Wants(w.fromSeq, w.filter, line) && Misses(blind, line.seq_);
    ShownMatches(w, buf[1..], blind);
    if Misses(blind, buf[0].seq_) && Wants(w.fromSeq, w.filter, buf[0]) {
    } else {
      assert line in buf[1..];
      FewerMatch(w, buf[1..], blind);
      if !Misses(blind, buf[0].seq_) {
        assert ([buf[0]] + Seen(buf[1..], blind))[1..] == Seen(buf[1..], blind);
      }
    }
  }

  lemma {:induction false} DropPrefix(a: seq<Hit>, b: seq<Hit>, oldest: nat)
    requires AllBelow(a, oldest) && AllFrom(b, oldest)
    ensures DropBefore(a + b, oldest) == b
  {
    if a == [] {
      assert a + b == b;
    } else {
      assert (a + b)[1..] == a[1..] + b;
      DropPrefix(a[1..], b, oldest);
    }
  }

  /** Evicting the first `k` records from the ring and dropping their hits is the same thing. */
  lemma {:induction false} DropIndex(r: State, k: nat, w: Window, sig: Test, blind: Blind)
    requires Valid(r) && k <= |r.buf|
    ensures DropBefore(IndexBut(r.buf, w, sig, blind), Oldest(r) + k) == IndexBut(r.buf[k..], w, sig, blind)
  {
    assert r.buf == r.buf[0..k] + r.buf[k..|r.buf|] && r.buf[k..|r.buf|] == r.buf[k..];
    IndexAppend(r.buf[0..k], r.buf[k..], w, sig, blind);
    IndexBounds(r, 0, k, w, sig, blind);
    IndexBounds(r, k, |r.buf|, w, sig, blind);
    DropPrefix(IndexBut(r.buf[0..k], w, sig, blind), IndexBut(r.buf[k..], w, sig, blind), Oldest(r) + k);
  }

  lemma {:induction false} DropTwice(hits: seq<Hit>, a: nat, b: nat)
    requires a <= b
    ensures DropBefore(DropBefore(hits, a), b) == DropBefore(hits, b)
  {
    if hits != [] && hits[0].n < a {
      DropTwice(hits[1..], a, b);
    }
  }

  lemma {:induction false} DropIsSuffix(hits: seq<Hit>, oldest: nat)
    ensures var kept := DropBefore(hits, oldest);
      |kept| <= |hits| && kept == hits[|hits| - |kept|..] && AllBelow(hits[..|hits| - |kept|], oldest)
  {
    if hits != [] && hits[0].n < oldest {
      DropIsSuffix(hits[1..], oldest);
      var kept := DropBefore(hits, oldest);
      assert hits[..|hits| - |kept|] == [hits[0]] + hits[1..][..|hits| - 1 - |kept|];
    }
  }

  lemma {:induction false} SignalsFollowDrop(hits: seq<Hit>, oldest: nat)
    ensures SignalsAfterDrop(hits, SignalCount(hits), oldest) == SignalCount(DropBefore(hits, oldest))
  {
    if hits != [] && hits[0].n < oldest {
      SignalsFollowDrop(hits[1..], oldest);
    }
  }

  lemma {:induction false} SignalsAtMostHits(hits: seq<Hit>)
    ensures SignalCount(hits) <= |hits|
  {
    if hits != [] {
      SignalsAtMostHits(hits[1..]);
    }
  }

  // ---------- a window against its ring ----------

  /** The hits are what filtering the ring gives, apart from what was missed. */
  ghost predicate Exact(w: Window, r: State, sig: Test, blind: Blind) {
    w.hits == IndexBut(r.buf, w, sig, blind) && BlindBelow(blind, r.next)
  }

  /** The hits are a prefix the ring has evicted, then exactly that. */
  ghost predicate Tracks(w: Window, r: State, sig: Test, blind: Blind)
    requires |r.buf| <= r.next
  {
    && DropBefore(w.hits, Oldest(r)) == IndexBut(r.buf, w, sig, blind)
    && Ascending(w.hits) && AllBelow(w.hits, r.next) && BlindBelow(blind, r.next)
  }

  predicate BlindBelow(blind: Blind, next: nat) {
    blind.floor <= next && blind.hi <= next
  }

  /** The signal counter is right, and neither it nor the number of pending hits is past 32 bits. */
  predicate Counts(w: Window) {
    w.signals == SignalCount(w.hits) && |w.hits| <= U32_MAX
  }

  lemma DropNone(hits: seq<Hit>, oldest: nat)
    requires AllFrom(hits, oldest)
    ensures DropBefore(hits, oldest) == hits
  {
  }

  lemma ExactTracks(w: Window, r: State, sig: Test, blind: Blind)
    requires Valid(r) && Exact(w, r, sig, blind)
    ensures Tracks(w, r, sig, blind) && |w.hits| <= |r.buf|
  {
    assert r.buf[0..|r.buf|] == r.buf;
    IndexBounds(r, 0, |r.buf|, w, sig, blind);
    DropNone(w.hits, Oldest(r));
  }

  /** A window that tracks its ring is the filtered ring behind its stale prefix exactly if it has been
      shown all it wants. */
  lemma TracksFilterIff(w: Window, r: State, sig: Test, blind: Blind)
    requires Valid(r) && Tracks(w, r, sig, blind)
    ensures DropBefore(w.hits, Oldest(r)) == Index(r.buf, w.fromSeq, w.filter, sig) <==> Shown(w, r.buf, blind)
  {
    SameHits(w, r.buf, sig, blind);
  }

  /** What one record does to a window of its serial. */
  function Fed(w: Window, r: State, b: Body, sig: Test): Window
    requires |r.buf| <= r.next
  {
    var e := Evicted(w, Oldest(Pushed(r, b)));
    if w.filter(b) && w.fromSeq <= r.next then Admitted(e, r.next, sig(b)) else e
  }

  /** A push evicts `k` records and adds one. */
  lemma PushedSplits(r: State, b: Body, w: Window, sig: Test, blind: Blind)
    requires Valid(r) && Valid(Pushed(r, b))
    ensures var u := Pushed(r, b);
      IndexBut(u.buf, w, sig, blind)
      == DropBefore(IndexBut(r.buf, w, sig, blind), Oldest(u)) + IndexBut([Record(r.next, b)], w, sig, blind)
  {
    var u, line := Pushed(r, b), Record(r.next, b);
    var k := |r.buf| + 1 - |u.buf|;
    assert u.buf == r.buf[k..] + [line];
    DropIndex(r, k, w, sig, blind);
    IndexAppend(r.buf[k..], [line], w, sig, blind);
  }

  lemma FedHits(w: Window, r: State, b: Body, sig: Test, blind: Blind)
    requires Valid(r) && Tracks(w, r, sig, blind) && Valid(Pushed(r, b))
    ensures Exact(Fed(w, r, b, sig), Pushed(r, b), sig, blind)
  {
    PushedSplits(r, b, w, sig, blind);
    DropTwice(w.hits, Oldest(r), Oldest(Pushed(r, b)));
    IndexOne(Record(r.next, b), w, sig, blind);
  }

  /** One emit leaves no stale prefix, and misses nothing more. */
  lemma FedIsExact(w: Window, r: State, b: Body, sig: Test, blind: Blind)
    requires Valid(r) && Tracks(w, r, sig, blind)
    ensures Valid(Pushed(r, b))
    ensures var u := Fed(w, r, b, sig); Exact(u, Pushed(r, b), sig, blind) && Tracks(u, Pushed(r, b), sig, blind)
  {
    OperationsKeepValid(r, b, 0);
    FedHits(w, r, b, sig, blind);
    ExactTracks(Fed(w, r, b, sig), Pushed(r, b), sig, blind);
  }

  /** In a ring within 32 bits it keeps the counter right as well. */
  lemma FedCounts(w: Window, r: State, b: Body, sig: Test, blind: Blind)
    requires Valid(r) && Tracks(w, r, sig, blind) && Counts(w) && r.capacity <= U32_MAX
    ensures Counts(Fed(w, r, b, sig))
  {
    FedIsExact(w, r, b, sig, blind);
    ExactTracks(Fed(w, r, b, sig), Pushed(r, b), sig, blind);
    var hit := Hit(r.next, sig(b));
    var kept := DropBefore(w.hits, Oldest(Pushed(r, b)));
    SignalsFollowDrop(w.hits, Oldest(Pushed(r, b)));
    SignalCountAppend(kept, [hit]);
    assert SignalCount([hit]) == if hit.signal then 1 else 0 by { assert [hit][1..] == []; }
    SignalsAtMostHits(Fed(w, r, b, sig).hits);
  }

  /** A record that passes by a window which is being bound: the window misses it. */
  lemma PassedByTracks(w: Window, r: State, b: Body, sig: Test, lo: nat)
    requires Valid(r) && lo <= r.next && Tracks(w, r, sig, Blind(0, lo, r.next))
    ensures Valid(Pushed(r, b)) && Tracks(w, Pushed(r, b), sig, Blind(0, lo, r.next + 1))
  {
    OperationsKeepValid(r, b, 0);
    var before, after := Blind(0, lo, r.next), Blind(0, lo, r.next + 1);
    PushedSplits(r, b, w, sig, after);
    SameSeen(r.buf, before, after);
    DropTwice(w.hits, Oldest(r), Oldest(Pushed(r, b)));
    IndexOne(Record(r.next, b), w, sig, after);
    var kept := DropBefore(w.hits, Oldest(Pushed(r, b)));
    assert kept + [] == kept;
  }

  /** A smaller ring leaves at most a stale prefix. */
  lemma ResizedTracks(w: Window, r: State, capacity: nat, sig: Test, blind: Blind)
    requires Valid(r) && Tracks(w, r, sig, blind)
    ensures Valid(Resized(r, capacity)) && Tracks(w, Resized(r, capacity), sig, blind)
  {
    var u := Resized(r, capacity);
    OperationsKeepValid(r, Body("", 0, 0, None, None, ' ', "", ""), capacity);
    var k := |r.buf| - |u.buf|;
    assert u.buf == r.buf[k..];
    DropTwice(w.hits, Oldest(r), Oldest(u));
    DropIndex(r, k, w, sig, blind);
  }

  /** An emptied ring leaves nothing but one. */
  lemma EmptiedTracks(w: Window, r: State, sig: Test, blind: Blind)
    requires Valid(r) && Tracks(w, r, sig, blind)
    ensures Valid(Cleared(r)) && Tracks(w, Cleared(r), sig, blind)
  {
    DropPrefix(w.hits, [], r.next);
    assert w.hits + [] == w.hits;
  }

  /** A window that is emptied misses whatever the ring holds at that moment. */
  lemma ForgottenIsExact(w: Window, r: State, sig: Test, blind: Blind)
    requires Valid(r) && BlindBelow(blind, r.next)
    ensures var u := w.(hits := [], signals := 0); var after := blind.(floor := r.next);
      Exact(u, r, sig, after) && Tracks(u, r, sig, after)
      && (Shown(u, r.buf, after) <==> forall line :: line in r.buf ==> !Wants(w.fromSeq, w.filter, line))
  {
    AllMissed(r.buf, blind.(floor := r.next));
    ExactTracks(w.(hits := [], signals := 0), r, sig, blind.(floor := r.next));
  }

  /** What binding reads out of the ring; nothing has passed the window by yet. */
  lemma BoundIsExact(spec: BindSpec, r: State, sig: Test)
    requires Valid(r)
    ensures var w, blind := Bound(spec, r.buf, sig), Blind(0, r.next, r.next);
      Exact(w, r, sig, blind) && Tracks(w, r, sig, blind) && Shown(w, r.buf, blind)
    ensures r.capacity <= U32_MAX ==> Counts(Bound(spec, r.buf, sig))
  {
    var w := Bound(spec, r.buf, sig);
    NoneMissed(r.buf);
    SameSeen(r.buf, NONE_MISSED, Blind(0, r.next, r.next));
    ExactTracks(w, r, sig, Blind(0, r.next, r.next));
    SignalsAtMostHits(w.hits);
  }

  lemma {:induction false} AllSignals(hits: seq<Hit>)
    requires forall i :: 0 <= i < |hits| ==> hits[i].signal
    ensures SignalCount(hits) == |hits|
  {
    if hits != [] {
      AllSignals(hits[1..]);
    }
  }

  // ---------- pages ----------

  ghost predicate Retained(r: State, line: Record)
    requires |r.buf| <= r.next
  {
    Oldest(r) <= line.seq_ < r.next && r.buf[line.seq_ - Oldest(r)] == line
  }

  lemma {:induction false} FindHits(r: State, lines: seq<Record>, sig: Test)
    requires Valid(r) && forall line :: line in lines ==> Retained(r, line)
    ensures FindAll(r.buf, Numbers(HitsOf(lines, sig))) == lines
  {
    if lines == [] {
      assert Numbers(HitsOf(lines, sig)) == [];
    } else {
      assert lines[0] in lines && Retained(r, lines[0]);
      FindByOffset(r, lines[0].seq_, 0);
      assert r.buf[0..] == r.buf;
      assert FindAsSeq(r.buf, Numbers(HitsOf(lines, sig))[0]) == [lines[0]];
      FindHits(r, lines[1..], sig);
      assert Numbers(HitsOf(lines, sig))[1..] == Numbers(HitsOf(lines[1..], sig));
    }
  }

  lemma FindBoth(buf: seq<Record>, a: seq<Hit>, b: seq<Hit>)
    ensures FindAll(buf, Numbers(a + b)) == FindAll(buf, Numbers(a)) + FindAll(buf, Numbers(b))
  {
    assert Numbers(a + b) == Numbers(a) + Numbers(b);
    FindAllAppend(buf, Numbers(a), Numbers(b));
  }

  lemma {:induction false} FindNothingBelow(r: State, hits: seq<Hit>)
    requires Valid(r) && AllBelow(hits, Oldest(r))
    ensures FindAll(r.buf, Numbers(hits)) == []
  {
    if hits != [] {
      FindByOffset(r, hits[0].n, 0);
      assert r.buf[0..] == r.buf;
      FindNothingBelow(r, hits[1..]);
      assert Numbers(hits)[1..] == Numbers(hits[1..]);
    }
  }

  lemma {:induction false} MatchingInRing(r: State, k: nat, w: Window, blind: Blind)
    requires Valid(r) && k <= |r.buf|
    ensures var lines := Matching(Seen(r.buf[k..], blind), w.fromSeq, w.filter);
      forall line :: line in lines ==> Retained(r, line)
    decreases |r.buf| - k
  {
    if k < |r.buf| {
      MatchingInRing(r, k + 1, w, blind);
      assert r.buf[k..] == [r.buf[k]] + r.buf[k + 1..];
      SeenAppend([r.buf[k]], r.buf[k + 1..], blind);
      MatchingAppend(Seen([r.buf[k]], blind), Seen(r.buf[k + 1..], blind), w.fromSeq, w.filter);
      assert [r.buf[k]][1..] == [] && Retained(r, r.buf[k]);
    }
  }

  /** Looking up every hit of a window gives exactly the records of the ring that it wants and was
      shown: a stale hit yields nothing. */
  lemma HitsReadBack(w: Window, r: State, sig: Test, blind: Blind)
    requires Valid(r) && Tracks(w, r, sig, blind)
    ensures FindAll(r.buf, Numbers(w.hits)) == Matching(Seen(r.buf, blind), w.fromSeq, w.filter)
  {
    var lines := Matching(Seen(r.buf, blind), w.fromSeq, w.filter);
    DropIsSuffix(w.hits, Oldest(r));
    var stale := w.hits[..|w.hits| - |lines|];
    assert w.hits == stale + HitsOf(lines, sig);
    FindNothingBelow(r, stale);
    MatchingInRing(r, 0, w, blind);
    assert r.buf[0..] == r.buf;
    FindHits(r, lines, sig);
    FindBoth(r.buf, stale, HitsOf(lines, sig));
  }

  /** Successive explicit pages of `count` rows, from row `index` on. */
  function Pages(w: Window, buf: seq<Record>, index: nat, count: nat): seq<Record>
    decreases if index < |w.hits| then |w.hits| - index else 0
  {
    if index >= |w.hits| then []
    else PageOf(w, buf, Some((index, count))).lines + Pages(w, buf, index + AtLeastOne(count), count)
  }

  lemma PageIsSlice(w: Window, buf: seq<Record>, index: nat, count: nat)
    requires index < |w.hits|
    ensures var stop := Min(index + AtLeastOne(count), |w.hits|);
      PageOf(w, buf, Some((index, count))).lines == FindAll(buf, Numbers(w.hits[index..stop]))
  {
  }

  lemma HitsInTwo(buf: seq<Record>, hits: seq<Hit>, i: nat, j: nat)
    requires i <= j <= |hits|
    ensures FindAll(buf, Numbers(hits[i..])) == FindAll(buf, Numbers(hits[i..j])) + FindAll(buf, Numbers(hits[j..]))
  {
    assert hits[i..] == hits[i..j] + hits[j..];
    FindBoth(buf, hits[i..j], hits[j..]);
  }

  lemma FirstPage(w: Window, buf: seq<Record>, index: nat, count: nat)
    requires index < |w.hits|
    ensures Pages(w, buf, index, count) ==
            FindAll(buf, Numbers(w.hits[index..Min(index + AtLeastOne(count), |w.hits|)]))
            + Pages(w, buf, index + AtLeastOne(count), count)
  {
    PageIsSlice(w, buf, index, count);
  }

  lemma NothingBehind(w: Window, buf: seq<Record>)
    ensures FindAll(buf, Numbers(w.hits[|w.hits|..])) == []
  {
    assert Numbers(w.hits[|w.hits|..]) == [];
  }

  lemma {:induction false} PagesFrom(w: Window, buf: seq<Record>, index: nat, count: nat)
    ensures Pages(w, buf, index, count) ==
            if index < |w.hits| then FindAll(buf, Numbers(w.hits[index..])) else []
    decreases if index < |w.hits| then |w.hits| - index else 0
  {
    if index < |w.hits| {
      var next := index + AtLeastOne(count);
      PagesFrom(w, buf, next, count);
      FirstPage(w, buf, index, count);
      HitsInTwo(buf, w.hits, index, Min(next, |w.hits|));
      NothingBehind(w, buf);
    }
  }

  /** Pages of any size tile the index: together they are exactly the records of the ring that
      the window wants and was shown, each once, in order. */
  lemma PagesTile(w: Window, r: State, sig: Test, count: nat, blind: Blind)
    requires Valid(r) && Tracks(w, r, sig, blind)
    ensures Pages(w, r.buf, 0, count) == Matching(Seen(r.buf, blind), w.fromSeq, w.filter)
  {
    PagesFrom(w, r.buf, 0, count);
    assert w.hits[0..] == w.hits && (w.hits == [] ==> Numbers(w.hits) == []);
    HitsReadBack(w, r, sig, blind);
  }

  lemma {:induction false} FirstAfterSplits(hits: seq<Hit>, through: nat)
    requires Ascending(hits)
    ensures var p := FirstAfter(hits, through);
      AllBelow(hits[..p], through + 1) && AllFrom(hits[p..], through + 1)
  {
    if hits != [] && hits[0].n <= through {
      FirstAfterSplits(hits[1..], through);
      var p := FirstAfter(hits[1..], through);
      assert hits[..p + 1] == [hits[0]] + hits[1..][..p] && hits[p + 1..] == hits[1..][p..];
    }
  }

  /** The page of a bind or a latch: the newest of the view, up to 2^32 - 1 of it. `pending` counts
      the hits beyond the view, in 32 bits. */
  predicate ShowsView(page: LogPage, w: Window, buf: seq<Record>) {
    var end := ViewEnd(w);
    && page.index == (if end < U32_MAX then 0 else end - U32_MAX)
    && page.lines == FindAll(buf, Numbers(w.hits[page.index..end]))
    && page.pending == (|w.hits| - end) % (U32_MAX + 1) && page.total == |w.hits|
  }

  /** The view ends behind everything, or for a detached window behind exactly the hits up to
      `through`. */
  ghost predicate ViewSplits(w: Window) {
    forall i :: 0 <= i < |w.hits| ==>
      (i < ViewEnd(w) <==> w.following || w.through.None? || w.hits[i].n <= w.through.value)
  }

  lemma ViewPage(w: Window, buf: seq<Record>)
    requires Ascending(w.hits)
    ensures ShowsView(PageOf(w, buf, None), w, buf) && ViewSplits(w)
  {
    ViewEndSplits(w);
  }

  lemma ViewEndSplits(w: Window)
    requires Ascending(w.hits)
    ensures ViewSplits(w)
  {
    if !w.following && w.through.Some? {
      FirstAfterSplits(w.hits, w.through.value);
      var p := FirstAfter(w.hits, w.through.value);
      forall i | 0 <= i < |w.hits|
        ensures i < p <==> w.hits[i].n <= w.through.value
      {
        if i < p {
          assert w.hits[..p][i] == w.hits[i];
        } else {
          assert w.hits[p..][i - p] == w.hits[i];
        }
      }
    }
  }
}
