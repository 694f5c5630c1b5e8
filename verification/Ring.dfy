/** The bounded ring of log records that belongs to one device. */
module Ring {

  import opened Arithmetic
  import opened Options

  /** Everything a record holds besides its sequence number. */
  datatype Body = Body(
    ts: string, pid: nat, tid: nat, uid: Option<string>, app: Option<string>,
    level: char, tag: string, msg: string)

  datatype Record = Record(seq_: nat, body: Body)

  /** The state behind the ring's lock. Tags and application names are interned there; a record
      reads back as the same text, so interning does not show. */
  datatype State = State(buf: seq<Record>, next: nat, capacity: nat)

  /** Sequence numbers in the ring are consecutive and end just below the next one. */
  ghost predicate Valid(r: State) {
    && 1 <= r.capacity
    && |r.buf| <= r.capacity
    && |r.buf| <= r.next
    && forall i :: 0 <= i < |r.buf| ==> r.buf[i].seq_ == r.next - |r.buf| + i
  }

  /** The smallest number still in the ring; the next one to be given when the ring is empty. */
  function Oldest(r: State): nat
    requires |r.buf| <= r.next
  {
    r.next - |r.buf|
  }

  function AtLeastOne(capacity: nat): nat {
    if capacity == 0 then 1 else capacity
  }

  function Newest<T>(s: seq<T>, n: nat): seq<T> {
    if |s| <= n then s else s[|s| - n..]
  }

  function Bodies(buf: seq<Record>): seq<Body> {
    seq(|buf|, i requires 0 <= i < |buf| => buf[i].body)
  }

  // ---------- what the operations do to the state ----------

  function Pushed(r: State, b: Body): State {
    State(Newest(r.buf + [Record(r.next, b)], r.capacity), r.next + 1, r.capacity)
  }

  function Resized(r: State, capacity: nat): State {
    State(Newest(r.buf, AtLeastOne(capacity)), r.next, AtLeastOne(capacity))
  }

  function Cleared(r: State): State {
    r.(buf := [])
  }

  lemma OperationsKeepValid(r: State, b: Body, capacity: nat)
    requires Valid(r)
    ensures Valid(Pushed(r, b)) && Valid(Resized(r, capacity)) && Valid(Cleared(r))
    ensures Pushed(r, b).buf != [] && Pushed(r, b).buf[|Pushed(r, b).buf| - 1] == Record(r.next, b)
  {
  }

  // ---------- reading ----------

  /** Linear search: the reference for the lookup by offset. */
  function Find(buf: seq<Record>, n: nat): Option<Record> {
    if buf == [] then None
    else if buf[0].seq_ == n then Some(buf[0])
    else Find(buf[1..], n)
  }

  function FindAsSeq(buf: seq<Record>, n: nat): seq<Record> {
    match Find(buf, n)
    case None => []
    case Some(line) => [line]
  }

  function FindAll(buf: seq<Record>, ns: seq<nat>): seq<Record> {
    if ns == [] then [] else FindAsSeq(buf, ns[0]) + FindAll(buf, ns[1..])
  }

  /** In a ring, linear search finds a record exactly where `number - oldest` points, so a number
      that was evicted, cleared or not given yet never yields another record. */
  lemma {:induction false} FindByOffset(r: State, n: nat, from: nat)
    requires Valid(r) && from <= |r.buf|
    ensures Find(r.buf[from..], n) ==
            if Oldest(r) + from <= n < r.next then Some(r.buf[n - Oldest(r)]) else None
    decreases |r.buf| - from
  {
    if from < |r.buf| {
      FindByOffset(r, n, from + 1);
      assert r.buf[from..][1..] == r.buf[from + 1..];
    }
  }

  lemma {:induction false} FindAllAppend(buf: seq<Record>, ms: seq<nat>, ns: seq<nat>)
    ensures FindAll(buf, ms + ns) == FindAll(buf, ms) + FindAll(buf, ns)
  {
    if ms == [] {
      assert ms + ns == ns;
    } else {
      assert (ms + ns)[1..] == ms[1..] + ns;
      FindAllAppend(buf, ms[1..], ns);
    }
  }

  /** The records numbered `from` and up, at most `limit` of them. */
  function LinesFrom(buf: seq<Record>, from: nat, limit: nat): seq<Record> {
    if buf == [] || limit == 0 then []
    else if from <= buf[0].seq_ then [buf[0]] + LinesFrom(buf[1..], from, limit - 1)
    else LinesFrom(buf[1..], from, limit)
  }

  function SnapshotPage(buf: seq<Record>, from: nat, limit: nat): (seq<Record>, bool) {
    var lines := LinesFrom(buf, from, limit);
    (lines, lines != [] && buf != [] && lines[|lines| - 1].seq_ < buf[|buf| - 1].seq_)
  }

  /** Follow the pages while they say `truncated`, each starting after the last record seen. */
  function Chain(r: State, from: nat, limit: nat): seq<Record>
    requires Valid(r)
    decreases if from < r.next then r.next - from else 0
  {
    var (lines, truncated) := SnapshotPage(r.buf, from, limit);
    if truncated then
      LinesFromIsSlice(r, from, limit);
      lines + Chain(r, lines[|lines| - 1].seq_ + 1, limit)
    else lines
  }

  lemma {:induction false} TakeAll(buf: seq<Record>, from: nat, limit: nat)
    requires forall i :: 0 <= i < |buf| ==> from <= buf[i].seq_
    ensures LinesFrom(buf, from, limit) == buf[..Min(limit, |buf|)]
  {
    if buf != [] && limit > 0 {
      TakeAll(buf[1..], from, limit - 1);
      assert buf[..Min(limit, |buf|)] == [buf[0]] + buf[1..][..Min(limit - 1, |buf| - 1)];
    }
  }

  lemma {:induction false} SkipOlder(buf: seq<Record>, from: nat, limit: nat, k: nat)
    requires k <= |buf| && forall i :: 0 <= i < k ==> buf[i].seq_ < from
    ensures LinesFrom(buf, from, limit) == LinesFrom(buf[k..], from, limit)
  {
    if k == 0 {
      assert buf[0..] == buf;
    } else {
      SkipOlder(buf[1..], from, limit, k - 1);
      assert buf[1..][k - 1..] == buf[k..];
    }
  }

  function Start(r: State, from: nat): nat
    requires |r.buf| <= r.next
  {
    if from <= Oldest(r) then 0 else Min(from - Oldest(r), |r.buf|)
  }

  lemma LinesFromIsSlice(r: State, from: nat, limit: nat)
    requires Valid(r)
    ensures LinesFrom(r.buf, from, limit) == r.buf[Start(r, from)..Min(Start(r, from) + limit, |r.buf|)]
  {
    var start := Start(r, from);
    SkipOlder(r.buf, from, limit, start);
    TakeAll(r.buf[start..], from, limit);
    assert r.buf[start..][..Min(limit, |r.buf| - start)] == r.buf[start..Min(start + limit, |r.buf|)];
  }

  /** Chaining pages of any size of at least one visits every retained record from `from` on
      once, in order. A page size of zero ends the chain at once with nothing. */
  lemma {:induction false} ChainVisitsAll(r: State, from: nat, limit: nat)
    requires Valid(r)
    ensures Chain(r, from, limit) == if limit == 0 then [] else LinesFrom(r.buf, from, |r.buf|)
    decreases if from < r.next then r.next - from else 0
  {
    LinesFromIsSlice(r, from, limit);
    LinesFromIsSlice(r, from, |r.buf|);
    var (lines, truncated) := SnapshotPage(r.buf, from, limit);
    if truncated {
      var after := lines[|lines| - 1].seq_ + 1;
      PageStep(r, from, limit);
      ChainVisitsAll(r, after, limit);
    }
  }

  lemma PageStep(r: State, from: nat, limit: nat)
    requires Valid(r) && SnapshotPage(r.buf, from, limit).1
    ensures var lines := LinesFrom(r.buf, from, limit);
      && lines[|lines| - 1].seq_ >= from
      && LinesFrom(r.buf, from, |r.buf|) ==
         lines + LinesFrom(r.buf, lines[|lines| - 1].seq_ + 1, |r.buf|)
  {
    var start := Start(r, from);
    LinesFromIsSlice(r, from, limit);
    LinesFromAll(r, from);
    LinesFromAll(r, r.buf[start + limit - 1].seq_ + 1);
    InTwo(r.buf, start, start + limit);
  }

  lemma LinesFromAll(r: State, from: nat)
    requires Valid(r)
    ensures LinesFrom(r.buf, from, |r.buf|) == r.buf[Start(r, from)..]
  {
    LinesFromIsSlice(r, from, |r.buf|);
  }

  /** What has been read from the first `i` records, and what is to come. */
  ghost predicate ReadUpTo(buf: seq<Record>, i: nat, from: nat, limit: nat, lines: seq<Record>) {
    i <= |buf| && |lines| <= limit && LinesFrom(buf, from, limit) == lines + LinesFrom(buf[i..], from, limit - |lines|)
  }

  lemma LinesFromNext(buf: seq<Record>, i: nat, from: nat, limit: nat, lines: seq<Record>)
    requires i < |buf| && |lines| < limit
    ensures lines + LinesFrom(buf[i..], from, limit - |lines|) ==
            if from <= buf[i].seq_ then lines + [buf[i]] + LinesFrom(buf[i + 1..], from, limit - |lines| - 1)
            else lines + LinesFrom(buf[i + 1..], from, limit - |lines|)
  {
    assert buf[i..][1..] == buf[i + 1..];
  }

  lemma LinesDone(buf: seq<Record>, i: nat, from: nat, limit: nat, lines: seq<Record>)
    requires i <= |buf| && |lines| <= limit && (i == |buf| || |lines| == limit)
    ensures lines + LinesFrom(buf[i..], from, limit - |lines|) == lines
  {
    assert lines + [] == lines;
  }

  lemma InTwo<T>(s: seq<T>, i: nat, j: nat)
    requires i <= j <= |s|
    ensures s[i..] == s[i..j] + s[j..]
  {
  }

  // ---------- the ring itself ----------

  /** The last wall clock in the ring and who spoke at it, so that a resumed stream that starts
      at that clock can leave out what is already there. */
  datatype ResumeSkip = ResumeSkip(ts: string, identities: seq<Identity>)

  datatype Identity = Identity(pid: nat, tid: nat, tag: string, msg: string)

  function IdentityOf(b: Body): Identity {
    Identity(b.pid, b.tid, b.tag, b.msg)
  }

  /** The same process, thread, tag and text. */
  predicate Alike(a: Body, b: Body) {
    a.pid == b.pid && a.tid == b.tid && a.tag == b.tag && a.msg == b.msg
  }

  lemma IdentityTells(a: Body, b: Body)
    ensures IdentityOf(a) == IdentityOf(b) <==> Alike(a, b)
  {
  }

  /** The ring holds a record of that moment, process, thread, tag and text. */
  ghost predicate SpokeAt(buf: seq<Record>, ts: string, pid: nat, tid: nat, tag: string, msg: string) {
    exists i :: 0 <= i < |buf| && SaidBy(buf[i].body, ts, pid, tid, tag, msg)
  }

  predicate SaidBy(b: Body, ts: string, pid: nat, tid: nat, tag: string, msg: string) {
    b.ts == ts && b.pid == pid && b.tid == tid && b.tag == tag && b.msg == msg
  }

  function IdentitiesAt(buf: seq<Record>, ts: string): seq<Identity> {
    if buf == [] then []
    else if buf[0].body.ts == ts then [IdentityOf(buf[0].body)] + IdentitiesAt(buf[1..], ts)
    else IdentitiesAt(buf[1..], ts)
  }

  function SkipOf(buf: seq<Record>): Option<ResumeSkip> {
    if buf == [] then None
    else
      var ts := buf[|buf| - 1].body.ts;
      Some(ResumeSkip(ts, IdentitiesAt(buf, ts)))
  }

  class RingBuffer {
    var buf: seq<Record>
    var next: nat
    var capacity: nat

    ghost function View(): State
      reads this
    {
      State(buf, next, capacity)
    }

    constructor (capacity: nat)
      ensures View() == State([], 0, AtLeastOne(capacity)) && Valid(View())
    {
      this.capacity := AtLeastOne(capacity);
      buf, next := [], 0;
    }

    method EvictOverflow()
      modifies this`buf
      ensures buf == Newest(old(buf), capacity)
    {
      ghost var gone := 0;
      while |buf| > capacity
        invariant gone <= |old(buf)| && buf == old(buf)[gone..]
        invariant gone > 0 ==> |buf| >= capacity
      {
        buf := buf[1..];
        gone := gone + 1;
      }
    }

    method SetCapacity(n: nat)
      modifies this
      ensures View() == Resized(old(View()), n)
    {
      capacity := AtLeastOne(n);
      EvictOverflow();
    }

    method Push(b: Body) returns (n: nat, oldest: nat)
      requires Valid(View())
      modifies this
      ensures View() == Pushed(old(View()), b) && Valid(View())
      ensures n == old(next) && oldest == Oldest(View())
    {
      OperationsKeepValid(View(), b, 0);
      n := next;
      buf := buf + [Record(n, b)];
      EvictOverflow();
      next := next + 1;
      assert buf != [];  // the capacity is at least one, so the new record is still there
      oldest := buf[0].seq_;
    }

    method Clear()
      modifies this
      ensures View() == Cleared(old(View()))
    {
      buf := [];
    }

    /** Lookup by offset from the oldest number. */
    method LinesBySeq(ns: seq<nat>) returns (out: seq<Record>)
      requires Valid(View())
      ensures out == FindAll(buf, ns)
    {
      out := [];
      if ns == [] {
        return;
      }
      if buf == [] {
        NothingToFind(ns);
        return;
      }
      var oldest := buf[0].seq_;
      for i := 0 to |ns|
        invariant out == FindAll(buf, ns[..i])
      {
        FindAllAppend(buf, ns[..i], [ns[i]]);
        assert [ns[i]][1..] == [];
        assert ns[..i + 1] == ns[..i] + [ns[i]];
        FindByOffset(View(), ns[i], 0);
        assert buf[0..] == buf;
        if oldest <= ns[i] && ns[i] - oldest < |buf| {
          var line := buf[ns[i] - oldest];
          if line.seq_ == ns[i] {
            out := out + [line];
          }
        }
      }
      assert ns[..|ns|] == ns;
    }

    method Snapshot(from: nat, limit: nat) returns (lines: seq<Record>, truncated: bool)
      ensures (lines, truncated) == SnapshotPage(buf, from, limit)
    {
      lines := [];
      var i := 0;
      assert buf[0..] == buf;
      while i < |buf| && |lines| < limit
        invariant i <= |buf| && |lines| <= limit
        invariant ReadUpTo(buf, i, from, limit, lines)
      {
        LinesFromNext(buf, i, from, limit, lines);
        if from <= buf[i].seq_ {
          lines := lines + [buf[i]];
        }
        i := i + 1;
      }
      LinesDone(buf, i, from, limit, lines);
      truncated := lines != [] && buf != [] && lines[|lines| - 1].seq_ < buf[|buf| - 1].seq_;
    }

    method Resume() returns (skip: Option<ResumeSkip>)
      ensures skip == SkipOf(buf)
      ensures skip.None? <==> buf == []
      ensures skip.Some? ==> skip.value.ts == buf[|buf| - 1].body.ts
      ensures skip.Some? ==> forall id ::
        id in skip.value.identities <==> SpokeAt(buf, skip.value.ts, id.pid, id.tid, id.tag, id.msg)
    {
      if buf == [] {
        return None;
      }
      var ts := buf[|buf| - 1].body.ts;
      var identities := [];
      assert buf[0..] == buf;
      for i := 0 to |buf|
        invariant IdentitiesAt(buf, ts) == identities + IdentitiesAt(buf[i..], ts)
      {
        assert buf[i..][1..] == buf[i + 1..];
        if buf[i].body.ts == ts {
          identities := identities + [IdentityOf(buf[i].body)];
        }
      }
      assert buf[|buf|..] == [] && identities + [] == identities;
      skip := Some(ResumeSkip(ts, identities));
      forall id ensures id in identities <==> SpokeAt(buf, ts, id.pid, id.tid, id.tag, id.msg) {
        IdentitiesAtAre(buf, ts, id);
      }
    }
  }

  lemma {:induction false} IdentitiesAtAre(buf: seq<Record>, ts: string, id: Identity)
    ensures id in IdentitiesAt(buf, ts) <==> SpokeAt(buf, ts, id.pid, id.tid, id.tag, id.msg)
  {
    if buf != [] {
      IdentitiesAtAre(buf[1..], ts, id);
      if i :| 0 <= i < |buf| && SaidBy(buf[i].body, ts, id.pid, id.tid, id.tag, id.msg) {
        assert i > 0 ==> buf[1..][i - 1] == buf[i];
      }
      if i :| 0 <= i < |buf[1..]| && SaidBy(buf[1..][i].body, ts, id.pid, id.tid, id.tag, id.msg) {
        assert buf[i + 1] == buf[1..][i];
      }
    }
  }

  lemma {:induction false} NothingToFind(ns: seq<nat>)
    ensures FindAll([], ns) == []
  {
    if ns != [] {
      NothingToFind(ns[1..]);
    }
  }
}
