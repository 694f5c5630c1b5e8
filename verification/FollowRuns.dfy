/** Exactly once: what enters the ring over any number of restarts of a log's worker. */
module FollowRuns {

  import opened Arithmetic
  import opened Options
  import opened Order
  import opened Ring
  import opened IndexRuns
  import opened Follow

  /** The records of a stream that enter the ring. */
  function AdmittedOf(skip: Option<ResumeSkip>, lines: seq<Body>): seq<Body>
    decreases |lines|
  {
    if lines == [] then []
    else if Admits(skip, lines[0]) then [lines[0]] + AdmittedOf(SkipAfter(skip, lines[0]), lines[1..])
    else AdmittedOf(SkipAfter(skip, lines[0]), lines[1..])
  }

  /** What one worker brings in. */
  function Taken(r: Ring.State, lines: seq<Body>, resume: bool): seq<Body> {
    AdmittedOf(SkipFor(r, resume), lines)
  }

  function OtherOn(r: Ring.State, other: Other): Ring.State {
    match other
    case EmptyRing => Cleared(r)
    case EmptyWindows => r
    case SetCapacity(c) => Resized(r, c)
  }

  function OthersOn(r: Ring.State, others: seq<Other>): Ring.State {
    if others == [] then r else OtherOn(OthersOn(r, others[..|others| - 1]), others[|others| - 1])
  }

  /** The ring behind a stream of records and what others do in between. */
  function Followed(r: Ring.State, skip: Option<ResumeSkip>, lines: seq<Body>, between: seq<seq<Other>>): Ring.State
    decreases |lines|
  {
    var q := OthersOn(r, Next(between));
    if lines == [] then q
    else
      Followed(if Admits(skip, lines[0]) then Pushed(q, lines[0]) else q, SkipAfter(skip, lines[0]), lines[1..], Later(between))
  }

  function RingAfter(r: Ring.State, w: Worker, resume: bool): Ring.State {
    Followed(r, SkipFor(r, resume), w.lines, w.between)
  }

  /** What all workers bring in, in order: a worker is restarted as long as it ends by itself. */
  function AdmittedBy(r: Ring.State, workers: seq<Worker>, resume: bool): seq<Body>
    decreases |workers|
  {
    if workers == [] then []
    else
      Taken(r, workers[0].lines, resume)
      + if Resumes(workers[0].end) then AdmittedBy(RingAfter(r, workers[0], resume), workers[1..], true) else []
  }

  /** The first worker starts fresh. Behind one that exits, with whatever code, or fails, the stream goes on
      behind what the ring holds then; behind one that was cancelled or went offline nothing follows. */
  lemma RestartsAfter(r: Ring.State, w: Worker, rest: seq<Worker>, resume: bool)
    ensures var first := Taken(r, w.lines, resume);
      AdmittedBy(r, [w] + rest, resume) ==
        match w.end
        case Exited(_) => first + AdmittedBy(RingAfter(r, w, resume), rest, true)
        case Error => first + AdmittedBy(RingAfter(r, w, resume), rest, true)
        case Cancelled => first
        case Offline => first
    ensures Taken(r, w.lines, false) == w.lines
  {
    assert ([w] + rest)[1..] == rest;
    NoSkipAdmitsAll(w.lines);
  }

  // ---------- against the actions ----------

  lemma {:induction false} EmittedAppend(a: seq<Action>, b: seq<Action>, serial: string)
    ensures EmittedTo(a + b, serial) == EmittedTo(a, serial) + EmittedTo(b, serial)
    decreases |b|
  {
    if b == [] {
      assert a + b == a;
    } else {
      var init, last := b[..|b| - 1], b[|b| - 1];
      assert (a + b)[..|a + b| - 1] == a + init;
      EmittedAppend(a, init, serial);
    }
  }

  lemma {:induction false} OthersEmitNothing(serial: string, others: seq<Other>)
    ensures EmittedTo(OtherActions(serial, others), serial) == []
  {
    if others != [] {
      var acts := OtherActions(serial, others);
      assert acts[..|acts| - 1] == OtherActions(serial, others[..|others| - 1]);
      OthersEmitNothing(serial, others[..|others| - 1]);
    }
  }

  lemma EmitIfEmits(serial: string, skip: Option<ResumeSkip>, b: Body)
    ensures EmittedTo(EmitIf(serial, skip, b), serial) == if Admits(skip, b) then [b] else []
  {
    EmittedOneMore([], Emit(serial, b), serial);
    assert [] + [Emit(serial, b)] == [Emit(serial, b)];
  }

  lemma EmittedInThree(a: seq<Action>, b: seq<Action>, c: seq<Action>, serial: string)
    ensures EmittedTo(a + (b + c), serial) == EmittedTo(a, serial) + (EmittedTo(b, serial) + EmittedTo(c, serial))
  {
    EmittedAppend(b, c, serial);
    EmittedAppend(a, b + c, serial);
  }

  lemma WorkerParts(serial: string, skip: Option<ResumeSkip>, lines: seq<Body>, between: seq<seq<Other>>)
    ensures lines == [] ==> WorkerActions(serial, skip, lines, between) == OtherActions(serial, Next(between))
    ensures lines != [] ==>
      (WorkerActions(serial, skip, lines, between) == OtherActions(serial, Next(between))
        + (EmitIf(serial, skip, lines[0]) + WorkerActions(serial, SkipAfter(skip, lines[0]), lines[1..], Later(between))))
  {
    LastActions(serial, skip, between);
  }

  lemma AdmittedParts(skip: Option<ResumeSkip>, lines: seq<Body>)
    requires lines != []
    ensures AdmittedOf(skip, lines)
         == (if Admits(skip, lines[0]) then [lines[0]] else []) + AdmittedOf(SkipAfter(skip, lines[0]), lines[1..])
  {
    var rest := AdmittedOf(SkipAfter(skip, lines[0]), lines[1..]);
    assert [] + rest == rest;
  }

  lemma {:induction false} WorkerEmits(
    serial: string, skip: Option<ResumeSkip>, lines: seq<Body>, between: seq<seq<Other>>)
    ensures EmittedTo(WorkerActions(serial, skip, lines, between), serial) == AdmittedOf(skip, lines)
    decreases |lines|
  {
    OthersEmitNothing(serial, Next(between));
    WorkerParts(serial, skip, lines, between);
    if lines != [] {
      var own, rest := EmitIf(serial, skip, lines[0]),
        WorkerActions(serial, SkipAfter(skip, lines[0]), lines[1..], Later(between));
      WorkerEmits(serial, SkipAfter(skip, lines[0]), lines[1..], Later(between));
      EmitIfEmits(serial, skip, lines[0]);
      EmittedInThree(OtherActions(serial, Next(between)), own, rest, serial);
      AdmittedParts(skip, lines);
      assert [] + EmittedTo(own + rest, serial) == EmittedTo(own + rest, serial);
    }
  }

  lemma {:induction false} OthersTurn(serial: string, r: Ring.State, others: seq<Other>)
    ensures Turned(r, OtherActions(serial, others)) == OthersOn(r, others)
  {
    if others != [] {
      var acts := OtherActions(serial, others);
      assert acts[..|acts| - 1] == OtherActions(serial, others[..|others| - 1]);
      OthersTurn(serial, r, others[..|others| - 1]);
    }
  }

  lemma EmitIfTurns(serial: string, r: Ring.State, skip: Option<ResumeSkip>, b: Body)
    ensures Turned(r, EmitIf(serial, skip, b)) == if Admits(skip, b) then Pushed(r, b) else r
  {
    assert [Emit(serial, b)][..0] == [];
  }

  lemma {:induction false} WorkerTurns(
    serial: string, r: Ring.State, skip: Option<ResumeSkip>, lines: seq<Body>, between: seq<seq<Other>>)
    ensures Turned(r, WorkerActions(serial, skip, lines, between)) == Followed(r, skip, lines, between)
    decreases |lines|
  {
    OthersTurn(serial, r, Next(between));
    WorkerParts(serial, skip, lines, between);
    if lines != [] {
      var q, skip' := OthersOn(r, Next(between)), SkipAfter(skip, lines[0]);
      var own, rest := EmitIf(serial, skip, lines[0]), WorkerActions(serial, skip', lines[1..], Later(between));
      EmitIfTurns(serial, q, skip, lines[0]);
      TurnedAppend(r, OtherActions(serial, Next(between)), own + rest);
      TurnedAppend(q, own, rest);
      WorkerTurns(serial, Turned(q, own), skip', lines[1..], Later(between));
    }
  }

  /** What the supervised workers emit is what they bring in. */
  lemma {:induction false} SupervisedEmits(serial: string, r: Ring.State, workers: seq<Worker>, resume: bool)
    ensures EmittedTo(SupervisedActions(serial, r, workers, resume), serial) == AdmittedBy(r, workers, resume)
    decreases |workers|
  {
    if workers != [] {
      var w := workers[0];
      var own := OwnActions(serial, r, w, resume);
      var rest := if Resumes(w.end) then SupervisedActions(serial, Turned(r, own), workers[1..], true) else [];
      WorkerEmits(serial, SkipFor(r, resume), w.lines, w.between);
      EmittedAppend(own, rest, serial);
      if Resumes(w.end) {
        WorkerTurns(serial, r, SkipFor(r, resume), w.lines, w.between);
        SupervisedEmits(serial, Turned(r, own), workers[1..], true);
      }
    }
  }

  // ---------- a log and a ring ----------

  predicate InOrder(log: seq<Body>, i: int, j: int) {
    0 <= i < j < |log| ==>
      !Less(log[j].ts, log[i].ts) && (log[i].ts == log[j].ts ==> !Alike(log[i], log[j]))
  }

  /** The device's log: clocks never go back and no two records are the same. */
  ghost predicate DeviceLog(log: seq<Body>) {
    forall i, j :: InOrder(log, i, j)
  }

  /** The ring holds the records of the log from `lost` up to `known`: those before have been given to
      it and are gone. */
  datatype Extent = Extent(lost: nat, known: nat, capacity: nat)

  ghost predicate Holds(r: Ring.State, log: seq<Body>, e: Extent) {
    && Valid(r) && e.lost <= e.known <= |log| && r.capacity == e.capacity
    && Bodies(r.buf) == log[e.lost..e.known]
  }

  /** The first record of `log[..k]` at its last clock. */
  function FirstAtLastClock(log: seq<Body>, k: nat): (t: nat)
    requires k <= |log|
    ensures t <= k && (k > 0 ==> t < k && log[t].ts == log[k - 1].ts)
    ensures t > 0 ==> log[t - 1].ts != log[k - 1].ts
  {
    if k <= 1 then 0
    else if log[k - 2].ts == log[k - 1].ts then FirstAtLastClock(log, k - 1)
    else k - 1
  }

  lemma {:induction false} NoSkipAdmitsAll(lines: seq<Body>)
    ensures AdmittedOf(None, lines) == lines
  {
    if lines != [] {
      NoSkipAdmitsAll(lines[1..]);
    }
  }

  // ---------- any resumed stream ----------

  /** The first line of a stream with a later clock, or its end. */
  function FirstLater(ts: string, lines: seq<Body>): (p: nat)
    ensures p <= |lines|
  {
    if lines == [] || Less(ts, lines[0].ts) then 0 else 1 + FirstLater(ts, lines[1..])
  }

  /** The lines at a moment that the ring has not got. */
  ghost function Unheard(buf: seq<Record>, ts: string, lines: seq<Body>): seq<Body> {
    if lines == [] then []
    else
      var b := lines[0];
      (if b.ts == ts && !SpokeAt(buf, ts, b.pid, b.tid, b.tag, b.msg) then [b] else [])
      + Unheard(buf, ts, lines[1..])
  }

  /** Any stream that is resumed behind a ring, in order or not, brings in: up to the first line with a
      later clock, what stands at the ring's last clock and is not in the ring; from that line on, all. */
  lemma ResumedStreamTakes(r: Ring.State, lines: seq<Body>)
    requires r.buf != []
    ensures var ts := r.buf[|r.buf| - 1].body.ts; var p := FirstLater(ts, lines);
      Taken(r, lines, true) == Unheard(r.buf, ts, lines[..p]) + lines[p..]
  {
    ResumedFrom(r, lines);
  }

  lemma {:induction false} ResumedFrom(r: Ring.State, lines: seq<Body>)
    requires r.buf != []
    ensures var ts := r.buf[|r.buf| - 1].body.ts; var p := FirstLater(ts, lines);
      AdmittedOf(SkipOf(r.buf), lines) == Unheard(r.buf, ts, lines[..p]) + lines[p..]
    decreases |lines|
  {
    var ts := r.buf[|r.buf| - 1].body.ts;
    if lines != [] {
      FirstLineTaken(r, lines[0]);
      if Less(ts, lines[0].ts) {
        NoSkipAdmitsAll(lines[1..]);
        assert lines == [lines[0]] + lines[1..];
      } else {
        ResumedFrom(r, lines[1..]);
        FirstApart(lines, FirstLater(ts, lines[1..]));
        var p := FirstLater(ts, lines[1..]);
        UnheardFirst(r.buf, ts, lines, p);
        AdmitsFirst(SkipOf(r.buf), lines);
        InFront(if Admits(SkipOf(r.buf), lines[0]) then [lines[0]] else [], Unheard(r.buf, ts, lines[1..][..p]), lines[p + 1..]);
      }
    }
  }

  lemma InFront<T>(first: seq<T>, a: seq<T>, b: seq<T>)
    ensures first + (a + b) == first + a + b
  {
  }

  lemma UnheardFirst(buf: seq<Record>, ts: string, lines: seq<Body>, p: nat)
    requires p < |lines|
    ensures var b := lines[0];
      Unheard(buf, ts, lines[..p + 1]) ==
        (if b.ts == ts && !SpokeAt(buf, ts, b.pid, b.tid, b.tag, b.msg) then [b] else []) + Unheard(buf, ts, lines[1..][..p])
  {
    FirstApart(lines, p);
  }

  lemma AdmitsFirst(skip: Option<ResumeSkip>, lines: seq<Body>)
    requires lines != []
    ensures AdmittedOf(skip, lines) ==
            (if Admits(skip, lines[0]) then [lines[0]] else []) + AdmittedOf(SkipAfter(skip, lines[0]), lines[1..])
  {
  }

  lemma FirstApart<T>(s: seq<T>, p: nat)
    requires p < |s|
    ensures s[..p + 1][0] == s[0] && s[..p + 1][1..] == s[1..][..p] && s[1..][p..] == s[p + 1..]
  {
  }

  /** One line against the ring: earlier or held, it is dropped, and a later one ends the dropping. */
  lemma {:induction false} FirstLineTaken(r: Ring.State, b: Body)
    requires r.buf != []
    ensures var ts := r.buf[|r.buf| - 1].body.ts;
      && (Admits(SkipOf(r.buf), b) <==>
            Less(ts, b.ts) || (b.ts == ts && !SpokeAt(r.buf, ts, b.pid, b.tid, b.tag, b.msg)))
      && SkipAfter(SkipOf(r.buf), b) == if Less(ts, b.ts) then None else SkipOf(r.buf)
  {
    var ts := r.buf[|r.buf| - 1].body.ts;
    IdentitiesAtAre(r.buf, ts, IdentityOf(b));
    Total(ts, b.ts);
    Irreflexive(ts);
    Asymmetric(ts, b.ts);
  }

  lemma Asymmetric(a: string, b: string)
    ensures !(Less(a, b) && Less(b, a))
  {
    if Less(a, b) && Less(b, a) {
      Transitive(a, b, a);
      Irreflexive(a);
    }
  }

  lemma SameRecord(log: seq<Body>, i: nat, n: nat)
    requires DeviceLog(log) && i < |log| && n < |log|
    requires log[i].ts == log[n].ts && Alike(log[i], log[n])
    ensures i == n
  {
    assert InOrder(log, i, n) && InOrder(log, n, i);
  }

  lemma HeldAt(r: Ring.State, log: seq<Body>, e: Extent, i: nat)
    requires Holds(r, log, e) && i < |r.buf|
    ensures |r.buf| == e.known - e.lost && r.buf[i].body == log[e.lost + i]
  {
    HeldFit(r, log, e);
    assert r.buf[i].body == Bodies(r.buf)[i];
  }

  lemma HeldFit(r: Ring.State, log: seq<Body>, e: Extent)
    requires Holds(r, log, e)
    ensures |r.buf| == e.known - e.lost
  {
    assert |Bodies(r.buf)| == |r.buf|;
  }

  /** The records a ring knows at its last clock are those it holds. */
  lemma {:induction false} KnownAtLastClock(r: Ring.State, log: seq<Body>, e: Extent, n: nat)
    requires DeviceLog(log) && Holds(r, log, e) && e.lost < e.known && n < |log| && log[n].ts == log[e.known - 1].ts
    ensures r.buf != [] && SkipOf(r.buf).value.ts == log[e.known - 1].ts
    ensures IdentityOf(log[n]) in SkipOf(r.buf).value.identities <==> e.lost <= n < e.known
  {
    HeldFit(r, log, e);
    HeldAt(r, log, e, |r.buf| - 1);
    IdentitiesAtAre(r.buf, log[e.known - 1].ts, IdentityOf(log[n]));
    forall i | 0 <= i < |r.buf| && Alike(r.buf[i].body, log[n]) && r.buf[i].body.ts == log[n].ts
      ensures e.lost + i == n
    {
      HeldAt(r, log, e, i);
      SameRecord(log, e.lost + i, n);
    }
    if e.lost <= n < e.known {
      HeldAt(r, log, e, n - e.lost);
      assert SaidBy(r.buf[n - e.lost].body, log[n].ts, log[n].pid, log[n].tid, log[n].tag, log[n].msg);
    }
  }

  lemma ClockSplits(log: seq<Body>, k: nat, n: nat)
    requires DeviceLog(log) && 0 < k <= |log| && n < k
    ensures log[n].ts == log[k - 1].ts <==> FirstAtLastClock(log, k) <= n
    ensures log[n].ts == log[k - 1].ts || Less(log[n].ts, log[k - 1].ts)
  {
    var first := FirstAtLastClock(log, k);
    Total(log[n].ts, log[k - 1].ts);
    assert InOrder(log, n, k - 1);
    if first <= n {
      assert InOrder(log, first, n);
    } else {
      Total(log[first - 1].ts, log[k - 1].ts);
      Irreflexive(log[n].ts);
      assert InOrder(log, n, first - 1) && InOrder(log, first - 1, k - 1);
    }
  }

  /** What a resumed stream does with record `n` of the log: what came before the last clock is
      dropped; at the last clock what the ring still holds is dropped; the rest is admitted. */
  predicate Decides(
    skip: Option<ResumeSkip>, log: seq<Body>, first: nat, lost: nat, k: nat, n: nat)
    requires n < |log|
  {
    && (Admits(skip, log[n]) <==> first <= n < lost || k <= n)
    && (SkipAfter(skip, log[n]) == skip || (k <= n && SkipAfter(skip, log[n]) == None))
  }

  ghost predicate DecidesAll(skip: Option<ResumeSkip>, log: seq<Body>, first: nat, lost: nat, k: nat, upto: nat)
    requires upto <= |log|
  {
    forall n: nat :: n < upto ==> Decides(skip, log, first, lost, k, n)
  }

  lemma {:induction false} ResumeDecision(r: Ring.State, log: seq<Body>, e: Extent, n: nat)
    requires DeviceLog(log) && Holds(r, log, e) && e.lost < e.known && n < |log|
    ensures Decides(SkipOf(r.buf), log, FirstAtLastClock(log, e.known), e.lost, e.known, n)
  {
    var k := e.known;
    KnownAtLastClock(r, log, e, k - 1);
    Irreflexive(log[k - 1].ts);
    if n < k {
      ClockSplits(log, k, n);
    } else {
      assert InOrder(log, k - 1, n);
    }
    if log[n].ts == log[k - 1].ts {
      KnownAtLastClock(r, log, e, n);
    }
  }

  function Slice(log: seq<Body>, i: nat, j: nat): seq<Body>
    requires j <= |log|
  {
    if i < j then log[i..j] else []
  }

  /** Of `log[n..upto]`: what lies at the last clock (from `first`) and is lost, then what is new. */
  function Replayed(log: seq<Body>, first: nat, lost: nat, k: nat, n: nat, upto: nat): seq<Body>
    requires upto <= |log|
  {
    Slice(log, Max(n, first), Min(lost, upto)) + Slice(log, Max(n, k), upto)
  }

  lemma SliceStep(log: seq<Body>, i: nat, j: nat)
    requires i < j <= |log|
    ensures Slice(log, i, j) == [log[i]] + Slice(log, i + 1, j)
  {
  }

  lemma ReplayedStep(log: seq<Body>, first: nat, lost: nat, k: nat, n: nat, upto: nat)
    requires n < upto <= |log| && lost <= k && first <= k
    ensures first <= n < lost || k <= n ==>
      Replayed(log, first, lost, k, n, upto) == [log[n]] + Replayed(log, first, lost, k, n + 1, upto)
    ensures !(first <= n < lost || k <= n) ==>
      Replayed(log, first, lost, k, n, upto) == Replayed(log, first, lost, k, n + 1, upto)
    ensures k <= n ==> Replayed(log, first, lost, k, n + 1, upto) == log[n + 1..upto]
  {
    var old', new' := Slice(log, Max(n, first), Min(lost, upto)), Slice(log, Max(n, k), upto);
    if k <= n {
      SliceStep(log, n, upto);
      assert old' == [] && Slice(log, Max(n + 1, first), Min(lost, upto)) == [];
      assert Slice(log, n + 1, upto) == log[n + 1..upto];
      assert [] + new' == new' && [] + Slice(log, n + 1, upto) == Slice(log, n + 1, upto);
    } else if first <= n < lost {
      SliceStep(log, n, Min(lost, upto));
      assert Max(n, k) == Max(n + 1, k);
      assert [log[n]] + Slice(log, n + 1, Min(lost, upto)) + new'
          == [log[n]] + (Slice(log, n + 1, Min(lost, upto)) + new');
    }
  }

  lemma {:induction false} ReplayByDecision(
    skip: Option<ResumeSkip>, log: seq<Body>, first: nat, lost: nat, k: nat, n: nat, upto: nat)
    requires n <= upto <= |log| && lost <= k && first <= k && DecidesAll(skip, log, first, lost, k, upto)
    ensures AdmittedOf(skip, log[n..upto]) == Replayed(log, first, lost, k, n, upto)
    decreases upto - n
  {
    if n < upto {
      var rest := log[n + 1..upto];
      assert log[n..upto][1..] == rest;
      assert Decides(skip, log, first, lost, k, n);
      ReplayByDecision(skip, log, first, lost, k, n + 1, upto);
      ReplayedStep(log, first, lost, k, n, upto);
      NoSkipAdmitsAll(rest);
    }
  }

  /** Where a resumed stream stops being dropped: at the first record of the last clock, and at once if
      the ring is empty, because there is no last clock then. */
  function FirstTaken(log: seq<Body>, e: Extent): (first: nat)
    requires e.lost <= e.known <= |log|
    ensures first <= e.known
  {
    if e.lost == e.known then 0 else FirstAtLastClock(log, e.known)
  }

  lemma {:induction false} RingDecides(r: Ring.State, log: seq<Body>, e: Extent, resume: bool, upto: nat)
    requires DeviceLog(log) && Holds(r, log, e) && (e.lost < e.known ==> resume) && upto <= |log|
    ensures DecidesAll(SkipFor(r, resume), log, FirstTaken(log, e), e.lost, e.known, upto)
  {
    HeldFit(r, log, e);
    if e.lost < e.known {
      var skip, first := SkipOf(r.buf), FirstTaken(log, e);
      forall n: nat | n < upto
        ensures Decides(skip, log, first, e.lost, e.known, n)
      {
        ResumeDecision(r, log, e, n);
      }
    }
  }

  /** A stream that delivers `log[n..upto]` brings in exactly the records at the last clock that the
      ring has lost, and then exactly what is new; all of it if the ring is empty. */
  lemma ReplayAdmits(r: Ring.State, log: seq<Body>, e: Extent, resume: bool, n: nat, upto: nat)
    requires DeviceLog(log) && Holds(r, log, e) && (e.lost < e.known ==> resume) && n <= upto <= |log|
    ensures Taken(r, log[n..upto], resume) == Replayed(log, FirstTaken(log, e), e.lost, e.known, n, upto)
  {
    RingDecides(r, log, e, resume, upto);
    ReplayByDecision(SkipFor(r, resume), log, FirstTaken(log, e), e.lost, e.known, n, upto);
  }

  lemma ReplayedIsNewIff(log: seq<Body>, first: nat, lost: nat, k: nat, n: nat, upto: nat)
    requires n <= k && lost <= k && upto <= |log|
    ensures Replayed(log, first, lost, k, n, upto) == Slice(log, k, upto) <==> Max(n, first) >= Min(lost, upto)
  {
  }

  /** A replay that begins at or before the last clock of the ring admits exactly what is new if and
      only if the ring still holds every record at that clock, or the replay breaks off before it. */
  lemma ResumeIsExactIff(r: Ring.State, log: seq<Body>, e: Extent, n: nat, upto: nat)
    requires DeviceLog(log) && Holds(r, log, e) && e.lost < e.known
    requires n <= FirstAtLastClock(log, e.known) && n <= upto <= |log|
    ensures Taken(r, log[n..upto], true) == Slice(log, e.known, upto)
            <==> e.lost <= FirstAtLastClock(log, e.known) || upto <= FirstAtLastClock(log, e.known)
  {
    ReplayAdmits(r, log, e, true, n, upto);
    ReplayedIsNewIff(log, FirstAtLastClock(log, e.known), e.lost, e.known, n, upto);
  }

  /** An emptied ring has no last clock: a resumed stream brings in all it delivers. */
  lemma EmptyRingTakesAll(r: Ring.State, lines: seq<Body>)
    requires r.buf == []
    ensures Taken(r, lines, true) == lines
  {
    NoSkipAdmitsAll(lines);
  }

  // ---------- how far a ring has come ----------

  function ExtentOther(e: Extent, other: Other): Extent
    requires e.lost <= e.known
  {
    match other
    case EmptyRing => e.(lost := e.known)
    case EmptyWindows => e
    case SetCapacity(c) => Extent(Max(e.lost, e.known - Min(e.known, AtLeastOne(c))), e.known, AtLeastOne(c))
  }

  function ExtentOthers(e: Extent, others: seq<Other>): (d: Extent)
    requires e.lost <= e.known
    ensures d.lost <= d.known == e.known
  {
    if others == [] then e else ExtentOther(ExtentOthers(e, others[..|others| - 1]), others[|others| - 1])
  }

  /** The next record of the log. */
  function ExtentPush(e: Extent): Extent {
    Extent(Max(e.lost, e.known + 1 - Min(e.known + 1, e.capacity)), e.known + 1, e.capacity)
  }

  /** Behind `n` lines, of which those from `pos` up to `upto` are records of the log. */
  function ExtentAfter(e: Extent, pos: nat, upto: nat, n: nat, between: seq<seq<Other>>): Extent
    requires e.lost <= e.known && e.capacity >= 1
    decreases n
  {
    var d := ExtentOthers(e, Next(between));
    CapacityAtLeastOne(e, Next(between));
    if n == 0 then d
    else ExtentAfter(if d.known <= pos < upto then ExtentPush(d) else d, pos + 1, upto, n - 1, Later(between))
  }

  lemma {:induction false} CapacityAtLeastOne(e: Extent, others: seq<Other>)
    requires e.lost <= e.known && e.capacity >= 1
    ensures ExtentOthers(e, others).capacity >= 1
  {
    if others != [] {
      CapacityAtLeastOne(e, others[..|others| - 1]);
    }
  }

  lemma NewestOfSlice(r: Ring.State, log: seq<Body>, lost: nat, known: nat, capacity: nat)
    requires lost <= known <= |log| && Bodies(r.buf) == log[lost..known] && 1 <= capacity
    ensures Bodies(Newest(r.buf, capacity)) == log[Max(lost, known - Min(known, capacity))..known]
  {
    assert |r.buf| == |Bodies(r.buf)|;
    assert Bodies(Newest(r.buf, capacity)) == Newest(Bodies(r.buf), capacity);
  }

  lemma HoldsOther(r: Ring.State, log: seq<Body>, e: Extent, other: Other)
    requires Holds(r, log, e)
    ensures Holds(OtherOn(r, other), log, ExtentOther(e, other))
  {
    match other
    case EmptyRing => assert log[e.known..e.known] == [];
    case EmptyWindows =>
    case SetCapacity(c) =>
      OperationsKeepValid(r, Body("", 0, 0, None, None, ' ', "", ""), c);
      NewestOfSlice(r, log, e.lost, e.known, AtLeastOne(c));
  }

  lemma {:induction false} HoldsOthers(r: Ring.State, log: seq<Body>, e: Extent, others: seq<Other>)
    requires Holds(r, log, e)
    ensures Holds(OthersOn(r, others), log, ExtentOthers(e, others))
  {
    if others != [] {
      var init := others[..|others| - 1];
      HoldsOthers(r, log, e, init);
      HoldsOther(OthersOn(r, init), log, ExtentOthers(e, init), others[|others| - 1]);
    }
  }

  lemma BodiesOneMore(buf: seq<Record>, line: Record)
    ensures Bodies(buf + [line]) == Bodies(buf) + [line.body]
  {
  }

  lemma SliceOneMore(log: seq<Body>, i: nat, j: nat)
    requires i <= j < |log|
    ensures log[i..j] + [log[j]] == log[i..j + 1]
  {
  }

  lemma HoldsPush(r: Ring.State, log: seq<Body>, e: Extent)
    requires Holds(r, log, e) && e.known < |log|
    ensures Holds(Pushed(r, log[e.known]), log, ExtentPush(e))
  {
    var line := Record(r.next, log[e.known]);
    OperationsKeepValid(r, log[e.known], 0);
    BodiesOneMore(r.buf, line);
    SliceOneMore(log, e.lost, e.known);
    NewestOfSlice(Ring.State(r.buf + [line], r.next + 1, r.capacity), log, e.lost, e.known + 1, e.capacity);
  }

  // ---------- workers ----------

  /** What a worker delivers: the records `from` up to `upto` of the log, and perhaps what the
      flush at its end makes of the next record when the stream breaks off inside it. */
  datatype Stretch = Stretch(from: nat, upto: nat, cut: Option<Body>)

  /** A record cut off keeps its clock and is none of the log. */
  ghost predicate CutOf(log: seq<Body>, n: nat, c: Body) {
    && n < |log| && c.ts == log[n].ts
    && forall b :: b in log && b.ts == c.ts ==> !Alike(b, c)
  }

  function Delivered(log: seq<Body>, s: Stretch): seq<Body>
    requires s.from <= s.upto <= |log|
  {
    match s.cut
    case None => log[s.from..s.upto]
    case Some(c) => log[s.from..s.upto] + [c]
  }

  /** How much of the log the workers have delivered between them. */
  function Reached(k: nat, workers: seq<Worker>, stretches: seq<Stretch>): nat
    requires |stretches| == |workers|
    decreases |workers|
  {
    if workers == [] then k
    else
      var k' := Max(k, stretches[0].upto);
      if Resumes(workers[0].end) then Reached(k', workers[1..], stretches[1..]) else k'
  }

  /** A worker adds no more than what is new. What it delivers and the ring has lost lies before the
      last clock of the ring; if the ring is empty, it lies nowhere. And what is cut off lies before that
      clock. */
  predicate Harmless(log: seq<Body>, e: Extent, s: Stretch)
    requires e.lost <= e.known <= |log|
  {
    && Max(s.from, FirstTaken(log, e)) >= Min(e.lost, s.upto)
    && (s.cut.Some? ==> s.upto < FirstTaken(log, e))
  }

  ghost predicate Delivers1(log: seq<Body>, worker: Worker, s: Stretch) {
    && s.from <= s.upto <= |log|
    && (s.cut.Some? ==> CutOf(log, s.upto, s.cut.value))
    && worker.lines == Delivered(log, s)
  }

  /** Where a worker has to begin: at or before the last clock of the ring, or, if that is empty and the
      device is asked for everything, at or before what is new. */
  predicate BeginsInTime(log: seq<Body>, e: Extent, s: Stretch)
    requires e.lost <= e.known <= |log|
  {
    s.from <= if e.lost == e.known then e.known else FirstAtLastClock(log, e.known)
  }

  /** The ring behind a harmless worker. */
  function ExtentBehind(e: Extent, w: Worker, s: Stretch): Extent
    requires e.lost <= e.known && e.capacity >= 1
  {
    ExtentAfter(e, s.from, s.upto, |w.lines|, w.between)
  }

  ghost predicate Sound(log: seq<Body>, e: Extent) {
    e.lost <= e.known <= |log| && e.capacity >= 1
  }

  /** Each worker delivers a stretch of the log, and begins in time as long as all before it were
      harmless and the ring has been given exactly the first records of the log. */
  ghost predicate Delivers(log: seq<Body>, e: Extent, workers: seq<Worker>, stretches: seq<Stretch>)
    requires Sound(log, e)
    decreases |workers|
  {
    |stretches| == |workers| &&
    (workers != [] ==>
       && Delivers1(log, workers[0], stretches[0]) && BeginsInTime(log, e, stretches[0])
       && (Resumes(workers[0].end) ==>
             if Harmless(log, e, stretches[0]) then
               var d := ExtentBehind(e, workers[0], stretches[0]);
               Sound(log, d) && Delivers(log, d, workers[1..], stretches[1..])
             else AllDeliver(log, workers[1..], stretches[1..])))
  }

  ghost predicate AllDeliver(log: seq<Body>, workers: seq<Worker>, stretches: seq<Stretch>) {
    && |stretches| == |workers|
    && forall i :: 0 <= i < |workers| ==> Delivers1(log, workers[i], stretches[i])
  }

  ghost predicate AllHarmless(log: seq<Body>, e: Extent, workers: seq<Worker>, stretches: seq<Stretch>)
    requires Sound(log, e) && Delivers(log, e, workers, stretches)
    decreases |workers|
  {
    workers != [] ==>
      && Harmless(log, e, stretches[0])
      && (Resumes(workers[0].end) ==>
            AllHarmless(log, ExtentBehind(e, workers[0], stretches[0]), workers[1..], stretches[1..]))
  }

  // ---------- one worker ----------

  lemma LaterClockAdmits(skip: ResumeSkip, b: Body, last: Body)
    requires !SkipResume(skip, b) && b.ts != skip.ts && !Less(last.ts, b.ts)
    ensures Admits(Some(skip), last)
  {
    Total(skip.ts, b.ts);
    Total(b.ts, last.ts);
    if b.ts != last.ts {
      Transitive(skip.ts, b.ts, last.ts);
    }
    if Less(last.ts, skip.ts) {
      Transitive(skip.ts, last.ts, skip.ts);
    }
    Irreflexive(skip.ts);
  }

  /** Whether the last line enters does not depend on the lines before it, as long as clocks do not
      go back. */
  lemma {:induction false} LastLineTaken(skip: Option<ResumeSkip>, lines: seq<Body>, last: Body)
    requires forall b :: b in lines ==> !Less(last.ts, b.ts)
    ensures AdmittedOf(skip, lines + [last])
         == AdmittedOf(skip, lines) + if Admits(skip, last) then [last] else []
    decreases |lines|
  {
    if lines == [] {
      assert [] + [last] == [last] && [last][1..] == [];
    } else {
      var first, skip' := lines[0], SkipAfter(skip, lines[0]);
      assert (lines + [last])[1..] == lines[1..] + [last];
      LastLineTaken(skip', lines[1..], last);
      if skip' != skip {
        assert first in lines;
        LaterClockAdmits(skip.value, first, last);
      }
    }
  }

  /** What a worker brings in: what is lost at the last clock, what is new, and the record cut off
      unless it lies before the last clock. */
  function Brought(log: seq<Body>, first: nat, lost: nat, k: nat, s: Stretch): seq<Body>
    requires s.upto <= |log|
  {
    var whole := Replayed(log, first, lost, k, s.from, s.upto);
    if s.cut.Some? && first <= s.upto then whole + [s.cut.value] else whole
  }

  /** A record cut off is none of those the ring knows. */
  lemma CutIsUnknown(r: Ring.State, log: seq<Body>, e: Extent, n: nat, c: Body, ts: string)
    requires Holds(r, log, e) && CutOf(log, n, c) && c.ts == ts
    ensures IdentityOf(c) !in IdentitiesAt(r.buf, ts)
  {
    HeldFit(r, log, e);
    IdentitiesAtAre(r.buf, ts, IdentityOf(c));
    forall i | 0 <= i < |r.buf|
      ensures r.buf[i].body in log
    {
      HeldAt(r, log, e, i);
    }
  }

  lemma {:induction false} CutIsAdmitted(r: Ring.State, log: seq<Body>, e: Extent, resume: bool, n: nat, c: Body)
    requires DeviceLog(log) && Holds(r, log, e) && (e.lost < e.known ==> resume) && CutOf(log, n, c)
    ensures Admits(SkipFor(r, resume), c) <==> FirstTaken(log, e) <= n
  {
    HeldFit(r, log, e);
    if e.lost < e.known {
      var k := e.known;
      KnownAtLastClock(r, log, e, k - 1);
      var ts := log[k - 1].ts;
      Irreflexive(ts);
      if c.ts == ts {
        CutIsUnknown(r, log, e, n, c, ts);
      }
      if n < k {
        ClockSplits(log, k, n);
      } else {
        assert InOrder(log, k - 1, n);
      }
    }
  }

  lemma CutComesLast(log: seq<Body>, from: nat, n: nat, c: Body)
    requires DeviceLog(log) && from <= n && CutOf(log, n, c)
    ensures forall b :: b in log[from..n] ==> !Less(c.ts, b.ts)
  {
    forall b | b in log[from..n]
      ensures !Less(c.ts, b.ts)
    {
      var i :| from <= i < n && log[i] == b;
      assert InOrder(log, i, n);
    }
  }

  lemma CutBrings(r: Ring.State, log: seq<Body>, e: Extent, resume: bool, from: nat, n: nat, c: Body)
    requires DeviceLog(log) && Holds(r, log, e) && (e.lost < e.known ==> resume) && from <= n && CutOf(log, n, c)
    ensures Taken(r, log[from..n] + [c], resume)
         == var whole := Taken(r, log[from..n], resume);
            if FirstTaken(log, e) <= n then whole + [c] else whole
  {
    CutComesLast(log, from, n, c);
    LastLineTaken(SkipFor(r, resume), log[from..n], c);
    CutIsAdmitted(r, log, e, resume, n, c);
  }

  /** What a worker brings in: what is lost at the last clock, what is new, and the record cut off
      unless it lies before the last clock. */
  lemma WorkerBrings(r: Ring.State, log: seq<Body>, e: Extent, resume: bool, s: Stretch)
    returns (first: nat)
    requires DeviceLog(log) && Holds(r, log, e) && (e.lost < e.known ==> resume)
    requires s.from <= s.upto <= |log| && (s.cut.Some? ==> CutOf(log, s.upto, s.cut.value))
    ensures first == FirstTaken(log, e)
    ensures Taken(r, Delivered(log, s), resume) == Brought(log, first, e.lost, e.known, s)
  {
    first := FirstTaken(log, e);
    ReplayAdmits(r, log, e, resume, s.from, s.upto);
    if s.cut.Some? {
      CutBrings(r, log, e, resume, s.from, s.upto, s.cut.value);
      assert Delivered(log, s) == log[s.from..s.upto] + [s.cut.value];
    } else {
      assert Delivered(log, s) == log[s.from..s.upto];
    }
  }

  lemma HarmlessBrings(log: seq<Body>, e: Extent, first: nat, s: Stretch)
    requires Sound(log, e) && first == FirstTaken(log, e)
    requires s.from <= e.known && s.from <= s.upto <= |log| && Harmless(log, e, s)
    ensures Brought(log, first, e.lost, e.known, s) == log[e.known..Max(e.known, s.upto)]
  {
    ReplayedIsNewIff(log, first, e.lost, e.known, s.from, s.upto);
    assert Slice(log, e.known, s.upto) == log[e.known..Max(e.known, s.upto)];
  }

  /** Record by record: a harmless worker admits what is new and nothing else. */
  predicate TakesNew(skip: Option<ResumeSkip>, b: Body, k: nat, n: nat) {
    && (Admits(skip, b) <==> k <= n)
    && (SkipAfter(skip, b) == skip || (k <= n && SkipAfter(skip, b) == None))
  }

  ghost predicate TakesAllNew(skip: Option<ResumeSkip>, log: seq<Body>, k: nat, from: nat, upto: nat)
    requires upto <= |log|
  {
    forall n: nat :: from <= n < upto ==> TakesNew(skip, log[n], k, n)
  }

  lemma HarmlessTakesNew(skip: Option<ResumeSkip>, log: seq<Body>, e: Extent, s: Stretch)
    requires Sound(log, e) && s.upto <= |log| && Harmless(log, e, s)
    requires DecidesAll(skip, log, FirstTaken(log, e), e.lost, e.known, s.upto)
    ensures TakesAllNew(skip, log, e.known, s.from, s.upto)
  {
    var first := FirstTaken(log, e);
    forall n: nat | s.from <= n < s.upto
      ensures TakesNew(skip, log[n], e.known, n)
    {
      assert Decides(skip, log, first, e.lost, e.known, n);
    }
  }

  /** The skip set as it was at the beginning, or gone because something new has been seen. */
  predicate SkipAt(skip: Option<ResumeSkip>, initial: Option<ResumeSkip>, k: nat, pos: nat) {
    skip == initial || (skip == None && k < pos)
  }

  lemma RecordFollows(
    q: Ring.State, log: seq<Body>, d: Extent, initial: Option<ResumeSkip>, skip: Option<ResumeSkip>, k: nat, pos: nat)
    requires Holds(q, log, d) && pos < |log| && d.known == Max(k, pos) && SkipAt(skip, initial, k, pos)
    requires TakesNew(initial, log[pos], k, pos)
    ensures Admits(skip, log[pos]) <==> d.known <= pos
    ensures SkipAt(SkipAfter(skip, log[pos]), initial, k, pos + 1)
    ensures var after := if d.known <= pos then ExtentPush(d) else d;
      after.known == Max(k, pos + 1)
      && Holds(if Admits(skip, log[pos]) then Pushed(q, log[pos]) else q, log, after)
  {
    if d.known <= pos {
      HoldsPush(q, log, d);
    }
  }

  /** Behind the whole records nothing, or a record cut off that is not taken. */
  predicate TailRefused(skip: Option<ResumeSkip>, k: nat, upto: nat, tail: seq<Body>) {
    |tail| <= 1 && (tail != [] ==> upto <= k && !Admits(skip, tail[0]))
  }

  lemma {:induction false} TailFollows(
    r: Ring.State, log: seq<Body>, e: Extent, skip: Option<ResumeSkip>, upto: nat, tail: seq<Body>,
    between: seq<seq<Other>>)
    requires Holds(r, log, e) && TailRefused(skip, e.known, upto, tail)
    ensures e.capacity >= 1
    ensures Holds(Followed(r, skip, tail, between), log, ExtentAfter(e, upto, upto, |tail|, between))
  {
    HoldsOthers(r, log, e, Next(between));
    if tail != [] {
      var q, d := OthersOn(r, Next(between)), ExtentOthers(e, Next(between));
      assert tail[1..] == [];
      HoldsOthers(q, log, d, Next(Later(between)));
      assert Followed(q, SkipAfter(skip, tail[0]), [], Later(between)) == OthersOn(q, Next(Later(between)));
      assert ExtentAfter(d, upto + 1, upto, 0, Later(between)) == ExtentOthers(d, Next(Later(between)));
    }
  }

  lemma FollowedStep(r: Ring.State, skip: Option<ResumeSkip>, b: Body, lines: seq<Body>, between: seq<seq<Other>>)
    ensures var q := OthersOn(r, Next(between));
      Followed(r, skip, [b] + lines, between)
      == Followed(if Admits(skip, b) then Pushed(q, b) else q, SkipAfter(skip, b), lines, Later(between))
  {
    assert ([b] + lines)[1..] == lines;
  }

  lemma NothingFollows(
    r: Ring.State, log: seq<Body>, e: Extent, skip: Option<ResumeSkip>, pos: nat, between: seq<seq<Other>>)
    requires Holds(r, log, e)
    ensures e.capacity >= 1
    ensures Holds(Followed(r, skip, [], between), log, ExtentAfter(e, pos, pos, 0, between))
  {
    HoldsOthers(r, log, e, Next(between));
  }

  /** In the middle of a harmless stream: everything before `pos` is done. */
  ghost predicate Following(
    r: Ring.State, log: seq<Body>, e: Extent, initial: Option<ResumeSkip>, skip: Option<ResumeSkip>, k: nat, pos: nat)
  {
    Holds(r, log, e) && e.capacity >= 1 && e.known == Max(k, pos) && SkipAt(skip, initial, k, pos)
  }

  lemma {:induction false} OneFollows(
    r: Ring.State, log: seq<Body>, e: Extent, initial: Option<ResumeSkip>, skip: Option<ResumeSkip>,
    k: nat, pos: nat, upto: nat, lines: seq<Body>, between: seq<seq<Other>>)
    returns (q: Ring.State, d: Extent, skip': Option<ResumeSkip>)
    requires Following(r, log, e, initial, skip, k, pos) && pos < upto <= |log|
    requires TakesNew(initial, log[pos], k, pos)
    ensures Following(q, log, d, initial, skip', k, pos + 1)
    ensures Followed(r, skip, [log[pos]] + lines, between) == Followed(q, skip', lines, Later(between))
    ensures ExtentAfter(e, pos, upto, 1 + |lines|, between) == ExtentAfter(d, pos + 1, upto, |lines|, Later(between))
  {
    q, d, skip' := OthersOn(r, Next(between)), ExtentOthers(e, Next(between)), SkipAfter(skip, log[pos]);
    HoldsOthers(r, log, e, Next(between));
    RecordFollows(q, log, d, initial, skip, k, pos);
    FollowedStep(r, skip, log[pos], lines, between);
    q := if Admits(skip, log[pos]) then Pushed(q, log[pos]) else q;
    d := if d.known <= pos then ExtentPush(d) else d;
  }

  lemma {:induction false} EndFollows(
    r: Ring.State, log: seq<Body>, e: Extent, initial: Option<ResumeSkip>, skip: Option<ResumeSkip>,
    k: nat, upto: nat, tail: seq<Body>, between: seq<seq<Other>>)
    requires Following(r, log, e, initial, skip, k, upto) && upto <= |log| && TailRefused(initial, k, upto, tail)
    ensures Holds(Followed(r, skip, tail, between), log, ExtentAfter(e, upto, upto, |tail|, between))
  {
    if tail == [] {
      NothingFollows(r, log, e, skip, upto, between);
    } else {
      TailFollows(r, log, e, skip, upto, tail, between);
    }
  }

  lemma FirstOfRest(log: seq<Body>, pos: nat, upto: nat, tail: seq<Body>) returns (lines: seq<Body>)
    requires pos < upto <= |log|
    ensures lines == log[pos + 1..upto] + tail && |lines| == upto - (pos + 1) + |tail|
    ensures log[pos..upto] + tail == [log[pos]] + lines
  {
    lines := log[pos + 1..upto] + tail;
  }

  lemma {:induction false} HarmlessFollows(
    r: Ring.State, log: seq<Body>, e: Extent, initial: Option<ResumeSkip>, skip: Option<ResumeSkip>,
    k: nat, pos: nat, upto: nat, tail: seq<Body>, between: seq<seq<Other>>)
    requires Following(r, log, e, initial, skip, k, pos) && pos <= upto <= |log|
    requires TakesAllNew(initial, log, k, pos, upto) && TailRefused(initial, k, upto, tail)
    ensures Holds(Followed(r, skip, log[pos..upto] + tail, between), log,
                  ExtentAfter(e, pos, upto, upto - pos + |tail|, between))
    decreases upto - pos
  {
    if pos < upto {
      assert TakesNew(initial, log[pos], k, pos);
      var lines := FirstOfRest(log, pos, upto, tail);
      var q, d, skip' := OneFollows(r, log, e, initial, skip, k, pos, upto, lines, between);
      HarmlessFollows(q, log, d, initial, skip', k, pos + 1, upto, tail, Later(between));
    } else {
      assert log[upto..upto] + tail == tail;
      EndFollows(r, log, e, initial, skip, k, upto, tail, between);
    }
  }

  lemma HarmlessTakes(r: Ring.State, log: seq<Body>, e: Extent, resume: bool, w: Worker, s: Stretch)
    requires DeviceLog(log) && Holds(r, log, e) && (e.lost < e.known ==> resume)
    requires Delivers1(log, w, s) && s.from <= e.known && Harmless(log, e, s)
    ensures Taken(r, w.lines, resume) == log[e.known..Max(e.known, s.upto)]
  {
    var first := WorkerBrings(r, log, e, resume, s);
    HarmlessBrings(log, e, first, s);
  }

  lemma HarmlessRefuses(r: Ring.State, log: seq<Body>, e: Extent, resume: bool, s: Stretch, tail: seq<Body>)
    requires DeviceLog(log) && Holds(r, log, e) && (e.lost < e.known ==> resume)
    requires s.from <= s.upto <= |log| && Harmless(log, e, s)
    requires match s.cut case None => tail == [] case Some(c) => tail == [c] && CutOf(log, s.upto, c)
    ensures TakesAllNew(SkipFor(r, resume), log, e.known, s.from, s.upto)
    ensures TailRefused(SkipFor(r, resume), e.known, s.upto, tail)
  {
    RingDecides(r, log, e, resume, s.upto);
    HarmlessTakesNew(SkipFor(r, resume), log, e, s);
    if s.cut.Some? {
      CutIsAdmitted(r, log, e, resume, s.upto, s.cut.value);
    }
  }

  /** A harmless worker brings in exactly what is new, and leaves the ring further on. */
  lemma OneWorker(r: Ring.State, log: seq<Body>, e: Extent, resume: bool, w: Worker, s: Stretch)
    requires DeviceLog(log) && Holds(r, log, e) && (e.lost < e.known ==> resume)
    requires Delivers1(log, w, s) && s.from <= e.known && Harmless(log, e, s)
    ensures Sound(log, e)
    ensures Taken(r, w.lines, resume) == log[e.known..Max(e.known, s.upto)]
    ensures Holds(RingAfter(r, w, resume), log, ExtentBehind(e, w, s))
  {
    HarmlessTakes(r, log, e, resume, w, s);
    var tail := match s.cut case None => [] case Some(c) => [c];
    HarmlessRefuses(r, log, e, resume, s, tail);
    assert w.lines == log[s.from..s.upto] + tail;
    LinesFollow(r, log, e, SkipFor(r, resume), s.from, s.upto, tail, w.lines, w.between);
  }

  lemma LinesFollow(
    r: Ring.State, log: seq<Body>, e: Extent, skip: Option<ResumeSkip>, from: nat, upto: nat, tail: seq<Body>,
    lines: seq<Body>, between: seq<seq<Other>>)
    requires Holds(r, log, e) && e.capacity >= 1 && from <= e.known && from <= upto <= |log|
    requires TakesAllNew(skip, log, e.known, from, upto) && TailRefused(skip, e.known, upto, tail)
    requires lines == log[from..upto] + tail
    ensures Holds(Followed(r, skip, lines, between), log, ExtentAfter(e, from, upto, |lines|, between))
  {
    HarmlessFollows(r, log, e, skip, skip, e.known, from, upto, tail, between);
  }

  lemma {:induction false} KnownBehind(e: Extent, pos: nat, upto: nat, n: nat, between: seq<seq<Other>>)
    requires e.lost <= e.known && e.capacity >= 1 && pos <= upto <= pos + n && pos <= e.known
    ensures var d := ExtentAfter(e, pos, upto, n, between);
      d.known == Max(e.known, upto) && d.lost <= d.known && d.capacity >= 1
    decreases n
  {
    var d := ExtentOthers(e, Next(between));
    CapacityAtLeastOne(e, Next(between));
    if n > 0 {
      if pos < upto {
        KnownBehind(if d.known <= pos then ExtentPush(d) else d, pos + 1, upto, n - 1, Later(between));
      } else {
        KnownStays(d, pos + 1, upto, n - 1, Later(between));
      }
    }
  }

  lemma {:induction false} KnownStays(e: Extent, pos: nat, upto: nat, n: nat, between: seq<seq<Other>>)
    requires e.lost <= e.known && e.capacity >= 1 && upto <= pos
    ensures var d := ExtentAfter(e, pos, upto, n, between);
      d.known == e.known && d.lost <= d.known && d.capacity >= 1
    decreases n
  {
    CapacityAtLeastOne(e, Next(between));
    if n > 0 {
      KnownStays(ExtentOthers(e, Next(between)), pos + 1, upto, n - 1, Later(between));
    }
  }

  /** A worker that brings in more spoils the order for good. */
  lemma HarmShows(log: seq<Body>, first: nat, lost: nat, k: nat, s: Stretch, own: seq<Body>, rest: seq<Body>, reached: nat)
    requires DeviceLog(log) && s.from <= k && first <= k && lost <= k && s.from <= s.upto <= |log|
    requires s.cut.Some? ==> CutOf(log, s.upto, s.cut.value)
    requires Max(k, s.upto) <= reached <= |log|
    requires Max(s.from, first) < Min(lost, s.upto) || (s.cut.Some? && first <= s.upto)
    requires own == Brought(log, first, lost, k, s)
    ensures own + rest != log[k..reached]
  {
    if Max(s.from, first) < Min(lost, s.upto) {
      RepeatComesFirst(log, first, lost, k, s);
      RepeatShows(log, k, Max(s.from, first), own, rest, reached);
    } else {
      CutShows(log, k, s, first, lost, rest, reached);
    }
  }

  lemma RepeatShows(log: seq<Body>, k: nat, n: nat, own: seq<Body>, rest: seq<Body>, reached: nat)
    requires DeviceLog(log) && n < k <= reached <= |log| && own != [] && own[0] == log[n]
    ensures own + rest != log[k..reached]
  {
    if k < reached {
      assert InOrder(log, n, k) && log[k..reached][0] == log[k];
    }
    assert (own + rest)[0] == log[n];
  }

  lemma RepeatComesFirst(log: seq<Body>, first: nat, lost: nat, k: nat, s: Stretch)
    requires Max(s.from, first) < Min(lost, s.upto) && lost <= k && s.upto <= |log|
    ensures var own := Brought(log, first, lost, k, s); own != [] && own[0] == log[Max(s.from, first)]
  {
    var whole := Replayed(log, first, lost, k, s.from, s.upto);
    assert whole != [] && whole[0] == log[Max(s.from, first)];
  }

  lemma CutShows(log: seq<Body>, k: nat, s: Stretch, first: nat, lost: nat, rest: seq<Body>, reached: nat)
    requires s.from <= k && lost <= k && s.upto <= |log| && Max(s.from, first) >= Min(lost, s.upto)
    requires s.cut.Some? && CutOf(log, s.upto, s.cut.value)
    requires Max(k, s.upto) <= reached <= |log|
    ensures Replayed(log, first, lost, k, s.from, s.upto) + [s.cut.value] + rest != log[k..reached]
  {
    var c, k' := s.cut.value, Max(k, s.upto);
    var all := log[k..k'] + [c] + rest;
    assert Replayed(log, first, lost, k, s.from, s.upto) == log[k..k'];
    assert all[k' - k] == c;
    if k' < reached {
      assert log[k..reached][k' - k] == log[k'];
    }
  }

  lemma HarmfulWorker(
    r: Ring.State, log: seq<Body>, e: Extent, resume: bool, w: Worker, s: Stretch, rest: seq<Body>, reached: nat)
    requires DeviceLog(log) && Holds(r, log, e) && (e.lost < e.known ==> resume)
    requires Delivers1(log, w, s) && s.from <= e.known && !Harmless(log, e, s)
    requires Max(e.known, s.upto) <= reached <= |log|
    ensures Taken(r, w.lines, resume) + rest != log[e.known..reached]
  {
    var first := WorkerBrings(r, log, e, resume, s);
    HarmShows(log, first, e.lost, e.known, s, Taken(r, w.lines, resume), rest, reached);
  }

  // ---------- all workers ----------

  lemma {:induction false} DeliversAll(log: seq<Body>, e: Extent, workers: seq<Worker>, stretches: seq<Stretch>)
    requires Sound(log, e) && Delivers(log, e, workers, stretches)
    ensures |stretches| == |workers| && (workers != [] ==> Delivers1(log, workers[0], stretches[0]))
    ensures e.known <= Reached(e.known, workers, stretches) <= |log|
    ensures workers != [] ==> Max(e.known, stretches[0].upto) <= Reached(e.known, workers, stretches)
    decreases |workers|
  {
    if workers != [] && Resumes(workers[0].end) {
      var k := Max(e.known, stretches[0].upto);
      if Harmless(log, e, stretches[0]) {
        var w, s := workers[0], stretches[0];
        KnownBehind(e, s.from, s.upto, |w.lines|, w.between);
        DeliversAll(log, ExtentBehind(e, w, s), workers[1..], stretches[1..]);
      } else {
        ReachedGrows(log, k, workers[1..], stretches[1..]);
      }
    }
  }

  lemma {:induction false} ReachedGrows(log: seq<Body>, k: nat, workers: seq<Worker>, stretches: seq<Stretch>)
    requires k <= |log| && AllDeliver(log, workers, stretches)
    ensures k <= Reached(k, workers, stretches) <= |log|
    decreases |workers|
  {
    if workers != [] {
      assert Delivers1(log, workers[0], stretches[0]);
      if Resumes(workers[0].end) {
        ReachedGrows(log, Max(k, stretches[0].upto), workers[1..], stretches[1..]);
      }
    }
  }

  lemma SliceInTwo(log: seq<Body>, a: nat, b: nat, c: nat, rest: seq<Body>)
    requires a <= b <= c <= |log|
    ensures log[a..b] + rest == log[a..c] <==> rest == log[b..c]
  {
    assert log[a..c] == log[a..b] + log[b..c];
    if log[a..b] + rest == log[a..c] {
      assert rest == (log[a..b] + rest)[b - a..] == log[a..c][b - a..] == log[b..c];
    }
  }

  lemma {:induction false} WorkersAreHarmlessIff(
    r: Ring.State, log: seq<Body>, e: Extent, resume: bool, workers: seq<Worker>, stretches: seq<Stretch>)
    requires DeviceLog(log) && Holds(r, log, e) && (e.lost < e.known ==> resume)
    requires Sound(log, e) && Delivers(log, e, workers, stretches)
    ensures e.known <= Reached(e.known, workers, stretches) <= |log|
    ensures AdmittedBy(r, workers, resume) == log[e.known..Reached(e.known, workers, stretches)]
            <==> AllHarmless(log, e, workers, stretches)
    decreases |workers|
  {
    DeliversAll(log, e, workers, stretches);
    var reached := Reached(e.known, workers, stretches);
    if workers == [] {
      assert log[e.known..e.known] == [];
    } else {
      var w, s := workers[0], stretches[0];
      var rest := if Resumes(w.end) then AdmittedBy(RingAfter(r, w, resume), workers[1..], true) else [];
      if Harmless(log, e, s) {
        OneWorker(r, log, e, resume, w, s);
        KnownBehind(e, s.from, s.upto, |w.lines|, w.between);
        SliceInTwo(log, e.known, Max(e.known, s.upto), reached, rest);
        if Resumes(w.end) {
          WorkersAreHarmlessIff(RingAfter(r, w, resume), log, ExtentBehind(e, w, s), true, workers[1..], stretches[1..]);
        } else {
          assert log[reached..reached] == [];
        }
      } else {
        HarmfulWorker(r, log, e, resume, w, s, rest, reached);
      }
    }
  }

  /** A ring that nothing of the log has been given to. */
  function Beginning(r: Ring.State): Extent {
    Extent(0, 0, r.capacity)
  }

  /** Exactly once: over any number of restarts of a new stream, whatever others do to the ring
      meanwhile, each record of the delivered log enters once, in order, if and only if every worker is
      harmless. */
  lemma ExactlyOnceIff(r: Ring.State, log: seq<Body>, workers: seq<Worker>, stretches: seq<Stretch>)
    requires DeviceLog(log) && Valid(r) && r.buf == []
    requires Delivers(log, Beginning(r), workers, stretches)
    ensures Reached(0, workers, stretches) <= |log|
    ensures AdmittedBy(r, workers, false) == log[..Reached(0, workers, stretches)]
            <==> AllHarmless(log, Beginning(r), workers, stretches)
  {
    assert log[0..0] == [] && Bodies(r.buf) == [];
    WorkersAreHarmlessIff(r, log, Beginning(r), false, workers, stretches);
    assert log[0..Reached(0, workers, stretches)] == log[..Reached(0, workers, stretches)];
  }

  /** The same of ring and windows: what the supervised run emits is the log. */
  lemma SupervisedOnceIff(serial: string, r: Ring.State, log: seq<Body>, workers: seq<Worker>, stretches: seq<Stretch>)
    requires DeviceLog(log) && Valid(r) && r.buf == []
    requires Delivers(log, Beginning(r), workers, stretches)
    ensures Reached(0, workers, stretches) <= |log|
    ensures EmittedTo(SupervisedActions(serial, r, workers, false), serial) == log[..Reached(0, workers, stretches)]
            <==> AllHarmless(log, Beginning(r), workers, stretches)
  {
    SupervisedEmits(serial, r, workers, false);
    ExactlyOnceIff(r, log, workers, stretches);
  }

  // ---------- rings with room ----------

  /** The ring has lost nothing that it had room for. */
  predicate Full(e: Extent) {
    e.capacity >= 1 && e.lost == e.known - Min(e.known, e.capacity)
  }

  lemma {:induction false} UndisturbedIsFull(e: Extent, pos: nat, upto: nat, n: nat)
    requires Full(e)
    ensures Full(ExtentAfter(e, pos, upto, n, [])) && ExtentAfter(e, pos, upto, n, []).capacity == e.capacity
    decreases n
  {
    if n > 0 {
      UndisturbedIsFull(if e.known <= pos < upto then ExtentPush(e) else e, pos + 1, upto, n - 1);
    }
  }

  lemma RoomIsHarmless(log: seq<Body>, e: Extent, s: Stretch)
    requires Sound(log, e) && Full(e) && s.cut.None?
    requires e.known - FirstAtLastClock(log, e.known) <= e.capacity
    ensures Harmless(log, e, s)
  {
  }

  /** Whole records alone, into a ring that can hold any moment of the log and that nobody disturbs, enter
      once each. */
  lemma {:induction false} RoomForEachClock(log: seq<Body>, e: Extent, workers: seq<Worker>, stretches: seq<Stretch>)
    requires Sound(log, e) && Full(e) && Delivers(log, e, workers, stretches)
    requires forall n: nat :: n <= |log| ==> n - FirstAtLastClock(log, n) <= e.capacity
    requires forall s :: s in stretches ==> s.cut.None?
    requires forall w :: w in workers ==> w.between == []
    ensures AllHarmless(log, e, workers, stretches)
    decreases |workers|
  {
    if workers != [] {
      var w, s := workers[0], stretches[0];
      assert w in workers && s in stretches;
      RoomIsHarmless(log, e, s);
      UndisturbedIsFull(e, s.from, s.upto, |w.lines|);
      if Resumes(w.end) {
        RoomForEachClock(log, ExtentBehind(e, w, s), workers[1..], stretches[1..]);
      }
    }
  }

  // ---------- runs that repeat ----------

  lemma TwoWorkers(r: Ring.State, first: Worker, second: Worker)
    requires Resumes(first.end) && !Resumes(second.end)
    ensures AdmittedBy(r, [first, second], false)
         == Taken(r, first.lines, false) + Taken(RingAfter(r, first, false), second.lines, true)
  {
    assert [first, second][1..] == [second];
    var later := Taken(RingAfter(r, first, false), second.lines, true);
    assert later + [] == later;
    assert AdmittedBy(RingAfter(r, first, false), [second], true) == later;
  }

  lemma PushedInto(r: Ring.State, b: Body)
    ensures Followed(r, None, [b], []) == Pushed(r, b)
  {
    assert [b][1..] == [];
  }

  lemma TwoPushedInto(r: Ring.State, log: seq<Body>)
    requires |log| == 2
    ensures Followed(r, None, log, []) == Pushed(Pushed(r, log[0]), log[1])
  {
    assert log[1..] == [log[1]];
    PushedInto(Pushed(r, log[0]), log[1]);
  }

  lemma {:induction false} TwoOfAMoment(log: seq<Body>, r: Ring.State)
    requires |log| == 2 && log[0].ts == log[1].ts && !Alike(log[0], log[1])
    requires r == Ring.State([Record(1, log[1])], 2, 1)
    ensures DeviceLog(log) && FirstAtLastClock(log, 2) == 0 && Holds(r, log, Extent(1, 2, 1))
    ensures Replayed(log, 0, 1, 2, 0, 2) == [log[0]]
  {
    Irreflexive(log[0].ts);
    assert log[1..2] == [log[1]] && Bodies(r.buf) == [log[1]];
  }

  /** A ring of one that has been given two records of the same moment takes the first again. */
  lemma {:induction false} RepeatAfterLoss(log: seq<Body>)
    requires |log| == 2 && log[0].ts == log[1].ts && !Alike(log[0], log[1])
    ensures DeviceLog(log)
    ensures var r := Followed(Ring.State([], 0, 1), None, log, []);
      Holds(r, log, Extent(1, 2, 1)) && Taken(r, log, true) == [log[0]]
  {
    TwoPushedInto(Ring.State([], 0, 1), log);
    var r := Ring.State([Record(1, log[1])], 2, 1);
    TwoOfAMoment(log, r);
    ReplayAdmits(r, log, Extent(1, 2, 1), true, 0, 2);
    assert log[0..2] == log;
  }

  lemma TwoDeliver(log: seq<Body>, e: Extent, workers: seq<Worker>, stretches: seq<Stretch>)
    requires |workers| == |stretches| == 2 && !Resumes(workers[1].end) && Sound(log, e)
    requires stretches[0].from == stretches[1].from == 0 && stretches[0].upto <= |workers[0].lines|
    requires Delivers1(log, workers[0], stretches[0]) && Delivers1(log, workers[1], stretches[1])
    ensures Delivers(log, e, workers, stretches)
  {
    assert workers[1..] == [workers[1]] && stretches[1..] == [stretches[1]];
    KnownBehind(e, 0, stretches[0].upto, |workers[0].lines|, workers[0].between);
  }

  /** Two records of one moment in a ring of one, and a restart: the first enters again. */
  lemma {:induction false} RestartRepeats(log: seq<Body>, workers: seq<Worker>)
    requires |log| == 2 && log[0].ts == log[1].ts && !Alike(log[0], log[1])
    requires workers == [Worker(log, [], Exited(0)), Worker(log, [], Cancelled)]
    ensures DeviceLog(log)
    ensures Delivers(log, Extent(0, 0, 1), workers, [Stretch(0, 2, None), Stretch(0, 2, None)])
    ensures AdmittedBy(Ring.State([], 0, 1), workers, false) == log + [log[0]]
  {
    var r := Ring.State([], 0, 1);
    assert log[0..2] == log;
    TwoDeliver(log, Extent(0, 0, 1), workers, [Stretch(0, 2, None), Stretch(0, 2, None)]);
    TwoWorkers(r, workers[0], workers[1]);
    NoSkipAdmitsAll(log);
    RepeatAfterLoss(log);
  }

  /** A record, a clear, and a restart: the record enters again, whatever the ring can hold. */
  lemma {:induction false} ClearedRestartRepeats(capacity: nat, b: Body, workers: seq<Worker>)
    requires capacity >= 1
    requires workers == [Worker([b], [[], [EmptyRing]], Exited(0)), Worker([b], [], Cancelled)]
    ensures DeviceLog([b])
    ensures Delivers([b], Extent(0, 0, capacity), workers, [Stretch(0, 1, None), Stretch(0, 1, None)])
    ensures AdmittedBy(Ring.State([], 0, capacity), workers, false) == [b, b]
  {
    var r, log := Ring.State([], 0, capacity), [b];
    assert log[0..1] == log;
    TwoDeliver(log, Extent(0, 0, capacity), workers, [Stretch(0, 1, None), Stretch(0, 1, None)]);
    TwoWorkers(r, workers[0], workers[1]);
    NoSkipAdmitsAll(log);
    ClearedBehind(r, b);
    EmptyRingTakesAll(RingAfter(r, workers[0], false), log);
    assert log + log == [b, b];
  }

  lemma {:induction false} ClearedBehind(r: Ring.State, b: Body)
    ensures Followed(r, None, [b], [[], [EmptyRing]]).buf == []
  {
    var between: seq<seq<Other>> := [[], [EmptyRing]];
    assert [b][1..] == [] && Later(between) == [[EmptyRing]] && Next(Later(between)) == [EmptyRing];
    assert [EmptyRing][..0] == [];
    var q := Pushed(r, b);
    assert OthersOn(q, [EmptyRing]) == Cleared(q);
    assert Followed(q, None, [], [[EmptyRing]]) == Cleared(q);
  }

  /** A record cut off by the end of its worker stays in front of the whole one, whatever the ring
      can hold. */
  lemma {:induction false} CutRecordStays(capacity: nat, whole: Body, cut: Body, workers: seq<Worker>)
    requires capacity >= 1 && cut.ts == whole.ts && !Alike(cut, whole)
    requires workers == [Worker([cut], [], Exited(0)), Worker([whole], [], Cancelled)]
    ensures DeviceLog([whole])
    ensures Delivers([whole], Extent(0, 0, capacity), workers, [Stretch(0, 0, Some(cut)), Stretch(0, 1, None)])
    ensures AdmittedBy(Ring.State([], 0, capacity), workers, false) == [cut, whole]
  {
    var r, log := Ring.State([], 0, capacity), [whole];
    assert log[0..0] == [] && [] + [cut] == [cut] && log[0..1] == log;
    TwoDeliver(log, Extent(0, 0, capacity), workers, [Stretch(0, 0, Some(cut)), Stretch(0, 1, None)]);
    TwoWorkers(r, workers[0], workers[1]);
    NoSkipAdmitsAll([cut]);
    PushedInto(r, cut);
    WholeIsAdmitted(capacity, whole, cut);
    assert [cut] + [whole] == [cut, whole];
  }

  lemma {:induction false} WholeIsAdmitted(capacity: nat, whole: Body, cut: Body)
    requires capacity >= 1 && cut.ts == whole.ts && !Alike(cut, whole)
    ensures Taken(Pushed(Ring.State([], 0, capacity), cut), [whole], true) == [whole]
  {
    var r := Pushed(Ring.State([], 0, capacity), cut);
    assert r.buf == [Record(0, cut)];
    IdentitiesAtAre(r.buf, cut.ts, IdentityOf(whole));
    Irreflexive(cut.ts);
    var skip := SkipOf(r.buf);
    assert skip.value.ts == cut.ts && IdentityOf(whole) !in skip.value.identities;
    assert Admits(skip, whole) && SkipAfter(skip, whole) == skip;
    assert [whole][0] == whole && [whole][1..] == [] && AdmittedOf(skip, []) == [];
  }
}
