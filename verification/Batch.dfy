/** Hits gathered per window and sent in batches to a bounded sink. */
module Batch {

  import opened Arithmetic
  import opened Options

  /** A record that goes along with a hit, and the encoded length of its message and tag. */
  datatype Row = Row(record: int, length: nat)

  datatype HitNote = HitNote(window: nat, total: nat, signals: nat, line: Option<Row>)

  datatype Acc = Acc(total: nat, signals: nat, appended: nat, tail: seq<Row>)

  datatype Hits = Hits(window: nat, total: nat, signals: nat, appended: nat, tail: seq<Row>)

  datatype Outcome = Accepted | Full | Closed

  /** What the sink does with the n-th thing it is handed, whatever that is. */
  type Sink = nat -> Outcome

  /** A batch that was handed to the sink at the event numbered `at`. */
  datatype Attempt = Attempt(hits: Hits, outcome: Outcome, at: nat)

  datatype Event = Noted(note: HitNote) | Tick | Ended | Cancelled

  function Bytes(note: HitNote): nat {
    match note.line
    case Some(row) => row.length + 32
    case None => 16
  }

  function Gathered(old_: Option<Acc>, note: HitNote): Acc {
    var acc := if old_.Some? then old_.value else Acc(note.total, note.signals, 0, []);
    Acc(note.total, note.signals, SaturatingInc(acc.appended),
        acc.tail + match note.line case Some(row) => [row] case None => [])
  }

  // ---------- what came in and what went out, window by window ----------

  function CountNotes(notes: seq<HitNote>, w: nat): nat {
    if notes == [] then 0
    else CountNotes(notes[..|notes| - 1], w) + if notes[|notes| - 1].window == w then 1 else 0
  }

  function RowsOf(notes: seq<HitNote>, w: nat): seq<Row> {
    if notes == [] then []
    else
      var last := notes[|notes| - 1];
      if last.window == w && last.line.Some? then RowsOf(notes[..|notes| - 1], w) + [last.line.value]
      else RowsOf(notes[..|notes| - 1], w)
  }

  function LastNote(notes: seq<HitNote>, w: nat): Option<HitNote> {
    if notes == [] then None
    else if notes[|notes| - 1].window == w then Some(notes[|notes| - 1])
    else LastNote(notes[..|notes| - 1], w)
  }

  function SumAppended(attempts: seq<Attempt>, w: nat): nat {
    if attempts == [] then 0
    else
      var last := attempts[|attempts| - 1].hits;
      SumAppended(attempts[..|attempts| - 1], w) + if last.window == w then last.appended else 0
  }

  function TailsOf(attempts: seq<Attempt>, w: nat): seq<Row> {
    if attempts == [] then []
    else
      var last := attempts[|attempts| - 1].hits;
      if last.window == w then TailsOf(attempts[..|attempts| - 1], w) + last.tail
      else TailsOf(attempts[..|attempts| - 1], w)
  }

  function CountFull(attempts: seq<Attempt>): nat {
    if attempts == [] then 0
    else CountFull(attempts[..|attempts| - 1]) + if attempts[|attempts| - 1].outcome.Full? then 1 else 0
  }

  function Sum(reports: seq<nat>): nat {
    if reports == [] then 0 else Sum(reports[..|reports| - 1]) + reports[|reports| - 1]
  }

  function PendingAppended(pending: map<nat, Acc>, w: nat): nat {
    if w in pending then pending[w].appended else 0
  }

  function PendingTail(pending: map<nat, Acc>, w: nat): seq<Row> {
    if w in pending then pending[w].tail else []
  }

  /** Everything noted for a window was sent, was dropped with its batch or is pending, its rows in
      order; and what is pending carries the newest counts. */
  predicate Balanced(notes: seq<HitNote>, attempts: seq<Attempt>, pending: map<nat, Acc>, w: nat) {
    && CountNotes(notes, w) == SumAppended(attempts, w) + PendingAppended(pending, w)
    && RowsOf(notes, w) == TailsOf(attempts, w) + PendingTail(pending, w)
    && (w in pending ==> Newest(notes, w, pending[w].total, pending[w].signals) && pending[w].appended > 0)
  }

  predicate Newest(notes: seq<HitNote>, w: nat, total: nat, signals: nat) {
    LastNote(notes, w).Some? && LastNote(notes, w).value.total == total && LastNote(notes, w).value.signals == signals
  }

  // ---------- when batches leave, and with what ----------

  function NotesIn(events: seq<Event>): seq<HitNote> {
    if events == [] then []
    else if events[0].Noted? then [events[0].note] + NotesIn(events[1..])
    else NotesIn(events[1..])
  }

  datatype LimitPair = Limit(lines: nat, bytes: nat)

  type Limits = l: LimitPair | 1 <= l.lines <= U32_MAX && 1 <= l.bytes
    witness Limit(1, 1)

  function Weight(notes: seq<HitNote>): nat {
    if notes == [] then 0 else Weight(notes[..|notes| - 1]) + Bytes(notes[|notes| - 1])
  }

  predicate Reaches(notes: seq<HitNote>, limits: Limits) {
    |notes| >= limits.lines || Weight(notes) >= limits.bytes
  }

  /** The notes that wait before event `i`: those since batches last left. */
  function Waiting(events: seq<Event>, i: nat, limits: Limits): seq<HitNote>
    requires i <= |events|
  {
    if i == 0 then []
    else
      var waiting := Waiting(events, i - 1, limits);
      match events[i - 1]
      case Noted(note) => if Reaches(waiting + [note], limits) then [] else waiting + [note]
      case Cancelled => waiting
      case _ => []
  }

  /** The notes that leave at event `i`: all that wait, at a tick, at the end, and at a note with which
      they reach a limit. */
  function Leaving(events: seq<Event>, i: nat, limits: Limits): seq<HitNote>
    requires i < |events|
  {
    var waiting := Waiting(events, i, limits);
    match events[i]
    case Noted(note) => if Reaches(waiting + [note], limits) then waiting + [note] else []
    case Cancelled => []
    case _ => waiting
  }

  /** A window's share of some notes as a batch: its newest counts, the number of its notes, its rows. */
  function BatchOf(notes: seq<HitNote>, w: nat): Hits
    requires LastNote(notes, w).Some?
  {
    var last := LastNote(notes, w).value;
    Hits(w, last.total, last.signals, CountNotes(notes, w), RowsOf(notes, w))
  }

  /** What is gathered for a window is its share of the notes that wait. */
  predicate HoldsFor(waiting: seq<HitNote>, pending: map<nat, Acc>, w: nat) {
    && (w in pending <==> LastNote(waiting, w).Some?)
    && (w in pending ==> BatchOf(waiting, w) == HitsOf(w, pending[w]))
  }

  ghost predicate Holds(waiting: seq<HitNote>, pending: map<nat, Acc>) {
    forall w :: HoldsFor(waiting, pending, w)
  }

  function HitsOf(w: nat, acc: Acc): Hits {
    Hits(w, acc.total, acc.signals, acc.appended, acc.tail)
  }

  function CountAt(attempts: seq<Attempt>, i: nat, w: nat): nat {
    if attempts == [] then 0
    else
      var last := attempts[|attempts| - 1];
      CountAt(attempts[..|attempts| - 1], i, w) + if last.at == i && last.hits.window == w then 1 else 0
  }

  /** The batch is a window's share of what leaves at its event. */
  predicate Due(events: seq<Event>, limits: Limits, a: Attempt) {
    && a.at < |events|
    && var leaving := Leaving(events, a.at, limits);
       LastNote(leaving, a.hits.window).Some? && a.hits == BatchOf(leaving, a.hits.window)
  }

  ghost predicate AllDue(events: seq<Event>, limits: Limits, attempts: seq<Attempt>) {
    && (forall a :: a in attempts ==> Due(events, limits, a))
    && forall i, j :: 0 <= i < j < |attempts| ==> attempts[i].at <= attempts[j].at
  }

  /** A window that has a note among those leaving at event `i` gets one batch then, the others none. */
  predicate SentAt(events: seq<Event>, limits: Limits, attempts: seq<Attempt>, i: nat, w: nat)
    requires i < |events|
  {
    CountAt(attempts, i, w) == if LastNote(Leaving(events, i, limits), w).Some? then 1 else 0
  }

  ghost predicate AllSent(events: seq<Event>, limits: Limits, attempts: seq<Attempt>) {
    forall i, w :: 0 <= i < |events| ==> SentAt(events, limits, attempts, i, w)
  }

  /** While batches leave at the last event: those of the windows in `ready` are still to come. */
  ghost predicate AllSentBut(events: seq<Event>, limits: Limits, attempts: seq<Attempt>, ready: set<nat>) {
    forall i, w :: 0 <= i < |events| ==>
      if i == |events| - 1 && w in ready then CountAt(attempts, i, w) == 0
      else SentAt(events, limits, attempts, i, w)
  }

  ghost predicate NoneAt(attempts: seq<Attempt>, i: nat) {
    forall w :: CountAt(attempts, i, w) == 0
  }

  /** An event has come, and nothing has left at it yet. */
  ghost predicate Opened(events: seq<Event>, limits: Limits, attempts: seq<Attempt>) {
    && events != [] && AllDue(events, limits, attempts) && NoneAt(attempts, |events| - 1)
    && forall i, w :: 0 <= i < |events| - 1 ==> SentAt(events, limits, attempts, i, w)
  }

  /** The last event was a note: `waiting`, which ends with it, leaves or goes on waiting. */
  ghost predicate NoteWaits(events: seq<Event>, limits: Limits, waiting: seq<HitNote>) {
    && events != []
    && Leaving(events, |events| - 1, limits) == (if Reaches(waiting, limits) then waiting else [])
    && Waiting(events, |events|, limits) == if Reaches(waiting, limits) then [] else waiting
  }

  class Aggregator {
    const sink: Sink
    const limits: Limits
    var clock: nat
    var pending: map<nat, Acc>
    var pendingBytes: nat
    var pendingLines: nat
    var dropped: nat
    /** What has happened so far. */
    var events: seq<Event>
    var attempts: seq<Attempt>
    var reports: seq<nat>

    ghost predicate Gathers(waiting: seq<HitNote>)
      reads this
    {
      Holds(waiting, pending) && pendingLines == |waiting| && pendingBytes == Weight(waiting)
    }

    /** Refused batches are those reported and those still to be reported. */
    ghost predicate Conserving()
      reads this
    {
      CountFull(attempts) == Sum(reports) + dropped
    }

    /** Between events: what waits is gathered, and what was due has left. */
    ghost predicate Valid()
      reads this
    {
      && Gathers(Waiting(events, |events|, limits)) && Conserving()
      && AllDue(events, limits, attempts) && AllSent(events, limits, attempts)
    }

    constructor (sink: Sink, limits: Limits)
      ensures Valid() && events == [] && pending == map[] && attempts == [] && reports == []
      ensures clock == 0 && dropped == 0
      ensures this.sink == sink && this.limits == limits
    {
      this.sink, this.limits := sink, limits;
      clock, pending, pendingBytes, pendingLines, dropped := 0, map[], 0, 0, 0;
      events, attempts, reports := [], [], [];
    }

    method TrySend() returns (outcome: Outcome)
      modifies this`clock
      ensures outcome == sink(old(clock)) && clock == old(clock) + 1
    {
      outcome := sink(clock);
      clock := clock + 1;
    }

    /** The report of refused batches: tried only if there are any, and settled only by an accepted one. */
    method EmitOverflow()
      requires CountFull(attempts) == Sum(reports) + dropped
      modifies this`clock, this`dropped, this`reports
      ensures CountFull(attempts) == Sum(reports) + dropped
      ensures clock == old(clock) + if old(dropped) > 0 then 1 else 0
      ensures if old(dropped) > 0 && sink(old(clock)).Accepted?
              then dropped == 0 && reports == old(reports) + [old(dropped)]
              else dropped == old(dropped) && reports == old(reports)
    {
      if dropped == 0 {
        return;
      }
      var outcome := TrySend();
      if outcome.Accepted? {
        reports := reports + [dropped];
        dropped := 0;
      }
    }

    /** Hands one window's batch to the sink; behind an accepted one goes the report of those refused. */
    method SendBatch(w: nat, acc: Acc)
      requires CountFull(attempts) == Sum(reports) + dropped && events != []
      modifies this`clock, this`dropped, this`reports, this`attempts
      ensures CountFull(attempts) == Sum(reports) + dropped
      ensures attempts == old(attempts) + [Attempt(HitsOf(w, acc), sink(old(clock)), |events| - 1)]
      ensures sink(old(clock)).Full? ==>
        dropped == old(dropped) + 1 && reports == old(reports) && clock == old(clock) + 1
      ensures sink(old(clock)).Closed? ==>
        dropped == old(dropped) && reports == old(reports) && clock == old(clock) + 1
      ensures sink(old(clock)).Accepted? ==>
        if old(dropped) == 0 then dropped == 0 && reports == old(reports) && clock == old(clock) + 1
        else
          && clock == old(clock) + 2
          && if sink(old(clock) + 1).Accepted? then dropped == 0 && reports == old(reports) + [old(dropped)]
             else dropped == old(dropped) && reports == old(reports)
    {
      var outcome := TrySend();
      attempts := attempts + [Attempt(HitsOf(w, acc), outcome, |events| - 1)];
      assert attempts[..|attempts| - 1] == old(attempts);
      match outcome
      case Accepted =>
        if dropped > 0 {
          EmitOverflow();
        }
      case Full =>
        dropped := dropped + 1;
      case Closed =>
    }

    /** The batches leave in no particular order. */
    method Flush(ghost leaving: seq<HitNote>)
      requires Opened(events, limits, attempts) && leaving == Leaving(events, |events| - 1, limits)
      requires Gathers(leaving) && Conserving()
      modifies this`clock, this`pending, this`pendingBytes, this`pendingLines, this`dropped, this`attempts, this`reports
      ensures pending == map[] && Gathers([]) && Conserving()
      ensures AllDue(events, limits, attempts) && AllSent(events, limits, attempts)
    {
      SharesToSend(events, limits, attempts, leaving, pending);
      var ready := pending;
      pending := map[];
      pendingBytes, pendingLines := 0, 0;
      SendAll(ready, leaving);
    }

    method SendAll(all: map<nat, Acc>, ghost leaving: seq<HitNote>)
      requires events != [] && leaving == Leaving(events, |events| - 1, limits) && Conserving()
      requires AllDue(events, limits, attempts) && AllSentBut(events, limits, attempts, all.Keys)
      requires forall w :: w in all ==> LastNote(leaving, w).Some? && HitsOf(w, all[w]) == BatchOf(leaving, w)
      modifies this`clock, this`dropped, this`attempts, this`reports
      ensures Conserving() && AllDue(events, limits, attempts) && AllSent(events, limits, attempts)
    {
      var ready := all;
      while ready.Keys != {}
        invariant Conserving()
        invariant AllDue(events, limits, attempts) && AllSentBut(events, limits, attempts, ready.Keys)
        invariant forall w :: w in ready ==> LastNote(leaving, w).Some? && HitsOf(w, ready[w]) == BatchOf(leaving, w)
        decreases |ready.Keys|
      {
        var w :| w in ready;
        ghost var before := attempts;
        SendBatch(w, ready[w]);
        DueSent(events, limits, before, attempts, ready.Keys, w);
        assert (ready - {w}).Keys == ready.Keys - {w};
        ready := ready - {w};
      }
      assert ready == map[];
    }

    method Gather(note: HitNote)
      requires Valid()
      modifies this`events, this`pending, this`pendingBytes, this`pendingLines
      ensures events == old(events) + [Noted(note)] && Opened(events, limits, attempts) && Conserving()
      ensures var waiting := Waiting(old(events), |old(events)|, limits) + [note];
        Gathers(waiting) && NoteWaits(events, limits, waiting)
      ensures pendingLines == old(pendingLines) + 1 && pendingBytes == old(pendingBytes) + Bytes(note)
    {
      ghost var waiting := Waiting(events, |events|, limits);
      WaitingIsBelow(events, |events|, limits);
      EventComes(events, Noted(note), limits, attempts);
      Gathering(waiting, pending, note);
      events := events + [Noted(note)];
      pending := pending[note.window := Gathered(if note.window in pending then Some(pending[note.window]) else None, note)];
      pendingBytes := pendingBytes + Bytes(note);
      pendingLines := pendingLines + 1;
    }

    /** A note is gathered. Below both limits nothing leaves; reaching one, all that waits does. */
    method Note(note: HitNote)
      requires Valid()
      modifies this
      ensures Valid() && events == old(events) + [Noted(note)]
      ensures var weight := match note.line case Some(row) => row.length + 32 case None => 16;
        if old(pendingLines) + 1 < limits.lines && old(pendingBytes) + weight < limits.bytes
        then
          && unchanged(this`attempts, this`reports, this`clock, this`dropped)
          && pendingLines == old(pendingLines) + 1 && pendingBytes == old(pendingBytes) + weight
        else pending == map[]
    {
      ghost var waiting := Waiting(events, |events|, limits) + [note];
      Gather(note);
      if pendingLines >= limits.lines || pendingBytes >= limits.bytes {
        Flush(waiting);
      } else {
        NothingLeaves(events, limits, attempts);
      }
    }

    method OnTick()
      requires Valid()
      modifies this
      ensures Valid() && events == old(events) + [Tick] && pending == map[]
      ensures old(pending) == map[] ==>
        && attempts == old(attempts)
        && if old(dropped) > 0 && sink(old(clock)).Accepted? then dropped == 0 && reports == old(reports) + [old(dropped)]
           else dropped == old(dropped) && reports == old(reports)
    {
      ghost var waiting := Waiting(events, |events|, limits);
      EventComes(events, Tick, limits, attempts);
      NothingGathered(waiting, pending);
      events := events + [Tick];
      if pending != map[] {
        Flush(waiting);
      } else {
        NothingLeaves(events, limits, attempts);
        if dropped > 0 {
          EmitOverflow();
        }
      }
    }

    /** One turn of the loop; cancelled, it leaves everything as it is. */
    method Turn(e: Event)
      requires Valid()
      modifies this
      ensures Valid()
      ensures events == old(events) + if e.Cancelled? then [] else [e]
    {
      match e {
        case Cancelled =>
        case Ended => End();
        case Noted(note) => Note(note);
        case Tick => OnTick();
      }
    }

    method End()
      requires Valid()
      modifies this
      ensures Valid() && pending == map[] && events == old(events) + [Ended]
    {
      ghost var waiting := Waiting(events, |events|, limits);
      EventComes(events, Ended, limits, attempts);
      NothingGathered(waiting, pending);
      events := events + [Ended];
      if pending != map[] {
        Flush(waiting);
      } else {
        NothingLeaves(events, limits, attempts);
      }
    }
  }

  // ---------- one event ----------

  lemma {:induction false} WaitingStays(events: seq<Event>, e: Event, i: nat, limits: Limits)
    requires i <= |events|
    ensures Waiting(events + [e], i, limits) == Waiting(events, i, limits)
    ensures i < |events| ==> Leaving(events + [e], i, limits) == Leaving(events, i, limits)
  {
    if i > 0 {
      WaitingStays(events, e, i - 1, limits);
    }
  }

  lemma WaitingIsBelow(events: seq<Event>, i: nat, limits: Limits)
    requires i <= |events|
    ensures !Reaches(Waiting(events, i, limits), limits)
  {
    if i > 0 {
      WaitingIsBelow(events, i - 1, limits);
    }
  }

  lemma {:induction false} NoneLater(attempts: seq<Attempt>, i: nat, w: nat)
    requires forall a :: a in attempts ==> a.at < i
    ensures CountAt(attempts, i, w) == 0
  {
    if attempts != [] {
      NoneLater(attempts[..|attempts| - 1], i, w);
    }
  }

  lemma EventComes(events: seq<Event>, e: Event, limits: Limits, attempts: seq<Attempt>)
    requires AllDue(events, limits, attempts) && AllSent(events, limits, attempts)
    ensures Opened(events + [e], limits, attempts)
    ensures Waiting(events + [e], |events|, limits) == Waiting(events, |events|, limits)
  {
    WaitingStays(events, e, |events|, limits);
    forall a | a in attempts ensures Due(events + [e], limits, a) && a.at < |events| {
      assert Due(events, limits, a);
      WaitingStays(events, e, a.at, limits);
    }
    forall i, w | 0 <= i < |events| ensures SentAt(events + [e], limits, attempts, i, w) {
      assert SentAt(events, limits, attempts, i, w);
      WaitingStays(events, e, i, limits);
    }
    forall w: nat ensures CountAt(attempts, |events|, w) == 0 {
      NoneLater(attempts, |events|, w);
    }
  }

  lemma NothingLeaves(events: seq<Event>, limits: Limits, attempts: seq<Attempt>)
    requires Opened(events, limits, attempts) && Leaving(events, |events| - 1, limits) == []
    ensures AllSent(events, limits, attempts)
  {
  }

  /** What is gathered for a window is its batch, if those notes leave. */
  lemma SharesToSend(events: seq<Event>, limits: Limits, attempts: seq<Attempt>, leaving: seq<HitNote>, pending: map<nat, Acc>)
    requires Opened(events, limits, attempts) && leaving == Leaving(events, |events| - 1, limits)
    requires Holds(leaving, pending)
    ensures AllSentBut(events, limits, attempts, pending.Keys)
    ensures forall w :: w in pending ==> LastNote(leaving, w).Some? && HitsOf(w, pending[w]) == BatchOf(leaving, w)
  {
    forall i, w | 0 <= i < |events|
      ensures if i == |events| - 1 && w in pending.Keys then CountAt(attempts, i, w) == 0
              else SentAt(events, limits, attempts, i, w)
    {
      assert HoldsFor(leaving, pending, w);
    }
    forall w | w in pending ensures LastNote(leaving, w).Some? && HitsOf(w, pending[w]) == BatchOf(leaving, w) {
      assert HoldsFor(leaving, pending, w);
    }
  }

  lemma NothingGathered(waiting: seq<HitNote>, pending: map<nat, Acc>)
    requires Holds(waiting, pending)
    ensures pending == map[] <==> waiting == []
  {
    if waiting != [] {
      assert HoldsFor(waiting, pending, waiting[|waiting| - 1].window);
    } else {
      forall w ensures w !in pending {
        assert HoldsFor(waiting, pending, w);
      }
    }
  }

  lemma {:induction false} CountWithin(notes: seq<HitNote>, w: nat)
    ensures CountNotes(notes, w) <= |notes|
    ensures CountNotes(notes, w) > 0 <==> LastNote(notes, w).Some?
    ensures LastNote(notes, w).None? ==> RowsOf(notes, w) == []
  {
    if notes != [] {
      CountWithin(notes[..|notes| - 1], w);
    }
  }

  lemma WeightGrows(waiting: seq<HitNote>, note: HitNote)
    ensures Weight(waiting + [note]) == Weight(waiting) + Bytes(note)
  {
    assert (waiting + [note])[..|waiting + [note]| - 1] == waiting;
  }

  /** The rows that go along with some notes. */
  function Rows(notes: seq<HitNote>): seq<Row> {
    if notes == [] then []
    else
      Rows(notes[..|notes| - 1])
      + match notes[|notes| - 1].line case Some(row) => [row] case None => []
  }

  function Lengths(rows: seq<Row>): nat {
    if rows == [] then 0 else Lengths(rows[..|rows| - 1]) + rows[|rows| - 1].length
  }

  /** A row weighs its length and 32 more, a note without a row weighs 16. */
  lemma {:induction false} WeightIs(notes: seq<HitNote>)
    ensures Weight(notes) == Lengths(Rows(notes)) + 32 * |Rows(notes)| + 16 * (|notes| - |Rows(notes)|)
  {
    if notes != [] {
      var init := notes[..|notes| - 1];
      WeightIs(init);
      match notes[|notes| - 1].line
      case Some(row) =>
        assert Rows(notes) == Rows(init) + [row] && Rows(notes)[..|Rows(init)|] == Rows(init);
      case None =>
        assert Rows(notes) == Rows(init);
    }
  }

  /** One note more is gathered with those that wait. */
  lemma Gathering(waiting: seq<HitNote>, pending: map<nat, Acc>, note: HitNote)
    requires Holds(waiting, pending) && |waiting| < U32_MAX
    ensures var now := pending[note.window := Gathered(if note.window in pending then Some(pending[note.window]) else None, note)];
      Holds(waiting + [note], now)
    ensures Weight(waiting + [note]) == Weight(waiting) + Bytes(note)
  {
    var now := pending[note.window := Gathered(if note.window in pending then Some(pending[note.window]) else None, note)];
    WeightGrows(waiting, note);
    forall w ensures HoldsFor(waiting + [note], now, w) {
      assert HoldsFor(waiting, pending, w);
      GatheringFor(waiting, pending, now, note, w);
    }
  }

  lemma GatheringFor(waiting: seq<HitNote>, pending: map<nat, Acc>, now: map<nat, Acc>, note: HitNote, w: nat)
    requires HoldsFor(waiting, pending, w) && |waiting| < U32_MAX
    requires now == pending[note.window := Gathered(if note.window in pending then Some(pending[note.window]) else None, note)]
    ensures HoldsFor(waiting + [note], now, w)
  {
    var longer := waiting + [note];
    assert longer[..|longer| - 1] == waiting && longer[|longer| - 1] == note;
    CountWithin(waiting, w);
  }

  // ---------- one batch ----------

  lemma DueSent(events: seq<Event>, limits: Limits, before: seq<Attempt>, after: seq<Attempt>, ready: set<nat>, w: nat)
    requires events != [] && AllDue(events, limits, before) && AllSentBut(events, limits, before, ready) && w in ready
    requires |after| == |before| + 1 && after[..|before|] == before && after[|before|].at == |events| - 1
    requires after[|before|].hits.window == w && Due(events, limits, after[|before|])
    ensures AllDue(events, limits, after) && AllSentBut(events, limits, after, ready - {w})
  {
    assert after == before + [after[|before|]];
    forall i, j | 0 <= i < j < |after| ensures after[i].at <= after[j].at {
      assert after[i] in before && after[i].at < |events|;
      assert j < |before| ==> after[j] == before[j];
    }
    forall i, v | 0 <= i < |events|
      ensures if i == |events| - 1 && v in ready - {w} then CountAt(after, i, v) == 0
              else SentAt(events, limits, after, i, v)
    {
      assert after[..|after| - 1] == before;
      assert if i == |events| - 1 && v in ready then CountAt(before, i, v) == 0
             else SentAt(events, limits, before, i, v);
    }
  }

  // ---------- counts are the newest ----------

  /** What waits, and what leaves, are the last notes that have come. */
  lemma {:induction false} LastNotesWait(events: seq<Event>, i: nat, limits: Limits) returns (before: seq<HitNote>)
    requires i <= |events|
    ensures NotesIn(events[..i]) == before + Waiting(events, i, limits)
  {
    if i == 0 {
      before := [];
    } else {
      before := LastNotesWait(events, i - 1, limits);
      var waiting, e := Waiting(events, i - 1, limits), events[i - 1];
      assert events[..i] == events[..i - 1] + [e];
      NotesInAppend(events[..i - 1], e);
      if e.Noted? {
        assert before + waiting + [e.note] == before + (waiting + [e.note]);
      }
      before := if e.Cancelled? || (e.Noted? && !Reaches(waiting + [e.note], limits)) then before
                else NotesIn(events[..i]);
      assert NotesIn(events[..i]) + [] == NotesIn(events[..i]);
    }
  }

  /** A batch carries the counts of the last note of its window that had come when it left. */
  lemma BatchIsNewest(events: seq<Event>, limits: Limits, a: Attempt)
    requires Due(events, limits, a)
    ensures Newest(NotesIn(events[..a.at + 1]), a.hits.window, a.hits.total, a.hits.signals)
    ensures a.hits.appended > 0
  {
    var leaving, e := Leaving(events, a.at, limits), events[a.at];
    var before := LastNotesWait(events, a.at, limits);
    assert events[..a.at + 1] == events[..a.at] + [e];
    NotesInAppend(events[..a.at], e);
    var waiting := Waiting(events, a.at, limits);
    if e.Noted? {
      assert before + waiting + [e.note] == before + (waiting + [e.note]);
    }
    assert NotesIn(events[..a.at + 1]) == before + leaving;
    SharesAppend(before, leaving, a.hits.window);
    CountWithin(leaving, a.hits.window);
  }

  // ---------- conservation ----------

  /** What waits and what comes is what leaves and what goes on waiting. */
  lemma EventMovesNotes(init: seq<Event>, e: Event, limits: Limits)
    ensures var events, waiting := init + [e], Waiting(init, |init|, limits);
      Leaving(events, |init|, limits) + Waiting(events, |events|, limits)
      == waiting + if e.Noted? then [e.note] else []
  {
    WaitingStays(init, e, |init|, limits);
  }

  lemma {:induction false} SharesAppend(a: seq<HitNote>, b: seq<HitNote>, w: nat)
    ensures CountNotes(a + b, w) == CountNotes(a, w) + CountNotes(b, w)
    ensures RowsOf(a + b, w) == RowsOf(a, w) + RowsOf(b, w)
    ensures LastNote(a + b, w) == if LastNote(b, w).Some? then LastNote(b, w) else LastNote(a, w)
  {
    if b == [] {
      assert a + b == a;
    } else {
      assert (a + b)[..|a + b| - 1] == a + b[..|b| - 1];
      SharesAppend(a, b[..|b| - 1], w);
    }
  }

  lemma {:induction false} SentAppend(a: seq<Attempt>, b: seq<Attempt>, i: nat, w: nat)
    ensures SumAppended(a + b, w) == SumAppended(a, w) + SumAppended(b, w)
    ensures CountAt(a + b, i, w) == CountAt(a, i, w) + CountAt(b, i, w)
  {
    if b == [] {
      assert a + b == a;
    } else {
      assert (a + b)[..|a + b| - 1] == a + b[..|b| - 1];
      SentAppend(a, b[..|b| - 1], i, w);
    }
  }

  lemma {:induction false} TailsAppend(a: seq<Attempt>, b: seq<Attempt>, w: nat)
    ensures TailsOf(a + b, w) == TailsOf(a, w) + TailsOf(b, w)
  {
    if b == [] {
      assert a + b == a;
    } else {
      assert (a + b)[..|a + b| - 1] == a + b[..|b| - 1];
      TailsAppend(a, b[..|b| - 1], w);
    }
  }

  /** Batches that leave together are for one window at most one, and carry its share. */
  lemma {:induction false} ShareSent(together: seq<Attempt>, i: nat, leaving: seq<HitNote>, w: nat)
    requires forall a :: a in together ==>
      a.at == i && (a.hits.window == w ==> LastNote(leaving, w).Some? && a.hits == BatchOf(leaving, w))
    requires CountAt(together, i, w) <= 1
    ensures SumAppended(together, w) == if CountAt(together, i, w) == 1 then CountNotes(leaving, w) else 0
    ensures TailsOf(together, w) == if CountAt(together, i, w) == 1 then RowsOf(leaving, w) else []
  {
    if together != [] {
      var init, last := together[..|together| - 1], together[|together| - 1];
      assert last in together && forall a :: a in init ==> a in together;
      ShareSent(init, i, leaving, w);
    }
  }

  /** The batches of the events before the last, and those of the last. */
  lemma SplitAtLast(init: seq<Event>, e: Event, limits: Limits, attempts: seq<Attempt>) returns (k: nat)
    requires AllDue(init + [e], limits, attempts)
    ensures k <= |attempts|
    ensures forall a :: a in attempts[..k] ==> a.at < |init|
    ensures forall a :: a in attempts[k..] ==> a.at == |init|
  {
    k := |attempts|;
    while k > 0 && attempts[k - 1].at == |init|
      invariant k <= |attempts|
      invariant forall i :: k <= i < |attempts| ==> attempts[i].at == |init|
    {
      k := k - 1;
    }
    forall i | 0 <= i < k ensures attempts[i].at < |init| {
      assert attempts[i] in attempts && attempts[k - 1] in attempts;
      assert Due(init + [e], limits, attempts[k - 1]);
    }
  }

  lemma DueBefore(init: seq<Event>, e: Event, limits: Limits, attempts: seq<Attempt>, k: nat)
    requires AllDue(init + [e], limits, attempts) && AllSent(init + [e], limits, attempts) && k <= |attempts|
    requires forall a :: a in attempts[..k] ==> a.at < |init|
    requires forall a :: a in attempts[k..] ==> a.at == |init|
    ensures AllDue(init, limits, attempts[..k]) && AllSent(init, limits, attempts[..k])
  {
    assert attempts == attempts[..k] + attempts[k..];
    forall a | a in attempts[..k] ensures Due(init, limits, a) {
      assert a in attempts && Due(init + [e], limits, a);
      WaitingStays(init, e, a.at, limits);
    }
    forall i, w | 0 <= i < |init| ensures SentAt(init, limits, attempts[..k], i, w) {
      assert SentAt(init + [e], limits, attempts, i, w);
      SentAppend(attempts[..k], attempts[k..], i, w);
      NoneElsewhere(attempts[k..], i, w);
      WaitingStays(init, e, i, limits);
    }
  }

  lemma {:induction false} NoneElsewhere(attempts: seq<Attempt>, i: nat, w: nat)
    requires forall a :: a in attempts ==> a.at != i
    ensures CountAt(attempts, i, w) == 0
  {
    if attempts != [] {
      NoneElsewhere(attempts[..|attempts| - 1], i, w);
    }
  }

  lemma NoneDue(limits: Limits, attempts: seq<Attempt>)
    requires AllDue([], limits, attempts)
    ensures attempts == []
  {
    assert attempts != [] ==> !Due([], limits, attempts[0]);
  }

  /** Batches on time lose nothing: the notes of a window are those sent and those that wait. */
  lemma {:induction false} OnTimeConserves(events: seq<Event>, limits: Limits, attempts: seq<Attempt>, w: nat)
    requires AllDue(events, limits, attempts) && AllSent(events, limits, attempts)
    ensures var waiting := Waiting(events, |events|, limits);
      && CountNotes(NotesIn(events), w) == SumAppended(attempts, w) + CountNotes(waiting, w)
      && RowsOf(NotesIn(events), w) == TailsOf(attempts, w) + RowsOf(waiting, w)
      && (LastNote(waiting, w).Some? ==> LastNote(NotesIn(events), w) == LastNote(waiting, w))
    decreases |events|
  {
    if events == [] {
      NoneDue(limits, attempts);
    } else {
      var init, e := events[..|events| - 1], events[|events| - 1];
      assert events == init + [e];
      var k := SplitAtLast(init, e, limits, attempts);
      DueBefore(init, e, limits, attempts, k);
      OnTimeConserves(init, limits, attempts[..k], w);
      LastEventConserves(init, e, limits, attempts, k, w);
    }
  }

  lemma LastEventConserves(init: seq<Event>, e: Event, limits: Limits, attempts: seq<Attempt>, k: nat, w: nat)
    requires AllDue(init + [e], limits, attempts) && AllSent(init + [e], limits, attempts) && k <= |attempts|
    requires forall a :: a in attempts[..k] ==> a.at < |init|
    requires forall a :: a in attempts[k..] ==> a.at == |init|
    requires var waiting := Waiting(init, |init|, limits);
      && CountNotes(NotesIn(init), w) == SumAppended(attempts[..k], w) + CountNotes(waiting, w)
      && RowsOf(NotesIn(init), w) == TailsOf(attempts[..k], w) + RowsOf(waiting, w)
      && (LastNote(waiting, w).Some? ==> LastNote(NotesIn(init), w) == LastNote(waiting, w))
    ensures var events := init + [e]; var waiting := Waiting(events, |events|, limits);
      && CountNotes(NotesIn(events), w) == SumAppended(attempts, w) + CountNotes(waiting, w)
      && RowsOf(NotesIn(events), w) == TailsOf(attempts, w) + RowsOf(waiting, w)
      && (LastNote(waiting, w).Some? ==> LastNote(NotesIn(events), w) == LastNote(waiting, w))
  {
    var events, come := init + [e], if e.Noted? then [e.note] else [];
    var leaving, waiting := Leaving(events, |init|, limits), Waiting(events, |events|, limits);
    LastShareSent(init, e, limits, attempts, k, w);
    EventMovesNotes(init, e, limits);
    NotesInAppend(init, e);
    assert NotesIn(events) == NotesIn(init) + come;
    SharesAppend(NotesIn(init), come, w);
    SharesAppend(Waiting(init, |init|, limits), come, w);
    SharesAppend(leaving, waiting, w);
    Grouped(TailsOf(attempts[..k], w), RowsOf(Waiting(init, |init|, limits), w), RowsOf(come, w),
            RowsOf(leaving, w), RowsOf(waiting, w));
  }

  lemma Grouped<T>(a: seq<T>, b: seq<T>, c: seq<T>, d: seq<T>, e: seq<T>)
    requires b + c == d + e
    ensures a + b + c == a + d + e
  {
    assert a + b + c == a + (b + c) && a + d + e == a + (d + e);
  }

  lemma LastShareSent(init: seq<Event>, e: Event, limits: Limits, attempts: seq<Attempt>, k: nat, w: nat)
    requires AllDue(init + [e], limits, attempts) && AllSent(init + [e], limits, attempts) && k <= |attempts|
    requires forall a :: a in attempts[..k] ==> a.at < |init|
    requires forall a :: a in attempts[k..] ==> a.at == |init|
    ensures var leaving := Leaving(init + [e], |init|, limits);
      && SumAppended(attempts, w) == SumAppended(attempts[..k], w) + CountNotes(leaving, w)
      && TailsOf(attempts, w) == TailsOf(attempts[..k], w) + RowsOf(leaving, w)
  {
    var events, i := init + [e], |init|;
    var leaving, together := Leaving(events, i, limits), attempts[k..];
    assert attempts == attempts[..k] + together;
    SentAppend(attempts[..k], together, i, w);
    TailsAppend(attempts[..k], together, w);
    NoneElsewhere(attempts[..k], i, w);
    assert SentAt(events, limits, attempts, i, w);
    forall a | a in together
      ensures a.at == i && (a.hits.window == w ==> LastNote(leaving, w).Some? && a.hits == BatchOf(leaving, w))
    {
      assert a in attempts && Due(events, limits, a);
    }
    ShareSent(together, i, leaving, w);
    CountWithin(leaving, w);
  }

  // ---------- a whole run ----------

  /** What a run leaves behind. */
  datatype Log = Log(attempts: seq<Attempt>, reports: seq<nat>, pending: map<nat, Acc>, dropped: nat)

  /** The events up to the end, or before the cancellation. */
  function EventsRead(events: seq<Event>): seq<Event> {
    if events == [] || events[0].Cancelled? then []
    else if events[0].Ended? then [events[0]]
    else [events[0]] + EventsRead(events[1..])
  }

  /** Nothing noted is lost uncounted, and refused batches are exactly those reported and those still to
      be reported. */
  ghost predicate Accounts(notes: seq<HitNote>, log: Log) {
    && (forall w :: Balanced(notes, log.attempts, log.pending, w))
    && CountFull(log.attempts) == Sum(log.reports) + log.dropped
  }

  /** Batches leave at a tick, at the end and when a limit is reached, one for each window that has notes
      waiting, with exactly its notes since the last time; what has not left is still gathered. */
  ghost predicate OnTime(events: seq<Event>, limits: Limits, log: Log) {
    && AllDue(events, limits, log.attempts) && AllSent(events, limits, log.attempts)
    && Holds(Waiting(events, |events|, limits), log.pending)
  }

  /** Over any schedule of notes and ticks and any behaviour of the sink. */
  method AggregateLoop(events: seq<Event>, sink: Sink, limits: Limits) returns (log: Log)
    ensures OnTime(EventsRead(events), limits, log)
    ensures Accounts(NotesIn(EventsRead(events)), log)
  {
    var agg := new Aggregator(sink, limits);
    TakeAll(agg, events);
    log := Log(agg.attempts, agg.reports, agg.pending, agg.dropped);
    NothingIsLost(agg.events, limits, log);
  }

  method TakeAll(agg: Aggregator, events: seq<Event>)
    requires agg.Valid() && agg.events == []
    modifies agg
    ensures agg.Valid() && agg.events == EventsRead(events)
  {
    var i := 0;
    assert events[0..] == events;
    while i < |events|
      invariant i <= |events| && agg.Valid()
      invariant agg.events + EventsRead(events[i..]) == EventsRead(events)
    {
      ReadNext(agg.events, events, i);
      agg.Turn(events[i]);
      if events[i].Cancelled? || events[i].Ended? {
        break;
      }
      i := i + 1;
    }
    assert agg.events + [] == agg.events;
  }

  lemma NothingIsLost(events: seq<Event>, limits: Limits, log: Log)
    requires OnTime(events, limits, log) && CountFull(log.attempts) == Sum(log.reports) + log.dropped
    ensures Accounts(NotesIn(events), log)
  {
    var waiting := Waiting(events, |events|, limits);
    forall w ensures Balanced(NotesIn(events), log.attempts, log.pending, w) {
      OnTimeConserves(events, limits, log.attempts, w);
      assert HoldsFor(waiting, log.pending, w);
      CountWithin(waiting, w);
    }
  }

  lemma ReadNext(before: seq<Event>, events: seq<Event>, i: nat)
    requires i < |events|
    ensures before + EventsRead(events[i..]) ==
      match events[i]
      case Cancelled => before
      case Ended => before + [Ended]
      case _ => before + [events[i]] + EventsRead(events[i + 1..])
  {
    assert events[i..][1..] == events[i + 1..];
    var rest := EventsRead(events[i + 1..]);
    assert before + ([events[i]] + rest) == before + [events[i]] + rest;
  }

  lemma {:induction false} NotesInAppend(events: seq<Event>, e: Event)
    ensures NotesIn(events + [e]) == if e.Noted? then NotesIn(events) + [e.note] else NotesIn(events)
  {
    if events == [] {
      assert [e][1..] == [];
    } else {
      assert (events + [e])[1..] == events[1..] + [e];
      NotesInAppend(events[1..], e);
    }
  }
}
