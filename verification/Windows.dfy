/** The hit index that each log window keeps beside the ring: sequence numbers only, fed one
    record at a time, against its definition "filter the ring". */
module Windows {

  import opened Arithmetic
  import opened Options
  import opened Ring

  /** Filters and the signal scan look at everything but the sequence number. */
  type Test = Body -> bool

  datatype Hit = Hit(n: nat, signal: bool)

  datatype Window = Window(
    id: nat, serial: string, filter: Test, fromSeq: nat, following: bool, through: Option<nat>,
    hits: seq<Hit>, signals: nat)

  datatype Note = Note(window: nat, total: nat, signals: nat, line: Option<Record>)

  datatype LogPage = LogPage(
    window: nat, serial: string, index: nat, total: nat, signals: nat, pending: nat, lines: seq<Record>)

  datatype BindSpec = BindSpec(
    id: nat, serial: string, filter: Test, fromSeq: nat, following: bool, through: Option<nat>)

  // ---------- the reference: filter the ring ----------

  predicate Wants(from: nat, filter: Test, line: Record) {
    from <= line.seq_ && filter(line.body)
  }

  function Matching(buf: seq<Record>, from: nat, filter: Test): seq<Record> {
    if buf == [] then []
    else if Wants(from, filter, buf[0]) then [buf[0]] + Matching(buf[1..], from, filter)
    else Matching(buf[1..], from, filter)
  }

  function HitOf(line: Record, isSignal: Test): Hit {
    Hit(line.seq_, isSignal(line.body))
  }

  function HitsOf(lines: seq<Record>, isSignal: Test): seq<Hit> {
    seq(|lines|, i requires 0 <= i < |lines| => HitOf(lines[i], isSignal))
  }

  function Index(buf: seq<Record>, from: nat, filter: Test, isSignal: Test): seq<Hit> {
    HitsOf(Matching(buf, from, filter), isSignal)
  }

  function SignalCount(hits: seq<Hit>): nat {
    if hits == [] then 0 else SignalCount(hits[1..]) + if hits[0].signal then 1 else 0
  }

  // ---------- what the operations do to a window ----------

  function DropBefore(hits: seq<Hit>, oldest: nat): seq<Hit> {
    if hits != [] && hits[0].n < oldest then DropBefore(hits[1..], oldest) else hits
  }

  function SignalsAfterDrop(hits: seq<Hit>, signals: nat, oldest: nat): nat {
    if hits != [] && hits[0].n < oldest then
      SignalsAfterDrop(hits[1..], if hits[0].signal then SaturatingDec(signals) else signals, oldest)
    else signals
  }

  function Evicted(w: Window, oldest: nat): Window {
    w.(hits := DropBefore(w.hits, oldest), signals := SignalsAfterDrop(w.hits, w.signals, oldest))
  }

  function Admitted(w: Window, n: nat, signal: bool): Window {
    w.(hits := w.hits + [Hit(n, signal)],
       signals := if signal then SaturatingInc(w.signals) else w.signals)
  }

  function EvictedBook(ws: map<nat, Window>, serial: string, oldest: nat): map<nat, Window> {
    map id | id in ws :: if ws[id].serial == serial then Evicted(ws[id], oldest) else ws[id]
  }

  ghost predicate Distinct(ids: seq<nat>) {
    forall i, j :: 0 <= i < j < |ids| ==> ids[i] != ids[j]
  }

  predicate Takes(w: Window, serial: string, n: nat) {
    w.serial == serial && w.fromSeq <= n
  }

  function Appended(ws: map<nat, Window>, serial: string, n: nat, signal: bool, ids: seq<nat>): map<nat, Window> {
    map id | id in ws ::
      if id in ids && Takes(ws[id], serial, n) then Admitted(ws[id], n, signal) else ws[id]
  }

  function Committed(
    ws: map<nat, Window>, serial: string, n: nat, oldest: nat, signal: bool, ids: seq<nat>
  ): map<nat, Window> {
    Appended(EvictedBook(ws, serial, oldest), serial, n, signal, ids)
  }

  /** The window is to be offered the record. */
  predicate Prepares(ws: map<nat, Window>, serial: string, b: Body, id: nat) {
    id in ws && ws[id].serial == serial && ws[id].filter(b)
  }

  function SaturatedCount(hits: seq<Hit>): nat {
    if SignalCount(hits) <= U32_MAX then SignalCount(hits) else U32_MAX
  }

  function Bound(spec: BindSpec, buf: seq<Record>, isSignal: Test): Window {
    var hits := Index(buf, spec.fromSeq, spec.filter, isSignal);
    Window(spec.id, spec.serial, spec.filter, spec.fromSeq, spec.following, spec.through,
           hits, SaturatedCount(hits))
  }

  function ClearedBook(ws: map<nat, Window>, serial: string): map<nat, Window> {
    map id | id in ws :: if ws[id].serial == serial then ws[id].(hits := [], signals := 0) else ws[id]
  }

  function Latched(w: Window, following: bool): Window {
    w.(following := following, through := if following then None else w.through)
  }

  /** One note for each prepared window that takes the record, with the window's new counts. */
  function Notes(
    ws: map<nat, Window>, serial: string, n: nat, signal: bool, ids: seq<nat>, wire: Option<Record>
  ): seq<Note> {
    if ids == [] then []
    else
      var id := ids[|ids| - 1];
      Notes(ws, serial, n, signal, ids[..|ids| - 1], wire)
      + if id in ws && Takes(ws[id], serial, n)
        then var w := Admitted(ws[id], n, signal); [Note(id, |w.hits|, w.signals, wire)]
        else []
  }

  lemma NotesStep(
    ws: map<nat, Window>, serial: string, n: nat, signal: bool, ids: seq<nat>, i: nat, wire: Option<Record>)
    requires i < |ids|
    ensures Notes(ws, serial, n, signal, ids[..i + 1], wire) ==
            Notes(ws, serial, n, signal, ids[..i], wire)
            + if ids[i] in ws && Takes(ws[ids[i]], serial, n)
              then var w := Admitted(ws[ids[i]], n, signal); [Note(ids[i], |w.hits|, w.signals, wire)]
              else []
  {
    assert ids[..i + 1][..i] == ids[..i];
  }

  // ---------- pages ----------

  /** The position of the first hit after `through`, or the length. */
  function FirstAfter(hits: seq<Hit>, through: nat): (p: nat)
    ensures p <= |hits|
  {
    if hits == [] || hits[0].n > through then 0 else 1 + FirstAfter(hits[1..], through)
  }

  function ViewEnd(w: Window): (p: nat)
    ensures p <= |w.hits|
  {
    if w.following || w.through.None? then |w.hits| else FirstAfter(w.hits, w.through.value)
  }

  function Numbers(hits: seq<Hit>): seq<nat> {
    seq(|hits|, i requires 0 <= i < |hits| => hits[i].n)
  }

  function PageOf(w: Window, buf: seq<Record>, at: Option<(nat, nat)>): LogPage {
    var end := ViewEnd(w);
    var count := if at.None? then U32_MAX else AtLeastOne(at.value.1);
    var start := if at.Some? then Min(at.value.0, |w.hits|) else if end < count then 0 else end - count;
    var stop := if at.Some? then Min(start + count, |w.hits|) else end;
    LogPage(w.id, w.serial, start, |w.hits|, w.signals, (|w.hits| - end) % (U32_MAX + 1),
            FindAll(buf, Numbers(w.hits[start..stop])))
  }

  /** The windows behind the index's lock. */
  class WindowBook {
    const isSignal: Test
    var windows: map<nat, Window>

    constructor (isSignal: Test)
      ensures this.isSignal == isSignal && windows == map[]
    {
      this.isSignal := isSignal;
      windows := map[];
    }

    method ReadPage(w: Window, ring: RingBuffer, at: Option<(nat, nat)>) returns (page: LogPage)
      requires Valid(ring.View())
      ensures page == PageOf(w, ring.buf, at)
    {
      var end := ViewEnd(w);
      var count := if at.None? then U32_MAX else AtLeastOne(at.value.1);
      var start := if at.Some? then Min(at.value.0, |w.hits|) else if end < count then 0 else end - count;
      var stop := if at.Some? then Min(start + count, |w.hits|) else end;
      var lines := ring.LinesBySeq(Numbers(w.hits[start..stop]));
      page := LogPage(w.id, w.serial, start, |w.hits|, w.signals,
                      (|w.hits| - end) % (U32_MAX + 1), lines);
    }

    method Rebuild(spec: BindSpec, buf: seq<Record>) returns (hits: seq<Hit>, signals: nat)
      ensures hits == Index(buf, spec.fromSeq, spec.filter, isSignal)
      ensures signals == SaturatedCount(hits)
    {
      hits, signals := [], 0;
      assert buf[0..] == buf;
      for i := 0 to |buf|
        invariant Index(buf, spec.fromSeq, spec.filter, isSignal)
               == hits + Index(buf[i..], spec.fromSeq, spec.filter, isSignal)
        invariant signals == SaturatedCount(hits)
      {
        var line := buf[i];
        IndexStep(buf, i, spec.fromSeq, spec.filter, isSignal);
        if spec.fromSeq <= line.seq_ && spec.filter(line.body) {
          var signal := isSignal(line.body);
          SignalCountAppend(hits, [Hit(line.seq_, signal)]);
          if signal {
            signals := SaturatingInc(signals);
          }
          hits := hits + [Hit(line.seq_, signal)];
        }
      }
      assert Index(buf[|buf|..], spec.fromSeq, spec.filter, isSignal) == [];
    }

    method Bind(spec: BindSpec, ring: RingBuffer) returns (page: LogPage)
      requires Valid(ring.View())
      modifies this
      ensures windows == old(windows)[spec.id := Bound(spec, ring.buf, isSignal)]
      ensures page == PageOf(windows[spec.id], ring.buf, None)
    {
      var hits, signals := Rebuild(spec, ring.buf);
      var window := Window(spec.id, spec.serial, spec.filter, spec.fromSeq, spec.following,
                           spec.through, hits, signals);
      windows := windows[spec.id := window];
      page := ReadPage(window, ring, None);
    }

    method Release(id: nat)
      modifies this
      ensures windows == old(windows) - {id}
    {
      windows := windows - {id};
    }

    method ClearSerial(serial: string)
      modifies this
      ensures windows == ClearedBook(old(windows), serial)
    {
      var todo := windows.Keys;
      while todo != {}
        invariant todo <= windows.Keys == old(windows).Keys
        invariant forall id :: id in windows ==>
          windows[id] == if id in todo then old(windows)[id] else ClearedBook(old(windows), serial)[id]
        decreases |todo|
      {
        var id :| id in todo;
        if windows[id].serial == serial {
          windows := windows[id := windows[id].(hits := [], signals := 0)];
        }
        todo := todo - {id};
      }
    }

    method Latch(id: nat, following: bool, ring: RingBuffer) returns (page: Option<LogPage>)
      requires Valid(ring.View())
      modifies this
      ensures id !in old(windows) ==> page == None && windows == old(windows)
      ensures id in old(windows) ==>
        && windows == old(windows)[id := Latched(old(windows)[id], following)]
        && page == Some(PageOf(windows[id], ring.buf, None))
    {
      if id !in windows {
        return None;
      }
      var w := windows[id].(following := following);
      if following {
        w := w.(through := None);
      }
      windows := windows[id := w];
      var p := ReadPage(w, ring, None);
      page := Some(p);
    }

    method Page(id: nat, index: nat, count: nat, ring: RingBuffer) returns (page: Option<LogPage>)
      requires Valid(ring.View())
      ensures page == if id in windows then Some(PageOf(windows[id], ring.buf, Some((index, count)))) else None
    {
      if id !in windows {
        return None;
      }
      var p := ReadPage(windows[id], ring, Some((index, count)));
      page := Some(p);
    }

    /** Before the record enters the ring: which windows want it. The order is the hash map's. */
    method Prepare(serial: string, b: Body) returns (signal: bool, ids: seq<nat>)
      ensures signal == isSignal(b)
      ensures Distinct(ids)
      ensures forall id :: id in ids <==> id in windows && windows[id].serial == serial && windows[id].filter(b)
      ensures forall id :: id in ids <==> Prepares(windows, serial, b, id)
    {
      ids := [];
      var todo := windows.Keys;
      while todo != {}
        invariant todo <= windows.Keys
        invariant Distinct(ids)
        invariant forall id :: id in ids <==> Prepares(windows, serial, b, id) && id !in todo
        decreases |todo|
      {
        var id :| id in todo;
        if windows[id].serial == serial && windows[id].filter(b) {
          ids := ids + [id];
        }
        todo := todo - {id};
      }
      signal := isSignal(b);
    }

    method EvictBefore(serial: string, oldest: nat)
      modifies this
      ensures windows == EvictedBook(old(windows), serial, oldest)
    {
      var todo := windows.Keys;
      while todo != {}
        invariant todo <= windows.Keys == old(windows).Keys
        invariant forall id :: id in windows ==>
          windows[id] == if id in todo then old(windows)[id]
                         else EvictedBook(old(windows), serial, oldest)[id]
        decreases |todo|
      {
        var id :| id in todo;
        if windows[id].serial == serial {
          var hits, signals := windows[id].hits, windows[id].signals;
          while hits != [] && hits[0].n < oldest
            invariant DropBefore(hits, oldest) == DropBefore(windows[id].hits, oldest)
            invariant SignalsAfterDrop(hits, signals, oldest)
                   == SignalsAfterDrop(windows[id].hits, windows[id].signals, oldest)
            decreases |hits|
          {
            if hits[0].signal {
              signals := SaturatingDec(signals);
            }
            hits := hits[1..];
          }
          windows := windows[id := windows[id].(hits := hits, signals := signals)];
        }
        todo := todo - {id};
      }
    }

    /** After the record has its number: drop what the ring evicted, then append the record. */
    method Commit(serial: string, n: nat, oldest: nat, signal: bool, ids: seq<nat>, wire: Option<Record>)
      returns (notes: seq<Note>)
      requires Distinct(ids)
      modifies this
      ensures windows == Committed(old(windows), serial, n, oldest, signal, ids)
      ensures notes == Notes(EvictedBook(old(windows), serial, oldest), serial, n, signal, ids, wire)
    {
      EvictBefore(serial, oldest);
      notes := Append(serial, n, signal, ids, wire);
    }

    method Append(serial: string, n: nat, signal: bool, ids: seq<nat>, wire: Option<Record>)
      returns (notes: seq<Note>)
      requires Distinct(ids)
      modifies this
      ensures windows == Appended(old(windows), serial, n, signal, ids)
      ensures notes == Notes(old(windows), serial, n, signal, ids, wire)
    {
      ghost var before := windows;
      notes := [];
      for i := 0 to |ids|
        invariant windows == Appended(before, serial, n, signal, ids[..i])
        invariant notes == Notes(before, serial, n, signal, ids[..i], wire)
      {
        var id := ids[i];
        NotesStep(before, serial, n, signal, ids, i, wire);
        AppendedStep(before, serial, n, signal, ids, i);
        if id in windows && windows[id].serial == serial && windows[id].fromSeq <= n {
          var w := Admitted(windows[id], n, signal);
          windows := windows[id := w];
          notes := notes + [Note(id, |w.hits|, w.signals, wire)];
        }
      }
      assert ids[..|ids|] == ids;
    }
  }

  lemma AppendedStep(
    ws: map<nat, Window>, serial: string, n: nat, signal: bool, ids: seq<nat>, i: nat)
    requires i < |ids| && Distinct(ids)
    ensures var m, id := Appended(ws, serial, n, signal, ids[..i]), ids[i];
      && (id in m <==> id in ws) && (id in ws ==> m[id] == ws[id])
      && Appended(ws, serial, n, signal, ids[..i + 1]) ==
         if id in ws && Takes(ws[id], serial, n) then m[id := Admitted(ws[id], n, signal)] else m
  {
  }

  // ---------- small facts ----------

  lemma {:induction false} SignalCountAppend(a: seq<Hit>, b: seq<Hit>)
    ensures SignalCount(a + b) == SignalCount(a) + SignalCount(b)
  {
    if a == [] {
      assert a + b == b;
    } else {
      assert (a + b)[1..] == a[1..] + b;
      SignalCountAppend(a[1..], b);
    }
  }

  lemma IndexStep(buf: seq<Record>, i: nat, from: nat, filter: Test, isSignal: Test)
    requires i < |buf|
    ensures Index(buf[i..], from, filter, isSignal) ==
            (if Wants(from, filter, buf[i]) then [HitOf(buf[i], isSignal)] else [])
            + Index(buf[i + 1..], from, filter, isSignal)
  {
  }
}
