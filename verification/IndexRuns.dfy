/** Rings and windows together, over every run of the operations on them. */
module IndexRuns {

  import opened Arithmetic
  import opened Options
  import opened Ring
  import opened Windows
  import opened WindowFacts

  /** What a bind has read from the ring, and the ring's next number at that moment; the window is not
      in the book yet. */
  datatype Pending = Pending(window: Window, next: nat)

  datatype Store = Store(rings: map<string, Ring.State>, windows: map<nat, Window>, binds: map<nat, Pending>)

  /** Each action holds one lock. A bind first reads the ring and then enters the book; a clear first
      empties the ring and then the windows: anything may come between. The three sections of an emit
      count as one action, which `EmitIsAtomic` justifies. `call` tells binds apart; `capacity` is the
      service's configured capacity, used when the serial has no ring yet. */
  datatype Action =
    | Emit(serial: string, body: Body)
    | BindRead(call: nat, spec: BindSpec, capacity: nat)
    | BindInsert(call: nat)
    | Release(id: nat)
    | Latch(id: nat, following: bool)
    | ClearRing(serial: string)
    | ClearWindows(serial: string)
    | Resize(serial: string, capacity: nat)

  const EMPTY_STORE := Store(map[], map[], map[])

  function RingFor(st: Store, serial: string, capacity: nat): Ring.State {
    if serial in st.rings then st.rings[serial] else Ring.State([], 0, AtLeastOne(capacity))
  }

  function FedBook(ws: map<nat, Window>, serial: string, r: Ring.State, b: Body, sig: Test): map<nat, Window>
    requires |r.buf| <= r.next
  {
    map id | id in ws :: if ws[id].serial == serial then Fed(ws[id], r, b, sig) else ws[id]
  }

  ghost predicate RingsOk(st: Store) {
    forall k :: k in st.rings ==> Valid(st.rings[k])
  }

  function Apply(st: Store, a: Action, sig: Test): Store
    requires RingsOk(st)
  {
    match a
    case Emit(k, b) =>
      if k !in st.rings then st
      else st.(rings := st.rings[k := Pushed(st.rings[k], b)],
               windows := FedBook(st.windows, k, st.rings[k], b, sig))
    case BindRead(c, spec, capacity) =>
      var r := RingFor(st, spec.serial, capacity);
      st.(rings := st.rings[spec.serial := r],
          binds := st.binds[c := Pending(Bound(spec, r.buf, sig), r.next)])
    case BindInsert(c) =>
      if c !in st.binds then st
      else st.(windows := st.windows[st.binds[c].window.id := st.binds[c].window], binds := st.binds - {c})
    case Release(id) => st.(windows := st.windows - {id})
    case Latch(id, following) =>
      if id in st.windows then st.(windows := st.windows[id := Latched(st.windows[id], following)]) else st
    case ClearRing(k) =>
      if k in st.rings then st.(rings := st.rings[k := Cleared(st.rings[k])]) else st
    case ClearWindows(k) => st.(windows := ClearedBook(st.windows, k))
    case Resize(k, capacity) =>
      st.(rings := st.rings[k := Resized(RingFor(st, k, capacity), capacity)])
  }

  lemma ApplyKeepsRings(st: Store, a: Action, sig: Test)
    requires RingsOk(st)
    ensures RingsOk(Apply(st, a, sig))
  {
    var u := Apply(st, a, sig);
    forall k | k in u.rings
      ensures Valid(u.rings[k])
    {
      if k in st.rings {
        OperationsKeepValid(st.rings[k], if a.Emit? then a.body else Body("", 0, 0, None, None, ' ', "", ""),
                            if a.Resize? then a.capacity else 0);
      }
    }
  }

  /** The state after some actions; the last action is applied last. */
  function ExecFrom(st: Store, run: seq<Action>, sig: Test): (u: Store)
    requires RingsOk(st)
    ensures RingsOk(u)
  {
    if run == [] then st
    else
      var before := ExecFrom(st, run[..|run| - 1], sig);
      ApplyKeepsRings(before, run[|run| - 1], sig);
      Apply(before, run[|run| - 1], sig)
  }

  function Exec(run: seq<Action>, sig: Test): (u: Store)
    ensures RingsOk(u)
  {
    ExecFrom(EMPTY_STORE, run, sig)
  }

  lemma ExecOneMore(st: Store, run: seq<Action>, a: Action, sig: Test)
    requires RingsOk(st)
    ensures ExecFrom(st, run + [a], sig) == Apply(ExecFrom(st, run, sig), a, sig)
  {
    assert (run + [a])[..|run|] == run;
  }

  // ---------- what a window has not been shown ----------

  function NextNumber(st: Store, serial: string): nat {
    if serial in st.rings then st.rings[serial].next else 0
  }

  /** How an action changes what window `id` has missed: a bind misses what came while it was going on,
      and whoever is emptied misses all that came before. */
  function BlindAfter(st: Store, a: Action, id: nat, blind: Blind): Blind {
    match a
    case BindInsert(c) =>
      if c in st.binds && st.binds[c].window.id == id
      then Blind(0, st.binds[c].next, NextNumber(st, st.binds[c].window.serial)) else blind
    case ClearWindows(k) =>
      if id in st.windows && st.windows[id].serial == k then blind.(floor := NextNumber(st, k)) else blind
    case _ => blind
  }

  /** By the numbers of the records that had come when a bind of `id` read the ring, when it entered the
      book, and when the windows were last emptied since. */
  function BlindOf(run: seq<Action>, sig: Test, id: nat): Blind {
    if run == [] then NONE_MISSED
    else
      var before, a := run[..|run| - 1], run[|run| - 1];
      BlindAfter(Exec(before, sig), a, id, BlindOf(before, sig, id))
  }

  // ---------- every window tracks its ring ----------

  ghost predicate PendingOk(st: Store, p: Pending, sig: Test)
    requires RingsOk(st)
  {
    && p.window.serial in st.rings
    && var r := st.rings[p.window.serial];
       p.next <= r.next && Tracks(p.window, r, sig, Blind(0, p.next, r.next))
  }

  ghost predicate BindsOk(st: Store, sig: Test)
    requires RingsOk(st)
  {
    forall c :: c in st.binds ==> PendingOk(st, st.binds[c], sig)
  }

  ghost predicate Covers(st: Store, id: nat, sig: Test, blind: Blind)
    requires RingsOk(st)
  {
    && id in st.windows && st.windows[id].id == id && st.windows[id].serial in st.rings
    && Tracks(st.windows[id], st.rings[st.windows[id].serial], sig, blind)
  }

  /** One action keeps a bind in progress going. */
  lemma ApplyKeepsPending(st: Store, a: Action, sig: Test, p: Pending)
    requires RingsOk(st) && RingsOk(Apply(st, a, sig)) && PendingOk(st, p, sig)
    ensures PendingOk(Apply(st, a, sig), p, sig)
  {
    var k := p.window.serial;
    var r := st.rings[k];
    var blind := Blind(0, p.next, r.next);
    match a
    case Emit(serial, b) => if serial == k { PassedByTracks(p.window, r, b, sig, p.next); }
    case ClearRing(serial) => if serial == k { EmptiedTracks(p.window, r, sig, blind); }
    case Resize(serial, c) => if serial == k { ResizedTracks(p.window, r, c, sig, blind); }
    case _ =>
  }

  lemma ApplyKeepsBinds(st: Store, a: Action, sig: Test)
    requires RingsOk(st) && RingsOk(Apply(st, a, sig)) && BindsOk(st, sig)
    ensures BindsOk(Apply(st, a, sig), sig)
  {
    var u := Apply(st, a, sig);
    forall c | c in u.binds
      ensures PendingOk(u, u.binds[c], sig)
    {
      if a.BindRead? && c == a.call {
        BoundIsExact(a.spec, u.rings[a.spec.serial], sig);
      } else {
        ApplyKeepsPending(st, a, sig, st.binds[c]);
      }
    }
  }

  /** One action on a window that stays in the book. */
  lemma ApplyKeepsWindow(st: Store, a: Action, sig: Test, id: nat, blind: Blind)
    requires RingsOk(st) && RingsOk(Apply(st, a, sig)) && Covers(st, id, sig, blind)
    requires !a.BindInsert? && id in Apply(st, a, sig).windows
    ensures Covers(Apply(st, a, sig), id, sig, BlindAfter(st, a, id, blind))
  {
    var w := st.windows[id];
    var r := st.rings[w.serial];
    match a
    case Emit(k, b) => if k == w.serial { FedIsExact(w, r, b, sig, blind); }
    case ClearRing(k) => if k == w.serial { EmptiedTracks(w, r, sig, blind); }
    case ClearWindows(k) => if k == w.serial { ForgottenIsExact(w, r, sig, blind); }
    case Resize(k, c) => if k == w.serial { ResizedTracks(w, r, c, sig, blind); }
    case _ =>
  }

  lemma ApplyKeepsCover(st: Store, a: Action, sig: Test, id: nat, blind: Blind)
    requires RingsOk(st) && RingsOk(Apply(st, a, sig)) && BindsOk(st, sig)
    requires id in st.windows ==> Covers(st, id, sig, blind)
    requires id in Apply(st, a, sig).windows
    ensures Covers(Apply(st, a, sig), id, sig, BlindAfter(st, a, id, blind))
  {
    if a.BindInsert? {
      if a.call in st.binds && st.binds[a.call].window.id == id {
        assert PendingOk(st, st.binds[a.call], sig);
      }
    } else {
      ApplyKeepsWindow(st, a, sig, id, blind);
    }
  }

  lemma LastAction(run: seq<Action>, sig: Test) returns (before: seq<Action>, st: Store, a: Action)
    requires run != []
    ensures before == run[..|run| - 1] && a == run[|run| - 1] && st == Exec(before, sig)
    ensures RingsOk(st) && RingsOk(Apply(st, a, sig)) && Exec(run, sig) == Apply(st, a, sig)
  {
    before, a := run[..|run| - 1], run[|run| - 1];
    st := Exec(before, sig);
    ApplyKeepsRings(st, a, sig);
  }

  lemma {:induction false} RunKeepsBinds(run: seq<Action>, sig: Test)
    ensures BindsOk(Exec(run, sig), sig)
  {
    if run != [] {
      var before, st, a := LastAction(run, sig);
      RunKeepsBinds(before, sig);
      ApplyKeepsBinds(st, a, sig);
    }
  }

  lemma {:induction false} RunCovers(run: seq<Action>, sig: Test, id: nat)
    requires id in Exec(run, sig).windows
    ensures Covers(Exec(run, sig), id, sig, BlindOf(run, sig, id))
  {
    var before, a := run[..|run| - 1], run[|run| - 1];
    if id in Exec(before, sig).windows {
      RunCovers(before, sig, id);
    }
    RunKeepsBinds(before, sig);
    ApplyKeepsCover(Exec(before, sig), a, sig, id, BlindOf(before, sig, id));
  }

  // ---------- index and filter ----------

  /** A window of a run, and its ring. */
  function WindowOf(run: seq<Action>, sig: Test, id: nat): Window
    requires id in Exec(run, sig).windows
  {
    Exec(run, sig).windows[id]
  }

  function RingOf(run: seq<Action>, sig: Test, id: nat): (r: Ring.State)
    requires id in Exec(run, sig).windows
    ensures Valid(r)
  {
    RunCovers(run, sig, id);
    Exec(run, sig).rings[WindowOf(run, sig, id).serial]
  }

  /** Whatever the run, the hits are a prefix already evicted from the ring, followed by exactly the
      records of the ring that the window wants and that did not pass it by. */
  lemma IndexLagsByAPrefix(run: seq<Action>, sig: Test, id: nat)
    requires id in Exec(run, sig).windows
    ensures exists stale: nat ::
      StaleThenSeen(WindowOf(run, sig, id), RingOf(run, sig, id), sig, BlindOf(run, sig, id), stale)
  {
    RunCovers(run, sig, id);
    TracksSplits(WindowOf(run, sig, id), RingOf(run, sig, id), sig, BlindOf(run, sig, id));
  }

  lemma TracksSplits(w: Window, r: Ring.State, sig: Test, blind: Blind)
    requires Valid(r) && Tracks(w, r, sig, blind)
    ensures exists stale: nat :: StaleThenSeen(w, r, sig, blind, stale)
  {
    DropIsSuffix(w.hits, Oldest(r));
    assert StaleThenSeen(w, r, sig, blind, |w.hits| - |DropBefore(w.hits, Oldest(r))|);
  }

  ghost predicate StaleThenSeen(w: Window, r: Ring.State, sig: Test, blind: Blind, stale: nat) {
    && |r.buf| <= r.next && stale <= |w.hits|
    && AllBelow(w.hits[..stale], Oldest(r))
    && w.hits[stale..] == IndexBut(r.buf, w, sig, blind)
  }

  /** Read off the actions: the ring has changed since the bind read it. */
  predicate RingChanged(run: seq<Action>, call: nat, serial: string) {
    run != [] &&
    match run[|run| - 1]
    case BindRead(c, _, _) => c != call && RingChanged(run[..|run| - 1], call, serial)
    case Emit(k, _) => k == serial || RingChanged(run[..|run| - 1], call, serial)
    case ClearRing(k) => k == serial || RingChanged(run[..|run| - 1], call, serial)
    case Resize(k, _) => k == serial || RingChanged(run[..|run| - 1], call, serial)
    case _ => RingChanged(run[..|run| - 1], call, serial)
  }

  /** The ring has lost records since the window last caught up with it. */
  predicate MayLag(run: seq<Action>, sig: Test, id: nat) {
    if run == [] then false
    else
      var before, a := run[..|run| - 1], run[|run| - 1];
      var st := Exec(before, sig);
      match a
      case BindInsert(c) =>
        if c in st.binds && st.binds[c].window.id == id then RingChanged(before, c, st.binds[c].window.serial)
        else MayLag(before, sig, id)
      case Emit(k, _) => !(id in st.windows && st.windows[id].serial == k) && MayLag(before, sig, id)
      case ClearWindows(k) => !(id in st.windows && st.windows[id].serial == k) && MayLag(before, sig, id)
      case ClearRing(k) => (id in st.windows && st.windows[id].serial == k) || MayLag(before, sig, id)
      case Resize(k, _) => (id in st.windows && st.windows[id].serial == k) || MayLag(before, sig, id)
      case _ => MayLag(before, sig, id)
  }

  ghost predicate PendingExact(st: Store, c: nat, sig: Test)
    requires RingsOk(st)
  {
    && c in st.binds && st.binds[c].window.serial in st.rings
    && var r := st.rings[st.binds[c].window.serial];
       Exact(st.binds[c].window, r, sig, Blind(0, st.binds[c].next, r.next))
  }

  lemma ApplyKeepsUnchanged(st: Store, a: Action, sig: Test, c: nat, serial: string)
    requires RingsOk(st) && RingsOk(Apply(st, a, sig)) && PendingExact(st, c, sig)
    requires c in Apply(st, a, sig).binds && serial == st.binds[c].window.serial
    requires !(a.BindRead? && a.call == c) && !(a.Emit? && a.serial == serial)
    requires !(a.ClearRing? && a.serial == serial) && !(a.Resize? && a.serial == serial)
    ensures PendingExact(Apply(st, a, sig), c, sig)
  {
  }

  lemma {:induction false} UnchangedIsExact(run: seq<Action>, sig: Test, c: nat)
    requires var st := Exec(run, sig); c in st.binds && !RingChanged(run, c, st.binds[c].window.serial)
    ensures PendingExact(Exec(run, sig), c, sig)
  {
    var before, st, a := LastAction(run, sig);
    if a.BindRead? && a.call == c {
      BoundIsExact(a.spec, Apply(st, a, sig).rings[a.spec.serial], sig);
    } else {
      UnchangedIsExact(before, sig, c);
      ApplyKeepsUnchanged(st, a, sig, c, st.binds[c].window.serial);
    }
  }

  lemma ApplyKeepsExact(st: Store, a: Action, sig: Test, id: nat, blind: Blind)
    requires RingsOk(st) && RingsOk(Apply(st, a, sig)) && Covers(st, id, sig, blind)
    requires !a.BindInsert? && id in Apply(st, a, sig).windows
    requires var w := st.windows[id];
      (a.Emit? && a.serial == w.serial) || (a.ClearWindows? && a.serial == w.serial)
      || (!(a.ClearRing? && a.serial == w.serial) && !(a.Resize? && a.serial == w.serial)
          && Exact(w, st.rings[w.serial], sig, blind))
    ensures var u := Apply(st, a, sig); var w := u.windows[id];
      w.serial in u.rings && Exact(w, u.rings[w.serial], sig, BlindAfter(st, a, id, blind))
  {
    var w := st.windows[id];
    var r := st.rings[w.serial];
    match a
    case Emit(k, b) => if k == w.serial { FedIsExact(w, r, b, sig, blind); }
    case ClearWindows(k) => if k == w.serial { ForgottenIsExact(w, r, sig, blind); }
    case _ =>
  }

  lemma {:induction false} CaughtUpIsExact(run: seq<Action>, sig: Test, id: nat)
    requires id in Exec(run, sig).windows && !MayLag(run, sig, id)
    ensures Exact(WindowOf(run, sig, id), RingOf(run, sig, id), sig, BlindOf(run, sig, id))
  {
    var before, a := run[..|run| - 1], run[|run| - 1];
    var st := Exec(before, sig);
    if a.BindInsert? && a.call in st.binds && st.binds[a.call].window.id == id {
      RunKeepsBinds(before, sig);
      UnchangedIsExact(before, sig, a.call);
    } else {
      RunCovers(before, sig, id);
      if !MayLag(before, sig, id) {
        CaughtUpIsExact(before, sig, id);
      }
      if !a.BindInsert? {
        ApplyKeepsExact(st, a, sig, id, BlindOf(before, sig, id));
      }
    }
  }

  /** Index equals filter: a window that has caught up with its ring holds the (number, is-signal)
      pairs of exactly the ring records it wants, in order, if and only if none of those passed it by
      during a bind or stood before the emptying of the windows. */
  lemma IndexEqualsFilterIff(run: seq<Action>, sig: Test, id: nat)
    requires id in Exec(run, sig).windows && !MayLag(run, sig, id)
    ensures var w, r := WindowOf(run, sig, id), RingOf(run, sig, id);
      w.hits == Index(r.buf, w.fromSeq, w.filter, sig) <==> Shown(w, r.buf, BlindOf(run, sig, id))
  {
    CaughtUpIsExact(run, sig, id);
    SameHits(WindowOf(run, sig, id), RingOf(run, sig, id).buf, sig, BlindOf(run, sig, id));
  }

  /** The next record of a serial makes all its windows catch up; what passed them by stays missing. */
  lemma NextRecordCatchesUp(run: seq<Action>, sig: Test, serial: string, b: Body, id: nat)
    requires id in Exec(run, sig).windows && Exec(run, sig).windows[id].serial == serial
    ensures var more := run + [Emit(serial, b)];
      && id in Exec(more, sig).windows && !MayLag(more, sig, id)
      && BlindOf(more, sig, id) == BlindOf(run, sig, id)
      && Exact(WindowOf(more, sig, id), RingOf(more, sig, id), sig, BlindOf(run, sig, id))
  {
    var more := run + [Emit(serial, b)];
    assert more[..|run|] == run;
    RunCovers(run, sig, id);
    CaughtUpIsExact(more, sig, id);
  }

  /** Pages of any size read, in every reachable state, exactly the ring records a window wants and was
      shown: all it wants, if and only if none passed it by. */
  lemma PagesTileAlways(run: seq<Action>, sig: Test, id: nat, count: nat)
    requires id in Exec(run, sig).windows
    ensures var w, r, blind := WindowOf(run, sig, id), RingOf(run, sig, id), BlindOf(run, sig, id);
      && Pages(w, r.buf, 0, count) == Matching(Seen(r.buf, blind), w.fromSeq, w.filter)
      && (Pages(w, r.buf, 0, count) == Matching(r.buf, w.fromSeq, w.filter) <==> Shown(w, r.buf, blind))
  {
    var w, r, blind := WindowOf(run, sig, id), RingOf(run, sig, id), BlindOf(run, sig, id);
    RunCovers(run, sig, id);
    PagesTile(w, r, sig, count, blind);
    ShownMatches(w, r.buf, blind);
  }

  // ---------- runs in which nothing passes by ----------

  /** Clears of a serial that have emptied the ring and not yet the windows. */
  function OpenClears(run: seq<Action>, serial: string): nat {
    if run == [] then 0
    else
      var open := OpenClears(run[..|run| - 1], serial);
      match run[|run| - 1]
      case ClearRing(k) => if k == serial then open + 1 else open
      case ClearWindows(k) => if k == serial && open > 0 then open - 1 else open
      case _ => open
  }

  ghost predicate NoBindOn(st: Store, serial: string) {
    forall c :: c in st.binds ==> st.binds[c].window.serial != serial
  }

  /** No record of the serial comes between the halves of a clear or of a bind, and windows are
      emptied only behind their ring. */
  ghost predicate Quiet(run: seq<Action>, sig: Test, serial: string) {
    run != [] ==>
      var before := run[..|run| - 1];
      && Quiet(before, sig, serial)
      && match run[|run| - 1]
         case Emit(k, _) => k == serial ==> OpenClears(before, serial) == 0 && NoBindOn(Exec(before, sig), serial)
         case ClearWindows(k) => k == serial ==> OpenClears(before, serial) > 0
         case _ => true
  }

  ghost predicate NothingPassedBy(st: Store, serial: string, open: nat)
    requires RingsOk(st)
  {
    && (open > 0 && serial in st.rings ==> st.rings[serial].buf == [])
    && forall c :: c in st.binds && st.binds[c].window.serial == serial ==>
         serial in st.rings && st.binds[c].next == st.rings[serial].next
  }

  lemma ApplyQuietly(st: Store, a: Action, sig: Test, serial: string, open: nat)
    requires RingsOk(st) && RingsOk(Apply(st, a, sig)) && NothingPassedBy(st, serial, open)
    requires a.Emit? && a.serial == serial ==> open == 0 && NoBindOn(st, serial)
    ensures NothingPassedBy(Apply(st, a, sig), serial,
                            if a.ClearRing? && a.serial == serial then open + 1
                            else if a.ClearWindows? && a.serial == serial && open > 0 then open - 1 else open)
  {
  }

  lemma {:induction false} QuietPassesNothingBy(run: seq<Action>, sig: Test, serial: string)
    requires Quiet(run, sig, serial)
    ensures NothingPassedBy(Exec(run, sig), serial, OpenClears(run, serial))
  {
    if run != [] {
      var before, st, a := LastAction(run, sig);
      QuietPassesNothingBy(before, sig, serial);
      ApplyQuietly(st, a, sig, serial, OpenClears(before, serial));
    }
  }

  ghost predicate AllSeen(r: Ring.State, blind: Blind) {
    forall line :: line in r.buf ==> !Misses(blind, line.seq_)
  }

  lemma PushedSeen(r: Ring.State, b: Body, blind: Blind)
    requires Valid(r) && AllSeen(r, blind) && BlindBelow(blind, r.next)
    ensures AllSeen(Pushed(r, b), blind)
  {
  }

  /** One action on a window that is not just being bound. */
  lemma ApplyKeepsSeen(st: Store, a: Action, sig: Test, id: nat, blind: Blind, open: nat)
    requires RingsOk(st) && RingsOk(Apply(st, a, sig)) && Covers(st, id, sig, blind) && !a.BindInsert?
    requires id in Apply(st, a, sig).windows
    requires var k := st.windows[id].serial;
      && NothingPassedBy(st, k, open) && AllSeen(st.rings[k], blind)
      && (a.ClearWindows? && a.serial == k ==> open > 0)
    ensures var u := Apply(st, a, sig);
      u.windows[id].serial in u.rings && AllSeen(u.rings[u.windows[id].serial], BlindAfter(st, a, id, blind))
  {
    var k := st.windows[id].serial;
    if a.Emit? && a.serial == k {
      PushedSeen(st.rings[k], a.body, blind);
    }
  }

  lemma InsertedSeen(st: Store, sig: Test, p: Pending, open: nat)
    requires RingsOk(st) && PendingOk(st, p, sig) && p.next == st.rings[p.window.serial].next
    ensures AllSeen(st.rings[p.window.serial], Blind(0, p.next, p.next))
  {
  }

  /** The action that enters a window into the book. */
  lemma EnteringSees(st: Store, a: Action, sig: Test, id: nat, blind: Blind, open: nat)
    requires RingsOk(st) && RingsOk(Apply(st, a, sig)) && BindsOk(st, sig)
    requires a.BindInsert? && a.call in st.binds && st.binds[a.call].window.id == id
    requires NothingPassedBy(st, st.binds[a.call].window.serial, open)
    ensures var u := Apply(st, a, sig);
      && id in u.windows && u.windows[id].serial in u.rings
      && AllSeen(u.rings[u.windows[id].serial], BlindAfter(st, a, id, blind))
  {
    InsertedSeen(st, sig, st.binds[a.call], open);
  }

  lemma {:induction false} QuietMissesNothing(run: seq<Action>, sig: Test, id: nat)
    requires id in Exec(run, sig).windows && Quiet(run, sig, WindowOf(run, sig, id).serial)
    ensures AllSeen(RingOf(run, sig, id), BlindOf(run, sig, id))
  {
    var before, st, a := LastAction(run, sig);
    var k := WindowOf(run, sig, id).serial;
    QuietPassesNothingBy(before, sig, k);
    if a.BindInsert? && a.call in st.binds && st.binds[a.call].window.id == id {
      RunKeepsBinds(before, sig);
      EnteringSees(st, a, sig, id, BlindOf(before, sig, id), OpenClears(before, k));
    } else {
      RunCovers(before, sig, id);
      QuietMissesNothing(before, sig, id);
      if !a.BindInsert? {
        ApplyKeepsSeen(st, a, sig, id, BlindOf(before, sig, id), OpenClears(before, k));
      }
    }
  }

  /** In a quiet run a window that has caught up is the filtered ring. */
  lemma QuietIndexEqualsFilter(run: seq<Action>, sig: Test, id: nat)
    requires id in Exec(run, sig).windows && !MayLag(run, sig, id)
    requires Quiet(run, sig, WindowOf(run, sig, id).serial)
    ensures var w, r := WindowOf(run, sig, id), RingOf(run, sig, id);
      w.hits == Index(r.buf, w.fromSeq, w.filter, sig)
  {
    QuietMissesNothing(run, sig, id);
    IndexEqualsFilterIff(run, sig, id);
  }

  // ---------- records between the halves of a clear ----------

  /** The records that some actions emit to a serial. */
  function EmittedTo(run: seq<Action>, serial: string): seq<Body> {
    if run == [] then [] else EmittedTo(run[..|run| - 1], serial) + EmittedBy(run[|run| - 1], serial)
  }

  function EmittedBy(a: Action, serial: string): seq<Body> {
    if a.Emit? && a.serial == serial then [a.body] else []
  }

  /** Actions that change the ring of a serial by pushing at most. */
  predicate OnlyPushes(a: Action, serial: string) {
    !(a.ClearRing? && a.serial == serial) && !(a.Resize? && a.serial == serial)
  }

  ghost predicate HoldsSince(st: Store, serial: string, bodies: seq<Body>)
    requires RingsOk(st)
  {
    serial in st.rings && Bodies(st.rings[serial].buf) == Newest(bodies, st.rings[serial].capacity)
  }

  lemma NewestOfMore(r: Ring.State, bodies: seq<Body>, b: Body)
    requires Valid(r) && Bodies(r.buf) == Newest(bodies, r.capacity)
    ensures Bodies(Pushed(r, b).buf) == Newest(bodies + [b], r.capacity)
  {
    var all := r.buf + [Record(r.next, b)];
    assert Bodies(all) == Bodies(r.buf) + [b];
    assert Bodies(Newest(all, r.capacity)) == Newest(Bodies(all), r.capacity);
  }

  lemma ApplySince(st: Store, a: Action, sig: Test, serial: string, bodies: seq<Body>)
    requires RingsOk(st) && RingsOk(Apply(st, a, sig)) && OnlyPushes(a, serial) && HoldsSince(st, serial, bodies)
    ensures HoldsSince(Apply(st, a, sig), serial, bodies + EmittedBy(a, serial))
  {
    if a.Emit? && a.serial == serial {
      NewestOfMore(st.rings[serial], bodies, a.body);
    } else {
      assert bodies + [] == bodies;
    }
  }

  lemma EmittedOneMore(run: seq<Action>, a: Action, serial: string)
    ensures EmittedTo(run + [a], serial) == EmittedTo(run, serial) + EmittedBy(a, serial)
  {
    assert (run + [a])[..|run|] == run;
  }

  lemma {:induction false} OneMoreSince(st: Store, run: seq<Action>, a: Action, sig: Test, serial: string)
    requires RingsOk(st) && OnlyPushes(a, serial)
    requires HoldsSince(ExecFrom(st, run, sig), serial, EmittedTo(run, serial))
    ensures HoldsSince(ExecFrom(st, run + [a], sig), serial, EmittedTo(run + [a], serial))
  {
    ApplyKeepsRings(ExecFrom(st, run, sig), a, sig);
    ApplySince(ExecFrom(st, run, sig), a, sig, serial, EmittedTo(run, serial));
    ExecOneMore(st, run, a, sig);
    EmittedOneMore(run, a, serial);
  }

  lemma {:induction false} RingSinceClear(st: Store, more: seq<Action>, sig: Test, serial: string)
    requires RingsOk(st) && serial in st.rings && st.rings[serial].buf == []
    requires forall a :: a in more ==> OnlyPushes(a, serial)
    ensures HoldsSince(ExecFrom(st, more, sig), serial, EmittedTo(more, serial))
    decreases |more|
  {
    if more == [] {
      assert HoldsSince(st, serial, []);
    } else {
      var init, a := more[..|more| - 1], more[|more| - 1];
      assert init + [a] == more && a in more;
      RingSinceClear(st, init, sig, serial);
      OneMoreSince(st, init, a, sig, serial);
    }
  }

  lemma LastOfAppend<T>(s: seq<T>, more: seq<T>)
    requires more != []
    ensures var init, last := more[..|more| - 1], more[|more| - 1]; init + [last] == more && s + init + [last] == s + more
  {
  }

  lemma {:induction false} ExecAppend(st: Store, run: seq<Action>, more: seq<Action>, sig: Test)
    requires RingsOk(st)
    ensures ExecFrom(st, run + more, sig) == ExecFrom(ExecFrom(st, run, sig), more, sig)
    decreases |more|
  {
    if more == [] {
      assert run + more == run;
    } else {
      var init, a := more[..|more| - 1], more[|more| - 1];
      ExecAppend(st, run, init, sig);
      ExecOneMore(st, run + init, a, sig);
      LastOfAppend(run, more);
      ExecOneMore(ExecFrom(st, run, sig), init, a, sig);
    }
  }

  /** A clear during which other actions run: behind it the ring holds the newest of what was emitted
      between its halves, and a window of the serial, which is empty, is the filtered ring if and only
      if it wants none of that. */
  lemma ClearIsCleanIff(before: seq<Action>, between: seq<Action>, sig: Test, serial: string, id: nat)
    requires serial in Exec(before, sig).rings && forall a :: a in between ==> OnlyPushes(a, serial)
    requires var run := before + [ClearRing(serial)] + between + [ClearWindows(serial)];
      id in Exec(run, sig).windows && WindowOf(run, sig, id).serial == serial
    ensures var run := before + [ClearRing(serial)] + between + [ClearWindows(serial)];
      var w, r := WindowOf(run, sig, id), RingOf(run, sig, id);
      && Bodies(r.buf) == Newest(EmittedTo(between, serial), r.capacity)
      && w.hits == []
      && (w.hits == Index(r.buf, w.fromSeq, w.filter, sig)
          <==> forall line :: line in r.buf ==> !Wants(w.fromSeq, w.filter, line))
  {
    var open := before + [ClearRing(serial)] + between;
    ExecOneMore(EMPTY_STORE, before, ClearRing(serial), sig);
    ExecAppend(EMPTY_STORE, before + [ClearRing(serial)], between, sig);
    RingSinceClear(Exec(before + [ClearRing(serial)], sig), between, sig, serial);
    EmptiedWindow(open, sig, serial, id);
  }

  lemma EmptiedWindow(open: seq<Action>, sig: Test, serial: string, id: nat)
    requires var run := open + [ClearWindows(serial)];
      id in Exec(run, sig).windows && WindowOf(run, sig, id).serial == serial
    ensures var run := open + [ClearWindows(serial)]; var w, r := WindowOf(run, sig, id), RingOf(run, sig, id);
      && serial in Exec(open, sig).rings && r == Exec(open, sig).rings[serial] && w.hits == []
      && (w.hits == Index(r.buf, w.fromSeq, w.filter, sig)
          <==> forall line :: line in r.buf ==> !Wants(w.fromSeq, w.filter, line))
  {
    var run := open + [ClearWindows(serial)];
    assert run[..|run| - 1] == open;
    ExecOneMore(EMPTY_STORE, open, ClearWindows(serial), sig);
    RunCovers(open, sig, id);
    IndexEqualsFilterIff(run, sig, id);
    var st := Exec(open, sig);
    ForgottenIsExact(st.windows[id], st.rings[serial], sig, BlindOf(open, sig, id));
  }

  /** A run in which that happens: a window that wants everything is bound, and one record comes while
      its serial is being cleared. The record stands in the ring, and no page shows it. */
  lemma EmitInsideClearIsLost(spec: BindSpec, capacity: nat, b: Body, sig: Test)
    requires spec.fromSeq == 0 && spec.filter(b)
    ensures var k := spec.serial;
      var run := [BindRead(0, spec, capacity), BindInsert(0)] + [ClearRing(k)] + [Emit(k, b)] + [ClearWindows(k)];
      && spec.id in Exec(run, sig).windows
      && RingOf(run, sig, spec.id).buf == [Record(0, b)]
      && WindowOf(run, sig, spec.id).hits == []
      && Index([Record(0, b)], spec.fromSeq, spec.filter, sig) != []
      && !Quiet(run, sig, k)
  {
    var k := spec.serial;
    var bound := [BindRead(0, spec, capacity), BindInsert(0)];
    var st := BoundStore(spec, capacity, sig);
    ExecOneMore(EMPTY_STORE, bound, ClearRing(k), sig);
    ExecOneMore(EMPTY_STORE, bound + [ClearRing(k)], Emit(k, b), sig);
    var open := bound + [ClearRing(k)] + [Emit(k, b)];
    ExecOneMore(EMPTY_STORE, open, ClearWindows(k), sig);
    assert open[..3] == bound + [ClearRing(k)] && (bound + [ClearRing(k)])[..2] == bound;
    assert (open + [ClearWindows(k)])[..4] == open;
    EmptiedWindow(open, sig, k, spec.id);
    assert [Record(0, b)][1..] == [];
  }

  /** An empty ring, and a window bound to it. */
  lemma BoundStore(spec: BindSpec, capacity: nat, sig: Test) returns (st: Store)
    ensures st == Exec([BindRead(0, spec, capacity), BindInsert(0)], sig)
    ensures st.rings == map[spec.serial := Ring.State([], 0, AtLeastOne(capacity))] && st.binds == map[]
    ensures st.windows == map[spec.id := Bound(spec, [], sig)]
  {
    var read := BindRead(0, spec, capacity);
    ApplyKeepsRings(EMPTY_STORE, read, sig);
    ExecOneMore(EMPTY_STORE, [], read, sig);
    assert [] + [read] == [read];
    ExecOneMore(EMPTY_STORE, [read], BindInsert(0), sig);
    assert [read] + [BindInsert(0)] == [read, BindInsert(0)];
    st := Apply(Apply(EMPTY_STORE, read, sig), BindInsert(0), sig);
  }

  /** A bind during which other actions run: behind its stale prefix the new window is the filtered
      ring if and only if it wants nothing that came since the bind read the ring. */
  lemma BindIsCleanIff(open: seq<Action>, sig: Test, c: nat)
    requires c in Exec(open, sig).binds
    ensures var run, p := open + [BindInsert(c)], Exec(open, sig).binds[c]; var id := p.window.id;
      && id in Exec(run, sig).windows
      && var w, r := WindowOf(run, sig, id), RingOf(run, sig, id);
         w == p.window
         && (DropBefore(w.hits, Oldest(r)) == Index(r.buf, w.fromSeq, w.filter, sig)
             <==> forall line :: line in r.buf && Wants(w.fromSeq, w.filter, line) ==> line.seq_ < p.next)
  {
    var run, p := open + [BindInsert(c)], Exec(open, sig).binds[c];
    assert run[..|run| - 1] == open;
    ExecOneMore(EMPTY_STORE, open, BindInsert(c), sig);
    RunKeepsBinds(open, sig);
    RunCovers(run, sig, p.window.id);
    var r := RingOf(run, sig, p.window.id);
    TracksFilterIff(p.window, r, sig, Blind(0, p.next, r.next));
    NewerIsMissed(p.window, r, p.next);
  }

  lemma NewerIsMissed(w: Window, r: Ring.State, lo: nat)
    requires Valid(r)
    ensures Shown(w, r.buf, Blind(0, lo, r.next))
            <==> forall line :: line in r.buf && Wants(w.fromSeq, w.filter, line) ==> line.seq_ < lo
  {
  }

  // ---------- the three sections of an emit ----------

  /** What other calls may do while a record of `serial` is on its way into ring and book: anything but
      the halves of a bind to its ring or into the book, and another record of it, which comes from the
      same caller. */
  predicate Bystander(a: Action, serial: string) {
    match a
    case Emit(k, _) => k != serial
    case BindRead(_, spec, _) => spec.serial != serial
    case BindInsert(_) => false
    case _ => true
  }

  predicate OnRing(a: Action, serial: string) {
    (a.ClearRing? && a.serial == serial) || (a.Resize? && a.serial == serial)
  }

  /** The actions on the ring of `serial`, and all others, in their order. */
  function RingSide(run: seq<Action>, serial: string): seq<Action> {
    if run == [] then []
    else RingSide(run[..|run| - 1], serial)
         + if OnRing(run[|run| - 1], serial) then [run[|run| - 1]] else []
  }

  function BookSide(run: seq<Action>, serial: string): seq<Action> {
    if run == [] then []
    else BookSide(run[..|run| - 1], serial)
         + if OnRing(run[|run| - 1], serial) then [] else [run[|run| - 1]]
  }

  function WithRing(st: Store, serial: string, r: Ring.State): Store {
    st.(rings := st.rings[serial := r])
  }

  /** What actions on its serial make of a ring. */
  function Turned(r: Ring.State, run: seq<Action>): Ring.State {
    if run == [] then r else TurnedBy(Turned(r, run[..|run| - 1]), run[|run| - 1])
  }

  function TurnedBy(r: Ring.State, a: Action): Ring.State {
    match a
    case Emit(_, b) => Pushed(r, b)
    case ClearRing(_) => Cleared(r)
    case Resize(_, c) => Resized(r, c)
    case _ => r
  }

  lemma TurnedByValid(r: Ring.State, a: Action)
    requires Valid(r)
    ensures Valid(TurnedBy(r, a))
  {
    OperationsKeepValid(r, if a.Emit? then a.body else Body("", 0, 0, None, None, ' ', "", ""),
                        if a.Resize? then a.capacity else 0);
  }

  lemma {:induction false} TurnedValid(r: Ring.State, run: seq<Action>)
    requires Valid(r)
    ensures Valid(Turned(r, run))
  {
    if run != [] {
      TurnedValid(r, run[..|run| - 1]);
      TurnedByValid(Turned(r, run[..|run| - 1]), run[|run| - 1]);
    }
  }

  lemma {:induction false} TurnedAppend(r: Ring.State, a: seq<Action>, b: seq<Action>)
    ensures Turned(r, a + b) == Turned(Turned(r, a), b)
    decreases |b|
  {
    if b == [] {
      assert a + b == a;
    } else {
      var init, last := b[..|b| - 1], b[|b| - 1];
      assert (a + b)[..|a + b| - 1] == a + init;
      TurnedAppend(r, a, init);
    }
  }

  /** Actions on ring or windows of one serial. */
  predicate OfSerial(a: Action, serial: string) {
    match a
    case Emit(k, _) => k == serial
    case ClearRing(k) => k == serial
    case ClearWindows(k) => k == serial
    case Resize(k, _) => k == serial
    case _ => false
  }

  lemma RingTurnsBy(st: Store, a: Action, sig: Test, serial: string)
    requires RingsOk(st) && serial in st.rings && OfSerial(a, serial)
    ensures serial in Apply(st, a, sig).rings && Apply(st, a, sig).rings[serial] == TurnedBy(st.rings[serial], a)
  {
  }

  lemma {:induction false} RingIsTurned(st: Store, run: seq<Action>, sig: Test, serial: string)
    requires RingsOk(st) && serial in st.rings && forall a :: a in run ==> OfSerial(a, serial)
    ensures var u := ExecFrom(st, run, sig); serial in u.rings && u.rings[serial] == Turned(st.rings[serial], run)
    decreases |run|
  {
    if run != [] {
      var init, a := run[..|run| - 1], run[|run| - 1];
      assert init + [a] == run && a in run;
      RingIsTurned(st, init, sig, serial);
      RingTurnsBy(ExecFrom(st, init, sig), a, sig, serial);
      ExecOneMore(st, init, a, sig);
    }
  }

  lemma ExecOne(st: Store, a: Action, sig: Test)
    requires RingsOk(st)
    ensures ExecFrom(st, [a], sig) == Apply(st, a, sig)
  {
    ExecOneMore(st, [], a, sig);
    assert [] + [a] == [a];
  }

  lemma BesideOneRing(st: Store, a: Action, sig: Test, serial: string, r: Ring.State)
    requires RingsOk(st) && Valid(r) && RingsOk(WithRing(st, serial, r)) && serial in st.rings
    requires Bystander(a, serial) && !OnRing(a, serial)
    ensures serial in Apply(st, a, sig).rings && Apply(st, a, sig).rings[serial] == st.rings[serial]
    ensures Apply(WithRing(st, serial, r), a, sig).rings == Apply(st, a, sig).rings[serial := r]
  {
    match a
    case Emit(k, b) => if k in st.rings { TwoRings(st.rings, k, Pushed(st.rings[k], b), serial, r); }
    case BindRead(_, spec, c) => TwoRings(st.rings, spec.serial, RingFor(st, spec.serial, c), serial, r);
    case ClearRing(k) => if k in st.rings { TwoRings(st.rings, k, Cleared(st.rings[k]), serial, r); }
    case Resize(k, c) => TwoRings(st.rings, k, Resized(RingFor(st, k, c), c), serial, r);
    case _ =>
  }

  lemma TwoRings(rings: map<string, Ring.State>, k: string, q: Ring.State, serial: string, r: Ring.State)
    requires k != serial
    ensures rings[k := q][serial := r] == rings[serial := r][k := q]
  {
  }

  lemma BesideTheBook(st: Store, a: Action, sig: Test, serial: string, r: Ring.State)
    requires RingsOk(st) && RingsOk(WithRing(st, serial, r)) && serial in st.rings
    requires Bystander(a, serial) && !OnRing(a, serial)
    ensures Apply(WithRing(st, serial, r), a, sig).windows == Apply(st, a, sig).windows
    ensures Apply(WithRing(st, serial, r), a, sig).binds == Apply(st, a, sig).binds
  {
  }

  /** A bystander that does not touch the ring does not see it either. */
  lemma BesideRing(st: Store, a: Action, sig: Test, serial: string, r: Ring.State)
    requires RingsOk(st) && Valid(r) && serial in st.rings && Bystander(a, serial) && !OnRing(a, serial)
    ensures RingsOk(WithRing(st, serial, r)) && serial in Apply(st, a, sig).rings
    ensures Apply(WithRing(st, serial, r), a, sig) == WithRing(Apply(st, a, sig), serial, r)
    ensures Apply(st, a, sig).rings[serial] == st.rings[serial]
  {
    BesideOneRing(st, a, sig, serial, r);
    BesideTheBook(st, a, sig, serial, r);
    SameStore(Apply(WithRing(st, serial, r), a, sig), WithRing(Apply(st, a, sig), serial, r));
  }

  lemma SameStore(a: Store, b: Store)
    requires a.rings == b.rings && a.windows == b.windows && a.binds == b.binds
    ensures a == b
  {
  }

  lemma AtRing(st: Store, a: Action, sig: Test, serial: string)
    requires RingsOk(st) && serial in st.rings && OnRing(a, serial)
    ensures Apply(st, a, sig) == WithRing(st, serial, Turned(st.rings[serial], [a]))
  {
    assert [a][..0] == [];
  }

  lemma TurnedOneMore(r: Ring.State, run: seq<Action>, a: Action)
    ensures Turned(r, run + [a]) == Turned(Turned(r, run), [a])
  {
    assert (run + [a])[..|run|] == run && [a][..0] == [];
  }

  lemma OneMoreOnSides(run: seq<Action>, a: Action, serial: string)
    ensures RingSide(run + [a], serial) == if OnRing(a, serial) then RingSide(run, serial) + [a] else RingSide(run, serial)
    ensures BookSide(run + [a], serial) == if OnRing(a, serial) then BookSide(run, serial) else BookSide(run, serial) + [a]
  {
    assert (run + [a])[..|run|] == run;
    assert RingSide(run, serial) + [] == RingSide(run, serial) && BookSide(run, serial) + [] == BookSide(run, serial);
  }

  /** Having done `run`, the ring of `serial` is as its own side leaves it, and all else as the other. */
  ghost predicate Apart(st: Store, run: seq<Action>, sig: Test, serial: string, r: Ring.State)
    requires RingsOk(st) && serial in st.rings
  {
    RingsOk(WithRing(st, serial, r)) &&
    var u := ExecFrom(st, BookSide(run, serial), sig);
    && serial in u.rings && u.rings[serial] == st.rings[serial]
    && ExecFrom(WithRing(st, serial, r), run, sig) == WithRing(u, serial, Turned(r, RingSide(run, serial)))
  }

  lemma {:induction false} ApartOnRing(st: Store, run: seq<Action>, a: Action, sig: Test, serial: string, r: Ring.State)
    requires RingsOk(st) && serial in st.rings && Valid(r) && OnRing(a, serial) && Apart(st, run, sig, serial, r)
    ensures Apart(st, run + [a], sig, serial, r)
  {
    var v, turned := ExecFrom(WithRing(st, serial, r), run, sig), Turned(r, RingSide(run, serial));
    ExecOneMore(WithRing(st, serial, r), run, a, sig);
    AtRing(v, a, sig, serial);
    OneMoreOnSides(run, a, serial);
    TurnedOneMore(r, RingSide(run, serial), a);
    WithRingAgain(ExecFrom(st, BookSide(run, serial), sig), serial, turned, Turned(turned, [a]));
  }

  lemma WithRingAgain(u: Store, serial: string, r: Ring.State, q: Ring.State)
    ensures WithRing(WithRing(u, serial, r), serial, q) == WithRing(u, serial, q)
    ensures WithRing(u, serial, r).rings[serial] == r
  {
  }

  lemma {:induction false} ApartBeside(st: Store, run: seq<Action>, a: Action, sig: Test, serial: string, r: Ring.State)
    requires RingsOk(st) && serial in st.rings && Valid(r) && !OnRing(a, serial) && Bystander(a, serial)
    requires Apart(st, run, sig, serial, r)
    ensures Apart(st, run + [a], sig, serial, r)
  {
    var u, turned := ExecFrom(st, BookSide(run, serial), sig), Turned(r, RingSide(run, serial));
    TurnedValid(r, RingSide(run, serial));
    BesideRing(u, a, sig, serial, turned);
    ExecOneMore(WithRing(st, serial, r), run, a, sig);
    ExecOneMore(st, BookSide(run, serial), a, sig);
    OneMoreOnSides(run, a, serial);
  }

  /** Bystanders fall into two groups that do not get in each other's way. */
  lemma {:induction false} SidesAreApart(st: Store, run: seq<Action>, sig: Test, serial: string, r: Ring.State)
    requires RingsOk(st) && serial in st.rings && Valid(r)
    requires forall a :: a in run ==> Bystander(a, serial)
    ensures Apart(st, run, sig, serial, r)
    decreases |run|
  {
    if run != [] {
      var init, a := run[..|run| - 1], run[|run| - 1];
      assert init + [a] == run && a in run;
      SidesAreApart(st, init, sig, serial, r);
      if OnRing(a, serial) {
        ApartOnRing(st, init, a, sig, serial, r);
      } else {
        ApartBeside(st, init, a, sig, serial, r);
      }
    }
  }

  /** `ids` are still the windows of the serial that are to be offered the record. */
  ghost predicate StillPrepared(ws: map<nat, Window>, serial: string, b: Body, ids: seq<nat>) {
    forall id :: id in ws && ws[id].serial == serial ==> (id in ids <==> ws[id].filter(b))
  }

  lemma ApplyKeepsPrepared(st: Store, a: Action, sig: Test, serial: string, b: Body, ids: seq<nat>)
    requires RingsOk(st) && Bystander(a, serial) && StillPrepared(st.windows, serial, b, ids)
    ensures StillPrepared(Apply(st, a, sig).windows, serial, b, ids)
  {
  }

  lemma {:induction false} RunKeepsPrepared(st: Store, run: seq<Action>, sig: Test, serial: string, b: Body, ids: seq<nat>)
    requires RingsOk(st) && StillPrepared(st.windows, serial, b, ids)
    requires forall a :: a in run ==> Bystander(a, serial)
    ensures StillPrepared(ExecFrom(st, run, sig).windows, serial, b, ids)
    decreases |run|
  {
    if run != [] {
      var init, a := run[..|run| - 1], run[|run| - 1];
      RunKeepsPrepared(st, init, sig, serial, b, ids);
      assert a in run;
      ApplyKeepsPrepared(ExecFrom(st, init, sig), a, sig, serial, b, ids);
    }
  }

  lemma CommittedLater(ws: map<nat, Window>, serial: string, r: Ring.State, b: Body, sig: Test, ids: seq<nat>)
    requires Valid(r) && StillPrepared(ws, serial, b, ids)
    ensures Valid(Pushed(r, b))
    ensures Committed(ws, serial, r.next, Oldest(Pushed(r, b)), sig(b), ids) == FedBook(ws, serial, r, b, sig)
  {
    OperationsKeepValid(r, b, 0);
  }

  lemma {:induction false} BookSideBystands(run: seq<Action>, serial: string)
    requires forall a :: a in run ==> Bystander(a, serial)
    ensures forall a :: a in BookSide(run, serial) ==> Bystander(a, serial)
    decreases |run|
  {
    if run != [] {
      BookSideBystands(run[..|run| - 1], serial);
      assert run[|run| - 1] in run;
    }
  }

  lemma {:induction false} RingSideTurns(st: Store, run: seq<Action>, sig: Test, serial: string)
    requires RingsOk(st) && serial in st.rings
    ensures ExecFrom(st, RingSide(run, serial), sig)
         == WithRing(st, serial, Turned(st.rings[serial], RingSide(run, serial)))
    decreases |run|
  {
    if run == [] {
      assert WithRing(st, serial, st.rings[serial]) == st;
    } else {
      var init, a := run[..|run| - 1], run[|run| - 1];
      RingSideTurns(st, init, sig, serial);
      if OnRing(a, serial) {
        var before := RingSide(init, serial);
        ExecOneMore(st, before, a, sig);
        AtRing(ExecFrom(st, before, sig), a, sig, serial);
        TurnedOneMore(st.rings[serial], before, a);
      } else {
        assert RingSide(init, serial) + [] == RingSide(init, serial);
      }
    }
  }

  /** Filter, push and commit are three sections. Whatever bystanders do between the first two (`early`)
      and between the last two (`late`), the outcome is that of the emit in one piece: behind all they
      do except to the ring after the push. */
  lemma EmitIsAtomic(
    st: Store, serial: string, b: Body, early: seq<Action>, late: seq<Action>, ids: seq<nat>, sig: Test)
    requires RingsOk(st) && serial in st.rings && StillPrepared(st.windows, serial, b, ids)
    requires forall a :: a in early + late ==> Bystander(a, serial)
    ensures var pushing := ExecFrom(st, early, sig);
      && serial in pushing.rings
      && var r := pushing.rings[serial];
         && Valid(Pushed(r, b)) && RingsOk(WithRing(pushing, serial, Pushed(r, b)))
         && var committing := ExecFrom(WithRing(pushing, serial, Pushed(r, b)), late, sig);
            committing.(windows := Committed(
              committing.windows, serial, r.next, Oldest(Pushed(r, b)), sig(b), ids))
            == ExecFrom(st, early + BookSide(late, serial) + [Emit(serial, b)] + RingSide(late, serial), sig)
  {
    assert forall a :: a in early ==> a in early + late;
    assert forall a :: a in late ==> a in early + late;
    SidesAreApart(st, early, sig, serial, st.rings[serial]);
    assert WithRing(st, serial, st.rings[serial]) == st;
    var pushing := ExecFrom(st, early, sig);
    var r := pushing.rings[serial];
    OperationsKeepValid(r, b, 0);
    SidesAreApart(pushing, late, sig, serial, Pushed(r, b));
    var u := ExecFrom(pushing, BookSide(late, serial), sig);
    RunKeepsPrepared(st, early, sig, serial, b, ids);
    BookSideBystands(late, serial);
    RunKeepsPrepared(pushing, BookSide(late, serial), sig, serial, b, ids);
    CommittedLater(u.windows, serial, r, b, sig, ids);
    EmitInOnePiece(st, pushing, u, serial, b, early, late, sig);
  }

  lemma EmitValue(u: Store, serial: string, b: Body, sig: Test)
    requires RingsOk(u) && serial in u.rings
    ensures Valid(Pushed(u.rings[serial], b)) && RingsOk(Apply(u, Emit(serial, b), sig))
    ensures Apply(u, Emit(serial, b), sig)
         == WithRing(u, serial, Pushed(u.rings[serial], b)).(windows := FedBook(u.windows, serial, u.rings[serial], b, sig))
  {
    OperationsKeepValid(u.rings[serial], b, 0);
    ApplyKeepsRings(u, Emit(serial, b), sig);
  }

  lemma WithRingTwice(u: Store, ws: map<nat, Window>, serial: string, r: Ring.State, q: Ring.State)
    ensures WithRing(WithRing(u, serial, r).(windows := ws), serial, q) == WithRing(u, serial, q).(windows := ws)
  {
  }

  lemma {:induction false} EmitInOnePiece(
    st: Store, pushing: Store, u: Store, serial: string, b: Body, early: seq<Action>, late: seq<Action>, sig: Test)
    requires RingsOk(st) && pushing == ExecFrom(st, early, sig)
    requires RingsOk(pushing) && u == ExecFrom(pushing, BookSide(late, serial), sig)
    requires RingsOk(u) && serial in u.rings
    ensures Valid(Pushed(u.rings[serial], b))
    ensures ExecFrom(st, early + BookSide(late, serial) + [Emit(serial, b)] + RingSide(late, serial), sig)
         == WithRing(u, serial, Turned(Pushed(u.rings[serial], b), RingSide(late, serial)))
            .(windows := FedBook(u.windows, serial, u.rings[serial], b, sig))
  {
    var front, r := early + BookSide(late, serial), Pushed(u.rings[serial], b);
    var ws := FedBook(u.windows, serial, u.rings[serial], b, sig);
    EmitValue(u, serial, b, sig);
    var v := WithRing(u, serial, r).(windows := ws);
    ExecAppend(st, early, BookSide(late, serial), sig);
    ExecOneMore(st, front, Emit(serial, b), sig);
    ExecAppend(st, front + [Emit(serial, b)], RingSide(late, serial), sig);
    RingSideTurns(v, late, sig, serial);
    WithRingTwice(u, ws, serial, r, Turned(r, RingSide(late, serial)));
  }

  // ---------- a bind inside an emit ----------

  /** The window of a bind that enters the book between filter and commit of an emit to its serial; `late`
      if it read the ring behind the push. */
  function EnteredInside(
    ws: map<nat, Window>, spec: BindSpec, r: Ring.State, b: Body, sig: Test, ids: seq<nat>, late: bool
  ): Window
    requires Valid(r) && Valid(Pushed(r, b))
  {
    var u := Pushed(r, b);
    var entered := ws[spec.id := Bound(spec, if late then u.buf else r.buf, sig)];
    Committed(entered, spec.serial, r.next, Oldest(u), sig(b), ids)[spec.id]
  }

  /** The hit for the record, if the bind wants it, and if the commit adds it. */
  function OwnHit(spec: BindSpec, n: nat, b: Body, sig: Test): seq<Hit> {
    if Wants(spec.fromSeq, spec.filter, Record(n, b)) then [Hit(n, sig(b))] else []
  }

  function AddedHit(spec: BindSpec, n: nat, b: Body, sig: Test, ids: seq<nat>): seq<Hit> {
    if spec.id in ids && spec.fromSeq <= n then [Hit(n, sig(b))] else []
  }

  lemma IndexOfPushed(spec: BindSpec, r: Ring.State, b: Body, sig: Test)
    requires Valid(r) && Valid(Pushed(r, b))
    ensures Index(Pushed(r, b).buf, spec.fromSeq, spec.filter, sig)
         == DropBefore(Index(r.buf, spec.fromSeq, spec.filter, sig), Oldest(Pushed(r, b))) + OwnHit(spec, r.next, b, sig)
  {
    var w := Bound(spec, r.buf, sig);
    NoneMissed(r.buf);
    NoneMissed(Pushed(r, b).buf);
    PushedSplits(r, b, w, sig, NONE_MISSED);
    IndexOne(Record(r.next, b), w, sig, NONE_MISSED);
  }

  lemma NothingStale(spec: BindSpec, r: Ring.State, sig: Test)
    requires Valid(r)
    ensures var hits := Index(r.buf, spec.fromSeq, spec.filter, sig); DropBefore(hits, Oldest(r)) == hits
  {
    var w := Bound(spec, r.buf, sig);
    NoneMissed(r.buf);
    ExactTracks(w, r, sig, NONE_MISSED);
  }

  lemma EnteredHits(
    ws: map<nat, Window>, spec: BindSpec, r: Ring.State, b: Body, sig: Test, ids: seq<nat>, late: bool)
    requires Valid(r) && Valid(Pushed(r, b))
    ensures EnteredInside(ws, spec, r, b, sig, ids, late).hits
         == DropBefore(Index(if late then Pushed(r, b).buf else r.buf, spec.fromSeq, spec.filter, sig), Oldest(Pushed(r, b)))
            + AddedHit(spec, r.next, b, sig, ids)
  {
  }

  /** The window is the filtered ring if and only if the record lies below its range, or the commit adds it
      exactly when the bind wants it and has not read it itself. */
  lemma BindInsideEmitIff(
    ws: map<nat, Window>, spec: BindSpec, r: Ring.State, b: Body, sig: Test, ids: seq<nat>, late: bool)
    requires Valid(r)
    ensures Valid(Pushed(r, b))
    ensures EnteredInside(ws, spec, r, b, sig, ids, late).hits
            == Index(Pushed(r, b).buf, spec.fromSeq, spec.filter, sig)
            <==> r.next < spec.fromSeq || (spec.id in ids <==> !late && spec.filter(b))
  {
    OperationsKeepValid(r, b, 0);
    EnteredHits(ws, spec, r, b, sig, ids, late);
    IndexOfPushed(spec, r, b, sig);
    if late {
      NothingStale(spec, Pushed(r, b), sig);
    }
  }

  /** A window that is bound again with the same filter inside an emit, behind the push, has the record
      twice. */
  lemma RebindInsideEmitDoubles(
    ws: map<nat, Window>, spec: BindSpec, r: Ring.State, b: Body, sig: Test, ids: seq<nat>)
    requires Valid(r) && spec.fromSeq <= r.next && spec.filter(b)
    requires forall id :: id in ids <==> Prepares(ws, spec.serial, b, id)
    requires spec.id in ws && ws[spec.id].serial == spec.serial && ws[spec.id].filter == spec.filter
    ensures Valid(Pushed(r, b))
    ensures var hits := EnteredInside(ws, spec, r, b, sig, ids, true).hits;
      |hits| >= 2 && hits[|hits| - 1] == hits[|hits| - 2] == Hit(r.next, sig(b))
  {
    OperationsKeepValid(r, b, 0);
    assert Prepares(ws, spec.serial, b, spec.id);
    EnteredHits(ws, spec, r, b, sig, ids, true);
    IndexOfPushed(spec, r, b, sig);
    NothingStale(spec, Pushed(r, b), sig);
  }

  // ---------- counters ----------

  /** Every configured capacity is at most `c`. */
  ghost predicate CapacitiesWithin(run: seq<Action>, c: nat) {
    forall a :: a in run ==> CapacityWithin(a, c)
  }

  predicate CapacityWithin(a: Action, c: nat) {
    (a.BindRead? ==> a.capacity <= c) && (a.Resize? ==> a.capacity <= c)
  }

  ghost predicate CountersOk(st: Store) {
    && (forall k :: k in st.rings ==> st.rings[k].capacity <= U32_MAX)
    && (forall id :: id in st.windows ==> Counts(st.windows[id]))
    && (forall c :: c in st.binds ==> Counts(st.binds[c].window))
  }

  lemma ApplyKeepsCount(st: Store, a: Action, sig: Test, id: nat, blind: Blind)
    requires RingsOk(st) && RingsOk(Apply(st, a, sig)) && CountersOk(st) && CapacityWithin(a, U32_MAX)
    requires id in st.windows ==> Covers(st, id, sig, blind)
    requires id in Apply(st, a, sig).windows
    ensures Counts(Apply(st, a, sig).windows[id])
  {
    if a.Emit? && a.serial in st.rings && st.windows[id].serial == a.serial {
      FedCounts(st.windows[id], st.rings[a.serial], a.body, sig, blind);
    }
  }

  lemma ApplyKeepsCapacities(st: Store, a: Action, sig: Test)
    requires RingsOk(st) && RingsOk(Apply(st, a, sig)) && CountersOk(st) && CapacityWithin(a, U32_MAX)
    ensures var u := Apply(st, a, sig);
      && (forall k :: k in u.rings ==> u.rings[k].capacity <= U32_MAX)
      && (forall c :: c in u.binds ==> Counts(u.binds[c].window))
  {
    if a.BindRead? {
      BoundIsExact(a.spec, Apply(st, a, sig).rings[a.spec.serial], sig);
    }
  }

  /** With capacities within 32 bits every counter is right in every reachable state, stale prefix
      or not, records missed or not. */
  lemma {:induction false} CountersFollow(run: seq<Action>, sig: Test)
    requires CapacitiesWithin(run, U32_MAX)
    ensures CountersOk(Exec(run, sig))
  {
    if run != [] {
      var before, st, a := LastAction(run, sig);
      CountersFollow(before, sig);
      ApplyKeepsCapacities(st, a, sig);
      forall id | id in Apply(st, a, sig).windows
        ensures Counts(Apply(st, a, sig).windows[id])
      {
        if id in st.windows {
          RunCovers(before, sig, id);
        }
        ApplyKeepsCount(st, a, sig, id, BlindOf(before, sig, id));
      }
    }
  }

  const EVERYTHING: Test := b => true

  const WHOLE := BindSpec(0, "", EVERYTHING, 0, true, None)

  /** A window that wants everything, on a ring of capacity `c` that is given `n` times the same record. */
  function Flood(c: nat, b: Body, n: nat): seq<Action> {
    if n == 0 then [BindRead(0, WHOLE, c), BindInsert(0)] else Flood(c, b, n - 1) + [Emit("", b)]
  }

  /** `n` signals in window and ring, and a counter that stops at 2^32 - 1. */
  ghost predicate Flooded(st: Store, c: nat, n: nat) {
    && "" in st.rings && 0 in st.windows
    && RoomFor(st.rings[""], c, n) && AllHeld(st.windows[0], n)
  }

  predicate RoomFor(r: Ring.State, c: nat, n: nat) {
    |r.buf| == r.next == n && r.capacity == c
  }

  ghost predicate AllHeld(w: Window, n: nat) {
    && w.serial == "" && w.filter == EVERYTHING && w.fromSeq == 0
    && |w.hits| == n && (forall i :: 0 <= i < n ==> w.hits[i].signal)
    && w.signals == Min(n, U32_MAX)
  }

  lemma FedHolds(w: Window, r: Ring.State, b: Body, sig: Test, c: nat, n: nat)
    requires sig(b) && n < c && RoomFor(r, c, n) && AllHeld(w, n)
    ensures RoomFor(Pushed(r, b), c, n + 1) && AllHeld(Fed(w, r, b, sig), n + 1)
  {
    assert Evicted(w, 0) == w;
  }

  /** As long as the ring takes them all, every record is held as a signal. */
  lemma {:induction false} FloodSaturates(c: nat, b: Body, sig: Test, n: nat)
    requires sig(b) && n <= c && 1 <= c
    ensures CapacitiesWithin(Flood(c, b, n), c) && Flooded(Exec(Flood(c, b, n), sig), c, n)
  {
    var run := Flood(c, b, n);
    if n == 0 {
      var st := BoundStore(WHOLE, c, sig);
    } else {
      FloodSaturates(c, b, sig, n - 1);
      assert run[..|run| - 1] == Flood(c, b, n - 1);
      var st := Exec(Flood(c, b, n - 1), sig);
      FedHolds(st.windows[0], st.rings[""], b, sig, c, n - 1);
    }
  }

  ghost predicate CountersExact(st: Store) {
    forall id :: id in st.windows ==> st.windows[id].signals == SignalCount(st.windows[id].hits)
  }

  lemma FloodDrifts(c: nat, b: Body, sig: Test)
    requires sig(b) && c > U32_MAX
    ensures var run := Flood(c, b, U32_MAX + 1);
      CapacitiesWithin(run, c) && !CountersExact(Exec(run, sig))
  {
    FloodSaturates(c, b, sig, U32_MAX + 1);
    var st := Exec(Flood(c, b, U32_MAX + 1), sig);
    AllSignals(st.windows[0].hits);
  }

  /** Every window's counter is its signal count, in all runs with capacities up to `c`, exactly if
      `c` is within 32 bits. */
  lemma CountersExactIff(c: nat, sig: Test, b: Body)
    requires sig(b)
    ensures (forall run :: CapacitiesWithin(run, c) ==> CountersExact(Exec(run, sig))) <==> c <= U32_MAX
  {
    if c > U32_MAX {
      FloodDrifts(c, b, sig);
    } else {
      forall run | CapacitiesWithin(run, c) ensures CountersExact(Exec(run, sig)) {
        CountersFollow(run, sig);
      }
    }
  }

  /** In every reachable state a window's page shows its view, which for a detached window is exactly
      the hits up to `through`: the newest 2^32 - 1 of it, with the rest counted in 32 bits. */
  lemma ViewAlways(run: seq<Action>, sig: Test, id: nat)
    requires id in Exec(run, sig).windows
    ensures var st := Exec(run, sig); var w := st.windows[id];
      && w.serial in st.rings && ViewSplits(w)
      && ShowsView(PageOf(w, st.rings[w.serial].buf, None), w, st.rings[w.serial].buf)
  {
    RunCovers(run, sig, id);
    var st := Exec(run, sig);
    var w := st.windows[id];
    ViewPage(w, st.rings[w.serial].buf);
  }

  /** With capacities within 32 bits that is the whole view, and `pending` is the count of the rest. */
  lemma {:induction false} DetachedViewAlways(run: seq<Action>, sig: Test, id: nat)
    requires CapacitiesWithin(run, U32_MAX) && id in Exec(run, sig).windows
    ensures var st := Exec(run, sig); var w := st.windows[id];
      && w.serial in st.rings && ViewSplits(w)
      && var page := PageOf(w, st.rings[w.serial].buf, None);
         && page.lines == FindAll(st.rings[w.serial].buf, Numbers(w.hits[..ViewEnd(w)]))
         && page.pending == |w.hits| - ViewEnd(w)
  {
    ViewAlways(run, sig, id);
    CountersFollow(run, sig);
    WholeView(Exec(run, sig).windows[id]);
  }

  lemma WholeView(w: Window)
    requires |w.hits| <= U32_MAX
    ensures (|w.hits| - ViewEnd(w)) % (U32_MAX + 1) == |w.hits| - ViewEnd(w)
    ensures ViewEnd(w) == U32_MAX ==> ViewEnd(w) - U32_MAX == 0
  {
  }

  // ---------- feeding one record ----------

  /** `emit`: filter first, hand the record to the ring, then commit the hits under its number. */
  method EmitRecord(ring: RingBuffer, book: WindowBook, serial: string, b: Body) returns (notes: seq<Note>)
    requires Valid(ring.View())
    modifies ring, book
    ensures ring.View() == Pushed(old(ring.View()), b)
    ensures book.windows == FedBook(old(book.windows), serial, old(ring.View()), b, book.isSignal)
    ensures forall note :: note in notes ==>
      && note.window in book.windows
      && note.total == |book.windows[note.window].hits|
      && note.signals == book.windows[note.window].signals
      && note.line == Some(Record(old(ring.next), b))
    ensures forall id :: id in old(book.windows) && old(book.windows)[id].serial == serial
                         && Wants(old(book.windows)[id].fromSeq, old(book.windows)[id].filter,
                                  Record(old(ring.next), b)) ==>
      exists note :: note in notes && note.window == id
  {
    ghost var r, ws := ring.View(), book.windows;
    var signal, ids := book.Prepare(serial, b);
    OperationsKeepValid(r, b, 0);
    var n, oldest := ring.Push(b);
    var wire: Option<Record> := None;
    if ids != [] {
      var lines := ring.LinesBySeq([n]);
      PushedIsFound(r, b);
      wire := Some(lines[0]);
    }
    notes := book.Commit(serial, n, oldest, signal, ids, wire);
    CommittedIsFed(ws, serial, r, b, book.isSignal, ids);
    NotesReport(EvictedBook(ws, serial, oldest), serial, n, signal, ids, wire, ids);
    NotesReach(EvictedBook(ws, serial, oldest), serial, n, signal, ids, wire);
    forall id | Prepares(ws, serial, b, id) && ws[id].fromSeq <= n
      ensures exists note :: note in notes && note.window == id
    {
      assert id in ids && Takes(EvictedBook(ws, serial, oldest)[id], serial, n);
    }
  }

  lemma CommittedIsFed(
    ws: map<nat, Window>, serial: string, r: Ring.State, b: Body, sig: Test, ids: seq<nat>)
    requires Valid(r) && forall id :: id in ids <==> Prepares(ws, serial, b, id)
    ensures Valid(Pushed(r, b))
    ensures Committed(ws, serial, r.next, Oldest(Pushed(r, b)), sig(b), ids) == FedBook(ws, serial, r, b, sig)
  {
  }

  lemma PushedIsFound(r: Ring.State, b: Body)
    requires Valid(r)
    ensures FindAll(Pushed(r, b).buf, [r.next]) == [Record(r.next, b)]
  {
    OperationsKeepValid(r, b, 0);
    FindByOffset(Pushed(r, b), r.next, 0);
    assert Pushed(r, b).buf[0..] == Pushed(r, b).buf && [r.next][1..] == [];
  }

  lemma {:induction false} NotesReport(
    ws: map<nat, Window>, serial: string, n: nat, signal: bool, ids: seq<nat>, wire: Option<Record>,
    all: seq<nat>)
    requires ids <= all && Distinct(all)
    ensures var notes := Notes(ws, serial, n, signal, ids, wire);
      && (notes != [] ==> ids != [])
      && forall note :: note in notes ==>
        && note.window in ws && note.line == wire
        && var w := Appended(ws, serial, n, signal, all)[note.window];
           note.total == |w.hits| && note.signals == w.signals
  {
    if ids != [] {
      var rest, last := ids[..|ids| - 1], ids[|ids| - 1];
      NotesReport(ws, serial, n, signal, rest, wire, all);
      assert last in all && ids == rest + [last];
    }
  }

  lemma {:induction false} NotesReach(
    ws: map<nat, Window>, serial: string, n: nat, signal: bool, ids: seq<nat>, wire: Option<Record>)
    ensures forall id :: id in ids && id in ws && Takes(ws[id], serial, n) ==>
      exists note :: note in Notes(ws, serial, n, signal, ids, wire) && note.window == id
  {
    if ids != [] {
      var rest, last := ids[..|ids| - 1], ids[|ids| - 1];
      NotesReach(ws, serial, n, signal, rest, wire);
      assert ids == rest + [last];
      var notes := Notes(ws, serial, n, signal, ids, wire);
      if last in ws && Takes(ws[last], serial, n) {
        assert notes[|notes| - 1] in notes && notes[|notes| - 1].window == last;
      }
    }
  }
}
