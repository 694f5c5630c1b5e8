/** Following a device log across worker restarts.

    A restarted worker asks the device for everything from the last wall clock on, that moment
    included, and leaves out what the ring already holds at that moment. */
module Follow {

  import opened Options
  import opened Order
  import opened Ring
  import opened Windows
  import opened IndexRuns

  datatype FollowEnd = Cancelled | Offline | Exited(code: int) | Error

  /** Only a worker's own exit or error restarts the stream. */
  predicate Resumes(end: FollowEnd) {
    end.Exited? || end.Error?
  }

  predicate SkipResume(skip: ResumeSkip, b: Body) {
    || Less(b.ts, skip.ts)
    || (b.ts == skip.ts && IdentityOf(b) in skip.identities)
  }

  /** What is left of the skip set once a record has been looked at. */
  function SkipAfter(skip: Option<ResumeSkip>, b: Body): Option<ResumeSkip> {
    if skip.Some? && !SkipResume(skip.value, b) && b.ts != skip.value.ts then None else skip
  }

  predicate Admits(skip: Option<ResumeSkip>, b: Body) {
    skip.None? || !SkipResume(skip.value, b)
  }

  function SkipFor(r: Ring.State, resume: bool): Option<ResumeSkip> {
    if resume then SkipOf(r.buf) else None
  }

  // ---------- as actions on ring and windows ----------

  /** What other calls do to ring and windows of the serial while its log is followed. */
  datatype Other = EmptyRing | EmptyWindows | SetCapacity(capacity: nat)

  function ActionOf(serial: string, other: Other): Action {
    match other
    case EmptyRing => ClearRing(serial)
    case EmptyWindows => ClearWindows(serial)
    case SetCapacity(c) => Resize(serial, c)
  }

  function OtherActions(serial: string, others: seq<Other>): seq<Action> {
    seq(|others|, i requires 0 <= i < |others| => ActionOf(serial, others[i]))
  }

  function Next(between: seq<seq<Other>>): seq<Other> {
    if between == [] then [] else between[0]
  }

  function Later(between: seq<seq<Other>>): seq<seq<Other>> {
    if between == [] then [] else between[1..]
  }

  function EmitIf(serial: string, skip: Option<ResumeSkip>, b: Body): seq<Action> {
    if Admits(skip, b) then [Emit(serial, b)] else []
  }

  /** A stream of records with what others do before each of them and behind the last: what is
      admitted is emitted. */
  function WorkerActions(
    serial: string, skip: Option<ResumeSkip>, lines: seq<Body>, between: seq<seq<Other>>): seq<Action>
    decreases |lines|
  {
    OtherActions(serial, Next(between))
    + if lines == [] then []
      else EmitIf(serial, skip, lines[0])
           + WorkerActions(serial, SkipAfter(skip, lines[0]), lines[1..], Later(between))
  }

  /** `lines` is what a worker's stream delivered before it ended, `between` what others did meanwhile. */
  datatype Worker = Worker(lines: seq<Body>, between: seq<seq<Other>>, end: FollowEnd)

  function OwnActions(serial: string, r: Ring.State, w: Worker, resume: bool): seq<Action> {
    WorkerActions(serial, SkipFor(r, resume), w.lines, w.between)
  }

  /** Workers are restarted as long as they end by themselves, each with the skip set of the ring as
      it then is. */
  function SupervisedActions(serial: string, r: Ring.State, workers: seq<Worker>, resume: bool): seq<Action>
    decreases |workers|
  {
    if workers == [] then []
    else
      var own := OwnActions(serial, r, workers[0], resume);
      own + if Resumes(workers[0].end) then SupervisedActions(serial, Turned(r, own), workers[1..], true) else []
  }

  lemma {:induction false} WorkerStaysOnSerial(
    serial: string, skip: Option<ResumeSkip>, lines: seq<Body>, between: seq<seq<Other>>)
    ensures forall a :: a in WorkerActions(serial, skip, lines, between) ==> OfSerial(a, serial)
    decreases |lines|
  {
    if lines != [] {
      WorkerStaysOnSerial(serial, SkipAfter(skip, lines[0]), lines[1..], Later(between));
    }
  }

  // ---------- the methods ----------

  /** Ring and windows as they are. */
  ghost function StoreOf(serial: string, r: Ring.State, ws: map<nat, Window>): (st: Store)
    requires Valid(r)
    ensures RingsOk(st)
  {
    Store(map[serial := r], ws, map[])
  }

  method AdmitLine(
    skip: Option<ResumeSkip>, ring: RingBuffer, book: WindowBook, serial: string, b: Body
  ) returns (skip': Option<ResumeSkip>)
    requires Valid(ring.View())
    modifies ring, book
    ensures Valid(ring.View()) && skip' == SkipAfter(skip, b)
    ensures ring.View() == if Admits(skip, b) then Pushed(old(ring.View()), b) else old(ring.View())
    ensures book.windows == if Admits(skip, b)
                            then FedBook(old(book.windows), serial, old(ring.View()), b, book.isSignal)
                            else old(book.windows)
  {
    skip' := skip;
    if skip.Some? && SkipResume(skip.value, b) {
      return;
    }
    if skip.Some? && b.ts != skip.value.ts {
      skip' := None;
    }
    OperationsKeepValid(ring.View(), b, 0);
    var _ := EmitRecord(ring, book, serial, b);
  }

  lemma AdmittedIsEmitted(serial: string, r: Ring.State, ws: map<nat, Window>, skip: Option<ResumeSkip>, b: Body, sig: Windows.Test)
    requires Valid(r)
    ensures Valid(Pushed(r, b))
    ensures ExecFrom(StoreOf(serial, r, ws), EmitIf(serial, skip, b), sig) ==
            if Admits(skip, b) then StoreOf(serial, Pushed(r, b), FedBook(ws, serial, r, b, sig))
            else StoreOf(serial, r, ws)
  {
    OperationsKeepValid(r, b, 0);
    ExecOne(StoreOf(serial, r, ws), Emit(serial, b), sig);
    assert map[serial := r][serial := Pushed(r, b)] == map[serial := Pushed(r, b)];
  }

  /** What another call does, one section at a time. */
  method LetOther(ring: RingBuffer, book: WindowBook, serial: string, other: Other)
    requires Valid(ring.View())
    modifies ring, book
    ensures Valid(ring.View())
    ensures StoreOf(serial, ring.View(), book.windows) ==
            Apply(StoreOf(serial, old(ring.View()), old(book.windows)), ActionOf(serial, other), book.isSignal)
  {
    ghost var r := ring.View();
    match other {
      case EmptyRing =>
        OperationsKeepValid(r, Body("", 0, 0, None, None, ' ', "", ""), 0);
        ring.Clear();
      case EmptyWindows =>
        book.ClearSerial(serial);
      case SetCapacity(c) =>
        OperationsKeepValid(r, Body("", 0, 0, None, None, ' ', "", ""), c);
        ring.SetCapacity(c);
    }
    assert map[serial := r][serial := ring.View()] == map[serial := ring.View()];
  }

  method LetOthers(ring: RingBuffer, book: WindowBook, serial: string, others: seq<Other>)
    requires Valid(ring.View())
    modifies ring, book
    ensures Valid(ring.View())
    ensures StoreOf(serial, ring.View(), book.windows) ==
            ExecFrom(StoreOf(serial, old(ring.View()), old(book.windows)), OtherActions(serial, others), book.isSignal)
  {
    assert OtherActions(serial, others[..0]) == [];
    for i := 0 to |others|
      invariant Valid(ring.View())
      invariant StoreOf(serial, ring.View(), book.windows) ==
                ExecFrom(StoreOf(serial, old(ring.View()), old(book.windows)), OtherActions(serial, others[..i]), book.isSignal)
    {
      ExecOneMore(StoreOf(serial, old(ring.View()), old(book.windows)), OtherActions(serial, others[..i]),
                  ActionOf(serial, others[i]), book.isSignal);
      assert OtherActions(serial, others[..i]) + [ActionOf(serial, others[i])] == OtherActions(serial, others[..i + 1]);
      LetOther(ring, book, serial, others[i]);
    }
    assert others[..|others|] == others;
  }

  function Remaining(between: seq<seq<Other>>, i: nat): seq<seq<Other>> {
    if i < |between| then between[i..] else []
  }

  lemma RemainingStep(between: seq<seq<Other>>, i: nat)
    ensures Next(Remaining(between, i)) == if i < |between| then between[i] else []
    ensures Later(Remaining(between, i)) == Remaining(between, i + 1)
  {
  }

  /** What others do, then the next record of the stream. */
  method FollowNext(
    skip: Option<ResumeSkip>, ring: RingBuffer, book: WindowBook, serial: string, others: seq<Other>, b: Body
  ) returns (skip': Option<ResumeSkip>)
    requires Valid(ring.View())
    modifies ring, book
    ensures Valid(ring.View()) && skip' == SkipAfter(skip, b)
    ensures StoreOf(serial, ring.View(), book.windows) ==
            ExecFrom(ExecFrom(StoreOf(serial, old(ring.View()), old(book.windows)),
                              OtherActions(serial, others), book.isSignal),
                     EmitIf(serial, skip, b), book.isSignal)
  {
    LetOthers(ring, book, serial, others);
    AdmittedIsEmitted(serial, ring.View(), book.windows, skip, b, book.isSignal);
    skip' := AdmitLine(skip, ring, book, serial, b);
  }

  /** The next record and what others do before it. */
  lemma WorkerStep(st: Store, serial: string, skip: Option<ResumeSkip>, lines: seq<Body>, between: seq<seq<Other>>, sig: Windows.Test)
    requires RingsOk(st) && lines != []
    ensures ExecFrom(st, WorkerActions(serial, skip, lines, between), sig) ==
            ExecFrom(ExecFrom(ExecFrom(st, OtherActions(serial, Next(between)), sig), EmitIf(serial, skip, lines[0]), sig),
                     WorkerActions(serial, SkipAfter(skip, lines[0]), lines[1..], Later(between)), sig)
  {
    var others, own := OtherActions(serial, Next(between)), EmitIf(serial, skip, lines[0]);
    var rest := WorkerActions(serial, SkipAfter(skip, lines[0]), lines[1..], Later(between));
    ExecAppend(st, others, own + rest, sig);
    ExecAppend(ExecFrom(st, others, sig), own, rest, sig);
  }

  /** One worker, with what others do to ring and windows in between. */
  method RunFollow(ring: RingBuffer, book: WindowBook, serial: string, worker: Worker, resume: bool)
    requires Valid(ring.View())
    modifies ring, book
    ensures Valid(ring.View())
    ensures StoreOf(serial, ring.View(), book.windows) ==
            ExecFrom(StoreOf(serial, old(ring.View()), old(book.windows)),
                     OwnActions(serial, old(ring.View()), worker, resume), book.isSignal)
  {
    var lines, between, skip := worker.lines, worker.between, None;
    if resume {
      skip := ring.Resume();
    }
    ghost var end := ExecFrom(StoreOf(serial, ring.View(), book.windows),
                              OwnActions(serial, ring.View(), worker, resume), book.isSignal);
    assert lines[0..] == lines && Remaining(between, 0) == between;
    for i := 0 to |lines|
      invariant Valid(ring.View())
      invariant end == ExecFrom(StoreOf(serial, ring.View(), book.windows),
                                WorkerActions(serial, skip, lines[i..], Remaining(between, i)), book.isSignal)
    {
      assert lines[i..][1..] == lines[i + 1..] && lines[i..][0] == lines[i];
      RemainingStep(between, i);
      WorkerStep(StoreOf(serial, ring.View(), book.windows), serial, skip, lines[i..], Remaining(between, i), book.isSignal);
      skip := FollowNext(skip, ring, book, serial, if i < |between| then between[i] else [], lines[i]);
    }
    var last := if |lines| < |between| then between[|lines|] else [];
    RemainingStep(between, |lines|);
    LastActions(serial, skip, Remaining(between, |lines|));
    LetOthers(ring, book, serial, last);
  }

  lemma LastActions(serial: string, skip: Option<ResumeSkip>, between: seq<seq<Other>>)
    ensures WorkerActions(serial, skip, [], between) == OtherActions(serial, Next(between))
  {
  }

  /** The first worker, and what is left to the others. */
  lemma SupervisedStep(serial: string, r: Ring.State, ws: map<nat, Window>, workers: seq<Worker>, resume: bool, sig: Windows.Test)
    requires Valid(r) && workers != []
    ensures var own := OwnActions(serial, r, workers[0], resume);
      var u := ExecFrom(StoreOf(serial, r, ws), own, sig);
      && serial in u.rings && u.rings[serial] == Turned(r, own)
      && ExecFrom(StoreOf(serial, r, ws), SupervisedActions(serial, r, workers, resume), sig) ==
         if Resumes(workers[0].end)
         then ExecFrom(u, SupervisedActions(serial, Turned(r, own), workers[1..], true), sig)
         else u
  {
    var own := OwnActions(serial, r, workers[0], resume);
    WorkerStaysOnSerial(serial, SkipFor(r, resume), workers[0].lines, workers[0].between);
    RingIsTurned(StoreOf(serial, r, ws), own, sig, serial);
    if Resumes(workers[0].end) {
      ExecAppend(StoreOf(serial, r, ws), own, SupervisedActions(serial, Turned(r, own), workers[1..], true), sig);
    } else {
      assert own + [] == own;
    }
  }

  /** The supervisor restarts workers as long as they end by themselves. `workers` is what the
      device, the process and other calls did, in order. */
  method Supervise(ring: RingBuffer, book: WindowBook, serial: string, workers: seq<Worker>)
    requires Valid(ring.View())
    modifies ring, book
    ensures Valid(ring.View())
    ensures StoreOf(serial, ring.View(), book.windows) ==
            ExecFrom(StoreOf(serial, old(ring.View()), old(book.windows)),
                     SupervisedActions(serial, old(ring.View()), workers, false), book.isSignal)
  {
    var resume := false;
    var i := 0;
    ghost var end := ExecFrom(StoreOf(serial, ring.View(), book.windows),
                              SupervisedActions(serial, ring.View(), workers, false), book.isSignal);
    assert workers[0..] == workers;
    while i < |workers|
      invariant i <= |workers| && Valid(ring.View())
      invariant end == ExecFrom(StoreOf(serial, ring.View(), book.windows),
                                SupervisedActions(serial, ring.View(), workers[i..], resume), book.isSignal)
    {
      assert workers[i..][1..] == workers[i + 1..];
      SupervisedStep(serial, ring.View(), book.windows, workers[i..], resume, book.isSignal);
      RunFollow(ring, book, serial, workers[i], resume);
      if !Resumes(workers[i].end) {
        return;
      }
      resume := true;
      i := i + 1;
    }
  }
}
