/** Browsing sessions: one table of slots, and a lock of its own for every slot. */
module Browse {

  import opened Options

  /** A live session holds its shell, unless a listing has taken it or there is none; a device that cannot
      hold a shell open is asked in single commands. Shells are numbered as they are opened. */
  datatype Inner = Closed | Starting(generation: nat) | Live(generation: nat, worker: Option<nat>, oneshot: bool)

  /** A slot object with the serial and the generation it was made for. */
  datatype Slot = Slot(serial: string, born: nat, inner: Inner)

  /** The table names slot objects by their position. `closing` are the slots that a call has taken
      out of the table and has yet to close; `owing` counts the calls that have yet to notify;
      `epoch` counts the notifications; asleep are the waiters, each with the slot it waits for and
      the epoch in which it registered. `held` are the shells in the hands of a call, `gone` those that
      were let go. */
  datatype Browser = Browser(
    table: map<string, nat>, slots: seq<Slot>, next: nat,
    closing: set<nat>, owing: nat, epoch: nat, asleep: set<(nat, nat)>,
    made: nat, held: set<nat>, gone: set<nat>)

  const EMPTY := Browser(map[], [], 0, {}, 0, 0, {}, 0, {}, {})

  ghost predicate TableOk(b: Browser) {
    && (forall s :: s in b.table ==> b.table[s] < |b.slots| && b.slots[b.table[s]].serial == s)
    && (forall id :: id in b.closing ==> id < |b.slots| && !InTable(b, id))
  }

  predicate InTable(b: Browser, id: nat) {
    id < |b.slots| && b.slots[id].serial in b.table && b.table[b.slots[id].serial] == id
  }

  // ---------- one lock section each ----------

  /** The session of a serial: the table's slot, unless it is closed. */
  function Current(b: Browser, serial: string): Option<Inner> {
    if serial in b.table && b.table[serial] < |b.slots| && !b.slots[b.table[serial]].inner.Closed?
    then Some(b.slots[b.table[serial]].inner)
    else None
  }

  function WithInner(b: Browser, id: nat, inner: Inner): Browser
    requires id < |b.slots|
  {
    b.(slots := b.slots[id := b.slots[id].(inner := inner)])
  }

  datatype Begun = Adopt(generation: nat) | Wait | New(generation: nat)

  function BeginAttach(b: Browser, serial: string): (Browser, Begun) {
    match Current(b, serial)
    case Some(Live(g, _, _)) => (b, Adopt(g))
    case Some(_) => (b, Wait)
    case None =>
      var g := b.next + 1;
      (b.(slots := b.slots + [Slot(serial, g, Starting(g))], table := b.table[serial := |b.slots|],
          next := g, epoch := b.epoch + 1),
       New(g))
  }

  function AsSet(shell: Option<nat>): set<nat> {
    if shell.Some? then {shell.value} else {}
  }

  /** The shell that a slot holds. */
  function ShellOf(inner: Inner): Option<nat> {
    if inner.Live? then inner.worker else None
  }

  /** The shell comes out of the hands of the call: into the session, or it is let go. */
  function PublishLive(b: Browser, serial: string, generation: nat, worker: Option<nat>, oneshot: bool): (Browser, bool) {
    var c := b.(held := b.held - AsSet(worker));
    if Current(b, serial) == Some(Starting(generation)) then
      (WithInner(c, b.table[serial], Live(generation, worker, oneshot)).(owing := b.owing + 1), true)
    else (c.(gone := b.gone + AsSet(worker)), false)
  }

  /** The first half of giving up a start: the slot was looked up before. */
  function AbandonMark(b: Browser, id: nat, generation: nat): (Browser, bool) {
    if id < |b.slots| && b.slots[id].inner == Starting(generation) then
      (WithInner(b, id, Closed).(owing := b.owing + 1), true)
    else (b, false)
  }

  /** The second half: whatever closed slot the table has now goes. */
  function AbandonRemove(b: Browser, serial: string): Browser {
    if serial in b.table && b.table[serial] < |b.slots| && b.slots[b.table[serial]].inner.Closed? then
      b.(table := b.table - {serial})
    else b
  }

  function GenerationOf(inner: Inner): Option<nat> {
    match inner
    case Closed => None
    case Starting(g) => Some(g)
    case Live(g, _, _) => Some(g)
  }

  /** Generation `g` is the session of the serial. */
  predicate SessionIs(b: Browser, serial: string, g: nat) {
    Current(b, serial).Some? && (Current(b, serial).value == Starting(g)
                                 || (Current(b, serial).value.Live? && Current(b, serial).value.generation == g))
  }

  function SlotGeneration(b: Browser, serial: string): Option<nat> {
    match Current(b, serial)
    case None => None
    case Some(inner) => GenerationOf(inner)
  }

  function Taken(b: Browser, serial: string): Browser
    requires serial in b.table
  {
    b.(table := b.table - {serial}, closing := b.closing + {b.table[serial]}, owing := b.owing + 1)
  }

  function ReleaseTake(b: Browser, serial: string, generation: nat): (Browser, bool) {
    if SlotGeneration(b, serial) == Some(generation) then (Taken(b, serial), true) else (b, false)
  }

  function DetachTake(b: Browser, serial: string): Browser {
    if serial in b.table then Taken(b, serial) else b.(owing := b.owing + 1)
  }

  function CloseSlot(b: Browser, id: nat): Browser {
    if id in b.closing && id < |b.slots|
    then WithInner(b, id, Closed).(closing := b.closing - {id}, gone := b.gone + AsSet(ShellOf(b.slots[id].inner)))
    else b
  }

  predicate UsesShells(b: Browser, id: nat, generation: nat) {
    id < |b.slots| && b.slots[id].inner.Live? && b.slots[id].inner.generation == generation && !b.slots[id].inner.oneshot
  }

  /** A call opens a shell of its own. */
  function OpenShell(b: Browser): Browser {
    b.(made := b.made + 1, held := b.held + {b.made})
  }

  /** The shell goes back into its session, in the place of another, or is let go. */
  function RestoreWorker(b: Browser, id: nat, generation: nat, shell: nat): Browser {
    var c := b.(held := b.held - {shell});
    if UsesShells(b, id, generation)
    then WithInner(c, id, Live(generation, Some(shell), false)).(gone := b.gone + AsSet(b.slots[id].inner.worker))
    else c.(gone := b.gone + {shell})
  }

  function MarkOneshot(b: Browser, id: nat, generation: nat): Browser {
    if id < |b.slots| && b.slots[id].inner.Live? && b.slots[id].inner.generation == generation
    then WithInner(b, id, Live(generation, None, true)).(gone := b.gone + AsSet(b.slots[id].inner.worker))
    else b
  }

  function TakeWorker(b: Browser, id: nat, generation: nat): Browser {
    if UsesShells(b, id, generation)
    then WithInner(b, id, Live(generation, None, false)).(held := b.held + AsSet(b.slots[id].inner.worker))
    else b
  }

  function DropWorker(b: Browser, id: nat): Browser {
    if id < |b.slots| && b.slots[id].inner.Live?
    then WithInner(b, id, Live(b.slots[id].inner.generation, None, false)).(gone := b.gone + AsSet(b.slots[id].inner.worker))
    else b
  }

  class SessionTable {
    var table: map<string, nat>
    var slots: seq<Slot>
    var next: nat
    var epoch: nat
    ghost var closing: set<nat>
    ghost var owing: nat
    ghost var asleep: set<(nat, nat)>
    ghost var made: nat
    ghost var held: set<nat>
    ghost var gone: set<nat>

    ghost function View(): Browser
      reads this
    {
      Browser(table, slots, next, closing, owing, epoch, asleep, made, held, gone)
    }

    constructor ()
      ensures View() == EMPTY
    {
      table, slots, next, epoch, closing, owing, asleep := map[], [], 0, 0, {}, 0, {};
      made, held, gone := 0, {}, {};
    }

    method Begin(serial: string) returns (r: Begun)
      requires TableOk(View())
      modifies this
      ensures (View(), r) == BeginAttach(old(View()), serial)
      ensures match r
        case Adopt(g) => View() == old(View()) && SessionIs(View(), serial, g) && Current(View(), serial).value.Live?
        case Wait => View() == old(View()) && Current(View(), serial).Some? && Current(View(), serial).value.Starting?
        case New(g) =>
          && Current(old(View()), serial).None? && g == next == old(next) + 1 && epoch == old(epoch) + 1
          && Current(View(), serial) == Some(Starting(g)) && table - {serial} == old(table) - {serial}
          && slots[..|old(slots)|] == old(slots) && table[serial] == |old(slots)|
    {
      if serial in table {
        match slots[table[serial]].inner {
          case Live(g, _, _) => return Adopt(g);
          case Starting(_) => return Wait;
          case Closed =>
        }
      }
      next := next + 1;
      slots := slots + [Slot(serial, next, Starting(next))];
      table := table[serial := |slots| - 1];
      epoch := epoch + 1;
      r := New(next);
    }

    method Publish(serial: string, generation: nat, worker: Option<nat>, oneshot: bool) returns (ok: bool)
      requires TableOk(View())
      modifies this
      ensures (View(), ok) == PublishLive(old(View()), serial, generation, worker, oneshot)
      ensures ok <==> Current(old(View()), serial) == Some(Starting(generation))
      ensures ok ==> Current(View(), serial) == Some(Live(generation, worker, oneshot))
      ensures !ok ==> slots == old(slots)
      ensures table == old(table) && forall s :: s != serial ==> Current(View(), s) == Current(old(View()), s)
    {
      ok := serial in table && slots[table[serial]].inner == Starting(generation);
      held := held - AsSet(worker);
      if ok {
        var id := table[serial];
        slots := slots[id := slots[id].(inner := Live(generation, worker, oneshot))];
        owing := owing + 1;
      } else {
        gone := gone + AsSet(worker);
      }
    }

    /** A whole release, when no other call comes between its steps. */
    method Release(serial: string, generation: nat) returns (ok: bool)
      requires TableOk(View())
      modifies this
      ensures ok == (SlotGeneration(old(View()), serial) == Some(generation))
      ensures !ok ==> View() == old(View())
      ensures ok ==> serial !in table && epoch == old(epoch) + 1
      ensures ok ==> |slots| == |old(slots)| && slots[old(table)[serial]].inner.Closed?
      ensures ok ==> owing == old(owing) && closing == old(closing)
      ensures ok ==> gone == old(gone) + AsSet(ShellOf(old(slots)[old(table)[serial]].inner)) && held == old(held)
      ensures forall s :: s != serial ==> Current(View(), s) == Current(old(View()), s)
    {
      ok := false;
      if serial !in table {
        return;
      }
      var id := table[serial];
      match slots[id].inner {
        case Closed => return;
        case Starting(g) =>
          if g != generation { return; }
        case Live(g, _, _) =>
          if g != generation { return; }
      }
      table := table - {serial};
      gone := gone + AsSet(ShellOf(slots[id].inner));
      slots := slots[id := slots[id].(inner := Closed)];
      epoch := epoch + 1;
      ok := true;
    }

    /** A whole abandoned start, when no other call comes between its steps. */
    method Abandon(serial: string, generation: nat)
      requires TableOk(View())
      modifies this
      ensures Current(old(View()), serial) == Some(Starting(generation)) ==>
        serial !in table && |slots| == |old(slots)| && slots[old(table)[serial]].inner.Closed?
      ensures old(serial in table && slots[table[serial]].inner != Starting(generation)) ==>
        table == old(table) && slots == old(slots)
      ensures epoch == old(epoch) + if serial in old(table) then 1 else 0
      ensures serial !in old(table) ==> View() == old(View())
      ensures owing == old(owing) && closing == old(closing)
      ensures forall s :: s != serial ==> Current(View(), s) == Current(old(View()), s)
    {
      if serial !in table {
        return;
      }
      var id := table[serial];
      var remove := slots[id].inner == Starting(generation);
      if remove {
        slots := slots[id := slots[id].(inner := Closed)];
      }
      if remove {
        if serial in table && slots[table[serial]].inner.Closed? {
          table := table - {serial};
        }
      }
      epoch := epoch + 1;
    }
  }

  // ---------- steps and runs ----------

  datatype Step =
    | BeginStep(serial: string)
    | PublishStep(serial: string, generation: nat, worker: Option<nat>)
    | MarkStep(id: nat, generation: nat)
    | RemoveStep(serial: string)
    | ReleaseStep(serial: string, generation: nat)
    | DetachStep(serial: string)
    | CloseStep(id: nat)
    | OpenStep
    | LetGoStep(shell: nat)
    | RestoreStep(id: nat, generation: nat, shell: nat)
    | OneshotStep(id: nat, generation: nat)
    | TakeStep(id: nat, generation: nat)
    | DropStep(id: nat)
    | NotifyStep
    | NeedlessNotifyStep
    | SleepStep(id: nat, registered: nat)

  /** A waiter registers first, then looks at the slot and sleeps if it is starting. A call that has
      a slot to close notifies only after that; one that was refused notifies needlessly. An attach publishes the shell it has opened, or none and
      the mark of a device that is asked in single commands; nobody hands on a shell that he has not. */
  function Next(b: Browser, step: Step): Browser {
    match step
    case BeginStep(serial) => BeginAttach(b, serial).0
    case PublishStep(serial, g, worker) =>
      if AsSet(worker) <= b.held then PublishLive(b, serial, g, worker, worker.None?).0 else b
    case MarkStep(id, g) => AbandonMark(b, id, g).0
    case RemoveStep(serial) => AbandonRemove(b, serial)
    case ReleaseStep(serial, g) => ReleaseTake(b, serial, g).0
    case DetachStep(serial) => DetachTake(b, serial)
    case CloseStep(id) => CloseSlot(b, id)
    case OpenStep => OpenShell(b)
    case LetGoStep(shell) => if shell in b.held then b.(held := b.held - {shell}, gone := b.gone + {shell}) else b
    case RestoreStep(id, g, shell) => if shell in b.held then RestoreWorker(b, id, g, shell) else b
    case OneshotStep(id, g) => MarkOneshot(b, id, g)
    case TakeStep(id, g) => TakeWorker(b, id, g)
    case DropStep(id) => DropWorker(b, id)
    case NotifyStep => if b.owing > |b.closing| then b.(owing := b.owing - 1, epoch := b.epoch + 1) else b
    case NeedlessNotifyStep => b.(epoch := b.epoch + 1)
    case SleepStep(id, e) =>
      if id < |b.slots| && b.slots[id].inner.Starting? && e <= b.epoch then b.(asleep := b.asleep + {(id, e)}) else b
  }

  function Exec(b: Browser, steps: seq<Step>): Browser
    decreases |steps|
  {
    if steps == [] then b else Exec(Next(b, steps[0]), steps[1..])
  }

  // ---------- what every run keeps ----------

  ghost predicate SlotsOk(b: Browser) {
    && b.next == |b.slots|
    && forall id :: 0 <= id < |b.slots| ==> SlotOk(b.slots[id], id)
  }

  /** Generations count the slots, and an open slot keeps its own. */
  predicate SlotOk(slot: Slot, id: nat) {
    slot.born == id + 1 && (!slot.inner.Closed? ==> slot.inner.generation == id + 1)
  }

  /** No session is left behind: an open slot is in the table or is about to be closed. */
  ghost predicate NoneLost(b: Browser) {
    forall id :: 0 <= id < |b.slots| && !b.slots[id].inner.Closed? ==> InTable(b, id) || id in b.closing
  }

  /** A waiter that has not been woken still has a starting session to wait for, or is owed a
      notification. */
  ghost predicate WakeupsOk(b: Browser) {
    && |b.closing| <= b.owing
    && forall id, e :: (id, e) in b.asleep && e == b.epoch ==>
         b.owing > 0 || (InTable(b, id) && b.slots[id].inner.Starting?)
  }

  ghost predicate EpochsOk(b: Browser) {
    forall id, e :: (id, e) in b.asleep ==> e <= b.epoch
  }

  ghost predicate Inv(b: Browser) {
    TableOk(b) && SlotsOk(b) && NoneLost(b) && EpochsOk(b) && WakeupsOk(b)
  }

  /** Only forward, and within one generation. */
  predicate Moves(a: Inner, z: Inner) {
    match a
    case Closed => z.Closed?
    case Live(g, _, _) => z.Closed? || (z.Live? && z.generation == g)
    case Starting(g) => z.Closed? || z.generation == g
  }

  ghost predicate Evolves(a: Browser, z: Browser) {
    && |a.slots| <= |z.slots|
    && forall id :: 0 <= id < |a.slots| ==>
         && a.slots[id].serial == z.slots[id].serial && a.slots[id].born == z.slots[id].born
         && Moves(a.slots[id].inner, z.slots[id].inner)
         && (!InTable(a, id) ==> !InTable(z, id))
  }

  lemma BeginKeeps(b: Browser, serial: string)
    requires Inv(b)
    ensures Inv(BeginAttach(b, serial).0) && Evolves(b, BeginAttach(b, serial).0)
  {
    var z := BeginAttach(b, serial).0;
    if Current(b, serial).None? {
      forall id | 0 <= id < |z.slots| && !z.slots[id].inner.Closed? ensures InTable(z, id) || id in z.closing {
        if id < |b.slots| {
          assert InTable(b, id) || id in b.closing;
        }
      }
    }
  }

  lemma TakenKeeps(b: Browser, serial: string)
    requires Inv(b) && serial in b.table
    ensures Inv(Taken(b, serial)) && Evolves(b, Taken(b, serial))
  {
  }

  lemma RemoveKeeps(b: Browser, serial: string)
    requires Inv(b)
    ensures Inv(AbandonRemove(b, serial)) && Evolves(b, AbandonRemove(b, serial))
  {
  }

  lemma CloseKeeps(b: Browser, id: nat)
    requires Inv(b)
    ensures Inv(CloseSlot(b, id)) && Evolves(b, CloseSlot(b, id))
  {
    var z := CloseSlot(b, id);
    if id in b.closing {
      assert |z.closing| == |b.closing| - 1;
      forall i | 0 <= i < |z.slots| && !z.slots[i].inner.Closed? ensures InTable(z, i) || i in z.closing {
        assert InTable(b, i) || i in b.closing;
      }
    }
  }

  lemma SleepKeeps(b: Browser, id: nat, e: nat)
    requires Inv(b)
    ensures Inv(Next(b, SleepStep(id, e))) && Evolves(b, Next(b, SleepStep(id, e)))
  {
  }

  lemma PublishKeeps(b: Browser, serial: string, g: nat, worker: Option<nat>, oneshot: bool)
    requires Inv(b)
    ensures var z := PublishLive(b, serial, g, worker, oneshot).0; Inv(z) && Evolves(b, z)
  {
    var c := b.(held := b.held - AsSet(worker));
    if Current(b, serial) == Some(Starting(g)) {
      HandsKeep(b, b.made, c.held, b.gone);
      LiveKeeps(c, b.table[serial], Live(g, worker, oneshot));
    } else {
      HandsKeep(b, b.made, c.held, b.gone + AsSet(worker));
    }
  }

  /** A starting slot turns live, and somebody is to notify. */
  lemma LiveKeeps(b: Browser, id: nat, live: Inner)
    requires Inv(b) && id < |b.slots| && live.Live? && b.slots[id].inner == Starting(live.generation) && InTable(b, id)
    ensures var z := WithInner(b, id, live).(owing := b.owing + 1); Inv(z) && Evolves(b, z)
  {
  }

  lemma MarkKeeps(b: Browser, id: nat, g: nat)
    requires Inv(b)
    ensures Inv(AbandonMark(b, id, g).0) && Evolves(b, AbandonMark(b, id, g).0)
  {
  }

  lemma ReleaseKeeps(b: Browser, serial: string, g: nat)
    requires Inv(b)
    ensures Inv(ReleaseTake(b, serial, g).0) && Evolves(b, ReleaseTake(b, serial, g).0)
  {
  }

  lemma DetachKeeps(b: Browser, serial: string)
    requires Inv(b)
    ensures Inv(DetachTake(b, serial)) && Evolves(b, DetachTake(b, serial))
  {
    if serial in b.table {
      TakenKeeps(b, serial);
    } else {
      SignalKeeps(b, b.owing + 1, b.epoch);
    }
  }

  lemma HandsKeep(b: Browser, made: nat, held: set<nat>, gone: set<nat>)
    requires Inv(b)
    ensures var z := b.(made := made, held := held, gone := gone); Inv(z) && Evolves(b, z)
  {
  }

  /** Owing more, or notifying all waiters, leaves the slots alone. */
  lemma SignalKeeps(b: Browser, owing: nat, epoch: nat)
    requires Inv(b) && |b.closing| <= owing && epoch >= b.epoch && (epoch == b.epoch ==> owing >= b.owing)
    ensures var z := b.(owing := owing, epoch := epoch); Inv(z) && Evolves(b, z)
  {
  }

  lemma StepKeeps(b: Browser, step: Step)
    requires Inv(b)
    ensures Inv(Next(b, step)) && Evolves(b, Next(b, step))
  {
    match step
    case BeginStep(serial) => BeginKeeps(b, serial);
    case PublishStep(serial, g, worker) => PublishKeeps(b, serial, g, worker, worker.None?);
    case MarkStep(id, g) => MarkKeeps(b, id, g);
    case RemoveStep(serial) => RemoveKeeps(b, serial);
    case ReleaseStep(serial, g) => ReleaseKeeps(b, serial, g);
    case DetachStep(serial) => DetachKeeps(b, serial);
    case CloseStep(id) => CloseKeeps(b, id);
    case SleepStep(id, e) => SleepKeeps(b, id, e);
    case NotifyStep =>
      if b.owing > |b.closing| {
        SignalKeeps(b, b.owing - 1, b.epoch + 1);
      }
    case NeedlessNotifyStep => SignalKeeps(b, b.owing, b.epoch + 1);
    case _ => ShellStepKeeps(b, step);
  }

  lemma ShellStepKeeps(b: Browser, step: Step)
    requires Inv(b)
    requires step.OpenStep? || step.LetGoStep? || step.RestoreStep? || step.OneshotStep? || step.TakeStep? || step.DropStep?
    ensures Inv(Next(b, step)) && Evolves(b, Next(b, step))
  {
    match step
    case OpenStep => HandsKeep(b, b.made + 1, b.held + {b.made}, b.gone);
    case LetGoStep(shell) => HandsKeep(b, b.made, b.held - {shell}, b.gone + {shell});
    case RestoreStep(id, g, shell) =>
      WorkerStepKeeps(b, id, Next(b, step));
      HandsKeep(b, b.made, b.held - {shell}, b.gone + {shell});
    case OneshotStep(id, g) => WorkerStepKeeps(b, id, Next(b, step));
    case TakeStep(id, g) => WorkerStepKeeps(b, id, Next(b, step));
    case DropStep(id) => WorkerStepKeeps(b, id, Next(b, step));
  }

  /** Only the shell of a live slot changes hands. */
  ghost predicate ChangesShell(b: Browser, id: nat, z: Browser) {
    && id < |b.slots| && b.slots[id].inner.Live? && |z.slots| == |b.slots|
    && z.slots[id].inner.Live? && z.slots[id].inner.generation == b.slots[id].inner.generation
    && z == b.(slots := b.slots[id := b.slots[id].(inner := z.slots[id].inner)], made := z.made, held := z.held, gone := z.gone)
  }

  lemma WorkerStepKeeps(b: Browser, id: nat, z: Browser)
    requires Inv(b)
    ensures ChangesShell(b, id, z) || z == b ==> Inv(z) && Evolves(b, z)
  {
  }

  lemma EvolvesTransitively(a: Browser, b: Browser, c: Browser)
    requires Evolves(a, b) && Evolves(b, c)
    ensures Evolves(a, c)
  {
  }

  /** Over every run each slot only moves from starting to live to closed, within the generation it
      was made with, and once out of the table it never comes back. */
  lemma {:induction false} SlotsOnlyMoveForward(b: Browser, steps: seq<Step>)
    requires Inv(b)
    ensures Inv(Exec(b, steps)) && Evolves(b, Exec(b, steps))
    decreases |steps|
  {
    if steps != [] {
      StepKeeps(b, steps[0]);
      SlotsOnlyMoveForward(Next(b, steps[0]), steps[1..]);
      EvolvesTransitively(b, Next(b, steps[0]), Exec(b, steps));
    }
  }

  lemma StartIsFine()
    ensures Inv(EMPTY)
  {
  }

  // ---------- what the guarded sections answer ----------

  /** A session is taken, published or given up by its own generation alone, and the answer says so. */
  lemma OwnGenerationAlone(b: Browser, serial: string, g: nat, worker: Option<nat>, oneshot: bool)
    requires Inv(b)
    ensures ReleaseTake(b, serial, g).1 <==> SessionIs(b, serial, g)
    ensures if SessionIs(b, serial, g)
            then serial !in ReleaseTake(b, serial, g).0.table && b.table[serial] in ReleaseTake(b, serial, g).0.closing
            else ReleaseTake(b, serial, g).0 == b
    ensures PublishLive(b, serial, g, worker, oneshot).1 <==> Current(b, serial) == Some(Starting(g))
    ensures serial in b.table ==>
      (AbandonMark(b, b.table[serial], g).1 <==> Current(b, serial) == Some(Starting(g)))
    ensures Current(b, serial) == Some(Starting(g)) ==> AbandonMark(b, b.table[serial], g).0.slots[b.table[serial]].inner.Closed?
  {
  }

  /** The notifications that a step is worth: one for each session that is made, published, given up, released
      or detached. */
  function Worth(b: Browser, step: Step): nat {
    match step
    case BeginStep(serial) => if Current(b, serial).None? then 1 else 0
    case PublishStep(serial, g, worker) => if AsSet(worker) <= b.held && Current(b, serial) == Some(Starting(g)) then 1 else 0
    case MarkStep(id, g) => if id < |b.slots| && b.slots[id].inner == Starting(g) then 1 else 0
    case ReleaseStep(serial, g) => if SessionIs(b, serial, g) then 1 else 0
    case DetachStep(_) => 1
    case NeedlessNotifyStep => 1
    case _ => 0
  }

  function Worths(b: Browser, steps: seq<Step>): nat
    decreases |steps|
  {
    if steps == [] then 0 else Worth(b, steps[0]) + Worths(Next(b, steps[0]), steps[1..])
  }

  /** Over every run, what was notified and what is still owed is exactly what the steps were worth. */
  lemma {:induction false} NotificationsAreExact(b: Browser, steps: seq<Step>)
    requires Inv(b)
    ensures var z := Exec(b, steps); z.epoch + z.owing == b.epoch + b.owing + Worths(b, steps)
    decreases |steps|
  {
    if steps != [] {
      StepKeeps(b, steps[0]);
      StepIsWorth(b, steps[0]);
      NotificationsAreExact(Next(b, steps[0]), steps[1..]);
    }
  }

  lemma StepIsWorth(b: Browser, step: Step)
    requires Inv(b)
    ensures var z := Next(b, step); z.epoch + z.owing == b.epoch + b.owing + Worth(b, step)
  {
    match step
    case BeginStep(_) =>
    case PublishStep(_, _, _) =>
    case ReleaseStep(serial, g) => OwnGenerationAlone(b, serial, g, None, false);
    case DetachStep(_) =>
    case CloseStep(_) =>
    case NotifyStep =>
    case _ => OtherStepIsWorth(b, step);
  }

  lemma OtherStepIsWorth(b: Browser, step: Step)
    requires !(step.BeginStep? || step.PublishStep? || step.ReleaseStep? || step.DetachStep? || step.CloseStep? || step.NotifyStep?)
    ensures var z := Next(b, step); z.epoch + z.owing == b.epoch + b.owing + Worth(b, step)
  {
  }

  /** A session's shell that is taken and put back leaves everything as it was; for another generation
      neither does anything to the sessions. */
  lemma TakenAndRestored(b: Browser, id: nat, g: nat, shell: nat)
    requires id < |b.slots| && shell !in b.held
    ensures b.slots[id].inner == Live(g, Some(shell), false) ==>
      && shell in TakeWorker(b, id, g).held && ShellOf(TakeWorker(b, id, g).slots[id].inner).None?
      && RestoreWorker(TakeWorker(b, id, g), id, g, shell) == b
    ensures GenerationOf(b.slots[id].inner) != Some(g) ==>
      TakeWorker(b, id, g) == b == MarkOneshot(b, id, g) && RestoreWorker(b, id, g, shell).slots == b.slots
    ensures b.slots[id].inner.Live? && b.slots[id].inner.oneshot ==> TakeWorker(b, id, g) == b
    ensures b.slots[id].inner.Live? && b.slots[id].inner.generation == g ==>
      && MarkOneshot(b, id, g).slots[id].inner == Live(g, None, true)
      && DropWorker(b, id).slots[id].inner == Live(g, None, false)
  {
    if b.slots[id].inner == Live(g, Some(shell), false) {
      assert b.held + {shell} - {shell} == b.held;
    }
  }

  // ---------- shells ----------

  predicate InSlot(b: Browser, id: nat, shell: nat) {
    id < |b.slots| && ShellOf(b.slots[id].inner) == Some(shell)
  }

  /** The shell is in the hands of a call, let go, or in a slot. */
  ghost predicate Somewhere(b: Browser, shell: nat) {
    shell in b.held || shell in b.gone || exists id: nat :: InSlot(b, id, shell)
  }

  ghost predicate ShellsOk(b: Browser) {
    && (forall shell: nat :: Somewhere(b, shell) <==> shell < b.made)
    && b.held !! b.gone
    && (forall id: nat, shell: nat :: InSlot(b, id, shell) ==> shell !in b.held && shell !in b.gone)
    && (forall i: nat, j: nat, shell: nat :: InSlot(b, i, shell) && InSlot(b, j, shell) ==> i == j)
    && (forall id :: 0 <= id < |b.slots| && b.slots[id].inner.Live? && b.slots[id].inner.oneshot ==> b.slots[id].inner.worker.None?)
  }

  /** The shell of one slot, the hands and the shells let go exchange what they have between them. */
  ghost predicate Exchanges(b: Browser, z: Browser, id: nat) {
    && |z.slots| == |b.slots| && id < |b.slots| && z.made == b.made
    && (forall i :: 0 <= i < |b.slots| && i != id ==> z.slots[i].inner == b.slots[i].inner)
    && (z.slots[id].inner.Live? && z.slots[id].inner.oneshot ==> z.slots[id].inner.worker.None?)
    && var out, into := AsSet(ShellOf(b.slots[id].inner)), AsSet(ShellOf(z.slots[id].inner));
       && b.held + b.gone + out == z.held + z.gone + into
       && z.held !! z.gone && into !! z.held && into !! z.gone
  }

  lemma ExchangeKeeps(b: Browser, z: Browser, id: nat)
    requires ShellsOk(b) && Exchanges(b, z, id)
    ensures ShellsOk(z)
  {
    var out, into := ShellOf(b.slots[id].inner), ShellOf(z.slots[id].inner);
    forall i: nat, shell: nat ensures InSlot(z, i, shell) <==> if i == id then into == Some(shell) else InSlot(b, i, shell) {
    }
    forall shell: nat ensures Somewhere(z, shell) <==> Somewhere(b, shell) {
      if shell in z.held + z.gone + AsSet(into) {
        assert shell in b.held + b.gone + AsSet(out);
        assert into == Some(shell) ==> InSlot(z, id, shell);
        assert out == Some(shell) ==> InSlot(b, id, shell);
      } else {
        assert shell !in b.held + b.gone + AsSet(out);
        if i: nat :| InSlot(b, i, shell) {
          assert InSlot(z, i, shell);
        }
        if i: nat :| InSlot(z, i, shell) {
          assert InSlot(b, i, shell);
        }
      }
    }
    forall i: nat, shell: nat | InSlot(z, i, shell)
      ensures shell !in z.held && shell !in z.gone
      ensures forall j: nat :: InSlot(z, j, shell) ==> i == j
    {
      SlotOfShell(b, z, id, i, shell);
    }
  }

  lemma SlotOfShell(b: Browser, z: Browser, id: nat, i: nat, shell: nat)
    requires ShellsOk(b) && Exchanges(b, z, id) && InSlot(z, i, shell)
    ensures shell !in z.held && shell !in z.gone
    ensures forall j: nat :: InSlot(z, j, shell) ==> i == j
  {
    var into, out := ShellOf(z.slots[id].inner), ShellOf(b.slots[id].inner);
    if i == id {
      assert shell in b.held + b.gone + AsSet(out);
      forall j: nat | InSlot(z, j, shell) ensures i == j {
        if j != id {
          assert InSlot(b, j, shell);
          assert out == Some(shell) ==> InSlot(b, id, shell);
        }
      }
    } else {
      assert InSlot(b, i, shell);
      assert out == Some(shell) ==> InSlot(b, id, shell);
      assert shell !in z.held + z.gone + AsSet(into);
      forall j: nat | InSlot(z, j, shell) ensures i == j {
        assert j != id ==> InSlot(b, j, shell);
      }
    }
  }

  /** No slot changes its shell, and a call's hands only let go. */
  lemma LettingGoKeeps(b: Browser, z: Browser)
    requires ShellsOk(b) && |z.slots| >= |b.slots| && z.made == b.made && z.held + z.gone == b.held + b.gone && z.held !! z.gone
    requires forall i :: 0 <= i < |b.slots| ==> z.slots[i].inner == b.slots[i].inner
    requires forall i :: |b.slots| <= i < |z.slots| ==> z.slots[i].inner.Starting?
    ensures ShellsOk(z)
  {
    forall i: nat, shell: nat ensures InSlot(z, i, shell) <==> InSlot(b, i, shell) {
    }
    forall shell: nat ensures Somewhere(z, shell) <==> Somewhere(b, shell) {
      assert shell in z.held + z.gone <==> shell in b.held + b.gone;
      if i: nat :| InSlot(b, i, shell) {
        assert InSlot(z, i, shell);
      }
      if i: nat :| InSlot(z, i, shell) {
        assert InSlot(b, i, shell);
      }
    }
    forall i: nat, shell: nat | InSlot(z, i, shell) ensures shell !in z.held && shell !in z.gone {
      assert InSlot(b, i, shell) && shell !in b.held + b.gone;
    }
  }

  lemma OpeningKeeps(b: Browser)
    requires ShellsOk(b)
    ensures ShellsOk(OpenShell(b))
  {
    var z := OpenShell(b);
    forall i: nat, shell: nat ensures InSlot(z, i, shell) <==> InSlot(b, i, shell) {
    }
    assert !Somewhere(b, b.made);
    forall shell: nat ensures Somewhere(z, shell) <==> Somewhere(b, shell) || shell == b.made {
      if i: nat :| InSlot(b, i, shell) {
        assert InSlot(z, i, shell);
      }
      if i: nat :| InSlot(z, i, shell) {
        assert InSlot(b, i, shell);
      }
    }
  }

  /** What a held, loose or slotted shell is not. */
  lemma ShellPlaces(b: Browser, id: nat)
    requires ShellsOk(b) && id < |b.slots|
    ensures AsSet(ShellOf(b.slots[id].inner)) !! b.held && AsSet(ShellOf(b.slots[id].inner)) !! b.gone
  {
    var shell := ShellOf(b.slots[id].inner);
    assert shell.Some? ==> InSlot(b, id, shell.value);
  }

  lemma PublishExchanges(b: Browser, serial: string, g: nat, worker: Option<nat>)
    requires TableOk(b) && b.held !! b.gone && AsSet(worker) <= b.held && Current(b, serial) == Some(Starting(g))
    ensures Exchanges(b, PublishLive(b, serial, g, worker, worker.None?).0, b.table[serial])
  {
  }

  lemma PublishShell(b: Browser, serial: string, g: nat, worker: Option<nat>)
    requires Inv(b) && ShellsOk(b) && AsSet(worker) <= b.held
    ensures ShellsOk(PublishLive(b, serial, g, worker, worker.None?).0)
  {
    var z := PublishLive(b, serial, g, worker, worker.None?).0;
    if Current(b, serial) == Some(Starting(g)) {
      PublishExchanges(b, serial, g, worker);
      ExchangeKeeps(b, z, b.table[serial]);
    } else {
      LettingGoKeeps(b, z);
    }
  }

  lemma CloseShell(b: Browser, id: nat)
    requires Inv(b) && ShellsOk(b)
    ensures ShellsOk(CloseSlot(b, id))
  {
    if id in b.closing {
      ShellPlaces(b, id);
      ExchangeKeeps(b, CloseSlot(b, id), id);
    }
  }

  lemma MarkShell(b: Browser, id: nat, g: nat)
    requires Inv(b) && ShellsOk(b)
    ensures ShellsOk(AbandonMark(b, id, g).0)
  {
    if id < |b.slots| && b.slots[id].inner == Starting(g) {
      ExchangeKeeps(b, AbandonMark(b, id, g).0, id);
    }
  }

  lemma RestoreShell(b: Browser, id: nat, g: nat, shell: nat)
    requires Inv(b) && ShellsOk(b) && shell in b.held
    ensures ShellsOk(RestoreWorker(b, id, g, shell))
  {
    var z := RestoreWorker(b, id, g, shell);
    if UsesShells(b, id, g) {
      ShellPlaces(b, id);
      ExchangeKeeps(b, z, id);
    } else {
      LettingGoKeeps(b, z);
    }
  }

  lemma TakeShell(b: Browser, id: nat, g: nat)
    requires Inv(b) && ShellsOk(b)
    ensures ShellsOk(TakeWorker(b, id, g)) && ShellsOk(MarkOneshot(b, id, g)) && ShellsOk(DropWorker(b, id))
  {
    if id < |b.slots| {
      ShellPlaces(b, id);
    }
    ShellStepAt(b, TakeWorker(b, id, g), id);
    ShellStepAt(b, MarkOneshot(b, id, g), id);
    ShellStepAt(b, DropWorker(b, id), id);
  }

  lemma ShellStep(b: Browser, step: Step)
    requires Inv(b) && ShellsOk(b)
    ensures ShellsOk(Next(b, step))
  {
    match step
    case OpenStep => OpeningKeeps(b);
    case CloseStep(id) => CloseShell(b, id);
    case PublishStep(serial, g, worker) =>
      if AsSet(worker) <= b.held {
        PublishShell(b, serial, g, worker);
      }
    case MarkStep(id, g) => MarkShell(b, id, g);
    case RestoreStep(id, g, shell) =>
      if shell in b.held {
        RestoreShell(b, id, g, shell);
      }
    case OneshotStep(id, g) => TakeShell(b, id, g);
    case TakeStep(id, g) => TakeShell(b, id, g);
    case DropStep(id) => TakeShell(b, id, 0);
    case _ => QuietShells(b, step);
  }

  lemma QuietShells(b: Browser, step: Step)
    requires Inv(b) && ShellsOk(b)
    requires step.BeginStep? || step.RemoveStep? || step.ReleaseStep? || step.DetachStep? || step.NotifyStep? || step.SleepStep?
          || step.LetGoStep? || step.NeedlessNotifyStep?
    ensures ShellsOk(Next(b, step))
  {
    LettingGoKeeps(b, Next(b, step));
  }

  lemma ShellStepAt(b: Browser, z: Browser, id: nat)
    requires ShellsOk(b) && (z == b || Exchanges(b, z, id))
    ensures ShellsOk(z)
  {
    if z != b {
      ExchangeKeeps(b, z, id);
    }
  }

  lemma {:induction false} ShellsAlongRun(b: Browser, steps: seq<Step>)
    requires Inv(b) && ShellsOk(b)
    ensures ShellsOk(Exec(b, steps))
    decreases |steps|
  {
    if steps != [] {
      StepKeeps(b, steps[0]);
      ShellStep(b, steps[0]);
      ShellsAlongRun(Next(b, steps[0]), steps[1..]);
    }
  }

  // ---------- theorems about runs from the start ----------

  /** No two slots ever share a generation, whatever serials they were made for. */
  lemma GenerationsAreUnique(steps: seq<Step>, i: nat, j: nat)
    requires i < |Exec(EMPTY, steps).slots| && j < |Exec(EMPTY, steps).slots| && i != j
    ensures Exec(EMPTY, steps).slots[i].born != Exec(EMPTY, steps).slots[j].born
  {
    StartIsFine();
    SlotsOnlyMoveForward(EMPTY, steps);
  }

  /** When no call has a slot left to close, the open slots are exactly the table's sessions, so a
      serial has at most one. */
  lemma OneSessionPerSerial(steps: seq<Step>, i: nat, j: nat)
    requires var b := Exec(EMPTY, steps);
             && i < |b.slots| && j < |b.slots| && i != j && b.slots[i].serial == b.slots[j].serial
             && !b.slots[i].inner.Closed? && !b.slots[j].inner.Closed?
    ensures i in Exec(EMPTY, steps).closing || j in Exec(EMPTY, steps).closing
  {
    StartIsFine();
    SlotsOnlyMoveForward(EMPTY, steps);
    var b := Exec(EMPTY, steps);
    assert InTable(b, i) || i in b.closing;
    assert InTable(b, j) || j in b.closing;
  }

  /** No shell is shared or lost: in every run each shell that was opened is in the hands of one call, in one
      slot, or let go, and in one of these only; and a device that is asked in single commands has none. */
  lemma EveryShellHasOnePlace(steps: seq<Step>, shell: nat)
    ensures var b := Exec(EMPTY, steps);
      && (shell < b.made <==> Somewhere(b, shell))
      && !(shell in b.held && shell in b.gone)
      && forall i: nat :: InSlot(b, i, shell) ==>
           shell !in b.held && shell !in b.gone && !b.slots[i].inner.oneshot && forall j: nat :: InSlot(b, j, shell) ==> i == j
  {
    StartIsFine();
    assert forall id: nat, s: nat :: !InSlot(EMPTY, id, s);
    ShellsAlongRun(EMPTY, steps);
  }

  /** A waiter whose session is no longer starting is awake or is owed a notification. */
  lemma NoLostWakeup(steps: seq<Step>, id: nat, e: nat)
    requires (id, e) in Exec(EMPTY, steps).asleep
    requires var b := Exec(EMPTY, steps); id < |b.slots| && !(InTable(b, id) && b.slots[id].inner.Starting?)
    ensures var b := Exec(EMPTY, steps); e < b.epoch || b.owing > 0
  {
    StartIsFine();
    SlotsOnlyMoveForward(EMPTY, steps);
  }

  /** The generation a step carries along, if it carries one. */
  function Carried(step: Step): Option<nat> {
    match step
    case PublishStep(_, g, _) => Some(g)
    case MarkStep(_, g) => Some(g)
    case ReleaseStep(_, g) => Some(g)
    case RestoreStep(_, g, _) => Some(g)
    case OneshotStep(_, g) => Some(g)
    case TakeStep(_, g) => Some(g)
    case _ => None
  }

  /** Steps that are about one generation, and the ends of calls that were. */
  predicate IsBound(step: Step) {
    Carried(step).Some? || step.RemoveStep? || step.CloseStep? || step.NotifyStep? || step.SleepStep?
    || step.NeedlessNotifyStep?
  }

  ghost predicate KeepsSession(b: Browser, z: Browser, serial: string) {
    && Current(z, serial) == Current(b, serial)
    && serial in z.table && serial in b.table && z.table[serial] == b.table[serial]
  }

  lemma StaleSlotStep(b: Browser, step: Step, serial: string)
    requires Inv(b) && Current(b, serial).Some? && Carried(step) != SlotGeneration(b, serial)
    requires step.RestoreStep? || step.OneshotStep? || step.TakeStep? || step.MarkStep?
    ensures KeepsSession(b, Next(b, step), serial)
  {
    assert SlotOk(b.slots[b.table[serial]], b.table[serial]);
  }

  lemma StaleTableStep(b: Browser, step: Step, serial: string)
    requires Inv(b) && Current(b, serial).Some? && Carried(step) != SlotGeneration(b, serial)
    requires IsBound(step) && !(step.RestoreStep? || step.OneshotStep? || step.TakeStep? || step.MarkStep?)
    ensures KeepsSession(b, Next(b, step), serial)
  {
  }

  /** A step on behalf of one generation changes nothing of a session of another one. */
  lemma StaleStepsChangeNothing(b: Browser, step: Step, serial: string)
    requires Inv(b) && IsBound(step) && Current(b, serial).Some?
    requires Carried(step) != SlotGeneration(b, serial)
    ensures Current(Next(b, step), serial) == Current(b, serial)
    ensures serial in Next(b, step).table && Next(b, step).table[serial] == b.table[serial]
  {
    if step.RestoreStep? || step.OneshotStep? || step.TakeStep? || step.MarkStep? {
      StaleSlotStep(b, step, serial);
    } else {
      StaleTableStep(b, step, serial);
    }
  }

  /** `list` hands out entries only after it has looked up the slot and then found the generation
      in it: at the moment of the lookup that generation was the serial's session. */
  lemma ListedUnderCurrent(before: seq<Step>, between: seq<Step>, serial: string, generation: nat)
    requires var looked := Exec(EMPTY, before);
             && serial in looked.table && looked.table[serial] < |looked.slots|
             && var inner := Exec(looked, between).slots;
             && looked.table[serial] < |inner| && GenerationOf(inner[looked.table[serial]].inner) == Some(generation)
    ensures SlotGeneration(Exec(EMPTY, before), serial) == Some(generation)
  {
    StartIsFine();
    SlotsOnlyMoveForward(EMPTY, before);
    var looked := Exec(EMPTY, before);
    SlotsOnlyMoveForward(looked, between);
    var id := looked.table[serial];
    assert Moves(looked.slots[id].inner, Exec(looked, between).slots[id].inner);
  }
}
