/** Every interleaving of the calls on a slot service.

    A call is a program counter. One step is one lock section, one `notify_waiters`, one
    subscription, one wake-up, one join that returns or one published event. `Notify` is an epoch:
    a `notified()` future remembers the epoch it was created in and completes once the epoch has
    moved on. A join returns once the worker's call is done.
    A run is any list of actions; an action that is not enabled changes nothing. */
module SlotProtocol {

  import opened Options
  import opened SlotTable

  datatype Pc =
    // start
    | StartDecide
    | StartNotifyBegin(g: nat)
    | StartSubscribe
    | StartRecheck(seen: nat)
    | StartAsleep(seen: nat)
    | StartClearDevice(g: nat)
    | StartFirstCheck(g: nat)
    | StartAnnounce(g: nat)
    | StartSpawn(g: nat)
    | StartPublish(g: nat)
    | StartNotifyPublished(g: nat)
    | StartRefused(g: nat)
    | StartJoin(g: nat)
    | AbandonSlot(g: nat)
    // stop
    | StopDecide
    | StopSubscribe
    | StopRecheck(seen: nat)
    | StopAsleep(seen: nat)
    | StopNotify(g: nat, joins: bool)
    | StopJoin(g: nat, joins: bool)
    | StopFinish(g: nat)
    // worker
    | Working(g: nat)
    | WorkerNoteLive(g: nat)
    | WorkerNotify(g: nat)
    | ReleaseSlot(g: nat, failed: bool)
    // shared ending of abandon, stop and release
    | EndAnnounce(g: nat, failed: bool)
    | EndNotify
    | Done

  /** What a start returns: the generation that is running, and whether another start began it. */
  datatype Started = Started(generation: nat, adopted: bool)

  /** `works` is the generation whose worker the call is, and 0 for a start or a stop. A start that has
      not returned, or returned with an error, has no answer. */
  datatype Call = Call(serial: Serial, pc: Pc, works: nat, answer: Option<Started>)

  datatype Event =
    | Announced(serial: Serial, generation: nat)
    | Ended(serial: Serial, generation: nat, failed: bool)

  /** `origin[g - 1]` is the serial for which generation `g` was inserted. */
  datatype State = State(
    table: Table, epoch: nat, calls: seq<Call>, events: seq<Event>,
    cancelled: set<nat>, rootCancelled: bool, origin: seq<Serial>)

  datatype Action =
    | CallStart(serial: Serial)
    | CallStop(serial: Serial)
    | Run(call: nat, pick: bool, failed: bool)
    | CancelRoot
    | OtherNotify

  const INITIAL := State(EMPTY_TABLE, 0, [], [], {}, false, [])

  predicate IsCancelled(s: State, g: nat) {
    s.rootCancelled || g in s.cancelled
  }

  /** The worker of a generation, if there is one, has come to its end. */
  predicate WorkerDone(s: State, g: nat) {
    forall j :: 0 <= j < |s.calls| && s.calls[j].works == g ==> s.calls[j].pc.Done?
  }

  /** What one step of a call does: its next program counter, the table after its lock section,
      whether it calls `notify_waiters`, whether it spawns the worker, the event it publishes,
      the generations whose token it cancels and what the call returns. */
  datatype Effect = Effect(
    pc: Pc, table: Table, notifies: bool, spawns: bool, event: Option<Event>, cancels: set<nat>,
    answer: Option<Started>)

  function Go(s: State, pc: Pc): Effect {
    Effect(pc, s.table, false, false, None, {}, None)
  }

  function Change(pc: Pc, t: Table): Effect {
    Effect(pc, t, false, false, None, {}, None)
  }

  /** `pick` and `failed` stand for what the device, the worker and the clock decide. */
  function EffectOf(sv: Service, s: State, c: Call, pick: bool, failed: bool): Effect {
    var k := c.serial;
    match c.pc
    case StartDecide =>
      var (t, d) := DecideStart(s.table, k);
      (match d
       case Adopt(g) => Go(s, Done).(answer := Some(Started(g, true)))
       case Wait => Go(s, StartSubscribe)
       case Begin(g) => Change(StartNotifyBegin(g), t))
    case StartNotifyBegin(g) =>
      Go(s, if sv.Capture? then StartClearDevice(g) else StartAnnounce(g)).(notifies := true)
    case StartSubscribe => Go(s, StartRecheck(s.epoch))
    case StartRecheck(e) =>
      Go(s, if StartMustWait(s.table, k) then StartAsleep(e) else StartDecide)
    case StartAsleep(e) => Go(s, if e < s.epoch then StartDecide else c.pc)
    case StartClearDevice(g) => Go(s, if failed then AbandonSlot(g) else StartFirstCheck(g))
    case StartFirstCheck(g) => Go(s, if IsCancelled(s, g) then AbandonSlot(g) else StartAnnounce(g))
    case StartAnnounce(g) => Go(s, StartSpawn(g)).(event := Some(Announced(k, g)))
    case StartSpawn(g) =>
      if IsCancelled(s, g) then Go(s, AbandonSlot(g)) else Go(s, StartPublish(g)).(spawns := true)
    case StartPublish(g) =>
      var (t, published) := PublishStart(sv, s.table, k, g);
      Change(if published then StartNotifyPublished(g) else StartRefused(g), t)
    case StartNotifyPublished(g) => Go(s, Done).(notifies := true, answer := Some(Started(g, false)))
    case StartRefused(g) => Go(s, StartJoin(g)).(cancels := {g})
    case StartJoin(g) => Go(s, if WorkerDone(s, g) then Done else c.pc)
    case AbandonSlot(g) =>
      var (t, dropped) := AbandonStarting(sv, s.table, k, g);
      Change(if dropped then EndAnnounce(g, false) else Done, t)
    case StopDecide =>
      var (t, r) := BeginStop(s.table, k);
      (match r
       case Busy => Go(s, StopSubscribe)
       case Nothing => Go(s, Done)
       case Taken(g, handle) => Change(StopNotify(g, handle), t).(cancels := {g}))
    case StopSubscribe => Go(s, StopRecheck(s.epoch))
    case StopRecheck(e) => Go(s, if StopMustWait(s.table, k) then StopAsleep(e) else StopDecide)
    case StopAsleep(e) => Go(s, if e < s.epoch then StopDecide else c.pc)
    case StopNotify(g, joins) => Go(s, StopJoin(g, joins)).(notifies := true)
    case StopJoin(g, joins) => Go(s, if joins && !WorkerDone(s, g) then c.pc else StopFinish(g))
    case StopFinish(g) =>
      var (t, emit) := FinishStop(sv, s.table, k, g);
      Change(if emit then EndAnnounce(g, false) else EndNotify, t)
    case Working(g) =>
      if sv.Capture? then
        Go(s, if IsCancelled(s, g) then Done else if pick then ReleaseSlot(g, false) else c.pc)
      else
        Go(s, if pick then WorkerNoteLive(g) else ReleaseSlot(g, failed))
    case WorkerNoteLive(g) => Change(WorkerNotify(g), NoteLive(s.table, k, g))
    case WorkerNotify(g) => Go(s, Working(g)).(notifies := true)
    case ReleaseSlot(g, f) =>
      var (t, taken) := ReleaseIfCurrent(sv, s.table, k, g);
      Change(if taken then EndAnnounce(g, f) else Done, t).(
        cancels := if taken && sv.Capture? then {g} else {})
    case EndAnnounce(g, f) => Go(s, EndNotify).(event := Some(Ended(k, g, f)))
    case EndNotify => Go(s, Done).(notifies := true)
    case Done => Go(s, Done)
  }

  function StepCall(s: State, i: nat, e: Effect): State
    requires i < |s.calls|
  {
    var c := s.calls[i];
    State(
      e.table,
      if e.notifies then s.epoch + 1 else s.epoch,
      s.calls[i := c.(pc := e.pc, answer := if e.answer.Some? then e.answer else c.answer)]
      + if e.spawns then [Call(c.serial, Working(Generation(e.pc)), Generation(e.pc), None)] else [],
      if e.event.Some? then s.events + [e.event.value] else s.events,
      s.cancelled + e.cancels,
      s.rootCancelled,
      if e.table.next > s.table.next then s.origin + [c.serial] else s.origin)
  }

  function Apply(sv: Service, s: State, a: Action): State {
    match a
    case CallStart(k) => s.(calls := s.calls + [Call(k, StartDecide, 0, None)])
    case CallStop(k) => s.(calls := s.calls + [Call(k, StopDecide, 0, None)])
    case Run(i, pick, failed) => 
      if i < |s.calls| then StepCall(s, i, EffectOf(sv, s, s.calls[i], pick, failed)) else s
    case CancelRoot => s.(rootCancelled := true)
    case OtherNotify => s.(epoch := s.epoch + 1)
  }

  function Exec(sv: Service, s: State, run: seq<Action>): State
    decreases |run|
  {
    if run == [] then s else Exec(sv, Apply(sv, s, run[0]), run[1..])
  }

  // ---------- what every reachable state satisfies ----------

  function Generation(pc: Pc): nat {
    match pc
    case StartNotifyBegin(g) => g
    case StartClearDevice(g) => g
    case StartFirstCheck(g) => g
    case StartAnnounce(g) => g
    case StartSpawn(g) => g
    case StartPublish(g) => g
    case StartNotifyPublished(g) => g
    case StartRefused(g) => g
    case StartJoin(g) => g
    case AbandonSlot(g) => g
    case StopNotify(g, _) => g
    case StopJoin(g, _) => g
    case StopFinish(g) => g
    case Working(g) => g
    case WorkerNoteLive(g) => g
    case WorkerNotify(g) => g
    case ReleaseSlot(g, _) => g
    case EndAnnounce(g, _) => g
    case _ => 0
  }

  predicate IssuedIn(origin: seq<Serial>, g: nat, k: Serial) {
    1 <= g <= |origin| && origin[g - 1] == k
  }

  predicate Issued(s: State, g: nat, k: Serial) {
    IssuedIn(s.origin, g, k)
  }

  ghost predicate Fits(t: Table, origin: seq<Serial>) {
    && |origin| == t.next
    && (forall k :: k in t.slots ==>
          && IssuedIn(origin, t.slots[k].generation, k)
          && (k in t.last ==> t.last[k] < t.slots[k].generation))
    && (forall k :: k in t.last ==> IssuedIn(origin, t.last[k], k))
  }

  ghost predicate TableOk(s: State) {
    Fits(s.table, s.origin)
  }

  /** The program counter carries a generation along. */
  predicate Carries(pc: Pc) {
    !(|| pc.StartDecide? || pc.StartSubscribe? || pc.StartRecheck? || pc.StartAsleep?
      || pc.StopDecide? || pc.StopSubscribe? || pc.StopRecheck? || pc.StopAsleep? || pc.EndNotify? || pc.Done?)
  }

  ghost predicate CallsOk(s: State) {
    forall i :: 0 <= i < |s.calls| && Carries(s.calls[i].pc) ==>
      Issued(s, Generation(s.calls[i].pc), s.calls[i].serial)
  }

  /** Generation `g` has been in the table and is not any more. */
  predicate Left(s: State, g: nat) {
    1 <= g <= |s.origin| && !HasSlot(s.table, s.origin[g - 1], g)
  }

  predicate Announcing(s: State, i: int, g: nat) {
    0 <= i < |s.calls| && s.calls[i].pc.EndAnnounce? && s.calls[i].pc.g == g
  }

  predicate EndedAt(s: State, n: int, g: nat) {
    0 <= n < |s.events| && s.events[n].Ended? && s.events[n].generation == g
  }

  ghost predicate EndingsSound(s: State) {
    && (forall i, g :: Announcing(s, i, g) ==> Left(s, g))
    && (forall n, g :: EndedAt(s, n, g) ==> Left(s, g) && s.events[n].serial == s.origin[g - 1])
    && (forall i, j, g :: Announcing(s, i, g) && Announcing(s, j, g) ==> i == j)
    && (forall m, n, g :: EndedAt(s, m, g) && EndedAt(s, n, g) ==> m == n)
    && (forall i, n, g :: Announcing(s, i, g) && EndedAt(s, n, g) ==> false)
  }

  ghost predicate EndingPublishedOrPending(s: State, g: nat) {
    (exists i :: Announcing(s, i, g)) || (exists n :: EndedAt(s, n, g))
  }

  ghost predicate EndingsComplete(s: State) {
    forall g :: Left(s, g) ==> EndingPublishedOrPending(s, g)
  }

  // ---------- wake-ups ----------

  /** The call will notify by its own next one or two steps, whatever the others do. */
  predicate Owes(pc: Pc) {
    || pc.StartNotifyBegin? || pc.StartNotifyPublished? || pc.StopNotify? || pc.WorkerNotify?
    || pc.EndAnnounce? || pc.EndNotify?
  }

  predicate OwesAt(s: State, i: int) {
    0 <= i < |s.calls| && Owes(s.calls[i].pc)
  }

  predicate Asleep(pc: Pc) {
    pc.StartAsleep? || pc.StopAsleep?
  }

  /** The condition the sleeping call re-checked before it went to sleep. */
  predicate MustWait(t: Table, c: Call) {
    if c.pc.StartAsleep? then StartMustWait(t, c.serial) else StopMustWait(t, c.serial)
  }

  /** Asleep, and not notified since the call subscribed. */
  predicate FastAsleep(s: State, i: int) {
    0 <= i < |s.calls| && Asleep(s.calls[i].pc) && s.epoch <= s.calls[i].pc.seen
  }

  ghost predicate SomeoneOwes(s: State) {
    exists j :: OwesAt(s, j)
  }

  ghost predicate WakeupsOk(s: State) {
    && (forall i :: 0 <= i < |s.calls| && (s.calls[i].pc.StartRecheck? || s.calls[i].pc.StopRecheck?
                                           || Asleep(s.calls[i].pc))
                    ==> s.calls[i].pc.seen <= s.epoch)
    && (forall i :: FastAsleep(s, i) && !MustWait(s.table, s.calls[i]) ==> SomeoneOwes(s))
  }

  // ---------- every transitional slot is somebody's job ----------

  /** The call that will take generation `g` out of Starting. */
  predicate DrivesStart(sv: Service, c: Call, k: Serial, g: nat) {
    && c.serial == k && Generation(c.pc) == g
    && (|| c.pc.StartNotifyBegin? || c.pc.StartClearDevice? || c.pc.StartFirstCheck?
        || c.pc.StartAnnounce? || c.pc.StartSpawn? || c.pc.AbandonSlot?
        || (sv.Capture? && c.pc.StartPublish?)
        || (sv.Mirror? && (c.pc.Working? || c.pc.WorkerNoteLive? || c.pc.WorkerNotify?
                           || c.pc.ReleaseSlot?)))
  }

  predicate DrivesStop(c: Call, k: Serial, g: nat) {
    c.serial == k && Generation(c.pc) == g && (c.pc.StopNotify? || c.pc.StopJoin? || c.pc.StopFinish?)
  }

  predicate Drives(sv: Service, s: State, j: int, k: Serial) {
    && 0 <= j < |s.calls| && k in s.table.slots
    && (s.table.slots[k].phase.Starting? ==> DrivesStart(sv, s.calls[j], k, s.table.slots[k].generation))
    && (s.table.slots[k].phase.Stopping? ==> DrivesStop(s.calls[j], k, s.table.slots[k].generation))
  }

  ghost predicate Driven(sv: Service, s: State, k: Serial) {
    exists j :: Drives(sv, s, j, k)
  }

  ghost predicate DriversOk(sv: Service, s: State) {
    forall k :: k in s.table.slots && !s.table.slots[k].phase.Live? ==> Driven(sv, s, k)
  }

  // ---------- joins ----------

  /** The call waits for the worker of its generation, or is about to. */
  predicate Joins(pc: Pc) {
    pc.StartJoin? || pc.StopNotify? || pc.StopJoin?
  }

  /** Whoever joins a worker has cancelled it before. */
  ghost predicate JoinsOk(s: State) {
    forall i :: 0 <= i < |s.calls| && Joins(s.calls[i].pc) ==> Generation(s.calls[i].pc) in s.cancelled
  }

  /** Where a worker of generation `g` can be: none of these steps waits for anyone. */
  predicate WorkerPc(pc: Pc, g: nat) {
    || pc.Done? || pc.EndNotify?
    || (Generation(pc) == g
        && (pc.Working? || pc.WorkerNoteLive? || pc.WorkerNotify? || pc.ReleaseSlot? || pc.EndAnnounce?))
  }

  ghost predicate WorkersOk(s: State) {
    forall i :: 0 <= i < |s.calls| && s.calls[i].works != 0 ==> WorkerPc(s.calls[i].pc, s.calls[i].works)
  }

  ghost predicate Inv(sv: Service, s: State) {
    && TableOk(s) && CallsOk(s) && EndingsSound(s) && EndingsComplete(s)
    && WakeupsOk(s) && DriversOk(sv, s) && JoinsOk(s) && WorkersOk(s)
  }

  // ---------- each step keeps the invariant ----------

  predicate Inserts(t: Table, u: Table, k: Serial) {
    k !in t.slots && u == Table(t.slots[k := Slot(t.next + 1, Starting, false)], t.last, t.next + 1)
  }

  predicate Rephases(t: Table, u: Table, k: Serial, p: Phase) {
    && k in t.slots && t.slots[k].phase != p && k in u.slots
    && u == t.(slots := t.slots[k := Slot(t.slots[k].generation, p, u.slots[k].handle)])
  }

  predicate StoresHandle(t: Table, u: Table, k: Serial) {
    k in t.slots && u == t.(slots := t.slots[k := t.slots[k].(handle := true)])
  }

  predicate Removes(sv: Service, t: Table, u: Table, k: Serial) {
    k in t.slots && u == Remove(sv, t, k)
  }

  /** The ways in which a step can treat the table, each with the program counter it leads to. */
  ghost predicate TableEffect(sv: Service, s: State, c: Call, e: Effect) {
    var t, k := s.table, c.serial;
    || (e.table == t && !e.pc.EndAnnounce?
        && (Carries(e.pc) ==> Carries(c.pc) && Generation(e.pc) == Generation(c.pc)))
    || (Inserts(t, e.table, k) && e.pc == StartNotifyBegin(t.next + 1))
    || (Rephases(t, e.table, k, Live) && t.slots[k].phase.Starting? && Owes(e.pc)
        && Carries(c.pc) && Generation(e.pc) == Generation(c.pc) && !e.pc.EndAnnounce?)
    || (Rephases(t, e.table, k, Stopping) && e.pc == StopNotify(t.slots[k].generation, t.slots[k].handle))
    || (sv.Mirror? && StoresHandle(t, e.table, k) && t.slots[k].phase.Starting? && c.pc.StartPublish?
        && e.pc == StartNotifyPublished(c.pc.g))
    || (Removes(sv, t, e.table, k) && e.pc.EndAnnounce? && !c.pc.EndAnnounce?
        && e.pc.g == t.slots[k].generation == Generation(c.pc))
  }

  ghost predicate EventEffect(s: State, c: Call, e: Effect) {
    && (c.pc.EndAnnounce? ==>
          e == Go(s, EndNotify).(event := Some(Ended(c.serial, c.pc.g, c.pc.failed))))
    && (e.event.Some? && e.event.value.Ended? ==> c.pc.EndAnnounce?)
    && (e.spawns ==> c.pc.StartSpawn? && e.pc == StartPublish(c.pc.g) && e.table == s.table)
  }

  /** A debt is paid by notifying. */
  predicate DebtEffect(c: Call, e: Effect) {
    Owes(c.pc) && !e.notifies ==> c.pc.EndAnnounce? && e.pc.EndNotify?
  }

  /** A call goes to sleep only on a condition that holds. */
  predicate SleepEffect(s: State, c: Call, e: Effect) {
    && (e.pc.StartRecheck? || e.pc.StopRecheck? ==> e.pc.seen == s.epoch)
    && (Asleep(e.pc) ==>
          && e.table == s.table && !e.notifies
          && (e.pc == c.pc || ((c.pc.StartRecheck? || c.pc.StopRecheck?) && e.pc.seen == c.pc.seen
                               && MustWait(s.table, c.(pc := e.pc)))))
  }

  /** The serial's slot is there before and after, of one generation and in one phase. */
  predicate SameStage(t: Table, u: Table, k: Serial) {
    && k in t.slots && k in u.slots
    && t.slots[k].generation == u.slots[k].generation && t.slots[k].phase == u.slots[k].phase
  }

  ghost predicate DriveEffect(sv: Service, s: State, c: Call, e: Effect) {
    var k, g := c.serial, Generation(c.pc);
    HasSlot(s.table, k, g) && SameStage(s.table, e.table, k) ==>
      && (s.table.slots[k].phase.Starting? && DrivesStart(sv, c, k, g) ==>
            DrivesStart(sv, c.(pc := e.pc), k, g) || (sv.Mirror? && e.spawns && Generation(e.pc) == g))
      && (s.table.slots[k].phase.Stopping? && DrivesStop(c, k, g) ==> DrivesStop(c.(pc := e.pc), k, g))
  }

  predicate JoinEffect(c: Call, e: Effect) {
    && (Joins(e.pc) ==> Generation(e.pc) in e.cancels || (Joins(c.pc) && Generation(e.pc) == Generation(c.pc)))
    && (c.works != 0 && WorkerPc(c.pc, c.works) ==> WorkerPc(e.pc, c.works))
  }

  predicate LocksTable(pc: Pc) {
    || pc.StartDecide? || pc.StartPublish? || pc.AbandonSlot? || pc.StopDecide? || pc.StopFinish?
    || pc.WorkerNoteLive? || pc.ReleaseSlot?
  }

  lemma QuietEffectHolds(sv: Service, s: State, c: Call, pick: bool, failed: bool)
    requires !LocksTable(c.pc)
    ensures TableEffect(sv, s, c, EffectOf(sv, s, c, pick, failed))
  {
  }

  lemma TableEffectHolds(sv: Service, s: State, c: Call, pick: bool, failed: bool)
    ensures TableEffect(sv, s, c, EffectOf(sv, s, c, pick, failed))
  {
    match c.pc
    case StartDecide =>
    case StartPublish(_) =>
    case AbandonSlot(_) =>
    case StopDecide =>
    case StopFinish(_) =>
    case WorkerNoteLive(_) =>
    case ReleaseSlot(_, _) =>
    case _ =>
      QuietEffectHolds(sv, s, c, pick, failed);
  }

  lemma EventEffectHolds(sv: Service, s: State, c: Call, pick: bool, failed: bool)
    ensures EventEffect(s, c, EffectOf(sv, s, c, pick, failed))
  {
  }

  lemma DebtEffectHolds(sv: Service, s: State, c: Call, pick: bool, failed: bool)
    ensures DebtEffect(c, EffectOf(sv, s, c, pick, failed))
  {
  }

  lemma SleepEffectHolds(sv: Service, s: State, c: Call, pick: bool, failed: bool)
    ensures SleepEffect(s, c, EffectOf(sv, s, c, pick, failed))
  {
  }

  lemma JoinerHasCancelled(sv: Service, s: State, c: Call, pick: bool, failed: bool)
    ensures var e := EffectOf(sv, s, c, pick, failed);
      Joins(e.pc) ==> Generation(e.pc) in e.cancels || (Joins(c.pc) && Generation(e.pc) == Generation(c.pc))
  {
  }

  lemma WorkerStaysWorker(sv: Service, s: State, c: Call, pick: bool, failed: bool)
    requires c.works != 0 && WorkerPc(c.pc, c.works)
    ensures WorkerPc(EffectOf(sv, s, c, pick, failed).pc, c.works)
  {
  }

  lemma JoinEffectHolds(sv: Service, s: State, c: Call, pick: bool, failed: bool)
    ensures JoinEffect(c, EffectOf(sv, s, c, pick, failed))
  {
    JoinerHasCancelled(sv, s, c, pick, failed);
    if c.works != 0 && WorkerPc(c.pc, c.works) {
      WorkerStaysWorker(sv, s, c, pick, failed);
    }
  }

  lemma DriveEffectHolds(sv: Service, s: State, c: Call, pick: bool, failed: bool)
    ensures DriveEffect(sv, s, c, EffectOf(sv, s, c, pick, failed))
  {
  }

  lemma InsertKeepsFit(t: Table, u: Table, origin: seq<Serial>, k: Serial)
    requires Fits(t, origin) && Inserts(t, u, k)
    ensures Fits(u, origin + [k])
  {
  }

  lemma RephaseKeepsFit(t: Table, u: Table, origin: seq<Serial>, k: Serial, p: Phase)
    requires Fits(t, origin) && Rephases(t, u, k, p)
    ensures Fits(u, origin)
  {
  }

  lemma HandleKeepsFit(t: Table, u: Table, origin: seq<Serial>, k: Serial)
    requires Fits(t, origin) && StoresHandle(t, u, k)
    ensures Fits(u, origin)
  {
  }

  lemma RemoveKeepsFit(sv: Service, t: Table, u: Table, origin: seq<Serial>, k: Serial)
    requires Fits(t, origin) && Removes(sv, t, u, k)
    ensures Fits(u, origin)
  {
  }

  lemma StepKeepsTable(sv: Service, s: State, i: nat, e: Effect)
    requires i < |s.calls| && TableOk(s) && TableEffect(sv, s, s.calls[i], e)
    ensures TableOk(StepCall(s, i, e))
  {
    var k := s.calls[i].serial;
    if Inserts(s.table, e.table, k) {
      InsertKeepsFit(s.table, e.table, s.origin, k);
    } else if Removes(sv, s.table, e.table, k) {
      RemoveKeepsFit(sv, s.table, e.table, s.origin, k);
    } else if StoresHandle(s.table, e.table, k) {
      HandleKeepsFit(s.table, e.table, s.origin, k);
    } else if e.table != s.table {
      RephaseKeepsFit(s.table, e.table, s.origin, k, e.table.slots[k].phase);
    }
  }

  lemma StepKeepsCalls(sv: Service, s: State, i: nat, e: Effect)
    requires i < |s.calls| && TableOk(s) && CallsOk(s)
    requires TableEffect(sv, s, s.calls[i], e) && EventEffect(s, s.calls[i], e)
    ensures CallsOk(StepCall(s, i, e))
  {
  }

  lemma StepKeepsEndingsSound(sv: Service, s: State, i: nat, e: Effect)
    requires i < |s.calls| && TableOk(s) && CallsOk(s) && EndingsSound(s)
    requires TableEffect(sv, s, s.calls[i], e) && EventEffect(s, s.calls[i], e)
    ensures EndingsSound(StepCall(s, i, e))
  {
    var u := StepCall(s, i, e);
    forall g | Left(s, g)
      ensures Left(u, g) && u.origin[g - 1] == s.origin[g - 1]
    {
    }
    forall j, g | Announcing(u, j, g)
      ensures Announcing(s, j, g) || (j == i && !Left(s, g) && Left(u, g))
    {
    }
    forall n, g | EndedAt(u, n, g)
      ensures EndedAt(s, n, g) || (n == |s.events| && Announcing(s, i, g) && !Announcing(u, i, g))
    {
    }
    forall i', n, g | Announcing(u, i', g) && EndedAt(u, n, g)
      ensures false
    {
    }
  }

  lemma StepKeepsEndingsComplete(sv: Service, s: State, i: nat, e: Effect)
    requires i < |s.calls| && TableOk(s) && CallsOk(s) && EndingsComplete(s)
    requires TableEffect(sv, s, s.calls[i], e) && EventEffect(s, s.calls[i], e)
    ensures EndingsComplete(StepCall(s, i, e))
  {
    var u := StepCall(s, i, e);
    forall g | Left(u, g)
      ensures EndingPublishedOrPending(u, g)
    {
      if Left(s, g) {
        EndingStays(s, i, e, g);
      } else {
        assert Announcing(u, i, g);
      }
    }
  }

  lemma EndingStays(s: State, i: int, e: Effect, g: nat)
    requires 0 <= i < |s.calls| && EventEffect(s, s.calls[i], e) && EndingPublishedOrPending(s, g)
    ensures EndingPublishedOrPending(StepCall(s, i, e), g)
  {
    var u := StepCall(s, i, e);
    if n :| EndedAt(s, n, g) {
      assert EndedAt(u, n, g);
    } else {
      var j :| Announcing(s, j, g);
      assert Announcing(u, j, g) || EndedAt(u, |s.events|, g);
    }
  }

  lemma StepKeepsWakeups(sv: Service, s: State, i: nat, e: Effect)
    requires i < |s.calls| && WakeupsOk(s)
    requires TableEffect(sv, s, s.calls[i], e) && EventEffect(s, s.calls[i], e)
    requires DebtEffect(s.calls[i], e) && SleepEffect(s, s.calls[i], e)
    ensures WakeupsOk(StepCall(s, i, e))
  {
    var u := StepCall(s, i, e);
    forall j | FastAsleep(u, j) && !MustWait(u.table, u.calls[j])
      ensures SomeoneOwes(u)
    {
      if FastAsleep(s, j) && !MustWait(s.table, s.calls[j]) {
        var d :| OwesAt(s, d);
        assert OwesAt(u, d);
      } else {
        assert OwesAt(u, i);
      }
    }
  }

  /** Who drives a slot goes on driving it, or has spawned the worker that does. */
  lemma DriverStays(sv: Service, s: State, i: nat, e: Effect, k: Serial, j: int)
    requires i < |s.calls| && Drives(sv, s, j, k) && SameStage(s.table, e.table, k)
    requires !s.table.slots[k].phase.Live? && DriveEffect(sv, s, s.calls[i], e)
    ensures Drives(sv, StepCall(s, i, e), j, k) || Drives(sv, StepCall(s, i, e), |s.calls|, k)
  {
  }

  lemma StepKeepsDrivers(sv: Service, s: State, i: nat, e: Effect)
    requires i < |s.calls| && TableOk(s) && CallsOk(s) && DriversOk(sv, s)
    requires TableEffect(sv, s, s.calls[i], e) && EventEffect(s, s.calls[i], e)
    requires DriveEffect(sv, s, s.calls[i], e)
    ensures DriversOk(sv, StepCall(s, i, e))
  {
    var u := StepCall(s, i, e);
    forall k | k in u.table.slots && !u.table.slots[k].phase.Live?
      ensures Driven(sv, u, k)
    {
      if SameStage(s.table, u.table, k) {
        var j :| Drives(sv, s, j, k);
        DriverStays(sv, s, i, e, k, j);
      } else {
        assert Drives(sv, u, i, k);
      }
    }
  }

  lemma StepKeepsJoins(sv: Service, s: State, i: nat, e: Effect)
    requires i < |s.calls| && JoinsOk(s) && WorkersOk(s)
    requires JoinEffect(s.calls[i], e) && EventEffect(s, s.calls[i], e)
    ensures JoinsOk(StepCall(s, i, e)) && WorkersOk(StepCall(s, i, e))
  {
  }

  lemma StepKeepsIssued(sv: Service, s: State, i: nat, e: Effect, g: nat)
    requires i < |s.calls| && TableOk(s) && TableEffect(sv, s, s.calls[i], e)
    ensures s.origin <= StepCall(s, i, e).origin
    ensures Left(s, g) ==> Left(StepCall(s, i, e), g)
  {
  }

  lemma StepKeepsStatus(s: State, i: nat, e: Effect, k: Serial)
    requires i < |s.calls| && TableOk(s) && TableEffect(Capture, s, s.calls[i], e)
    ensures StatusGeneration(s.table, k) <= StatusGeneration(StepCall(s, i, e).table, k)
  {
  }

  lemma ActionKeepsInvariant(sv: Service, s: State, a: Action)
    requires Inv(sv, s)
    ensures Inv(sv, Apply(sv, s, a))
  {
    var u := Apply(sv, s, a);
    if a.Run? && a.call < |s.calls| {
      var c, i := s.calls[a.call], a.call;
      var e := EffectOf(sv, s, c, a.pick, a.failed);
      TableEffectHolds(sv, s, c, a.pick, a.failed);
      EventEffectHolds(sv, s, c, a.pick, a.failed);
      DebtEffectHolds(sv, s, c, a.pick, a.failed);
      SleepEffectHolds(sv, s, c, a.pick, a.failed);
      DriveEffectHolds(sv, s, c, a.pick, a.failed);
      StepKeepsTable(sv, s, i, e);
      StepKeepsCalls(sv, s, i, e);
      StepKeepsEndingsSound(sv, s, i, e);
      StepKeepsEndingsComplete(sv, s, i, e);
      StepKeepsWakeups(sv, s, i, e);
      StepKeepsDrivers(sv, s, i, e);
      JoinEffectHolds(sv, s, c, a.pick, a.failed);
      StepKeepsJoins(sv, s, i, e);
    } else if a.CallStart? || a.CallStop? || a.OtherNotify? || a.CancelRoot? {
      OtherActionKeepsInvariant(sv, s, a);
    }
  }

  /** A new call, a cancelled root and a notify from elsewhere keep what is there. */
  lemma OtherActionKeepsInvariant(sv: Service, s: State, a: Action)
    requires Inv(sv, s) && !a.Run?
    ensures Inv(sv, Apply(sv, s, a))
  {
    var u := Apply(sv, s, a);
    forall j, g
      ensures Announcing(u, j, g) == Announcing(s, j, g)
      ensures EndedAt(u, j, g) == EndedAt(s, j, g)
      ensures Left(u, g) == Left(s, g)
    {
    }
    forall g | Left(u, g)
      ensures EndingPublishedOrPending(u, g)
    {
      if n :| EndedAt(s, n, g) {
        assert EndedAt(u, n, g);
      } else {
        var j :| Announcing(s, j, g);
        assert Announcing(u, j, g);
      }
    }
    forall j | FastAsleep(u, j) && !MustWait(u.table, u.calls[j])
      ensures SomeoneOwes(u)
    {
      assert FastAsleep(s, j);
      var d :| OwesAt(s, d);
      assert OwesAt(u, d);
    }
    forall k | k in u.table.slots && !u.table.slots[k].phase.Live?
      ensures Driven(sv, u, k)
    {
      var j :| Drives(sv, s, j, k);
      assert Drives(sv, u, j, k);
    }
  }
}
