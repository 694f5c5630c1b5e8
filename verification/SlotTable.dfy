/** The slot table shared by the log capture service and the mirror service.

    Both services keep at most one slot for each device serial, number the slots with a
    counter that never goes back, and guard every later change of a slot by the number
    (the generation) that the caller was given. The two services differ only in a few
    guards, which `Service` selects. */
module SlotTable {

  import opened Options

  type Serial = string

  datatype Service = Capture | Mirror

  datatype Phase = Starting | Live | Stopping

  /** `handle` says whether the slot holds the handle of its worker, for a stop to take and join. */
  datatype Slot = Slot(generation: nat, phase: Phase, handle: bool)

  /** The fields behind the service's mutex. `last` is kept by the capture service only. */
  datatype Table = Table(slots: map<Serial, Slot>, last: map<Serial, nat>, next: nat)

  datatype Decision = Adopt(generation: nat) | Begin(generation: nat) | Wait

  const EMPTY_TABLE := Table(map[], map[], 0)

  // ---------- guards ----------

  predicate HasSlot(t: Table, s: Serial, g: nat) {
    s in t.slots && t.slots[s].generation == g
  }

  predicate InPhase(t: Table, s: Serial, p: Phase) {
    s in t.slots && t.slots[s].phase == p
  }

  /** Starting and Live occupy a capture; Stopping does not. */
  predicate Occupies(p: Phase) {
    p.Starting? || p.Live?
  }

  /** A worker's own ending removes an occupied capture slot, but any phase of a mirror slot. */
  predicate CanRelease(sv: Service, t: Table, s: Serial, g: nat) {
    HasSlot(t, s, g) && (sv.Mirror? || Occupies(t.slots[s].phase))
  }

  predicate StartMustWait(t: Table, s: Serial) {
    InPhase(t, s, Starting) || InPhase(t, s, Stopping)
  }

  predicate StopMustWait(t: Table, s: Serial) {
    InPhase(t, s, Stopping)
  }

  // ---------- one function for each lock section ----------

  function DecideStart(t: Table, s: Serial): (r: (Table, Decision)) {
    if s !in t.slots then
      (Table(t.slots[s := Slot(t.next + 1, Starting, false)], t.last, t.next + 1), Begin(t.next + 1))
    else if t.slots[s].phase.Live? then
      (t, Adopt(t.slots[s].generation))
    else
      (t, Wait)
  }

  function SetPhase(t: Table, s: Serial, p: Phase): Table
    requires s in t.slots
  {
    t.(slots := t.slots[s := t.slots[s].(phase := p)])
  }

  /** The worker handle is stored. Capture: the started slot becomes Live with it. Mirror: the first
      picture marks the slot Live; if it comes before the handle, the start is refused. */
  function PublishStart(sv: Service, t: Table, s: Serial, g: nat): (r: (Table, bool)) {
    if HasSlot(t, s, g) && t.slots[s].phase.Starting? then
      (t.(slots := t.slots[s := Slot(g, if sv.Capture? then Live else Starting, true)]), true)
    else
      (t, false)
  }

  function NoteLive(t: Table, s: Serial, g: nat): Table {
    if HasSlot(t, s, g) && t.slots[s].phase.Starting? then SetPhase(t, s, Live) else t
  }

  datatype Stopped = Busy | Nothing | Taken(generation: nat, handle: bool)

  /** The stop takes the handle out of the slot. Another stop may already be at work. */
  function BeginStop(t: Table, s: Serial): (r: (Table, Stopped)) {
    if s !in t.slots then (t, Nothing)
    else if t.slots[s].phase.Stopping? then (t, Busy)
    else
      (t.(slots := t.slots[s := Slot(t.slots[s].generation, Stopping, false)]),
       Taken(t.slots[s].generation, t.slots[s].handle))
  }

  function Remove(sv: Service, t: Table, s: Serial): Table
    requires s in t.slots
  {
    Table(t.slots - {s}, if sv.Capture? then t.last[s := t.slots[s].generation] else t.last, t.next)
  }

  function FinishStop(sv: Service, t: Table, s: Serial, g: nat): (r: (Table, bool)) {
    if HasSlot(t, s, g) && t.slots[s].phase.Stopping? then (Remove(sv, t, s), true) else (t, false)
  }

  function AbandonStarting(sv: Service, t: Table, s: Serial, g: nat): (r: (Table, bool)) {
    if HasSlot(t, s, g) && t.slots[s].phase.Starting? then (Remove(sv, t, s), true) else (t, false)
  }

  function ReleaseIfCurrent(sv: Service, t: Table, s: Serial, g: nat): (r: (Table, bool)) {
    if CanRelease(sv, t, s, g) then (Remove(sv, t, s), true) else (t, false)
  }

  /** `status().generation`: the slot's, else the last one removed, else 0. */
  function StatusGeneration(t: Table, s: Serial): nat {
    if s in t.slots then t.slots[s].generation
    else if s in t.last then t.last[s]
    else 0
  }

  predicate StatusCapturing(t: Table, s: Serial) {
    s in t.slots && Occupies(t.slots[s].phase)
  }

  /** A section that was handed generation `g` leaves every other slot as it is, and when `g`
      does not hold the serial's slot it changes nothing at all. */
  ghost predicate TouchesOnly(t: Table, u: Table, s: Serial, g: nat) {
    && u.next == t.next
    && u.slots.Keys <= t.slots.Keys
    && (forall k :: k in t.slots && (k != s || t.slots[k].generation != g)
                    ==> k in u.slots && u.slots[k] == t.slots[k])
    && (forall k :: k in u.slots ==> u.slots[k].generation == t.slots[k].generation)
    && (!HasSlot(t, s, g) ==> u == t)
  }

  /** No abandon, publish, release or end of a stop for one generation touches another's slot. */
  lemma GenerationsAreIsolated(sv: Service, t: Table, s: Serial, g: nat)
    ensures TouchesOnly(t, PublishStart(sv, t, s, g).0, s, g)
    ensures TouchesOnly(t, NoteLive(t, s, g), s, g)
    ensures TouchesOnly(t, FinishStop(sv, t, s, g).0, s, g)
    ensures TouchesOnly(t, AbandonStarting(sv, t, s, g).0, s, g)
    ensures TouchesOnly(t, ReleaseIfCurrent(sv, t, s, g).0, s, g)
  {
  }

  /** Nothing but the slot of `s` has changed. */
  ghost predicate OthersStay(t: Table, u: Table, s: Serial) {
    u.slots - {s} == t.slots - {s} && u.next == t.next
  }

  /** The slot of `s` is gone; the capture service remembers its generation. */
  ghost predicate Removed(sv: Service, t: Table, u: Table, s: Serial) {
    && s in t.slots && s !in u.slots && OthersStay(t, u, s)
    && (sv.Capture? ==> s in u.last && u.last[s] == t.slots[s].generation && u.last - {s} == t.last - {s})
    && (sv.Mirror? ==> u.last == t.last)
  }

  /** The fields behind the mutex, and its lock sections as methods. */
  class SlotBook {
    const service: Service
    var slots: map<Serial, Slot>
    var last: map<Serial, nat>
    var next: nat

    ghost function View(): Table
      reads this
    {
      Table(slots, last, next)
    }

    constructor (service: Service)
      ensures this.service == service && View() == EMPTY_TABLE
    {
      this.service := service;
      slots, last, next := map[], map[], 0;
    }

    method Decide(s: Serial) returns (d: Decision)
      modifies this
      ensures (View(), d) == DecideStart(old(View()), s)
      ensures match d
        case Adopt(g) => View() == old(View()) && HasSlot(View(), s, g) && InPhase(View(), s, Live)
        case Wait => View() == old(View()) && StartMustWait(View(), s)
        case Begin(g) =>
          && s !in old(slots) && g == next == old(next) + 1 && last == old(last)
          && HasSlot(View(), s, g) && InPhase(View(), s, Starting) && slots - {s} == old(slots)
    {
      if s in slots {
        if slots[s].phase.Live? {
          d := Adopt(slots[s].generation);
        } else {
          d := Wait;
        }
      } else {
        next := next + 1;
        slots := slots[s := Slot(next, Starting, false)];
        d := Begin(next);
      }
    }

    method Publish(s: Serial, g: nat) returns (published: bool)
      modifies this
      ensures (View(), published) == PublishStart(service, old(View()), s, g)
      ensures published <==> HasSlot(old(View()), s, g) && InPhase(old(View()), s, Starting)
      ensures !published ==> View() == old(View())
      ensures published ==>
        && HasSlot(View(), s, g) && slots[s].handle && InPhase(View(), s, if service.Capture? then Live else Starting)
        && OthersStay(old(View()), View(), s) && last == old(last)
    {
      published := s in slots && slots[s].generation == g && slots[s].phase.Starting?;
      if published {
        var phase := if service.Capture? then Live else Starting;
        slots := slots[s := slots[s].(phase := phase, handle := true)];
      }
    }

    method MarkLive(s: Serial, g: nat)
      modifies this
      ensures View() == NoteLive(old(View()), s, g)
      ensures if HasSlot(old(View()), s, g) && InPhase(old(View()), s, Starting)
              then HasSlot(View(), s, g) && InPhase(View(), s, Live) && slots[s].handle == old(slots)[s].handle
                   && OthersStay(old(View()), View(), s) && last == old(last)
              else View() == old(View())
    {
      if s in slots && slots[s].generation == g && slots[s].phase.Starting? {
        slots := slots[s := slots[s].(phase := Live)];
      }
    }

    method Stop(s: Serial) returns (r: Stopped)
      modifies this
      ensures (View(), r) == BeginStop(old(View()), s)
      ensures r.Nothing? <==> s !in old(slots)
      ensures r.Busy? <==> InPhase(old(View()), s, Stopping)
      ensures !r.Taken? ==> View() == old(View())
      ensures r.Taken? ==>
        && HasSlot(old(View()), s, r.generation) && r.handle == old(slots)[s].handle
        && HasSlot(View(), s, r.generation) && InPhase(View(), s, Stopping) && !slots[s].handle
        && OthersStay(old(View()), View(), s) && last == old(last)
    {
      if s !in slots {
        r := Nothing;
      } else if slots[s].phase.Stopping? {
        r := Busy;
      } else {
        r := Taken(slots[s].generation, slots[s].handle);
        slots := slots[s := slots[s].(phase := Stopping, handle := false)];
      }
    }

    method RememberAndRemove(s: Serial)
      requires s in slots
      modifies this
      ensures View() == Remove(service, old(View()), s)
      ensures Removed(service, old(View()), View(), s)
    {
      if service.Capture? {
        last := last[s := slots[s].generation];
      }
      slots := slots - {s};
    }

    method Finish(s: Serial, g: nat) returns (emit: bool)
      modifies this
      ensures (View(), emit) == FinishStop(service, old(View()), s, g)
      ensures emit <==> HasSlot(old(View()), s, g) && InPhase(old(View()), s, Stopping)
      ensures if emit then Removed(service, old(View()), View(), s) else View() == old(View())
    {
      emit := s in slots && slots[s].generation == g && slots[s].phase.Stopping?;
      if emit {
        RememberAndRemove(s);
      }
    }

    method Abandon(s: Serial, g: nat) returns (dropped: bool)
      modifies this
      ensures (View(), dropped) == AbandonStarting(service, old(View()), s, g)
      ensures dropped <==> HasSlot(old(View()), s, g) && InPhase(old(View()), s, Starting)
      ensures if dropped then Removed(service, old(View()), View(), s) else View() == old(View())
    {
      dropped := s in slots && slots[s].generation == g && slots[s].phase.Starting?;
      if dropped {
        RememberAndRemove(s);
      }
    }

    method Release(s: Serial, g: nat) returns (taken: bool)
      modifies this
      ensures (View(), taken) == ReleaseIfCurrent(service, old(View()), s, g)
      ensures taken <==> HasSlot(old(View()), s, g) && !(service.Capture? && InPhase(old(View()), s, Stopping))
      ensures if taken then Removed(service, old(View()), View(), s) else View() == old(View())
    {
      taken := s in slots && slots[s].generation == g &&
               (service.Mirror? || Occupies(slots[s].phase));
      if taken {
        RememberAndRemove(s);
      }
    }

    method Status(s: Serial) returns (capturing: bool, generation: nat)
      ensures capturing == StatusCapturing(View(), s)
      ensures generation == StatusGeneration(View(), s)
      ensures capturing <==> InPhase(View(), s, Starting) || InPhase(View(), s, Live)
      ensures s in slots ==> HasSlot(View(), s, generation)
      ensures s !in slots ==> generation == if s in last then last[s] else 0
    {
      if s in slots {
        capturing, generation := Occupies(slots[s].phase), slots[s].generation;
      } else if s in last {
        capturing, generation := false, last[s];
      } else {
        capturing, generation := false, 0;
      }
    }
  }
}
