/** What holds in every run of a slot service, whatever calls arrive and however they interleave. */
module SlotRuns {

  import opened SlotTable
  import opened SlotProtocol

  lemma {:induction false} InvariantAlongRun(sv: Service, s: State, run: seq<Action>)
    requires Inv(sv, s)
    ensures Inv(sv, Exec(sv, s, run))
    decreases |run|
  {
    if run != [] {
      ActionKeepsInvariant(sv, s, run[0]);
      InvariantAlongRun(sv, Apply(sv, s, run[0]), run[1..]);
    }
  }

  lemma Invariant(sv: Service, run: seq<Action>)
    ensures Inv(sv, Exec(sv, INITIAL, run))
  {
    InvariantAlongRun(sv, INITIAL, run);
  }

  lemma {:induction false} ExecAppend(sv: Service, s: State, run: seq<Action>, more: seq<Action>)
    ensures Exec(sv, s, run + more) == Exec(sv, Exec(sv, s, run), more)
    decreases |run|
  {
    if run == [] {
      assert run + more == more;
    } else {
      assert (run + more)[1..] == run[1..] + more;
      ExecAppend(sv, Apply(sv, s, run[0]), run[1..], more);
    }
  }

  lemma ExecOneMore(sv: Service, run: seq<Action>, a: Action)
    ensures Exec(sv, INITIAL, run + [a]) == Apply(sv, Exec(sv, INITIAL, run), a)
  {
    ExecAppend(sv, INITIAL, run, [a]);
    assert [a][1..] == [];
  }

  // ---------- no lost wake-up ----------

  predicate Runs(s: State, i: nat) {
    i < |s.calls| && (s.calls[i].pc.StartDecide? || s.calls[i].pc.StopDecide?)
  }

  function Step(i: nat): Action {
    Run(i, false, false)
  }

  /** Two steps of a call that owes a notify end the sleep of any other call. */
  lemma DebtorWakesSleeper(sv: Service, s: State, i: nat, j: nat)
    requires i < |s.calls| && j < |s.calls| && Asleep(s.calls[i].pc)
    requires s.calls[i].pc.seen <= s.epoch && OwesAt(s, j)
    ensures i != j
    ensures Runs(Exec(sv, s, [Step(j), Step(j), Step(i)]), i)
  {
    var s1 := Apply(sv, s, Step(j));
    var s2 := Apply(sv, s1, Step(j));
    DebtStep(sv, s, i, j);
    if s1.epoch > s.epoch {
      AnyStep(sv, s1, i, j);
    } else {
      DebtStep(sv, s1, i, j);
    }
    ThreeSteps(sv, s, Step(j), Step(j), Step(i));
  }

  lemma ThreeSteps(sv: Service, s: State, a: Action, b: Action, c: Action)
    ensures Exec(sv, s, [a, b, c]) == Apply(sv, Apply(sv, Apply(sv, s, a), b), c)
  {
    var s1 := Apply(sv, s, a);
    FirstStep(sv, s, a, [b, c]);
    FirstStep(sv, s1, b, [c]);
    FirstStep(sv, Apply(sv, s1, b), c, []);
    assert [a] + [b, c] == [a, b, c] && [b] + [c] == [b, c] && [c] + [] == [c];
  }

  lemma FirstStep(sv: Service, s: State, a: Action, rest: seq<Action>)
    ensures Exec(sv, s, [a] + rest) == Exec(sv, Apply(sv, s, a), rest)
  {
    assert ([a] + rest)[1..] == rest;
  }

  /** A call that owes a notify either notifies now or, having published, is about to. */
  lemma DebtStep(sv: Service, s: State, i: nat, j: nat)
    requires i < |s.calls| && i != j && OwesAt(s, j)
    ensures var u := Apply(sv, s, Step(j));
      && i < |u.calls| && u.calls[i] == s.calls[i]
      && (u.epoch > s.epoch || (s.calls[j].pc.EndAnnounce? && OwesAt(u, j) && u.calls[j].pc.EndNotify?
                                && u.epoch == s.epoch))
  {
  }

  lemma AnyStep(sv: Service, s: State, i: nat, j: nat)
    requires i < |s.calls| && i != j && j < |s.calls|
    ensures var u := Apply(sv, s, Step(j));
      i < |u.calls| && u.calls[i] == s.calls[i] && u.epoch >= s.epoch
  {
  }

  /** No lost wake-up: in every run, a call still asleep although the phase it waits on is gone,
      and not notified since it subscribed, is owed a notify by another call. */
  lemma NoLostWakeup(sv: Service, run: seq<Action>, i: nat)
    requires var s := Exec(sv, INITIAL, run); FastAsleep(s, i) && !MustWait(s.table, s.calls[i])
    ensures var s := Exec(sv, INITIAL, run);
      exists j: nat :: j != i && OwesAt(s, j) && Runs(Exec(sv, s, [Step(j), Step(j), Step(i)]), i)
  {
    var s := Exec(sv, INITIAL, run);
    Invariant(sv, run);
    var j: nat :| OwesAt(s, j);
    DebtorWakesSleeper(sv, s, i, j);
  }

  /** Call `j` is not finished and waits for no other call: its next step moves it, whatever the
      outcome. A device's answer is such a step. */
  ghost predicate CanMove(sv: Service, s: State, j: nat) {
    && j < |s.calls|
    && forall pick, failed ::
         EffectOf(sv, s, s.calls[j], pick, failed).pc != s.calls[j].pc
  }

  /** Call `i` is held up by a join: the worker it waits for has not ended. */
  predicate HeldByJoin(s: State, i: nat) {
    && i < |s.calls|
    && (s.calls[i].pc.StartJoin? || (s.calls[i].pc.StopJoin? && s.calls[i].pc.joins))
    && !WorkerDone(s, Generation(s.calls[i].pc))
  }

  /** The worker that holds up a join is cancelled and on its way: its next step moves it. */
  lemma JoinedWorkerCanMove(sv: Service, s: State, i: nat) returns (j: nat)
    requires Inv(sv, s) && HeldByJoin(s, i)
    ensures CanMove(sv, s, j) && s.calls[j].works == Generation(s.calls[i].pc)
  {
    var g := Generation(s.calls[i].pc);
    assert Issued(s, g, s.calls[i].serial);
    j :| j < |s.calls| && s.calls[j].works == g && !s.calls[j].pc.Done?;
    CancelledWorkerCanMove(sv, s, j);
  }

  lemma CancelledWorkerCanMove(sv: Service, s: State, j: nat)
    requires j < |s.calls| && s.calls[j].works in s.cancelled && !s.calls[j].pc.Done?
    requires WorkerPc(s.calls[j].pc, s.calls[j].works)
    ensures CanMove(sv, s, j)
  {
  }

  lemma DriverCanMove(sv: Service, s: State, j: nat, k: Serial)
    requires StartMustWait(s.table, k) && Drives(sv, s, j, k) && !HeldByJoin(s, j)
    ensures CanMove(sv, s, j)
  {
  }

  lemma DebtorCanMove(sv: Service, s: State, j: nat)
    requires OwesAt(s, j)
    ensures CanMove(sv, s, j)
  {
  }

  /** Call `j` has to do with what call `i` waits for: it is the call itself, owes a notify, is about the
      same serial, or is a worker of a generation of that serial. */
  predicate Concerns(s: State, i: nat, j: nat) {
    && i < |s.calls| && j < |s.calls|
    && (j == i || OwesAt(s, j) || s.calls[j].serial == s.calls[i].serial
        || (s.calls[j].works != 0 && Issued(s, s.calls[j].works, s.calls[i].serial)))
  }

  /** No deadlock: whenever a call sleeps on the notification or is held up by a join, a call that
      concerns it can move. */
  lemma NoDeadlock(sv: Service, run: seq<Action>, i: nat)
    requires var s := Exec(sv, INITIAL, run);
      (i < |s.calls| && Asleep(s.calls[i].pc)) || HeldByJoin(s, i)
    ensures var s := Exec(sv, INITIAL, run);
      exists j :: CanMove(sv, s, j) && Concerns(s, i, j)
  {
    var s := Exec(sv, INITIAL, run);
    Invariant(sv, run);
    if HeldByJoin(s, i) {
      var j := JoinedWorkerCanMove(sv, s, i);
      assert Issued(s, Generation(s.calls[i].pc), s.calls[i].serial);
      assert Concerns(s, i, j);
    } else if !FastAsleep(s, i) {
      assert CanMove(sv, s, i) && Concerns(s, i, i);
    } else if MustWait(s.table, s.calls[i]) {
      var j: nat :| Drives(sv, s, j, s.calls[i].serial);
      if HeldByJoin(s, j) {
        var w := JoinedWorkerCanMove(sv, s, j);
        assert Issued(s, Generation(s.calls[j].pc), s.calls[i].serial);
        assert Concerns(s, i, w);
      } else {
        DriverCanMove(sv, s, j, s.calls[i].serial);
        assert Concerns(s, i, j);
      }
    } else {
      var j: nat :| OwesAt(s, j);
      DebtorCanMove(sv, s, j);
      assert Concerns(s, i, j);
    }
  }

  // ---------- every wait can come to its end ----------

  /** Some continuation lets the call decide again. */
  ghost predicate CanWake(sv: Service, s: State, i: nat) {
    exists more :: Runs(Exec(sv, s, more), i)
  }

  lemma WakesAfter(sv: Service, s: State, a: Action, i: nat)
    requires CanWake(sv, Apply(sv, s, a), i)
    ensures CanWake(sv, s, i)
  {
    var more :| Runs(Exec(sv, Apply(sv, s, a), more), i);
    assert ([a] + more)[1..] == more;
    assert Runs(Exec(sv, s, [a] + more), i);
  }

  predicate AsleepAt(s: State, i: nat) {
    i < |s.calls| && Asleep(s.calls[i].pc)
  }

  /** Who has been notified, is owed a notify, or waits for nothing any more can wake. */
  lemma OwedCanWake(sv: Service, s: State, i: nat)
    requires Inv(sv, s) && AsleepAt(s, i)
    requires SomeoneOwes(s) || s.calls[i].pc.seen < s.epoch || !MustWait(s.table, s.calls[i])
    ensures CanWake(sv, s, i)
  {
    if s.calls[i].pc.seen < s.epoch {
      assert Runs(Apply(sv, s, Step(i)), i);
      assert Exec(sv, Apply(sv, s, Step(i)), []) == Apply(sv, s, Step(i));
      WakesAfter(sv, s, Step(i), i);
    } else {
      assert !MustWait(s.table, s.calls[i]) ==> FastAsleep(s, i);
      var j: nat :| OwesAt(s, j);
      DebtorWakesSleeper(sv, s, i, j);
    }
  }

  /** A step of another call leaves the sleeper where it is. */
  lemma OtherStep(sv: Service, s: State, j: nat, pick: bool, failed: bool, i: nat)
    requires Inv(sv, s) && AsleepAt(s, i) && j < |s.calls| && j != i
    ensures var u := Apply(sv, s, Run(j, pick, failed));
      && Inv(sv, u) && AsleepAt(u, i) && u.calls[i] == s.calls[i] && |u.calls| >= |s.calls|
      && u.calls[j].pc == EffectOf(sv, s, s.calls[j], pick, failed).pc
      && u.calls[j].serial == s.calls[j].serial && u.calls[j].works == s.calls[j].works
      && u.table == EffectOf(sv, s, s.calls[j], pick, failed).table
  {
    ActionKeepsInvariant(sv, s, Run(j, pick, failed));
  }

  /** How far a call is from taking its slot out of Starting, if the device answers. */
  function StartRank(pc: Pc): nat {
    match pc
    case StartNotifyBegin(_) => 7
    case StartClearDevice(_) => 6
    case StartFirstCheck(_) => 5
    case StartAnnounce(_) => 4
    case StartSpawn(_) => 3
    case StartPublish(_) => 2
    case Working(_) => 2
    case _ => 1
  }

  /** The driver of a starting slot, one step further: the slot has left Starting, or somebody closer
      to it drives. */
  lemma StartStep(sv: Service, s: State, j: nat, k: Serial) returns (d: nat)
    requires Drives(sv, s, j, k) && InPhase(s.table, k, Starting) && !OwesAt(s, j)
    ensures var u := Apply(sv, s, Run(j, true, false));
      !StartMustWait(u.table, k)
      || (InPhase(u.table, k, Starting) && Drives(sv, u, d, k) && StartRank(u.calls[d].pc) < StartRank(s.calls[j].pc))
  {
    d := if s.calls[j].pc.StartSpawn? && sv.Mirror? && !IsCancelled(s, s.calls[j].pc.g) then |s.calls| else j;
  }

  lemma {:induction false} StartingCanWake(sv: Service, s: State, i: nat, j: nat)
    requires Inv(sv, s) && AsleepAt(s, i)
    requires Drives(sv, s, j, s.calls[i].serial) && InPhase(s.table, s.calls[i].serial, Starting)
    ensures CanWake(sv, s, i)
    decreases StartRank(s.calls[j].pc)
  {
    if OwesAt(s, j) || !MustWait(s.table, s.calls[i]) {
      OwedCanWake(sv, s, i);
    } else {
      var k := s.calls[i].serial;
      var u := Apply(sv, s, Run(j, true, false));
      OtherStep(sv, s, j, true, false, i);
      var d := StartStep(sv, s, j, k);
      if MustWait(u.table, u.calls[i]) {
        StartingCanWake(sv, u, i, d);
      } else {
        OwedCanWake(sv, u, i);
      }
      WakesAfter(sv, s, Run(j, true, false), i);
    }
  }

  /** How far a cancelled worker is from its end. */
  function WorkRank(pc: Pc): nat {
    match pc
    case WorkerNoteLive(_) => 6
    case WorkerNotify(_) => 5
    case Working(_) => 4
    case ReleaseSlot(_, _) => 3
    case EndAnnounce(_, _) => 2
    case EndNotify => 1
    case _ => 0
  }

  function WorkLeft(calls: seq<Call>, g: nat): nat {
    if calls == [] then 0
    else WorkLeft(calls[1..], g) + if calls[0].works == g then WorkRank(calls[0].pc) else 0
  }

  lemma {:induction false} LessWork(calls: seq<Call>, j: nat, c: Call, g: nat)
    requires j < |calls| && calls[j].works == c.works == g && WorkRank(c.pc) < WorkRank(calls[j].pc)
    ensures WorkLeft(calls[j := c], g) < WorkLeft(calls, g)
  {
    if j > 0 {
      LessWork(calls[1..], j - 1, c, g);
      assert calls[j := c][1..] == calls[1..][j - 1 := c];
    }
  }

  /** A worker's own step, when its token is cancelled. */
  lemma WorkerStep(sv: Service, s: State, j: nat, g: nat)
    requires Inv(sv, s) && j < |s.calls| && g != 0 && s.calls[j].works == g && g in s.cancelled && !s.calls[j].pc.Done?
    ensures var u := Apply(sv, s, Step(j));
      && Inv(sv, u) && g in u.cancelled && WorkLeft(u.calls, g) < WorkLeft(s.calls, g)
      && |u.calls| == |s.calls| && (forall i :: 0 <= i < |s.calls| && i != j ==> u.calls[i] == s.calls[i])
  {
    ActionKeepsInvariant(sv, s, Step(j));
    assert WorkerPc(s.calls[j].pc, g);
    var e := EffectOf(sv, s, s.calls[j], false, false);
    LessWork(s.calls, j, s.calls[j].(pc := e.pc), g);
    assert s.calls[j := s.calls[j].(pc := e.pc)] + [] == s.calls[j := s.calls[j].(pc := e.pc)];
  }

  /** What a worker does to the stopping slot of its own generation: nothing, or it removes it. */
  lemma WorkerBesideStop(sv: Service, s: State, j: nat, k: Serial, g: nat)
    requires Inv(sv, s) && j < |s.calls| && g != 0 && s.calls[j].works == g
    requires HasSlot(s.table, k, g) && InPhase(s.table, k, Stopping)
    ensures var t := Apply(sv, s, Step(j)).table;
      !StartMustWait(t, k) || (HasSlot(t, k, g) && InPhase(t, k, Stopping))
  {
    assert WorkerPc(s.calls[j].pc, g);
  }

  /** The worker that holds up the join of a stop, one step further. */
  lemma JoinedStep(sv: Service, s: State, i: nat, j: nat) returns (w: nat)
    requires Inv(sv, s) && AsleepAt(s, i) && HeldByJoin(s, j)
    requires Drives(sv, s, j, s.calls[i].serial) && InPhase(s.table, s.calls[i].serial, Stopping)
    ensures w != i && w != j && w < |s.calls|
    ensures var u := Apply(sv, s, Step(w)); var k, g := s.calls[i].serial, Generation(s.calls[j].pc);
      && Inv(sv, u) && AsleepAt(u, i) && u.calls[i] == s.calls[i] && j < |u.calls| && u.calls[j] == s.calls[j]
      && WorkLeft(u.calls, g) < WorkLeft(s.calls, g)
      && (!StartMustWait(u.table, k) || (Drives(sv, u, j, k) && InPhase(u.table, k, Stopping)))
  {
    var k, g := s.calls[i].serial, Generation(s.calls[j].pc);
    w :| w < |s.calls| && s.calls[w].works == g && !s.calls[w].pc.Done?;
    assert Issued(s, g, k) && WorkerPc(s.calls[w].pc, g);
    WorkerStep(sv, s, w, g);
    WorkerBesideStop(sv, s, w, k, g);
  }

  /** The stop itself, when nothing holds it up. */
  lemma StopStep(sv: Service, s: State, j: nat, k: Serial)
    requires Drives(sv, s, j, k) && InPhase(s.table, k, Stopping) && !HeldByJoin(s, j) && !OwesAt(s, j)
    ensures var u := Apply(sv, s, Step(j));
      !StartMustWait(u.table, k)
      || (Drives(sv, u, j, k) && InPhase(u.table, k, Stopping)
          && !s.calls[j].pc.StopFinish? && u.calls[j].pc.StopFinish?)
  {
  }

  lemma {:induction false} StoppingCanWake(sv: Service, s: State, i: nat, j: nat)
    requires Inv(sv, s) && AsleepAt(s, i)
    requires Drives(sv, s, j, s.calls[i].serial) && InPhase(s.table, s.calls[i].serial, Stopping)
    ensures CanWake(sv, s, i)
    decreases if s.calls[j].pc.StopFinish? then 0 else 1, WorkLeft(s.calls, Generation(s.calls[j].pc))
  {
    if SomeoneOwes(s) {
      OwedCanWake(sv, s, i);
    } else {
      var a := j;
      if HeldByJoin(s, j) {
        a := JoinedStep(sv, s, i, j);
      } else {
        assert !OwesAt(s, j);
        OtherStep(sv, s, j, false, false, i);
        StopStep(sv, s, j, s.calls[i].serial);
      }
      var u := Apply(sv, s, Step(a));
      if MustWait(u.table, u.calls[i]) {
        StoppingCanWake(sv, u, i, j);
      } else {
        OwedCanWake(sv, u, i);
      }
      WakesAfter(sv, s, Step(a), i);
    }
  }

  /** From every reachable state, every sleeper has a continuation in which it wakes and decides again. */
  lemma EverySleeperCanWake(sv: Service, run: seq<Action>, i: nat)
    requires AsleepAt(Exec(sv, INITIAL, run), i)
    ensures CanWake(sv, Exec(sv, INITIAL, run), i)
  {
    var s := Exec(sv, INITIAL, run);
    Invariant(sv, run);
    if MustWait(s.table, s.calls[i]) {
      var k := s.calls[i].serial;
      var j: nat :| Drives(sv, s, j, k);
      if InPhase(s.table, k, Starting) {
        StartingCanWake(sv, s, i, j);
      } else {
        StoppingCanWake(sv, s, i, j);
      }
    } else {
      OwedCanWake(sv, s, i);
    }
  }

  /** Some continuation ends every worker of a generation. */
  ghost predicate CanEnd(sv: Service, s: State, g: nat) {
    exists more :: WorkerDone(Exec(sv, s, more), g)
  }

  lemma {:induction false} CancelledWorkersEnd(sv: Service, s: State, g: nat)
    requires Inv(sv, s) && g != 0 && g in s.cancelled
    ensures CanEnd(sv, s, g)
    decreases WorkLeft(s.calls, g)
  {
    if WorkerDone(s, g) {
      assert WorkerDone(Exec(sv, s, []), g);
    } else {
      var j: nat :| j < |s.calls| && s.calls[j].works == g && !s.calls[j].pc.Done?;
      WorkerStep(sv, s, j, g);
      CancelledWorkersEnd(sv, Apply(sv, s, Step(j)), g);
      var more :| WorkerDone(Exec(sv, Apply(sv, s, Step(j)), more), g);
      assert ([Step(j)] + more)[1..] == more;
      assert WorkerDone(Exec(sv, s, [Step(j)] + more), g);
    }
  }

  /** And every join one in which the worker it waits for comes to its end. */
  lemma EveryJoinCanEnd(sv: Service, run: seq<Action>, i: nat)
    requires HeldByJoin(Exec(sv, INITIAL, run), i)
    ensures var s := Exec(sv, INITIAL, run); CanEnd(sv, s, Generation(s.calls[i].pc))
  {
    var s := Exec(sv, INITIAL, run);
    Invariant(sv, run);
    assert Issued(s, Generation(s.calls[i].pc), s.calls[i].serial);
    CancelledWorkersEnd(sv, s, Generation(s.calls[i].pc));
  }

  // ---------- one ending for each generation ----------

  function EndedCount(events: seq<Event>, g: nat): nat {
    if events == [] then 0
    else EndedCount(events[1..], g) + if events[0].Ended? && events[0].generation == g then 1 else 0
  }

  function AnnouncingCount(calls: seq<Call>, g: nat): nat {
    if calls == [] then 0
    else AnnouncingCount(calls[1..], g) + if calls[0].pc.EndAnnounce? && calls[0].pc.g == g then 1 else 0
  }

  lemma {:induction false} CountEnded(s: State, from: nat, g: nat)
    requires from <= |s.events|
    requires forall m, n :: EndedAt(s, m, g) && EndedAt(s, n, g) ==> m == n
    ensures EndedCount(s.events[from..], g) == if exists n :: from <= n && EndedAt(s, n, g) then 1 else 0
    decreases |s.events| - from
  {
    if from < |s.events| {
      CountEnded(s, from + 1, g);
      assert s.events[from..][1..] == s.events[from + 1..];
      if EndedAt(s, from, g) {
      } else {
        assert forall n :: from <= n && EndedAt(s, n, g) ==> from + 1 <= n;
      }
    }
  }

  lemma {:induction false} CountAnnouncing(s: State, from: nat, g: nat)
    requires from <= |s.calls|
    requires forall i, j :: Announcing(s, i, g) && Announcing(s, j, g) ==> i == j
    ensures AnnouncingCount(s.calls[from..], g) == if exists i :: from <= i && Announcing(s, i, g) then 1 else 0
    decreases |s.calls| - from
  {
    if from < |s.calls| {
      CountAnnouncing(s, from + 1, g);
      assert s.calls[from..][1..] == s.calls[from + 1..];
      if Announcing(s, from, g) {
      } else {
        assert forall i :: from <= i && Announcing(s, i, g) ==> from + 1 <= i;
      }
    }
  }

  /** One ending: in every run the terminal events published for a generation, together with a
      publication still in flight, are exactly one if the generation has left the table and none
      if it has not. Each carries the serial the generation was issued for. */
  lemma OneEndingPerGeneration(sv: Service, run: seq<Action>, g: nat)
    ensures var s := Exec(sv, INITIAL, run);
      && EndedCount(s.events, g) + AnnouncingCount(s.calls, g) == (if Left(s, g) then 1 else 0)
      && forall n :: EndedAt(s, n, g) ==> Issued(s, g, s.events[n].serial)
  {
    var s := Exec(sv, INITIAL, run);
    Invariant(sv, run);
    CountEnded(s, 0, g);
    CountAnnouncing(s, 0, g);
    assert s.events[0..] == s.events && s.calls[0..] == s.calls;
    if Left(s, g) {
      assert EndingPublishedOrPending(s, g);
    }
  }

  lemma ActionKeepsIssued(sv: Service, s: State, a: Action, g: nat)
    requires TableOk(s)
    ensures s.origin <= Apply(sv, s, a).origin
    ensures Left(s, g) ==> Left(Apply(sv, s, a), g)
  {
    if a.Run? && a.call < |s.calls| {
      TableEffectHolds(sv, s, s.calls[a.call], a.pick, a.failed);
      StepKeepsIssued(sv, s, a.call, EffectOf(sv, s, s.calls[a.call], a.pick, a.failed), g);
    }
  }

  /** A generation is issued once, to one serial, and never comes back once it has left. */
  lemma {:induction false} IssuedOnceAndGoneForGood(sv: Service, run: seq<Action>, more: seq<Action>, g: nat)
    ensures var s, u := Exec(sv, INITIAL, run), Exec(sv, INITIAL, run + more);
      s.origin <= u.origin && (Left(s, g) ==> Left(u, g))
    decreases |more|
  {
    ExecAppend(sv, INITIAL, run, more);
    if more != [] {
      Invariant(sv, run);
      ActionKeepsIssued(sv, Exec(sv, INITIAL, run), more[0], g);
      ExecOneMore(sv, run, more[0]);
      IssuedOnceAndGoneForGood(sv, run + [more[0]], more[1..], g);
      assert run + [more[0]] + more[1..] == run + more;
    }
  }

  // ---------- the reported generation ----------

  lemma ActionKeepsStatus(s: State, a: Action, k: Serial)
    requires Inv(Capture, s)
    ensures StatusGeneration(s.table, k) <= StatusGeneration(Apply(Capture, s, a).table, k)
  {
    if a.Run? && a.call < |s.calls| {
      TableEffectHolds(Capture, s, s.calls[a.call], a.pick, a.failed);
      StepKeepsStatus(s, a.call, EffectOf(Capture, s, s.calls[a.call], a.pick, a.failed), k);
    }
  }

  /** The generation the capture service reports for a serial never decreases. */
  lemma {:induction false} StatusNeverDecreases(run: seq<Action>, more: seq<Action>, k: Serial)
    ensures StatusGeneration(Exec(Capture, INITIAL, run).table, k)
         <= StatusGeneration(Exec(Capture, INITIAL, run + more).table, k)
    decreases |more|
  {
    ExecAppend(Capture, INITIAL, run, more);
    if more != [] {
      Invariant(Capture, run);
      ActionKeepsStatus(Exec(Capture, INITIAL, run), more[0], k);
      ExecOneMore(Capture, run, more[0]);
      StatusNeverDecreases(run + [more[0]], more[1..], k);
      assert run + [more[0]] + more[1..] == run + more;
    }
  }
}
