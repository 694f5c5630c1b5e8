/** What a start returns, over every run: a generation that is its own, or one it found live. */
module SlotAnswers {

  import opened Options
  import opened SlotTable
  import opened SlotProtocol
  import opened SlotRuns

  // ---------- one decision ----------

  predicate Deciding(s: State, i: nat) {
    i < |s.calls| && s.calls[i].pc.StartDecide?
  }

  /** The start returns `g`, which the table holds for its serial, live. */
  predicate Adopts(s: State, u: State, i: nat, g: nat) {
    && Deciding(s, i) && i < |u.calls|
    && var k := s.calls[i].serial;
       && Issued(s, g, k) && HasSlot(s.table, k, g) && InPhase(s.table, k, Live)
       && u.table == s.table && u.calls[i] == s.calls[i].(pc := Done, answer := Some(Started(g, true)))
  }

  /** The start goes on to wait for the slot of its serial, which is in transit. */
  predicate Waits(s: State, u: State, i: nat) {
    && Deciding(s, i) && i < |u.calls|
    && var k := s.calls[i].serial;
       && (InPhase(s.table, k, Starting) || InPhase(s.table, k, Stopping))
       && u.table == s.table && u.calls[i] == s.calls[i].(pc := StartSubscribe)
  }

  /** The start enters a slot for its serial under a generation that was never issued before. */
  predicate Begins(s: State, u: State, i: nat, g: nat) {
    && Deciding(s, i) && i < |u.calls|
    && var k := s.calls[i].serial;
       && k !in s.table.slots && g == |s.origin| + 1 && u.origin == s.origin + [k]
       && HasSlot(u.table, k, g) && InPhase(u.table, k, Starting)
       && u.table.slots - {k} == s.table.slots && u.table.last == s.table.last
       && u.calls[i] == s.calls[i].(pc := StartNotifyBegin(g))
  }

  lemma DecisionIs(sv: Service, s: State, i: nat, pick: bool, failed: bool)
    requires TableOk(s) && Deciding(s, i)
    ensures var u, k := Apply(sv, s, Run(i, pick, failed)), s.calls[i].serial;
      if k !in s.table.slots then Begins(s, u, i, |s.origin| + 1)
      else if InPhase(s.table, k, Live) then Adopts(s, u, i, s.table.slots[k].generation)
      else Waits(s, u, i)
  {
  }

  /** A start that decides adopts the live generation of its serial, waits for a slot in transit, or
      begins a new generation: in every run, whatever the table holds. */
  lemma StartAnswers(sv: Service, run: seq<Action>, i: nat, pick: bool, failed: bool)
    requires Deciding(Exec(sv, INITIAL, run), i)
    ensures var s, u := Exec(sv, INITIAL, run), Exec(sv, INITIAL, run + [Run(i, pick, failed)]);
      var k := s.calls[i].serial;
      && ((exists g :: Adopts(s, u, i, g)) <==> InPhase(s.table, k, Live))
      && (Waits(s, u, i) <==> InPhase(s.table, k, Starting) || InPhase(s.table, k, Stopping))
      && ((exists g :: Begins(s, u, i, g)) <==> k !in s.table.slots)
  {
    Invariant(sv, run);
    ExecOneMore(sv, run, Run(i, pick, failed));
    DecisionIs(sv, Exec(sv, INITIAL, run), i, pick, failed);
  }

  // ---------- what is returned in the end ----------

  /** The start stores the worker's handle with its own slot, which is still starting. */
  predicate Publishes(sv: Service, s: State, u: State, i: nat, g: nat) {
    && i < |s.calls| && s.calls[i].pc == StartPublish(g)
    && var k := s.calls[i].serial;
       && HasSlot(s.table, k, g) && InPhase(s.table, k, Starting)
       && HasSlot(u.table, k, g) && u.table.slots[k].handle && InPhase(u.table, k, if sv.Capture? then Live else Starting)
  }

  predicate AdoptedAt(sv: Service, run: seq<Action>, n: nat, i: nat, g: nat) {
    n < |run| && Adopts(Exec(sv, INITIAL, run[..n]), Exec(sv, INITIAL, run[..n + 1]), i, g)
  }

  predicate BegunAt(sv: Service, run: seq<Action>, n: nat, i: nat, g: nat) {
    n < |run| && run[n].Run? && run[n].call == i
    && Begins(Exec(sv, INITIAL, run[..n]), Exec(sv, INITIAL, run[..n + 1]), i, g)
  }

  predicate PublishedAt(sv: Service, run: seq<Action>, n: nat, i: nat, g: nat) {
    n < |run| && Publishes(sv, Exec(sv, INITIAL, run[..n]), Exec(sv, INITIAL, run[..n + 1]), i, g)
  }

  /** A start on its way with a generation of its own. */
  predicate OnItsWay(pc: Pc) {
    || pc.StartNotifyBegin? || pc.StartClearDevice? || pc.StartFirstCheck? || pc.StartAnnounce? || pc.StartSpawn?
    || pc.StartPublish? || pc.StartNotifyPublished?
  }

  ghost predicate Began(sv: Service, run: seq<Action>, i: nat, g: nat) {
    exists n :: BegunAt(sv, run, n, i, g)
  }

  ghost predicate Published(sv: Service, run: seq<Action>, i: nat, g: nat) {
    exists n :: PublishedAt(sv, run, n, i, g)
  }

  ghost predicate Adopted(sv: Service, run: seq<Action>, i: nat, g: nat) {
    exists n :: AdoptedAt(sv, run, n, i, g)
  }

  /** Where the call is and what it returned, told from the run behind it. */
  ghost predicate Traced(sv: Service, run: seq<Action>, i: nat, c: Call) {
    TracedPc(sv, run, i, c.pc) && (c.answer.Some? ==> TracedAnswer(sv, run, i, c.answer.value))
  }

  ghost predicate TracedPc(sv: Service, run: seq<Action>, i: nat, pc: Pc) {
    && (OnItsWay(pc) ==> Began(sv, run, i, Generation(pc)))
    && (pc.StartNotifyPublished? ==> Published(sv, run, i, pc.g))
  }

  ghost predicate TracedAnswer(sv: Service, run: seq<Action>, i: nat, a: Started) {
    if a.adopted then Adopted(sv, run, i, a.generation)
    else Began(sv, run, i, a.generation) && Published(sv, run, i, a.generation)
  }

  lemma TraceStays(sv: Service, run: seq<Action>, a: Action, i: nat, g: nat)
    ensures Began(sv, run, i, g) ==> Began(sv, run + [a], i, g)
    ensures Published(sv, run, i, g) ==> Published(sv, run + [a], i, g)
    ensures Adopted(sv, run, i, g) ==> Adopted(sv, run + [a], i, g)
  {
    if n :| BegunAt(sv, run, n, i, g) {
      PrefixStays(run, a, n);
      assert BegunAt(sv, run + [a], n, i, g);
    }
    if n :| PublishedAt(sv, run, n, i, g) {
      PrefixStays(run, a, n);
      assert PublishedAt(sv, run + [a], n, i, g);
    }
    if n :| AdoptedAt(sv, run, n, i, g) {
      PrefixStays(run, a, n);
      assert AdoptedAt(sv, run + [a], n, i, g);
    }
  }

  lemma PrefixStays(run: seq<Action>, a: Action, n: nat)
    requires n < |run|
    ensures var more := run + [a]; more[..n] == run[..n] && more[..n + 1] == run[..n + 1] && more[n] == run[n]
  {
  }

  /** What a step changes about the call that makes it. */
  ghost predicate OwnStep(sv: Service, s: State, u: State, i: nat) {
    && i < |s.calls| && i < |u.calls|
    && var c, d := s.calls[i], u.calls[i];
       || (d.answer == c.answer && OnItsWay(d.pc) && !d.pc.StartNotifyPublished?
           && OnItsWay(c.pc) && Generation(d.pc) == Generation(c.pc))
       || (d.answer == c.answer && !OnItsWay(d.pc))
       || (d.answer == c.answer && d.pc.StartNotifyBegin? && Begins(s, u, i, d.pc.g))
       || (d.answer == c.answer && d.pc.StartNotifyPublished? && OnItsWay(c.pc) && Generation(c.pc) == d.pc.g
           && Publishes(sv, s, u, i, d.pc.g))
       || (d.pc.Done? && c.pc.StartNotifyPublished? && d.answer == Some(Started(c.pc.g, false)))
       || (d.answer.Some? && d.answer.value.adopted && Adopts(s, u, i, d.answer.value.generation))
  }

  lemma PublishIs(sv: Service, s: State, i: nat, pick: bool, failed: bool)
    requires i < |s.calls| && s.calls[i].pc.StartPublish?
    ensures var u, g := Apply(sv, s, Run(i, pick, failed)), s.calls[i].pc.g;
      && i < |u.calls| && u.calls[i].answer == s.calls[i].answer
      && (u.calls[i].pc == StartRefused(g) || (u.calls[i].pc == StartNotifyPublished(g) && Publishes(sv, s, u, i, g)))
  {
  }

  lemma WayGoesOn(sv: Service, s: State, c: Call, pick: bool, failed: bool)
    requires !c.pc.StartDecide? && !c.pc.StartPublish?
    ensures var e := EffectOf(sv, s, c, pick, failed);
      OnItsWay(e.pc) ==> !e.pc.StartNotifyPublished? && OnItsWay(c.pc) && Generation(e.pc) == Generation(c.pc)
  {
  }

  lemma AnswerOfEffect(sv: Service, s: State, c: Call, pick: bool, failed: bool)
    requires !c.pc.StartDecide?
    ensures var e := EffectOf(sv, s, c, pick, failed);
      e.answer.Some? ==> e.pc.Done? && c.pc.StartNotifyPublished? && e.answer == Some(Started(c.pc.g, false))
  {
  }

  lemma OwnStepHolds(sv: Service, s: State, i: nat, pick: bool, failed: bool)
    requires TableOk(s) && i < |s.calls|
    ensures OwnStep(sv, s, Apply(sv, s, Run(i, pick, failed)), i)
  {
    if s.calls[i].pc.StartDecide? {
      DecisionIs(sv, s, i, pick, failed);
    } else if s.calls[i].pc.StartPublish? {
      PublishIs(sv, s, i, pick, failed);
    } else {
      WayGoesOn(sv, s, s.calls[i], pick, failed);
      AnswerOfEffect(sv, s, s.calls[i], pick, failed);
    }
  }

  lemma PcIsTraced(sv: Service, run: seq<Action>, a: Action, s: State, u: State)
    requires s == Exec(sv, INITIAL, run) && u == Exec(sv, INITIAL, run + [a])
    requires a.Run? && OwnStep(sv, s, u, a.call) && TracedPc(sv, run, a.call, s.calls[a.call].pc)
    ensures TracedPc(sv, run + [a], a.call, u.calls[a.call].pc)
  {
    var more, i := run + [a], a.call;
    var c, d := s.calls[i].pc, u.calls[i].pc;
    LastStep(run, a);
    TraceStays(sv, run, a, i, Generation(c));
    if d.StartNotifyBegin? && Begins(s, u, i, d.g) {
      assert BegunAt(sv, more, |run|, i, d.g);
    } else if d.StartNotifyPublished? && Publishes(sv, s, u, i, d.g) {
      assert PublishedAt(sv, more, |run|, i, d.g);
    }
  }

  lemma AnswerIsTraced(sv: Service, run: seq<Action>, a: Action, s: State, u: State)
    requires s == Exec(sv, INITIAL, run) && u == Exec(sv, INITIAL, run + [a])
    requires a.Run? && OwnStep(sv, s, u, a.call) && Traced(sv, run, a.call, s.calls[a.call])
    requires u.calls[a.call].answer.Some?
    ensures TracedAnswer(sv, run + [a], a.call, u.calls[a.call].answer.value)
  {
    var i, answer := a.call, u.calls[a.call].answer.value;
    LastStep(run, a);
    TraceStays(sv, run, a, i, answer.generation);
    if answer.adopted && Adopts(s, u, i, answer.generation) {
      assert AdoptedAt(sv, run + [a], |run|, i, answer.generation);
    }
  }

  lemma LastStep(run: seq<Action>, a: Action)
    ensures var more := run + [a]; more[..|run|] == run && more[..|run| + 1] == more && more[|run|] == a
  {
  }

  lemma OwnStepIsTraced(sv: Service, run: seq<Action>, a: Action)
    requires var s := Exec(sv, INITIAL, run);
      a.Run? && a.call < |s.calls| && Traced(sv, run, a.call, s.calls[a.call])
    ensures var u := Exec(sv, INITIAL, run + [a]);
      a.call < |u.calls| && Traced(sv, run + [a], a.call, u.calls[a.call])
  {
    var s := Exec(sv, INITIAL, run);
    Invariant(sv, run);
    ExecOneMore(sv, run, a);
    OwnStepHolds(sv, s, a.call, a.pick, a.failed);
    var u := Exec(sv, INITIAL, run + [a]);
    PcIsTraced(sv, run, a, s, u);
    if u.calls[a.call].answer.Some? {
      AnswerIsTraced(sv, run, a, s, u);
    }
  }

  /** A call that does not step is where it was, or has just begun. */
  lemma OtherCallStays(sv: Service, s: State, a: Action, i: nat)
    requires i < |Apply(sv, s, a).calls| && !(a.Run? && a.call == i)
    ensures i < |s.calls| ==> Apply(sv, s, a).calls[i] == s.calls[i]
    ensures i >= |s.calls| ==> var c := Apply(sv, s, a).calls[i]; c.answer.None? && !OnItsWay(c.pc)
  {
  }

  lemma {:induction false} RunIsTraced(sv: Service, run: seq<Action>, i: nat)
    requires i < |Exec(sv, INITIAL, run).calls|
    ensures Traced(sv, run, i, Exec(sv, INITIAL, run).calls[i])
    decreases |run|
  {
    if run != [] {
      var before, a := run[..|run| - 1], run[|run| - 1];
      assert before + [a] == run;
      ExecOneMore(sv, before, a);
      var s := Exec(sv, INITIAL, before);
      if a.Run? && a.call == i && i < |s.calls| {
        RunIsTraced(sv, before, i);
        OwnStepIsTraced(sv, before, a);
      } else if i < |s.calls| {
        RunIsTraced(sv, before, i);
        OtherCallStays(sv, s, a, i);
        TraceStays(sv, before, a, i, Generation(s.calls[i].pc));
        if s.calls[i].answer.Some? {
          TraceStays(sv, before, a, i, s.calls[i].answer.value.generation);
        }
      } else {
        OtherCallStays(sv, s, a, i);
      }
    }
  }

  predicate AnswerIssued(s: State, c: Call) {
    c.answer.Some? ==> Issued(s, c.answer.value.generation, c.serial)
  }

  lemma OwnAnswerIssued(sv: Service, s: State, i: nat, pick: bool, failed: bool)
    requires Inv(sv, s) && i < |s.calls| && AnswerIssued(s, s.calls[i])
    ensures var u := Apply(sv, s, Run(i, pick, failed)); i < |u.calls| && AnswerIssued(u, u.calls[i])
  {
    ActionKeepsIssued(sv, s, Run(i, pick, failed), 0);
    if s.calls[i].pc.StartDecide? {
      DecisionIs(sv, s, i, pick, failed);
    } else {
      AnswerOfEffect(sv, s, s.calls[i], pick, failed);
    }
  }

  lemma {:induction false} AnswersAreIssued(sv: Service, run: seq<Action>, i: nat)
    requires i < |Exec(sv, INITIAL, run).calls|
    ensures var s := Exec(sv, INITIAL, run); AnswerIssued(s, s.calls[i])
    decreases |run|
  {
    if run != [] {
      var before, a := run[..|run| - 1], run[|run| - 1];
      assert before + [a] == run;
      ExecOneMore(sv, before, a);
      Invariant(sv, before);
      var s := Exec(sv, INITIAL, before);
      if i < |s.calls| {
        AnswersAreIssued(sv, before, i);
      }
      if a.Run? && a.call == i && i < |s.calls| {
        OwnAnswerIssued(sv, s, i, a.pick, a.failed);
      } else {
        OtherCallStays(sv, s, a, i);
        ActionKeepsIssued(sv, s, a, 0);
      }
    }
  }

  /** What a start returns, in every run: a generation that was issued to its serial. If it says it has
      adopted it, then at some moment it found that generation in the table, live; if not, then it has
      entered that generation itself, when it was new, and published it while it was starting. */
  lemma AnswersHold(sv: Service, run: seq<Action>, i: nat)
    requires var s := Exec(sv, INITIAL, run); i < |s.calls| && s.calls[i].answer.Some?
    ensures var s := Exec(sv, INITIAL, run); var a := s.calls[i].answer.value;
      && Issued(s, a.generation, s.calls[i].serial)
      && (a.adopted ==> exists n :: AdoptedAt(sv, run, n, i, a.generation))
      && (!a.adopted ==> (exists n :: BegunAt(sv, run, n, i, a.generation))
                         && exists n :: PublishedAt(sv, run, n, i, a.generation))
  {
    AnswersAreIssued(sv, run, i);
    RunIsTraced(sv, run, i);
  }

  lemma OriginGrows(sv: Service, run: seq<Action>, m: nat, n: nat)
    requires m <= n <= |run|
    ensures |Exec(sv, INITIAL, run[..m]).origin| <= |Exec(sv, INITIAL, run[..n]).origin|
  {
    IssuedOnceAndGoneForGood(sv, run[..m], run[m..n], 0);
    assert run[..m] + run[m..n] == run[..n];
  }

  lemma BegunOnce(sv: Service, run: seq<Action>, m: nat, i: nat, n: nat, j: nat, g: nat)
    requires BegunAt(sv, run, m, i, g) && BegunAt(sv, run, n, j, g)
    ensures n <= m
  {
    if m < n {
      OriginGrows(sv, run, m + 1, n);
    }
  }

  /** No two starts return the same generation as their own. */
  lemma OneStarterPerGeneration(sv: Service, run: seq<Action>, i: nat, j: nat, g: nat)
    requires var s := Exec(sv, INITIAL, run);
      && i < |s.calls| && s.calls[i].answer == Some(Started(g, false))
      && j < |s.calls| && s.calls[j].answer == Some(Started(g, false))
    ensures i == j
  {
    AnswersHold(sv, run, i);
    AnswersHold(sv, run, j);
    var m: nat :| BegunAt(sv, run, m, i, g);
    var n: nat :| BegunAt(sv, run, n, j, g);
    BegunOnce(sv, run, m, i, n, j, g);
    BegunOnce(sv, run, n, j, m, i, g);
  }
}
