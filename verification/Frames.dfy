/** The bounded frame queue of a mirror session, with its sticky configuration frame. */
module Frames {

  import opened Options

  const QUEUE_CAP: nat := 8

  datatype Frame = Frame(config: bool, keyframe: bool, content: int, dropped: nat)

  predicate IsDelta(f: Frame) {
    !f.config && !f.keyframe
  }

  predicate IsKey(f: Frame) {
    !f.config && f.keyframe
  }

  // ---------- one push under the queue's lock ----------

  function NoDeltas(q: seq<Frame>): seq<Frame> {
    if q == [] then []
    else if IsDelta(q[0]) then NoDeltas(q[1..])
    else [q[0]] + NoDeltas(q[1..])
  }

  function FirstDelta(q: seq<Frame>): (r: Option<nat>)
    ensures r.Some? ==> r.value < |q| && IsDelta(q[r.value])
    ensures r.None? ==> forall f :: f in q ==> !IsDelta(f)
  {
    if q == [] then None
    else if IsDelta(q[0]) then Some(0)
    else
      match FirstDelta(q[1..])
      case None => None
      case Some(i) => Some(i + 1)
  }

  function FirstKey(q: seq<Frame>): (r: Option<nat>)
    ensures r.Some? ==> r.value < |q| && q[r.value].keyframe
    ensures r.None? ==> forall f :: f in q ==> !f.keyframe
  {
    if q == [] then None
    else if q[0].keyframe then Some(0)
    else
      match FirstKey(q[1..])
      case None => None
      case Some(i) => Some(i + 1)
  }

  function Without(q: seq<Frame>, i: nat): seq<Frame>
    requires i < |q|
  {
    q[..i] + q[i + 1..]
  }

  /** What is left of a full queue, how many frames went, and whether the newcomer may enter. */
  function Evicted(q: seq<Frame>, incoming: Frame): (seq<Frame>, nat, bool) {
    if incoming.keyframe then
      var kept := NoDeltas(q);
      NoDeltasShrinks(q);
      if |kept| < QUEUE_CAP then (kept, |q| - |kept|, true)
      else
        match FirstKey(kept)
        case Some(i) => (Without(kept, i), |q| - |kept| + 1, true)
        case None => (kept, |q| - |kept|, false)
    else
      match FirstDelta(q)
      case Some(i) => (Without(q, i), 1, true)
      case None => (q, 1, false)
  }

  /** Queue and drop counter after a frame that is no configuration. */
  function Enqueued(q: seq<Frame>, dropped: nat, frame: Frame): (seq<Frame>, nat) {
    if |q| < QUEUE_CAP then (q + [frame.(dropped := dropped)], dropped)
    else
      var (kept, n, enters) := Evicted(q, frame);
      if enters then (kept + [frame.(dropped := dropped + n)], dropped + n) else (kept, dropped + n)
  }

  lemma {:induction false} NoDeltasShrinks(q: seq<Frame>)
    ensures |NoDeltas(q)| <= |q|
  {
    if q != [] {
      NoDeltasShrinks(q[1..]);
    }
  }

  /** Eight frames fit, and a ninth costs at least one. */
  lemma EightFit(q: seq<Frame>, dropped: nat, frame: Frame)
    requires |q| <= 8 && forall f :: f in q ==> !f.config
    ensures |q| < 8 ==> Enqueued(q, dropped, frame) == (q + [frame.(dropped := dropped)], dropped)
    ensures |q| == 8 ==> |Enqueued(q, dropped, frame).0| <= 8 && Enqueued(q, dropped, frame).1 > dropped
  {
    NoDeltasShrinks(q);
    if |q| == 8 {
      EvictedKeepsFewer(q, frame);
    }
  }

  lemma EvictedKeepsFewer(q: seq<Frame>, frame: Frame)
    requires |q| == 8 && forall f :: f in q ==> !f.config
    ensures var (kept, n, enters) := Evicted(q, frame); n > 0 && |kept| <= 8 && (enters ==> |kept| < 8)
  {
    NoDeltasShrinks(q);
    NoDeltasParts(q);
    NoDeltasKeeps(q);
    if frame.keyframe && |NoDeltas(q)| == 8 {
      assert IsKey(NoDeltas(q)[0]);
    }
  }

  // ---------- the pipe ----------

  /** Everything the pipe's locks and atomics guard. */
  datatype Pipe = Pipe(lastConfig: Option<Frame>, pendingConfig: bool, queue: seq<Frame>, closed: bool, dropped: nat)

  const OPEN := Pipe(None, false, [], false, 0)

  ghost predicate Holds(p: Pipe) {
    && |p.queue| <= QUEUE_CAP
    && (forall f :: f in p.queue ==> !f.config)
    && (p.lastConfig.Some? ==> p.lastConfig.value.config)
  }

  function Pushed(p: Pipe, frame: Frame): Pipe {
    if p.closed then p
    else if frame.config then p.(lastConfig := Some(frame.(dropped := p.dropped)), pendingConfig := true)
    else
      var (queue, dropped) := Enqueued(p.queue, p.dropped, frame);
      p.(queue := queue, dropped := dropped)
  }

  function Popped(p: Pipe): (Pipe, Option<Frame>) {
    if p.pendingConfig && p.lastConfig.Some? then (p.(pendingConfig := false), p.lastConfig)
    else if p.queue == [] then (p.(pendingConfig := false), None)
    else (p.(pendingConfig := false, queue := p.queue[1..]), Some(p.queue[0]))
  }

  /** What is there to be taken: a pending configuration, then the queue. */
  function Ready(p: Pipe): seq<Frame> {
    if p.pendingConfig && p.lastConfig.Some? then [p.lastConfig.value] + p.queue else p.queue
  }

  function AsSeq(frame: Option<Frame>): seq<Frame> {
    if frame.Some? then [frame.value] else []
  }

  class FramePipe {
    var lastConfig: Option<Frame>
    var pendingConfig: bool
    var queue: seq<Frame>
    var closed: bool
    var dropped: nat

    ghost function View(): Pipe
      reads this
    {
      Pipe(lastConfig, pendingConfig, queue, closed, dropped)
    }

    constructor ()
      ensures View() == OPEN
    {
      lastConfig, pendingConfig, queue, closed, dropped := None, false, [], false, 0;
    }

    method Close()
      modifies this
      ensures View() == old(View()).(closed := true)
    {
      closed := true;
    }

    method EvictFor(incoming: Frame) returns (enters: bool)
      modifies this
      ensures var (kept, n, may) := Evicted(old(queue), incoming);
              View() == old(View()).(queue := kept, dropped := old(dropped) + n) && enters == may
    {
      if incoming.keyframe {
        var before := |queue|;
        NoDeltasShrinks(queue);
        queue := NoDeltas(queue);
        var n := before - |queue|;
        if n > 0 {
          dropped := dropped + n;
        }
        if |queue| < QUEUE_CAP {
          return true;
        }
        match FirstKey(queue)
        case Some(i) =>
          queue := Without(queue, i);
          dropped := dropped + 1;
          return true;
        case None =>
          return false;
      }
      match FirstDelta(queue)
      case Some(i) =>
        queue := Without(queue, i);
        dropped := dropped + 1;
        return true;
      case None =>
        dropped := dropped + 1;
        return false;
    }

    method Push(frame: Frame)
      modifies this
      ensures View() == Pushed(old(View()), frame)
      ensures closed == old(closed) && (closed ==> View() == old(View()))
      ensures !closed && frame.config ==>
        && pendingConfig && lastConfig == Some(frame.(dropped := old(dropped)))
        && queue == old(queue) && dropped == old(dropped)
      ensures !frame.config ==> pendingConfig == old(pendingConfig) && lastConfig == old(lastConfig)
    {
      if closed {
        return;
      }
      if frame.config {
        lastConfig := Some(frame.(dropped := dropped));
        pendingConfig := true;
        return;
      }
      if |queue| >= QUEUE_CAP {
        var enters := EvictFor(frame);
        if !enters {
          return;
        }
      }
      queue := queue + [frame.(dropped := dropped)];
    }

    method Pop() returns (frame: Option<Frame>)
      modifies this
      ensures (View(), frame) == Popped(old(View()))
    {
      var pending := pendingConfig;
      pendingConfig := false;
      if pending {
        if lastConfig.Some? {
          return lastConfig;
        }
      }
      if queue == [] {
        return None;
      }
      frame := Some(queue[0]);
      queue := queue[1..];
    }

    method DrainReady() returns (frames: seq<Frame>)
      modifies this
      ensures frames == Ready(old(View()))
      ensures View() == old(View()).(pendingConfig := false, queue := [])
    {
      frames := [];
      ghost var start := View();
      PopTakesFirst(start);
      var frame := Pop();
      while frame.Some?
        invariant View() == start.(pendingConfig := false, queue := queue)
        invariant Ready(start) == frames + AsSeq(frame) + queue
        invariant frame.None? ==> queue == []
        decreases |queue|, frame.Some?
      {
        frames := frames + [frame.value];
        PopGoesOn(frames, View());
        frame := Pop();
      }
    }

    method ResetContent()
      modifies this
      ensures View() == old(View()).(lastConfig := None, pendingConfig := false, queue := [])
    {
      lastConfig := None;
      pendingConfig := false;
      queue := [];
    }
  }

  /** With nothing pending a pop goes on with the queue. */
  lemma PopGoesOn(frames: seq<Frame>, p: Pipe)
    requires !p.pendingConfig
    ensures var (q, frame) := Popped(p);
            && q == p.(queue := q.queue) && (frame.None? ==> q.queue == [])
            && frames + p.queue == frames + AsSeq(frame) + q.queue
            && (frame.Some? ==> |q.queue| < |p.queue|) && |q.queue| <= |p.queue|
  {
    if p.queue != [] {
      assert p.queue == [p.queue[0]] + p.queue[1..];
    }
  }

  lemma PopTakesFirst(p: Pipe)
    ensures var (q, frame) := Popped(p);
            && Ready(p) == AsSeq(frame) + Ready(q)
            && (frame.None? ==> Ready(p) == [] && q == p.(pendingConfig := false))
            && !q.pendingConfig
  {
    if p.queue != [] {
      assert p.queue == [p.queue[0]] + p.queue[1..];
    }
  }

  // ---------- what a push does to key frames and to the others ----------

  function Keys(q: seq<Frame>): seq<int> {
    if q == [] then []
    else if IsKey(q[0]) then [q[0].content] + Keys(q[1..])
    else Keys(q[1..])
  }

  function Deltas(q: seq<Frame>): seq<int> {
    if q == [] then []
    else if IsDelta(q[0]) then [q[0].content] + Deltas(q[1..])
    else Deltas(q[1..])
  }

  lemma {:induction false} PartsAppend(a: seq<Frame>, b: seq<Frame>)
    ensures Keys(a + b) == Keys(a) + Keys(b) && Deltas(a + b) == Deltas(a) + Deltas(b)
  {
    if a == [] {
      assert a + b == b;
    } else {
      assert (a + b)[1..] == a[1..] + b;
      PartsAppend(a[1..], b);
    }
  }

  lemma PartsOfOne(f: Frame)
    ensures Keys([f]) == if IsKey(f) then [f.content] else []
    ensures Deltas([f]) == if IsDelta(f) then [f.content] else []
  {
  }

  lemma {:induction false} NoDeltasParts(q: seq<Frame>)
    requires forall f :: f in q ==> !f.config
    ensures Keys(NoDeltas(q)) == Keys(q) && Deltas(NoDeltas(q)) == []
    ensures |NoDeltas(q)| == |Keys(q)|
    ensures forall f :: f in NoDeltas(q) ==> IsKey(f)
  {
    if q != [] {
      NoDeltasParts(q[1..]);
    }
  }

  lemma {:induction false} WithoutFirstDelta(q: seq<Frame>)
    ensures FirstDelta(q).Some? ==>
      && Keys(Without(q, FirstDelta(q).value)) == Keys(q)
      && Deltas(q) != [] && Deltas(Without(q, FirstDelta(q).value)) == Deltas(q)[1..]
    ensures FirstDelta(q).None? ==> Deltas(q) == []
  {
    if q != [] {
      if IsDelta(q[0]) {
        assert Without(q, 0) == q[1..];
      } else {
        WithoutFirstDelta(q[1..]);
        if FirstDelta(q[1..]).Some? {
          var i := FirstDelta(q[1..]).value;
          assert Without(q, i + 1) == [q[0]] + Without(q[1..], i);
          assert ([q[0]] + Without(q[1..], i))[1..] == Without(q[1..], i);
        }
      }
    }
  }

  lemma AppendedKey(q: seq<Frame>, f: Frame)
    requires IsKey(f)
    ensures Keys(q + [f]) == Keys(q) + [f.content] && Deltas(q + [f]) == Deltas(q)
  {
    PartsAppend(q, [f]);
    PartsOfOne(f);
  }

  lemma OldestKey(q: seq<Frame>)
    requires q != [] && IsKey(q[0])
    ensures FirstKey(q) == Some(0) && Without(q, 0) == q[1..]
    ensures Keys(q[1..]) == Keys(q)[1..] && Deltas(q[1..]) == Deltas(q)
  {
  }

  /** A key frame always enters. Into a full queue it enters at the cost of every delta, and of the
      oldest key frame only if the queue holds nothing but key frames. */
  lemma {:induction false} KeyAlwaysEnters(q: seq<Frame>, dropped: nat, key: Frame)
    requires IsKey(key) && |q| <= QUEUE_CAP && forall f :: f in q ==> !f.config
    ensures var after := Enqueued(q, dropped, key).0;
            && after != [] && after[|after| - 1].content == key.content && IsKey(after[|after| - 1])
            && Keys(after) == (if |Keys(q)| < QUEUE_CAP then Keys(q) else Keys(q)[1..]) + [key.content]
            && Deltas(after) == if |q| < QUEUE_CAP then Deltas(q) else []
  {
    var kept := NoDeltas(q);
    NoDeltasParts(q);
    if |q| < QUEUE_CAP {
      NoDeltasShrinks(q);
      AppendedKey(q, key.(dropped := dropped));
    } else if |kept| < QUEUE_CAP {
      AppendedKey(kept, key.(dropped := dropped + (|q| - |kept|)));
    } else {
      NoDeltasShrinks(q);
      OldestKey(kept);
      AppendedKey(kept[1..], key.(dropped := dropped + 1));
    }
  }

  /** A delta never costs a key frame. Into a full queue it enters at the cost of the oldest delta,
      or not at all. */
  lemma DeltaSparesKeys(q: seq<Frame>, dropped: nat, delta: Frame)
    requires IsDelta(delta) && |q| <= QUEUE_CAP
    ensures var (after, _) := Enqueued(q, dropped, delta);
            && Keys(after) == Keys(q)
            && Deltas(after) == if |q| < QUEUE_CAP then Deltas(q) + [delta.content]
                                else if Deltas(q) == [] then []
                                else Deltas(q)[1..] + [delta.content]
  {
    if |q| < QUEUE_CAP {
      PartsAppend(q, [delta.(dropped := dropped)]);
      PartsOfOne(delta.(dropped := dropped));
    } else {
      WithoutFirstDelta(q);
      if FirstDelta(q).Some? {
        var f := delta.(dropped := dropped + 1);
        PartsAppend(Without(q, FirstDelta(q).value), [f]);
        PartsOfOne(f);
      }
    }
  }

  // ---------- subsequences ----------

  function Contents(q: seq<Frame>): seq<int> {
    seq(|q|, i requires 0 <= i < |q| => q[i].content)
  }

  /** `a` is left of `b` once some elements are taken out. */
  predicate IsSub(a: seq<int>, b: seq<int>)
    decreases |b|
  {
    if b == [] then a == []
    else
      || (a != [] && a[|a| - 1] == b[|b| - 1] && IsSub(a[..|a| - 1], b[..|b| - 1]))
      || IsSub(a, b[..|b| - 1])
  }

  lemma SubOnBoth(a: seq<int>, b: seq<int>, x: int)
    requires IsSub(a, b)
    ensures IsSub(a + [x], b + [x]) && IsSub(a, b + [x])
  {
  }

  lemma {:induction false} SubItself(a: seq<int>)
    ensures IsSub(a, a)
  {
    if a != [] {
      SubItself(a[..|a| - 1]);
    }
  }

  lemma {:induction false} SubBehind(head: seq<int>, a: seq<int>, b: seq<int>)
    requires IsSub(a, b)
    ensures IsSub(head + a, head + b)
    decreases |b|
  {
    if b == [] {
      SubItself(head + a);
    } else if a != [] && a[|a| - 1] == b[|b| - 1] && IsSub(a[..|a| - 1], b[..|b| - 1]) {
      SubBehind(head, a[..|a| - 1], b[..|b| - 1]);
      SubOnBoth(head + a[..|a| - 1], head + b[..|b| - 1], b[|b| - 1]);
      assert head + a == head + a[..|a| - 1] + [a[|a| - 1]];
      assert head + b == head + b[..|b| - 1] + [b[|b| - 1]];
    } else {
      SubBehind(head, a, b[..|b| - 1]);
      SubOnBoth(head + a, head + b[..|b| - 1], b[|b| - 1]);
      assert head + b == head + b[..|b| - 1] + [b[|b| - 1]];
    }
  }

  lemma {:induction false} SubChain(a: seq<int>, b: seq<int>, c: seq<int>)
    requires IsSub(a, b) && IsSub(b, c)
    ensures IsSub(a, c)
    decreases |c|
  {
    if c != [] && b != [] {
      var c', b' := c[..|c| - 1], b[..|b| - 1];
      if b[|b| - 1] == c[|c| - 1] && IsSub(b', c') {
        if a != [] && a[|a| - 1] == b[|b| - 1] && IsSub(a[..|a| - 1], b') {
          SubChain(a[..|a| - 1], b', c');
        } else {
          SubChain(a, b', c');
        }
      } else {
        SubChain(a, b, c');
      }
    } else if c != [] {
      SubChain(a, b, c[..|c| - 1]);
    }
  }

  lemma {:induction false} DropOne(a: seq<int>, i: nat)
    requires i < |a|
    ensures IsSub(a[..i] + a[i + 1..], a)
    decreases |a|
  {
    var a', last := a[..|a| - 1], a[|a| - 1];
    assert a == a' + [last];
    if i == |a| - 1 {
      SubItself(a');
      SubOnBoth(a', a', last);
      assert a[..i] + a[i + 1..] == a';
    } else {
      DropOne(a', i);
      SubOnBoth(a'[..i] + a'[i + 1..], a', last);
      assert a[..i] + a[i + 1..] == a'[..i] + a'[i + 1..] + [last];
    }
  }

  lemma {:induction false} NoDeltasIsSub(q: seq<Frame>)
    ensures IsSub(Contents(NoDeltas(q)), Contents(q))
  {
    if q != [] {
      NoDeltasIsSub(q[1..]);
      var x, rest := q[0].content, Contents(NoDeltas(q[1..]));
      assert Contents(q) == [x] + Contents(q[1..]);
      SubBehind([x], rest, Contents(q[1..]));
      assert Contents([q[0]] + NoDeltas(q[1..])) == [x] + rest;
      if IsDelta(q[0]) {
        DropOne([x] + rest, 0);
        assert ([x] + rest)[..0] + ([x] + rest)[1..] == rest;
        SubChain(rest, [x] + rest, Contents(q));
      }
    }
  }

  lemma ContentsWithout(q: seq<Frame>, i: nat)
    requires i < |q|
    ensures IsSub(Contents(Without(q, i)), Contents(q))
  {
    DropOne(Contents(q), i);
    assert Contents(Without(q, i)) == Contents(q)[..i] + Contents(q)[i + 1..];
  }

  lemma EvictedIsSub(q: seq<Frame>, incoming: Frame)
    ensures var (kept, n, _) := Evicted(q, incoming);
            IsSub(Contents(kept), Contents(q))
  {
    var kept := NoDeltas(q);
    NoDeltasIsSub(q);
    if incoming.keyframe {
      if |kept| >= QUEUE_CAP && FirstKey(kept).Some? {
        ContentsWithout(kept, FirstKey(kept).value);
        SubChain(Contents(Without(kept, FirstKey(kept).value)), Contents(kept), Contents(q));
      }
    } else if FirstDelta(q).Some? {
      ContentsWithout(q, FirstDelta(q).value);
    } else {
      SubItself(Contents(q));
    }
  }

  lemma EnqueuedIsSub(q: seq<Frame>, dropped: nat, frame: Frame)
    ensures IsSub(Contents(Enqueued(q, dropped, frame).0), Contents(q) + [frame.content])
  {
    var after := Enqueued(q, dropped, frame).0;
    SubItself(Contents(q));
    EvictedIsSub(q, frame);
    var kept := if |q| < QUEUE_CAP then q else Evicted(q, frame).0;
    SubOnBoth(Contents(kept), Contents(q), frame.content);
    if after != kept {
      assert Contents(after) == Contents(kept) + [frame.content];
    }
  }

  // ---------- whole runs ----------

  /** The steps of the pipe's users. Each is one lock section or one atomic access, so that what one
      call does in several of them may interleave with any other call; the drop counter changes only
      inside the queue's lock. A push of a configuration loads the drop counter, stores the frame and
      sets the mark. A pop takes the mark; if it was set it reads the configuration; if there is none
      it goes on to the queue. A reset clears configuration, mark and queue. `who` is the caller. */
  datatype Step =
    | LoadDropped(who: nat)
    | StoreConfig(who: nat, frame: Frame)
    | MarkConfig
    | PushFrame(frame: Frame)
    | TakeMark(who: nat)
    | ReadConfig(who: nat)
    | PopFrame(who: nat)
    | ClearConfig
    | ClearMark
    | ClearQueue
    | ClosePipe

  /** The pipe, the callers between two of their steps, and what went through the pipe. `loaded` is
      the drop counter as each caller last loaded it; `takers` have taken a mark and not read yet. */
  datatype Run = Run(
    pipe: Pipe, loaded: map<nat, nat>, takers: set<nat>,
    pushes: seq<int>, pops: seq<int>, cleared: nat, configs: seq<Frame>)

  const START := Run(OPEN, map[], {}, [], [], 0, [])

  /** Frames go where their kind belongs. */
  predicate Fits(step: Step) {
    match step
    case StoreConfig(_, f) => f.config
    case PushFrame(f) => !f.config
    case _ => true
  }

  function Stamp(r: Run, who: nat): nat {
    if who in r.loaded then r.loaded[who] else 0
  }

  function Next(r: Run, step: Step): Run {
    var p := r.pipe;
    match step
    case LoadDropped(who) => r.(loaded := r.loaded[who := p.dropped])
    case StoreConfig(who, f) => r.(pipe := p.(lastConfig := Some(f.(dropped := Stamp(r, who)))))
    case MarkConfig => r.(pipe := p.(pendingConfig := true))
    case PushFrame(f) =>
      var (queue, dropped) := Enqueued(p.queue, p.dropped, f);
      r.(pipe := p.(queue := queue, dropped := dropped), pushes := r.pushes + [f.content])
    case TakeMark(who) =>
      if p.pendingConfig && who !in r.takers then
        r.(pipe := p.(pendingConfig := false), takers := r.takers + {who})
      else r
    case ReadConfig(who) =>
      if who !in r.takers then r
      else if p.lastConfig.Some? then
        r.(takers := r.takers - {who}, configs := r.configs + [p.lastConfig.value])
      else r.(takers := r.takers - {who})
    case PopFrame(who) =>
      if who in r.takers || p.queue == [] then r
      else r.(pipe := p.(queue := p.queue[1..]), pops := r.pops + [p.queue[0].content])
    case ClearConfig => r.(pipe := p.(lastConfig := None))
    case ClearMark => r.(pipe := p.(pendingConfig := false))
    case ClearQueue => r.(pipe := p.(queue := []), cleared := r.cleared + |p.queue|)
    case ClosePipe => r.(pipe := p.(closed := true))
  }

  function Exec(steps: seq<Step>): Run {
    if steps == [] then START else Next(Exec(steps[..|steps| - 1]), steps[|steps| - 1])
  }

  ghost predicate AllFit(steps: seq<Step>) {
    forall step :: step in steps ==> Fits(step)
  }

  ghost predicate Conserves(r: Run) {
    && Holds(r.pipe)
    && |r.pushes| == |r.pops| + |r.pipe.queue| + r.pipe.dropped + r.cleared
    && IsSub(r.pops + Contents(r.pipe.queue), r.pushes)
  }

  lemma {:induction false} NoDeltasKeeps(q: seq<Frame>)
    ensures forall f :: f in NoDeltas(q) ==> f in q
  {
    if q != [] {
      NoDeltasKeeps(q[1..]);
    }
  }

  lemma EnqueuedHolds(q: seq<Frame>, dropped: nat, frame: Frame)
    requires |q| <= QUEUE_CAP && !frame.config && forall f :: f in q ==> !f.config
    ensures var (after, n) := Enqueued(q, dropped, frame);
            && |after| <= QUEUE_CAP && |after| + n == |q| + dropped + 1
            && (forall f :: f in after ==> !f.config)
  {
    NoDeltasShrinks(q);
    NoDeltasParts(q);
    NoDeltasKeeps(q);
    var kept := NoDeltas(q);
    if |kept| >= QUEUE_CAP {
      assert IsKey(kept[0]);
    }
  }

  lemma PushConserves(r: Run, f: Frame)
    requires Conserves(r) && !f.config
    ensures Conserves(Next(r, PushFrame(f)))
  {
    var p, after := r.pipe, Next(r, PushFrame(f));
    EnqueuedHolds(p.queue, p.dropped, f);
    EnqueuedIsSub(p.queue, p.dropped, f);
    PushedOrder(r.pops, Contents(p.queue), Contents(after.pipe.queue), r.pushes, f.content);
  }

  lemma PushedOrder(pops: seq<int>, was: seq<int>, now: seq<int>, pushes: seq<int>, x: int)
    requires IsSub(pops + was, pushes) && IsSub(now, was + [x])
    ensures IsSub(pops + now, pushes + [x])
  {
    SubBehind(pops, now, was + [x]);
    SubOnBoth(pops + was, pushes, x);
    assert pops + was + [x] == pops + (was + [x]);
    SubChain(pops + now, pops + was + [x], pushes + [x]);
  }

  lemma StepConserves(r: Run, step: Step)
    requires Conserves(r) && Fits(step)
    ensures Conserves(Next(r, step))
  {
    var p, after := r.pipe, Next(r, step);
    match step
    case PushFrame(f) => PushConserves(r, f);
    case PopFrame(_) =>
      if p.queue != [] {
        assert Contents(p.queue) == [p.queue[0].content] + Contents(p.queue[1..]);
        assert r.pops + [p.queue[0].content] + Contents(p.queue[1..]) == r.pops + Contents(p.queue);
      }
    case ClearQueue =>
      SubOfPrefix(r.pops, Contents(p.queue), r.pushes);
      assert r.pops + Contents([]) == r.pops;
    case _ =>
  }

  lemma {:induction false} SubOfPrefix(a: seq<int>, b: seq<int>, c: seq<int>)
    requires IsSub(a + b, c)
    ensures IsSub(a, c)
    decreases |b|
  {
    if b == [] {
      assert a + b == a;
    } else {
      var b' := b[..|b| - 1];
      DropOne(a + b, |a + b| - 1);
      assert (a + b)[..|a + b| - 1] + (a + b)[|a + b|..] == a + b';
      SubChain(a + b', a + b, c);
      SubOfPrefix(a, b', c);
    }
  }

  /** In every interleaving: frames are neither lost uncounted nor made up, the queue stays bounded and
      free of configurations, and what was popped and what is queued keep the order of the pushes. */
  lemma {:induction false} EveryRunConserves(steps: seq<Step>)
    requires AllFit(steps)
    ensures Conserves(Exec(steps))
  {
    if steps == [] {
      assert Contents([]) == [];
    } else {
      EveryRunConserves(steps[..|steps| - 1]);
      StepConserves(Exec(steps[..|steps| - 1]), steps[|steps| - 1]);
    }
  }

  // ---------- the newest configuration ----------

  /** Read off the steps alone: the last configuration stored, unless a reset cleared it since. */
  function NewestStored(steps: seq<Step>): Option<Frame> {
    if steps == [] then None
    else
      match steps[|steps| - 1]
      case StoreConfig(_, f) => Some(f)
      case ClearConfig => None
      case _ => NewestStored(steps[..|steps| - 1])
  }

  /** The same frame, apart from the drop counter it was stamped with. */
  predicate SameFrame(a: Frame, b: Frame) {
    a == b.(dropped := a.dropped)
  }

  /** The pipe holds the newest stored configuration, with a stamp that is not from the future. */
  ghost predicate HoldsNewest(r: Run, newest: Option<Frame>) {
    && (r.pipe.lastConfig.Some? <==> newest.Some?)
    && (newest.Some? ==>
          SameFrame(r.pipe.lastConfig.value, newest.value) && r.pipe.lastConfig.value.dropped <= r.pipe.dropped)
    && forall who :: who in r.loaded ==> r.loaded[who] <= r.pipe.dropped
  }

  lemma DroppedOnlyGrows(r: Run, step: Step)
    ensures r.pipe.dropped <= Next(r, step).pipe.dropped
  {
    NoDeltasShrinks(r.pipe.queue);
  }

  lemma {:induction false} NewestIsHeld(steps: seq<Step>)
    ensures HoldsNewest(Exec(steps), NewestStored(steps))
  {
    if steps != [] {
      NewestIsHeld(steps[..|steps| - 1]);
      DroppedOnlyGrows(Exec(steps[..|steps| - 1]), steps[|steps| - 1]);
    }
  }

  /** In every interleaving, a caller that has taken the mark reads exactly the newest configuration
      stored before its read and not cleared since; without one it reads none and goes to the queue. */
  lemma DeliveredConfigIsNewest(steps: seq<Step>, who: nat)
    requires who in Exec(steps).takers
    ensures var before, after, newest := Exec(steps), Exec(steps + [ReadConfig(who)]), NewestStored(steps);
            && (newest.None? ==> after.configs == before.configs)
            && (newest.Some? ==>
                  && |after.configs| == |before.configs| + 1 && before.configs <= after.configs
                  && SameFrame(after.configs[|before.configs|], newest.value))
            && after.pipe == before.pipe && who !in after.takers
  {
    NewestIsHeld(steps);
    assert (steps + [ReadConfig(who)])[..|steps|] == steps;
  }

  // ---------- no configuration is passed over ----------

  /** Steps under which a stored configuration stays the newest and keeps its mark. */
  predicate LeavesConfig(step: Step) {
    !step.StoreConfig? && !step.ClearConfig? && !step.ClearMark?
  }

  ghost predicate DeliveredSince(r: Run, f: Frame, from: nat) {
    exists i :: from <= i < |r.configs| && SameFrame(r.configs[i], f)
  }

  /** The configuration is still to be taken, is being taken, or was delivered since `from`. */
  ghost predicate Underway(r: Run, f: Frame, from: nat) {
    || r.pipe.pendingConfig
    || r.takers != {}
    || DeliveredSince(r, f, from)
  }

  ghost predicate KeepsConfig(r: Run, f: Frame, from: nat, marked: bool) {
    && r.pipe.lastConfig.Some? && SameFrame(r.pipe.lastConfig.value, f) && from <= |r.configs|
    && (marked ==> Underway(r, f, from))
  }

  lemma StepKeepsConfig(r: Run, step: Step, f: Frame, from: nat, marked: bool)
    requires KeepsConfig(r, f, from, marked) && LeavesConfig(step)
    ensures KeepsConfig(Next(r, step), f, from, marked || step.MarkConfig?)
  {
    var after := Next(r, step);
    if marked && !after.pipe.pendingConfig && after.takers == {} {
      if i :| from <= i < |r.configs| && SameFrame(r.configs[i], f) {
        assert after.configs[i] == r.configs[i];
      } else if step.ReadConfig? {
        assert after.configs[|r.configs|] == r.pipe.lastConfig.value;
      }
    }
  }

  /** Once a stored configuration is marked, and until it is replaced or reset, it is pending, in the
      hands of a caller, or delivered. */
  lemma {:induction false} MarkedConfigIsNotLost(before: seq<Step>, who: nat, f: Frame, more: seq<Step>)
    requires forall step :: step in more ==> LeavesConfig(step)
    ensures KeepsConfig(Exec(before + [StoreConfig(who, f)] + more), f, |Exec(before).configs|, MarkConfig in more)
    decreases |more|
  {
    var steps := before + [StoreConfig(who, f)] + more;
    if more == [] {
      assert steps[..|steps| - 1] == before && steps[|steps| - 1] == StoreConfig(who, f);
    } else {
      var init, last := more[..|more| - 1], more[|more| - 1];
      MarkedConfigIsNotLost(before, who, f, init);
      assert steps[..|steps| - 1] == before + [StoreConfig(who, f)] + init && steps[|steps| - 1] == last;
      StepKeepsConfig(Exec(before + [StoreConfig(who, f)] + init), last, f, |Exec(before).configs|, MarkConfig in init);
      assert more == init + [last];
    }
  }

  // ---------- one caller that pushes and resets ----------

  /** Where the one caller that pushes and resets is between two of its accesses. */
  datatype Pusher = Idle | Loaded | Stored | Unset | Unmarked

  function PusherStep(at: Pusher, step: Step): Option<Pusher> {
    match step
    case LoadDropped(_) => if at.Idle? then Some(Loaded) else None
    case StoreConfig(_, _) => if at.Loaded? then Some(Stored) else None
    case PushFrame(_) => if at.Loaded? then Some(Idle) else None
    case MarkConfig => if at.Stored? then Some(Idle) else None
    case ClearConfig => if at.Idle? then Some(Unset) else None
    case ClearMark => if at.Unset? then Some(Unmarked) else None
    case ClearQueue => if at.Unmarked? then Some(Idle) else None
    case _ => Some(at)
  }

  /** None if the accesses of some push or reset are not in order, or interleave with another's;
      those of pops and of a close may stand anywhere. */
  function PusherAfter(steps: seq<Step>): Option<Pusher> {
    if steps == [] then Some(Idle)
    else
      match PusherAfter(steps[..|steps| - 1])
      case None => None
      case Some(at) => PusherStep(at, steps[|steps| - 1])
  }

  /** How many configurations had been delivered when the newest was stored. */
  function DeliveredBefore(steps: seq<Step>): nat {
    if steps == [] then 0
    else if steps[|steps| - 1].StoreConfig? then |Exec(steps[..|steps| - 1]).configs|
    else DeliveredBefore(steps[..|steps| - 1])
  }

  /** The newest configuration is held, and unless its push has yet to mark it, it is under way. */
  ghost predicate Safe(r: Run, newest: Option<Frame>, from: nat, at: Pusher) {
    && (at.Unset? || at.Unmarked? ==> newest.None?)
    && (newest.Some? ==> KeepsConfig(r, newest.value, from, !at.Stored?))
  }

  lemma PusherStepIsSafe(r: Run, step: Step, newest: Option<Frame>, from: nat, at: Pusher)
    requires Safe(r, newest, from, at) && PusherStep(at, step).Some?
    requires !step.StoreConfig? && !step.ClearConfig?
    ensures Safe(Next(r, step), newest, from, PusherStep(at, step).value)
  {
    if newest.Some? {
      StepKeepsConfig(r, step, newest.value, from, !at.Stored?);
    }
  }

  lemma {:induction false} SequentialIsSafe(steps: seq<Step>)
    requires PusherAfter(steps).Some?
    ensures Safe(Exec(steps), NewestStored(steps), DeliveredBefore(steps), PusherAfter(steps).value)
  {
    if steps != [] {
      var before, step := steps[..|steps| - 1], steps[|steps| - 1];
      SequentialIsSafe(before);
      if !step.StoreConfig? && !step.ClearConfig? {
        PusherStepIsSafe(Exec(before), step, NewestStored(before), DeliveredBefore(before), PusherAfter(before).value);
      }
    }
  }

  /** With one caller that pushes and resets, and any others that pop: a configuration that is pushed
      and neither replaced nor reset is pending, in the hands of a caller, or delivered. */
  lemma NewestIsNeverLost(steps: seq<Step>)
    requires PusherAfter(steps).Some? && PusherAfter(steps) != Some(Stored) && NewestStored(steps).Some?
    ensures Underway(Exec(steps), NewestStored(steps).value, DeliveredBefore(steps))
  {
    SequentialIsSafe(steps);
  }

  // ---------- calls as steps ----------

  /** The accesses of one call, nobody in between. */
  function PushSteps(who: nat, f: Frame): seq<Step> {
    [LoadDropped(who)] + if f.config then [StoreConfig(who, f), MarkConfig] else [PushFrame(f)]
  }

  const RESET_STEPS := [ClearConfig, ClearMark, ClearQueue]

  function PopSteps(who: nat, p: Pipe): seq<Step> {
    [TakeMark(who), ReadConfig(who)] + if p.pendingConfig && p.lastConfig.Some? then [] else [PopFrame(who)]
  }

  lemma ExecTwo(before: seq<Step>, a: Step, b: Step)
    ensures Exec(before + [a, b]) == Next(Next(Exec(before), a), b)
  {
    OneMoreStep(before, a);
    OneMoreStep(before + [a], b);
    assert before + [a] + [b] == before + [a, b];
  }

  lemma ExecThree(before: seq<Step>, a: Step, b: Step, c: Step)
    ensures Exec(before + [a, b, c]) == Next(Next(Next(Exec(before), a), b), c)
  {
    ExecTwo(before, a, b);
    OneMoreStep(before + [a, b], c);
    assert before + [a, b] + [c] == before + [a, b, c];
  }

  /** A call whose accesses nobody interrupts does to the pipe what the method does. */
  lemma StepsArePush(before: seq<Step>, who: nat, f: Frame)
    requires !Exec(before).pipe.closed
    ensures Exec(before + PushSteps(who, f)).pipe == Pushed(Exec(before).pipe, f)
  {
    if f.config {
      ExecThree(before, LoadDropped(who), StoreConfig(who, f), MarkConfig);
      assert PushSteps(who, f) == [LoadDropped(who), StoreConfig(who, f), MarkConfig];
    } else {
      ExecTwo(before, LoadDropped(who), PushFrame(f));
      assert PushSteps(who, f) == [LoadDropped(who), PushFrame(f)];
    }
  }

  lemma StepsArePop(before: seq<Step>, who: nat)
    requires who !in Exec(before).takers
    ensures var r := Exec(before); var u := Exec(before + PopSteps(who, r.pipe)); var (p, frame) := Popped(r.pipe);
      && u.pipe == p && u.takers == r.takers
      && u.configs == r.configs + (if frame.Some? && r.pipe.pendingConfig && r.pipe.lastConfig.Some? then [frame.value] else [])
      && u.pops == r.pops + if frame.Some? && !(r.pipe.pendingConfig && r.pipe.lastConfig.Some?) then [frame.value.content] else []
  {
    var r := Exec(before);
    if r.pipe.pendingConfig && r.pipe.lastConfig.Some? {
      ExecTwo(before, TakeMark(who), ReadConfig(who));
      assert PopSteps(who, r.pipe) == [TakeMark(who), ReadConfig(who)];
    } else {
      ExecThree(before, TakeMark(who), ReadConfig(who), PopFrame(who));
      assert PopSteps(who, r.pipe) == [TakeMark(who), ReadConfig(who), PopFrame(who)];
    }
  }

  lemma StepsAreReset(before: seq<Step>)
    ensures var p := Exec(before).pipe;
      Exec(before + RESET_STEPS).pipe == Pipe(None, false, [], p.closed, p.dropped)
  {
    ExecThree(before, ClearConfig, ClearMark, ClearQueue);
  }

  /** Calls of one caller after each other are a run of one caller; the accesses of pops and of a close
      may stand anywhere in it. */
  lemma CallsComeInOrder(before: seq<Step>, who: nat, f: Frame)
    requires PusherAfter(before) == Some(Idle)
    ensures PusherAfter(before + PushSteps(who, f)) == Some(Idle)
    ensures PusherAfter(before + RESET_STEPS) == Some(Idle)
  {
    if f.config {
      PusherThree(before, LoadDropped(who), StoreConfig(who, f), MarkConfig, Loaded, Stored);
      assert PushSteps(who, f) == [LoadDropped(who), StoreConfig(who, f), MarkConfig];
    } else {
      PusherMore(before, LoadDropped(who));
      PusherMore(before + [LoadDropped(who)], PushFrame(f));
      assert before + [LoadDropped(who)] + [PushFrame(f)] == before + PushSteps(who, f);
    }
    PusherThree(before, ClearConfig, ClearMark, ClearQueue, Unset, Unmarked);
  }

  lemma PopsStandAnywhere(before: seq<Step>, who: nat)
    ensures PusherAfter(before + [TakeMark(who)]) == PusherAfter(before)
    ensures PusherAfter(before + [ReadConfig(who)]) == PusherAfter(before)
    ensures PusherAfter(before + [PopFrame(who)]) == PusherAfter(before)
    ensures PusherAfter(before + [ClosePipe]) == PusherAfter(before)
  {
    PusherMore(before, TakeMark(who));
    PusherMore(before, ReadConfig(who));
    PusherMore(before, PopFrame(who));
    PusherMore(before, ClosePipe);
  }

  lemma PusherMore(before: seq<Step>, step: Step)
    ensures PusherAfter(before + [step]) ==
            match PusherAfter(before) case None => None case Some(at) => PusherStep(at, step)
  {
    assert (before + [step])[..|before|] == before;
  }

  lemma PusherThree(before: seq<Step>, a: Step, b: Step, c: Step, x: Pusher, y: Pusher)
    requires PusherAfter(before) == Some(Idle) && PusherStep(Idle, a) == Some(x) && PusherStep(x, b) == Some(y)
    ensures PusherAfter(before + [a, b, c]) == PusherStep(y, c)
  {
    PusherMore(before, a);
    PusherMore(before + [a], b);
    PusherMore(before + [a] + [b], c);
    ThreeMore(before, a, b, c);
  }

  lemma ThreeMore<T>(before: seq<T>, a: T, b: T, c: T)
    ensures before + [a] + [b] + [c] == before + [a, b, c]
  {
  }

  // ---------- a push and a reset at the same time ----------

  /** Read off the steps: is the mark set, and was it ever taken while it was. */
  predicate Marked(marked: bool, steps: seq<Step>) {
    if steps == [] then marked
    else
      match steps[|steps| - 1]
      case MarkConfig => true
      case TakeMark(_) => false
      case _ => Marked(marked, steps[..|steps| - 1])
  }

  predicate TakenWhileMarked(marked: bool, steps: seq<Step>) {
    steps != [] &&
    (TakenWhileMarked(marked, steps[..|steps| - 1])
     || (steps[|steps| - 1].TakeMark? && Marked(marked, steps[..|steps| - 1])))
  }

  /** The state agrees with what is read off the steps. */
  ghost predicate TakenAgrees(r: Run, f: Frame, from: nat, marked: bool, taken: bool) {
    && r.pipe.lastConfig.Some? && SameFrame(r.pipe.lastConfig.value, f) && from <= |r.configs|
    && (taken <==> r.takers != {} || DeliveredSince(r, f, from))
    && (!taken ==> r.pipe.pendingConfig == marked && |r.configs| == from)
  }

  lemma TakenStep(r: Run, step: Step, f: Frame, from: nat, marked: bool, taken: bool)
    requires TakenAgrees(r, f, from, marked, taken) && LeavesConfig(step)
    ensures TakenAgrees(Next(r, step), f, from,
                        match step case MarkConfig => true case TakeMark(_) => false case _ => marked,
                        taken || (step.TakeMark? && marked))
  {
    var after := Next(r, step);
    if taken && after.takers == {} {
      if i :| from <= i < |r.configs| && SameFrame(r.configs[i], f) {
        assert after.configs[i] == r.configs[i];
      } else if step.ReadConfig? {
        assert after.configs[|r.configs|] == r.pipe.lastConfig.value;
      }
    }
    if step.TakeMark? && !taken && marked {
      assert step.who in after.takers;
    }
  }

  lemma {:induction false} TakenAlongSteps(before: seq<Step>, who: nat, f: Frame, more: seq<Step>)
    requires forall step :: step in more ==> LeavesConfig(step)
    ensures var marked := Exec(before).pipe.pendingConfig;
      TakenAgrees(Exec(before + [StoreConfig(who, f)] + more), f, |Exec(before).configs|,
                  Marked(marked, more), Exec(before).takers != {} || TakenWhileMarked(marked, more))
    decreases |more|
  {
    var stored := before + [StoreConfig(who, f)];
    if more == [] {
      OneMoreStep(before, StoreConfig(who, f));
      assert stored + more == stored;
    } else {
      var init, last := more[..|more| - 1], more[|more| - 1];
      TakenAlongSteps(before, who, f, init);
      OneMoreStep(stored + init, last);
      assert stored + init + [last] == stored + more;
      var marked := Exec(before).pipe.pendingConfig;
      TakenStep(Exec(stored + init), last, f, |Exec(before).configs|, Marked(marked, init),
                Exec(before).takers != {} || TakenWhileMarked(marked, init));
    }
  }

  /** If a reset could overlap a push: a stored configuration is lost to the unmarking step exactly if
      nobody was between taking a mark and reading when it was stored, and nobody took the mark while
      it was set since. */
  lemma {:induction false} ResetLosesIff(before: seq<Step>, who: nat, f: Frame, more: seq<Step>)
    requires forall step :: step in more ==> LeavesConfig(step)
    ensures var steps := before + [StoreConfig(who, f)] + more;
      !Underway(Exec(steps + [ClearMark]), f, |Exec(before).configs|)
      <==> Exec(before).takers == {} && !TakenWhileMarked(Exec(before).pipe.pendingConfig, more)
  {
    TakenAlongSteps(before, who, f, more);
    OneMoreStep(before + [StoreConfig(who, f)] + more, ClearMark);
  }

  lemma OneMoreStep(steps: seq<Step>, step: Step)
    ensures Exec(steps + [step]) == Next(Exec(steps), step)
  {
    assert (steps + [step])[..|steps|] == steps;
  }

  /** Why pushes and resets need to come from one caller: a store and a mark between the two stores of a
      reset leave a configuration that is held, and that no pop will deliver. */
  lemma OverlappingResetUnmarks(who: nat, f: Frame)
    ensures var steps := [ClearConfig, StoreConfig(who, f), MarkConfig, ClearMark];
            && Exec(steps).pipe.lastConfig == Some(f.(dropped := 0))
            && !Underway(Exec(steps), f, 0) && PusherAfter(steps).None?
  {
    var steps := [ClearConfig, StoreConfig(who, f), MarkConfig, ClearMark];
    assert steps[..3] == [ClearConfig, StoreConfig(who, f), MarkConfig];
    assert steps[..3][..2] == [ClearConfig, StoreConfig(who, f)];
    assert steps[..3][..2][..1] == [ClearConfig] && [ClearConfig][..0] == [];
    assert Exec([ClearConfig]) == START;
    assert Exec([ClearConfig, StoreConfig(who, f)]) == Next(START, StoreConfig(who, f));
  }
}
