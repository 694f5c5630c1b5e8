/** What a bound window shows, told from its bind, the latches since and the ring alone. */
module Views {

  import opened Arithmetic
  import opened Options
  import opened Ring
  import opened Windows
  import opened WindowFacts
  import opened IndexRuns

  // ---------- the reference ----------

  /** The records up to a number. */
  function UpTo(lines: seq<Record>, through: nat): seq<Record> {
    if lines == [] then []
    else (if lines[0].seq_ <= through then [lines[0]] else []) + UpTo(lines[1..], through)
  }

  /** What a window of that registration lets see of the ring: all it wants, or while it is detached what
      it wants up to its boundary. */
  function ViewOf(spec: BindSpec, buf: seq<Record>): seq<Record> {
    var wanted := Matching(buf, spec.fromSeq, spec.filter);
    if spec.following || spec.through.None? then wanted else UpTo(wanted, spec.through.value)
  }

  function CountIf(lines: seq<Record>, sig: Test): nat {
    if lines == [] then 0 else (if sig(lines[0].body) then 1 else 0) + CountIf(lines[1..], sig)
  }

  /** The page shows the newest of the view, up to 2^32 - 1 records of it, and counts in 32 bits what it
      wants beyond the view. */
  predicate Shows(page: LogPage, spec: BindSpec, buf: seq<Record>) {
    var wanted, view := Matching(buf, spec.fromSeq, spec.filter), ViewOf(spec, buf);
    && page.window == spec.id && page.serial == spec.serial
    && page.lines == Newest(view, U32_MAX) && page.index == |view| - |page.lines|
    && page.total == |wanted| && page.pending == (|wanted| - |view|) % (U32_MAX + 1)
  }

  // ---------- a window that is the filtered ring ----------

  ghost predicate Registered(w: Window, spec: BindSpec) {
    && w.id == spec.id && w.serial == spec.serial && w.filter == spec.filter && w.fromSeq == spec.fromSeq
    && w.following == spec.following && w.through == spec.through
  }

  /** The boundary in the index is the boundary among the records. */
  lemma {:induction false} UpToIsBeginning(lines: seq<Record>, through: nat, sig: Test)
    requires Ascending(HitsOf(lines, sig))
    ensures FirstAfter(HitsOf(lines, sig), through) <= |lines|
    ensures UpTo(lines, through) == lines[..FirstAfter(HitsOf(lines, sig), through)]
  {
    if lines != [] {
      var hits := HitsOf(lines, sig);
      assert hits[1..] == HitsOf(lines[1..], sig) && hits[0].n == lines[0].seq_;
      UpToIsBeginning(lines[1..], through, sig);
      if lines[0].seq_ > through {
        forall i | 0 <= i < |lines[1..]| ensures lines[1..][i].seq_ > through {
          assert hits[0].n < hits[i + 1].n == lines[1..][i].seq_;
        }
        NoneUpTo(lines[1..], through, sig);
      } else {
        assert lines == [lines[0]] + lines[1..];
      }
    }
  }

  lemma {:induction false} NoneUpTo(lines: seq<Record>, through: nat, sig: Test)
    requires forall i :: 0 <= i < |lines| ==> lines[i].seq_ > through
    ensures UpTo(lines, through) == []
  {
    if lines != [] {
      NoneUpTo(lines[1..], through, sig);
    }
  }

  lemma ViewIsBeginning(w: Window, spec: BindSpec, buf: seq<Record>, sig: Test)
    requires Registered(w, spec) && w.hits == Index(buf, spec.fromSeq, spec.filter, sig) && Ascending(w.hits)
    ensures ViewOf(spec, buf) == Matching(buf, spec.fromSeq, spec.filter)[..ViewEnd(w)]
  {
    var wanted := Matching(buf, spec.fromSeq, spec.filter);
    if !spec.following && spec.through.Some? {
      UpToIsBeginning(wanted, spec.through.value, sig);
    } else {
      assert wanted[..|wanted|] == wanted;
    }
  }

  lemma FoundAgain(r: Ring.State, spec: BindSpec, sig: Test, i: nat, j: nat)
    requires Valid(r) && i <= j <= |Matching(r.buf, spec.fromSeq, spec.filter)|
    ensures var wanted := Matching(r.buf, spec.fromSeq, spec.filter);
      FindAll(r.buf, Numbers(Index(r.buf, spec.fromSeq, spec.filter, sig)[i..j])) == wanted[i..j]
  {
    var wanted := Matching(r.buf, spec.fromSeq, spec.filter);
    NoneMissed(r.buf);
    MatchingInRing(r, 0, Bound(spec, r.buf, sig), NONE_MISSED);
    assert r.buf[0..] == r.buf;
    assert HitsOf(wanted, sig)[i..j] == HitsOf(wanted[i..j], sig);
    FindHits(r, wanted[i..j], sig);
  }

  /** The page of a window that is the filtered ring. */
  lemma PageOfIndexed(w: Window, spec: BindSpec, r: Ring.State, sig: Test)
    requires Valid(r) && Registered(w, spec) && w.hits == Index(r.buf, spec.fromSeq, spec.filter, sig)
    ensures Shows(PageOf(w, r.buf, None), spec, r.buf)
  {
    NoneMissed(r.buf);
    ExactTracks(w, r, sig, NONE_MISSED);
    ViewIsBeginning(w, spec, r.buf, sig);
    var end := ViewEnd(w);
    var start := if end < U32_MAX then 0 else end - U32_MAX;
    FoundAgain(r, spec, sig, start, end);
    NewestOfBeginning(Matching(r.buf, spec.fromSeq, spec.filter), end);
  }

  lemma NewestOfBeginning<T>(s: seq<T>, end: nat)
    requires end <= |s|
    ensures var start := if end < U32_MAX then 0 else end - U32_MAX;
      Newest(s[..end], U32_MAX) == s[start..end]
  {
  }

  lemma {:induction false} SignalsAreCounted(lines: seq<Record>, sig: Test)
    ensures SignalCount(HitsOf(lines, sig)) == CountIf(lines, sig)
  {
    if lines != [] {
      assert HitsOf(lines, sig)[1..] == HitsOf(lines[1..], sig);
      SignalsAreCounted(lines[1..], sig);
    }
  }

  /** What a bind returns is what its own registration lets see of the ring; its signals are those of all
      it wants, as far as 32 bits count. */
  lemma BoundPage(spec: BindSpec, r: Ring.State, sig: Test)
    requires Valid(r)
    ensures var page := PageOf(Bound(spec, r.buf, sig), r.buf, None);
      && Shows(page, spec, r.buf)
      && page.signals == Min(CountIf(Matching(r.buf, spec.fromSeq, spec.filter), sig), U32_MAX)
  {
    PageOfIndexed(Bound(spec, r.buf, sig), spec, r, sig);
    SignalsAreCounted(Matching(r.buf, spec.fromSeq, spec.filter), sig);
  }

  /** A page by index and count, of at least one row: those rows of what the window wants. */
  lemma RowsOfIndexed(w: Window, spec: BindSpec, r: Ring.State, sig: Test, index: nat, count: nat)
    requires Valid(r) && Registered(w, spec) && w.hits == Index(r.buf, spec.fromSeq, spec.filter, sig)
    ensures var page, wanted := PageOf(w, r.buf, Some((index, count))), Matching(r.buf, spec.fromSeq, spec.filter);
      && page.index == Min(index, |wanted|) && page.total == |wanted|
      && page.lines == wanted[page.index..Min(page.index + Max(count, 1), |wanted|)]
  {
    var wanted := Matching(r.buf, spec.fromSeq, spec.filter);
    var start := Min(index, |wanted|);
    FoundAgain(r, spec, sig, start, Min(start + Max(count, 1), |wanted|));
  }

  // ---------- over runs ----------

  /** What the last bind of a call that has not entered the book yet asked for. */
  function AskedBy(run: seq<Action>, call: nat): Option<BindSpec> {
    if run == [] then None
    else
      var before := run[..|run| - 1];
      match run[|run| - 1]
      case BindRead(c, spec, _) => if c == call then Some(spec) else AskedBy(before, call)
      case BindInsert(c) => if c == call then None else AskedBy(before, call)
      case _ => AskedBy(before, call)
  }

  /** The registration of a window, read off the actions: that of the last bind which entered the book, with
      the latches since; a latch to the end forgets the boundary. */
  function SpecOf(run: seq<Action>, id: nat): Option<BindSpec> {
    if run == [] then None
    else
      var before := run[..|run| - 1];
      match run[|run| - 1]
      case BindInsert(c) =>
        var asked := AskedBy(before, c);
        if asked.Some? && asked.value.id == id then asked else SpecOf(before, id)
      case Release(other) => if other == id then None else SpecOf(before, id)
      case Latch(other, following) =>
        var spec := SpecOf(before, id);
        if other == id && spec.Some? then Some(LatchedSpec(spec.value, following)) else spec
      case _ => SpecOf(before, id)
  }

  function LatchedSpec(spec: BindSpec, following: bool): BindSpec {
    if following then spec.(following := true, through := None) else spec.(following := false)
  }

  ghost predicate AsksRight(st: Store, run: seq<Action>) {
    forall c :: if c in st.binds then AskedBy(run, c).Some? && Registered(st.binds[c].window, AskedBy(run, c).value)
                else AskedBy(run, c).None?
  }

  ghost predicate SpecsRight(st: Store, run: seq<Action>) {
    forall id :: if id in st.windows then SpecOf(run, id).Some? && Registered(st.windows[id], SpecOf(run, id).value)
                 else SpecOf(run, id).None?
  }

  lemma ApplyKeepsAsks(st: Store, before: seq<Action>, a: Action, sig: Test)
    requires RingsOk(st) && AsksRight(st, before)
    ensures AsksRight(Apply(st, a, sig), before + [a])
  {
    var run := before + [a];
    assert run[..|run| - 1] == before && run[|run| - 1] == a;
  }

  lemma ApplyKeepsSpecs(st: Store, before: seq<Action>, a: Action, sig: Test)
    requires RingsOk(st) && AsksRight(st, before) && SpecsRight(st, before)
    ensures SpecsRight(Apply(st, a, sig), before + [a])
  {
    var run := before + [a];
    assert run[..|run| - 1] == before && run[|run| - 1] == a;
  }

  /** Every window of the book is registered as the actions say, and no other is there. */
  lemma {:induction false} RegistrationFollows(run: seq<Action>, sig: Test)
    ensures AsksRight(Exec(run, sig), run) && SpecsRight(Exec(run, sig), run)
  {
    if run != [] {
      var before, st, a := LastAction(run, sig);
      assert before + [a] == run;
      RegistrationFollows(before, sig);
      ApplyKeepsAsks(st, before, a, sig);
      ApplyKeepsSpecs(st, before, a, sig);
    }
  }

  /** In a run that lets no record pass by, a window that has caught up shows what its last bind and the
      latches since let see of the ring. */
  lemma QuietPageAlways(run: seq<Action>, sig: Test, id: nat)
    requires SpecOf(run, id).Some? && !MayLag(run, sig, id)
    requires Quiet(run, sig, SpecOf(run, id).value.serial)
    ensures var spec, st := SpecOf(run, id).value, Exec(run, sig);
      && id in st.windows && spec.id == id && spec.serial in st.rings
      && var r := st.rings[spec.serial];
         && Shows(PageOf(st.windows[id], r.buf, None), spec, r.buf)
         && (CapacitiesWithin(run, U32_MAX) ==>
               PageOf(st.windows[id], r.buf, None).signals == CountIf(Matching(r.buf, spec.fromSeq, spec.filter), sig))
  {
    RegistrationFollows(run, sig);
    RunCovers(run, sig, id);
    QuietIndexEqualsFilter(run, sig, id);
    var spec, r := SpecOf(run, id).value, RingOf(run, sig, id);
    PageOfIndexed(WindowOf(run, sig, id), spec, r, sig);
    SignalsAreCounted(Matching(r.buf, spec.fromSeq, spec.filter), sig);
    if CapacitiesWithin(run, U32_MAX) {
      CountersFollow(run, sig);
    }
  }
}
