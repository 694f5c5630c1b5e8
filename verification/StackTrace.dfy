/** Expansion of the "... N more" lines that abbreviate a stack trace. */
module StackTrace {

  import opened Options
  import opened Text

  const MARKER: char := '\U{00A0}'
  const USIZE_MAX: nat := 0xFFFF_FFFF_FFFF_FFFF

  predicate IsFrameLine(line: string) {
    var t := TrimStart(line);
    StartsWith(t, "at ") && '(' in t && EndsWith(t, ")")
  }

  predicate IsCauseLine(line: string) {
    StartsWith(TrimStart(line), "Caused by:")
  }

  function ElidedCount(line: string): Option<nat> {
    match StripPrefix(Trim(line), "... ")
    case None => None
    case Some(rest) =>
      match StripSuffix(rest, " more")
      case None => None
      case Some(digits) =>
        match ParseUnsigned(digits, USIZE_MAX)
        case None => None
        case Some(n) => if n > 0 then Some(n) else None
  }

  datatype Kind = Frame | Cause | Elided(n: nat) | Other

  /** The tests in the order in which a line is put to them inside a trace. */
  function KindOf(line: string): Kind {
    if IsFrameLine(line) then Frame
    else if IsCauseLine(line) then Cause
    else
      match ElidedCount(line)
      case Some(n) => Elided(n)
      case None => Other
  }

  /** The two stacks by role: the frames of the trace being read and of the one before its cause. */
  datatype Stacks = Stacks(inTrace: bool, current: seq<string>, previous: seq<string>)

  const FRESH := Stacks(false, [], [])

  function Marked(frame: string): string {
    frame + [MARKER]
  }

  function MarkedAll(frames: seq<string>): seq<string> {
    seq(|frames|, i requires 0 <= i < |frames| => Marked(frames[i]))
  }

  lemma MarkedNext(frames: seq<string>, i: nat)
    requires i < |frames|
    ensures frames[..i + 1] == frames[..i] + [frames[i]]
    ensures MarkedAll(frames[..i + 1]) == MarkedAll(frames[..i]) + [Marked(frames[i])]
  {
  }

  function Process(c: Stacks, line: string, kind: Kind): (r: (Stacks, seq<string>)) {
    match kind
    case Frame => (Stacks(true, c.current + [line], c.previous), [line])
    case Cause => (if c.inTrace then Stacks(true, [], c.current) else c, [line])
    case Elided(n) =>
      if c.inTrace && 0 < n <= |c.previous| then
        var frames := c.previous[|c.previous| - n..];
        (c.(current := c.current + frames), MarkedAll(frames))
      else (c, [line])
    case Other => (if c.inTrace then FRESH else c, [line])
  }

  /** The expander works for any way to tell the kinds apart; the source's way is `KindOf`. */
  type Classifier = string -> Kind

  function ProcessLine(k: Classifier, c: Stacks, line: string): (r: (Stacks, seq<string>)) {
    Process(c, line, k(line))
  }

  function ExpandFrom(k: Classifier, c: Stacks, lines: seq<string>): seq<string>
    decreases |lines|
  {
    if lines == [] then []
    else
      var (c', out) := ProcessLine(k, c, lines[0]);
      out + ExpandFrom(k, c', lines[1..])
  }

  function StacksAfter(k: Classifier, c: Stacks, lines: seq<string>): Stacks
    decreases |lines|
  {
    if lines == [] then c else StacksAfter(k, ProcessLine(k, c, lines[0]).0, lines[1..])
  }

  function Expand(lines: seq<string>): seq<string> {
    ExpandFrom(KindOf, FRESH, lines)
  }

  /** The two stacks change roles by a flag; nothing is copied between them. */
  class Context {
    var inTrace: bool
    var firstIsCurrent: bool
    var stack1: seq<string>
    var stack2: seq<string>

    ghost function View(): Stacks
      reads this
    {
      if firstIsCurrent then Stacks(inTrace, stack1, stack2) else Stacks(inTrace, stack2, stack1)
    }

    constructor ()
      ensures View() == FRESH
    {
      inTrace, firstIsCurrent, stack1, stack2 := false, true, [], [];
    }

    method PushCurrent(frame: string)
      modifies this
      ensures View() == old(View()).(current := old(View()).current + [frame])
    {
      if firstIsCurrent {
        stack1 := stack1 + [frame];
      } else {
        stack2 := stack2 + [frame];
      }
    }

    method SwapStacks()
      modifies this
      ensures View() == Stacks(old(inTrace), [], old(View()).current)
    {
      if firstIsCurrent {
        stack2 := [];
      } else {
        stack1 := [];
      }
      firstIsCurrent := !firstIsCurrent;
    }

    method Reset()
      modifies this
      ensures View() == FRESH
    {
      inTrace, stack1, stack2 := false, [], [];
    }

    method HandleElided(line: string, n: nat) returns (out: seq<string>)
      requires n > 0
      modifies this
      ensures var c := old(View());
        if n <= |c.previous| then
          && out == MarkedAll(c.previous[|c.previous| - n..])
          && View() == c.(current := c.current + c.previous[|c.previous| - n..])
        else out == [line] && View() == c
    {
      var previous := if firstIsCurrent then stack2 else stack1;
      var start := if |previous| < n then 0 else |previous| - n;
      if start + n <= |previous| {
        ghost var before := View();
        var frames := previous[start..start + n];
        out := [];
        for i := 0 to n
          invariant out == MarkedAll(frames[..i])
          invariant View() == before.(current := before.current + frames[..i])
        {
          MarkedNext(frames, i);
          PushCurrent(frames[i]);
          out := out + [frames[i] + [MARKER]];
        }
        assert frames[..n] == frames == previous[|previous| - n..];
      } else {
        out := [line];
      }
    }

    method ReadLine(line: string) returns (out: seq<string>)
      modifies this
      ensures (View(), out) == Process(old(View()), line, KindOf(line))
    {
      out := [line];
      if IsFrameLine(line) {
        inTrace := true;
        PushCurrent(line);
      } else if inTrace {
        if IsCauseLine(line) {
          SwapStacks();
        } else {
          match ElidedCount(line)
          case Some(n) => out := HandleElided(line, n);
          case None => Reset();
        }
      }
    }
  }

  method ExpandLines(lines: seq<string>) returns (out: seq<string>)
    ensures out == Expand(lines)
  {
    var context := new Context();
    out := [];
    assert lines[0..] == lines;
    for i := 0 to |lines|
      invariant ExpandFrom(KindOf, FRESH, lines) == out + ExpandFrom(KindOf, context.View(), lines[i..])
    {
      ExpandStep(KindOf, context.View(), lines, i);
      var more := context.ReadLine(lines[i]);
      out := out + more;
    }
  }

  lemma ExpandStep(k: Classifier, c: Stacks, lines: seq<string>, i: nat)
    requires i < |lines|
    ensures ExpandFrom(k, c, lines[i..]) ==
            ProcessLine(k, c, lines[i]).1 + ExpandFrom(k, ProcessLine(k, c, lines[i]).0, lines[i + 1..])
  {
  }

  // ---------- how the lines are written ----------

  /** A frame: indented or not, `at`, a text with an opening bracket and a closing one at its end. */
  ghost predicate FrameText(line: string) {
    exists indent, rest :: FrameParts(line, indent, rest)
  }

  ghost predicate FrameParts(line: string, indent: string, rest: string) {
    line == indent + "at " + rest && Blank(indent) && '(' in rest && rest[|rest| - 1] == ')'
  }

  ghost predicate CauseText(line: string) {
    exists indent, rest :: CauseParts(line, indent, rest)
  }

  ghost predicate CauseParts(line: string, indent: string, rest: string) {
    line == indent + "Caused by:" + rest && Blank(indent)
  }

  /** An abbreviation of `n` frames, between blanks: a positive number of digits that fits the machine word,
      zeros in front or a plus sign allowed. */
  ghost predicate AbbreviationText(line: string, n: nat) {
    exists left, sign, digits, right :: AbbreviationParts(line, n, left, sign, digits, right)
  }

  ghost predicate AbbreviationParts(
    line: string, n: nat, left: string, sign: string, digits: string, right: string
  ) {
    && line == left + ("... " + (sign + digits) + " more") + right
    && Blank(left) && Blank(right) && (sign == "" || sign == "+")
    && digits != [] && AllDigits(digits) && DigitsValue(digits) == n && 1 <= n <= USIZE_MAX
  }

  lemma FrameIsWritten(line: string)
    requires IsFrameLine(line)
    ensures FrameText(line)
  {
    var indent := TrimStartRemoves(line);
    var t := TrimStart(line);
    assert t == "at " + t[3..] && t[|t| - 1..] == ")";
    assert FrameParts(line, indent, t[3..]);
  }

  lemma WrittenIsFrame(line: string, indent: string, rest: string)
    requires FrameParts(line, indent, rest)
    ensures IsFrameLine(line)
  {
    var t := "at " + rest;
    TrimStartOf(indent, t);
    assert indent + "at " + rest == indent + t && t[|t| - 1..] == ")";
    var i :| 0 <= i < |rest| && rest[i] == '(';
    assert t[3 + i] == '(';
  }

  lemma FrameIff(line: string)
    ensures IsFrameLine(line) <==> FrameText(line)
  {
    if IsFrameLine(line) {
      FrameIsWritten(line);
    }
    if indent, rest :| FrameParts(line, indent, rest) {
      WrittenIsFrame(line, indent, rest);
    }
  }

  lemma CauseIff(line: string)
    ensures IsCauseLine(line) <==> CauseText(line)
  {
    if IsCauseLine(line) {
      CauseIsWritten(line);
    }
    if indent, rest :| CauseParts(line, indent, rest) {
      WrittenIsCause(line, indent, rest);
    }
  }

  lemma CauseIsWritten(line: string)
    requires IsCauseLine(line)
    ensures CauseText(line)
  {
    var indent := TrimStartRemoves(line);
    var t := TrimStart(line);
    assert t == "Caused by:" + t[10..];
    assert line == indent + "Caused by:" + t[10..];
    assert CauseParts(line, indent, t[10..]);
  }

  lemma WrittenIsCause(line: string, indent: string, rest: string)
    requires CauseParts(line, indent, rest)
    ensures IsCauseLine(line)
  {
    var t := "Caused by:" + rest;
    assert t[0] == 'C';
    TrimStartOf(indent, t);
    assert indent + "Caused by:" + rest == indent + t;
  }

  lemma ElidedIsWritten(line: string, n: nat)
    requires ElidedCount(line) == Some(n)
    ensures AbbreviationText(line, n)
  {
    var left, right := TrimRemoves(line);
    var sign, digits := CountIsWritten(Trim(line), n);
    assert AbbreviationParts(line, n, left, sign, digits, right);
  }

  lemma CountIsWritten(t: string, n: nat) returns (sign: string, digits: string)
    requires StripPrefix(t, "... ").Some? && StripSuffix(StripPrefix(t, "... ").value, " more").Some?
    requires ParseUnsigned(StripSuffix(StripPrefix(t, "... ").value, " more").value, USIZE_MAX) == Some(n)
    ensures t == "... " + (sign + digits) + " more" && (sign == "" || sign == "+")
    ensures digits != [] && AllDigits(digits) && DigitsValue(digits) == n <= USIZE_MAX
  {
    var rest := StripPrefix(t, "... ").value;
    var number := StripSuffix(rest, " more").value;
    UnsignedIff(number, USIZE_MAX, n);
    sign, digits :| Unsigned(number, sign, digits, n);
    StripsOff(t, "... ");
    StripsOff(rest, " more");
    InFront("... ", number, " more");
  }

  lemma InFront<T>(a: seq<T>, b: seq<T>, c: seq<T>)
    ensures a + (b + c) == a + b + c
  {
  }

  lemma WrittenIsElided(line: string, n: nat, left: string, sign: string, digits: string, right: string)
    requires AbbreviationParts(line, n, left, sign, digits, right)
    ensures ElidedCount(line) == Some(n)
  {
    var number := sign + digits;
    var t := "... " + number + " more";
    assert t[0] == '.' && t[|t| - 1] == 'e';
    TrimOf(left, t, right);
    assert t == "... " + (number + " more");
    StripsOff(number + " more", "... ");
    StripsOff(number, " more");
    SignedNumber(sign, digits);
  }

  lemma SignedNumber(sign: string, digits: string)
    requires (sign == "" || sign == "+") && digits != [] && AllDigits(digits) && DigitsValue(digits) <= USIZE_MAX
    ensures ParseUnsigned(sign + digits, USIZE_MAX) == Some(DigitsValue(digits))
  {
    assert Unsigned(sign + digits, sign, digits, DigitsValue(digits));
    UnsignedIff(sign + digits, USIZE_MAX, DigitsValue(digits));
  }

  lemma AbbreviationIff(line: string, n: nat)
    ensures ElidedCount(line) == Some(n) <==> AbbreviationText(line, n)
  {
    if ElidedCount(line) == Some(n) {
      ElidedIsWritten(line, n);
    }
    if left, sign, digits, right :| AbbreviationParts(line, n, left, sign, digits, right) {
      WrittenIsElided(line, n, left, sign, digits, right);
    }
  }

  /** What every line is taken for, by how it is written: no line is written in two of these ways. */
  lemma KindIff(line: string, n: nat)
    ensures KindOf(line) == Frame <==> FrameText(line)
    ensures KindOf(line) == Cause <==> CauseText(line)
    ensures KindOf(line) == Elided(n) <==> AbbreviationText(line, n)
    ensures KindOf(line) == Other <==> !FrameText(line) && !CauseText(line) && forall m :: !AbbreviationText(line, m)
  {
    FrameIff(line);
    CauseIff(line);
    forall m: nat ensures ElidedCount(line) == Some(m) <==> AbbreviationText(line, m) {
      AbbreviationIff(line, m);
    }
    WaysApart(line);
  }

  lemma WaysApart(line: string)
    ensures !(IsFrameLine(line) && IsCauseLine(line))
    ensures ElidedCount(line).Some? ==> !IsFrameLine(line) && !IsCauseLine(line)
  {
    var t := TrimStart(line);
    TrimEndIsPrefix(t);
    assert IsFrameLine(line) ==> t[0] == "at "[0] == 'a';
    assert IsCauseLine(line) ==> t[0] == "Caused by:"[0] == 'C';
    assert ElidedCount(line).Some? ==> Trim(line)[0] == "... "[0] == '.';
  }

  /** A number printed between dots and `more` is read as that number. */
  lemma PrintedCountReadsBack(n: nat, left: string, right: string)
    requires 1 <= n <= USIZE_MAX && Blank(left) && Blank(right)
    ensures KindOf(left + ("... " + Decimal(n) + " more") + right) == Elided(n)
  {
    var line := left + ("... " + Decimal(n) + " more") + right;
    DecimalValue(n);
    assert "" + Decimal(n) == Decimal(n);
    assert AbbreviationParts(line, n, left, "", Decimal(n), right);
    KindIff(line, n);
  }

  // ---------- idempotence ----------

  /** What the expander needs of a classification: an expanded line is neither a frame, nor a
      cause, nor an abbreviation, and an abbreviation stands for at least one frame. */
  ghost predicate Sane(k: Classifier) {
    && (forall frame :: k(frame).Frame? ==> k(Marked(frame)).Other?)
    && (forall line :: k(line).Elided? ==> k(line).n > 0)
  }

  lemma MarkedStart(frame: string)
    requires IsFrameLine(frame)
    ensures var u := TrimStart(Marked(frame));
      |u| > 1 && u[0] == 'a' && u[|u| - 1] == MARKER
  {
    TrimStartAppend(frame, [MARKER]);
    assert TrimStart(frame)[0] == "at "[0];
  }

  lemma MarkedTrim(frame: string)
    requires IsFrameLine(frame)
    ensures Trim(Marked(frame)) != [] && Trim(Marked(frame))[0] == 'a'
  {
    MarkedStart(frame);
    TrimEndIsPrefix(TrimStart(Marked(frame)));
  }

  lemma MarkedIsOther(frame: string)
    requires KindOf(frame).Frame?
    ensures KindOf(Marked(frame)).Other?
  {
    MarkedStart(frame);
    MarkedTrim(frame);
    var u := TrimStart(Marked(frame));
    assert u[|u| - 1..] == [MARKER];
    assert !StartsWith(u, "Caused by:") && !StartsWith(Trim(Marked(frame)), "... ");
  }

  lemma KindOfIsSane()
    ensures Sane(KindOf)
  {
    forall frame | KindOf(frame).Frame?
      ensures KindOf(Marked(frame)).Other?
    {
      MarkedIsOther(frame);
    }
  }

  ghost predicate AllFrames(k: Classifier, frames: seq<string>) {
    forall i :: 0 <= i < |frames| ==> k(frames[i]).Frame?
  }

  ghost predicate WellFormed(k: Classifier, c: Stacks) {
    && AllFrames(k, c.current) && AllFrames(k, c.previous)
    && (!c.inTrace ==> c == FRESH)
  }

  /** `d`, the stacks while reading already expanded lines, never know more than `c`. */
  ghost predicate KnowsLess(k: Classifier, d: Stacks, c: Stacks) {
    && WellFormed(k, c) && WellFormed(k, d)
    && (d.inTrace ==> c.inTrace)
    && |d.current| <= |c.current| && |d.previous| <= |c.previous|
  }

  lemma {:induction false} InertLinesPass(k: Classifier, d: Stacks, lines: seq<string>)
    requires WellFormed(k, d) && forall i :: 0 <= i < |lines| ==> k(lines[i]).Other?
    ensures ExpandFrom(k, d, lines) == lines
    ensures StacksAfter(k, d, lines) == if lines == [] then d else FRESH
    decreases |lines|
  {
    if lines != [] {
      assert ProcessLine(k, d, lines[0]) == (FRESH, [lines[0]]);
      InertLinesPass(k, FRESH, lines[1..]);
    }
  }

  lemma {:induction false} ExpandFromAppend(k: Classifier, c: Stacks, a: seq<string>, b: seq<string>)
    ensures ExpandFrom(k, c, a + b) == ExpandFrom(k, c, a) + ExpandFrom(k, StacksAfter(k, c, a), b)
    decreases |a|
  {
    if a == [] {
      assert a + b == b;
    } else {
      assert (a + b)[1..] == a[1..] + b;
      ExpandFromAppend(k, ProcessLine(k, c, a[0]).0, a[1..], b);
    }
  }

  lemma ExpandOne(k: Classifier, c: Stacks, line: string)
    ensures ExpandFrom(k, c, [line]) == ProcessLine(k, c, line).1
    ensures StacksAfter(k, c, [line]) == ProcessLine(k, c, line).0
  {
  }

  lemma BothRead(k: Classifier, c: Stacks, d: Stacks, line: string, kind: Kind)
    requires KnowsLess(k, d, c) && (kind.Frame? ==> k(line).Frame?)
    requires !kind.Elided? || !c.inTrace || kind.n > |c.previous|
    ensures var (c', out) := Process(c, line, kind); var (d', again) := Process(d, line, kind);
      out == again == [line] && KnowsLess(k, d', c')
  {
  }

  lemma ExpandedKeeps(k: Classifier, c: Stacks, n: nat)
    requires WellFormed(k, c) && c.inTrace && n <= |c.previous|
    ensures KnowsLess(k, FRESH, c.(current := c.current + c.previous[|c.previous| - n..]))
  {
  }

  lemma MarkedPass(k: Classifier, d: Stacks, frames: seq<string>)
    requires Sane(k) && WellFormed(k, d) && AllFrames(k, frames)
    ensures ExpandFrom(k, d, MarkedAll(frames)) == MarkedAll(frames)
    ensures StacksAfter(k, d, MarkedAll(frames)) == if frames == [] then d else FRESH
  {
    forall i | 0 <= i < |frames|
      ensures k(MarkedAll(frames)[i]).Other?
    {
    }
    InertLinesPass(k, d, MarkedAll(frames));
  }

  lemma ElidedFollows(k: Classifier, c: Stacks, d: Stacks, line: string, n: nat)
    requires Sane(k) && KnowsLess(k, d, c) && c.inTrace && 0 < n <= |c.previous|
    ensures var (c', out) := Process(c, line, Elided(n));
      ExpandFrom(k, d, out) == out && KnowsLess(k, StacksAfter(k, d, out), c')
  {
    MarkedPass(k, d, c.previous[|c.previous| - n..]);
    ExpandedKeeps(k, c, n);
  }

  /** The simulation step: what one line expands to is reproduced by the second run. */
  lemma SecondRunFollows(k: Classifier, c: Stacks, d: Stacks, line: string)
    requires Sane(k) && KnowsLess(k, d, c)
    ensures var (c', out) := ProcessLine(k, c, line);
      ExpandFrom(k, d, out) == out && KnowsLess(k, StacksAfter(k, d, out), c')
  {
    var kind := k(line);
    if kind.Elided? && c.inTrace && kind.n <= |c.previous| {
      ElidedFollows(k, c, d, line, kind.n);
    } else {
      BothRead(k, c, d, line, kind);
      ExpandOne(k, d, line);
    }
  }

  lemma {:induction false} SecondRunReproduces(k: Classifier, c: Stacks, d: Stacks, lines: seq<string>)
    requires Sane(k) && KnowsLess(k, d, c)
    ensures ExpandFrom(k, d, ExpandFrom(k, c, lines)) == ExpandFrom(k, c, lines)
    decreases |lines|
  {
    if lines != [] {
      var (c', out) := ProcessLine(k, c, lines[0]);
      SecondRunFollows(k, c, d, lines[0]);
      ExpandFromAppend(k, d, out, ExpandFrom(k, c', lines[1..]));
      SecondRunReproduces(k, c', StacksAfter(k, d, out), lines[1..]);
    }
  }

  /** Expanding lines that are already expanded changes nothing. */
  lemma ExpandIsIdempotent(lines: seq<string>)
    ensures Expand(Expand(lines)) == Expand(lines)
  {
    KindOfIsSane();
    SecondRunReproduces(KindOf, FRESH, FRESH, lines);
  }

  lemma {:induction false} NoLineVanishes(k: Classifier, c: Stacks, lines: seq<string>)
    ensures |ExpandFrom(k, c, lines)| >= |lines|
    decreases |lines|
  {
    if lines != [] {
      NoLineVanishes(k, ProcessLine(k, c, lines[0]).0, lines[1..]);
    }
  }

  /** Where nothing is left to expand, nothing is left in any beginning of it. */
  lemma {:induction false} BeginningStays(k: Classifier, c: Stacks, a: seq<string>, b: seq<string>)
    requires ExpandFrom(k, c, a + b) == a + b
    ensures ExpandFrom(k, c, a) == a
  {
    ExpandFromAppend(k, c, a, b);
    NoLineVanishes(k, c, a);
    NoLineVanishes(k, StacksAfter(k, c, a), b);
    assert a == (a + b)[..|a|];
  }

  // ---------- what becomes of each line ----------

  /** An output line with its provenance. */
  datatype Shown = Passed(line: string) | Inserted(frame: string)

  function TextOf(shown: seq<Shown>): seq<string> {
    seq(|shown|, i requires 0 <= i < |shown| =>
      if shown[i].Passed? then shown[i].line else Marked(shown[i].frame))
  }

  /** The reference, read off what has been shown so far: is a trace open, which frames belong to
      its current section, and which to the section before the latest cause. */
  predicate TraceOpen(k: Classifier, shown: seq<Shown>) {
    if shown == [] then false
    else
      var before, last := shown[..|shown| - 1], shown[|shown| - 1];
      || last.Inserted? || k(last.line).Frame?
      || (TraceOpen(k, before) && !k(last.line).Other?)
  }

  function SectionFrames(k: Classifier, shown: seq<Shown>): seq<string> {
    if shown == [] then []
    else
      var before, last := shown[..|shown| - 1], shown[|shown| - 1];
      if last.Inserted? then SectionFrames(k, before) + [last.frame]
      else
        match k(last.line)
        case Frame => SectionFrames(k, before) + [last.line]
        case Elided(_) => if TraceOpen(k, before) then SectionFrames(k, before) else []
        case _ => []
  }

  function EnclosingFrames(k: Classifier, shown: seq<Shown>): seq<string> {
    if shown == [] then []
    else
      var before, last := shown[..|shown| - 1], shown[|shown| - 1];
      if last.Inserted? then EnclosingFrames(k, before)
      else
        match k(last.line)
        case Frame => EnclosingFrames(k, before)
        case Cause => if TraceOpen(k, before) then SectionFrames(k, before) else []
        case Elided(_) => if TraceOpen(k, before) then EnclosingFrames(k, before) else []
        case Other => []
  }

  function InsertedAll(frames: seq<string>): seq<Shown> {
    seq(|frames|, i requires 0 <= i < |frames| => Inserted(frames[i]))
  }

  /** What one more line shows: itself, or, for an abbreviation of no more frames than the
      enclosing section has, exactly the last N of those. */
  function ShownFor(k: Classifier, shown: seq<Shown>, line: string): seq<Shown> {
    var frames, kind := EnclosingFrames(k, shown), k(line);
    if TraceOpen(k, shown) && kind.Elided? && kind.n <= |frames| then
      InsertedAll(frames[|frames| - kind.n..])
    else [Passed(line)]
  }

  function ShowAll(k: Classifier, lines: seq<string>): seq<Shown> {
    if lines == [] then []
    else
      var before := ShowAll(k, lines[..|lines| - 1]);
      before + ShownFor(k, before, lines[|lines| - 1])
  }

  function ContextOf(k: Classifier, shown: seq<Shown>): Stacks {
    Stacks(TraceOpen(k, shown), SectionFrames(k, shown), EnclosingFrames(k, shown))
  }

  lemma AfterInserted(k: Classifier, shown: seq<Shown>, frame: string)
    ensures ContextOf(k, shown + [Inserted(frame)])
         == Stacks(true, SectionFrames(k, shown) + [frame], EnclosingFrames(k, shown))
  {
  }

  lemma AfterPassed(k: Classifier, shown: seq<Shown>, line: string)
    requires TraceOpen(k, shown) || ContextOf(k, shown) == FRESH
    ensures ContextOf(k, shown + [Passed(line)]) ==
            if k(line).Elided? then ContextOf(k, shown)
            else Process(ContextOf(k, shown), line, k(line)).0
  {
  }

  lemma {:induction false} InsertedExtend(k: Classifier, shown: seq<Shown>, frames: seq<string>)
    ensures ContextOf(k, shown + InsertedAll(frames)) ==
            if frames == [] then ContextOf(k, shown)
            else Stacks(true, SectionFrames(k, shown) + frames, EnclosingFrames(k, shown))
  {
    if frames == [] {
      assert shown + InsertedAll(frames) == shown;
    } else {
      var rest, last := frames[..|frames| - 1], frames[|frames| - 1];
      InsertedExtend(k, shown, rest);
      AfterInserted(k, shown + InsertedAll(rest), last);
      assert shown + InsertedAll(frames) == shown + InsertedAll(rest) + [Inserted(last)];
      assert SectionFrames(k, shown) + frames == SectionFrames(k, shown) + rest + [last];
      assert SectionFrames(k, shown) + [] == SectionFrames(k, shown);
    }
  }

  lemma ShownStep(k: Classifier, shown: seq<Shown>, line: string)
    requires Sane(k)
    requires TraceOpen(k, shown) || ContextOf(k, shown) == FRESH
    ensures ProcessLine(k, ContextOf(k, shown), line).0 == ContextOf(k, shown + ShownFor(k, shown, line))
    ensures ProcessLine(k, ContextOf(k, shown), line).1 == TextOf(ShownFor(k, shown, line))
    ensures var after := ContextOf(k, shown + ShownFor(k, shown, line)); after.inTrace || after == FRESH
  {
    if Expands(k, shown, line) {
      ShownExpanded(k, shown, line);
    } else {
      ShownPassed(k, shown, line);
    }
  }

  predicate Expands(k: Classifier, shown: seq<Shown>, line: string) {
    TraceOpen(k, shown) && k(line).Elided? && k(line).n <= |EnclosingFrames(k, shown)|
  }

  lemma ShownExpanded(k: Classifier, shown: seq<Shown>, line: string)
    requires Expands(k, shown, line) && k(line).n > 0
    ensures ProcessLine(k, ContextOf(k, shown), line).0 == ContextOf(k, shown + ShownFor(k, shown, line))
    ensures ProcessLine(k, ContextOf(k, shown), line).1 == TextOf(ShownFor(k, shown, line))
    ensures ContextOf(k, shown + ShownFor(k, shown, line)).inTrace
  {
    ExpandedStep(k, ContextOf(k, shown), shown, line, k(line).n);
  }

  lemma ShownPassed(k: Classifier, shown: seq<Shown>, line: string)
    requires !Expands(k, shown, line) && (k(line).Elided? ==> k(line).n > 0)
    requires TraceOpen(k, shown) || ContextOf(k, shown) == FRESH
    ensures ShownFor(k, shown, line) == [Passed(line)]
    ensures ProcessLine(k, ContextOf(k, shown), line).0 == ContextOf(k, shown + [Passed(line)])
    ensures ProcessLine(k, ContextOf(k, shown), line).1 == TextOf([Passed(line)])
    ensures var after := ContextOf(k, shown + [Passed(line)]); after.inTrace || after == FRESH
  {
    AfterPassed(k, shown, line);
    assert TextOf([Passed(line)]) == [line];
  }

  lemma ExpandedStep(k: Classifier, c: Stacks, shown: seq<Shown>, line: string, n: nat)
    requires c == ContextOf(k, shown) && c.inTrace && 0 < n <= |c.previous|
    ensures var frames := c.previous[|c.previous| - n..];
      Process(c, line, Elided(n)) == (ContextOf(k, shown + InsertedAll(frames)), TextOf(InsertedAll(frames)))
  {
    var frames := c.previous[|c.previous| - n..];
    InsertedExtend(k, shown, frames);
    assert TextOf(InsertedAll(frames)) == MarkedAll(frames);
  }

  ghost predicate Follows(k: Classifier, lines: seq<string>, shown: seq<Shown>) {
    && ExpandFrom(k, FRESH, lines) == TextOf(shown)
    && StacksAfter(k, FRESH, lines) == ContextOf(k, shown)
    && (TraceOpen(k, shown) || ContextOf(k, shown) == FRESH)
  }

  lemma FollowsStep(k: Classifier, init: seq<string>, shown: seq<Shown>, last: string)
    requires Sane(k) && Follows(k, init, shown)
    ensures Follows(k, init + [last], shown + ShownFor(k, shown, last))
  {
    ShownStep(k, shown, last);
    TextOfAppend(shown, ShownFor(k, shown, last));
    LastLine(k, FRESH, init, last);
  }

  lemma ShowOneMore(k: Classifier, init: seq<string>, last: string)
    ensures ShowAll(k, init + [last]) == ShowAll(k, init) + ShownFor(k, ShowAll(k, init), last)
  {
    var lines := init + [last];
    assert lines[..|lines| - 1] == init && lines[|lines| - 1] == last;
  }

  lemma {:induction false} ShowAllFollows(k: Classifier, lines: seq<string>)
    requires Sane(k)
    ensures Follows(k, lines, ShowAll(k, lines))
  {
    if lines == [] {
      assert TextOf([]) == [];
    } else {
      var init, last := lines[..|lines| - 1], lines[|lines| - 1];
      assert init + [last] == lines;
      ShowAllFollows(k, init);
      FollowsStep(k, init, ShowAll(k, init), last);
      ShowOneMore(k, init, last);
    }
  }

  lemma LastLine(k: Classifier, c: Stacks, init: seq<string>, last: string)
    ensures var d := StacksAfter(k, c, init);
      && ExpandFrom(k, c, init + [last]) == ExpandFrom(k, c, init) + ProcessLine(k, d, last).1
      && StacksAfter(k, c, init + [last]) == ProcessLine(k, d, last).0
  {
    ExpandFromAppend(k, c, init, [last]);
    StacksAfterAppend(k, c, init, [last]);
    ExpandOne(k, StacksAfter(k, c, init), last);
  }

  lemma {:induction false} StacksAfterAppend(k: Classifier, c: Stacks, a: seq<string>, b: seq<string>)
    ensures StacksAfter(k, c, a + b) == StacksAfter(k, StacksAfter(k, c, a), b)
    decreases |a|
  {
    if a == [] {
      assert a + b == b;
    } else {
      assert (a + b)[1..] == a[1..] + b;
      StacksAfterAppend(k, ProcessLine(k, c, a[0]).0, a[1..], b);
    }
  }

  lemma TextOfAppend(a: seq<Shown>, b: seq<Shown>)
    ensures TextOf(a + b) == TextOf(a) + TextOf(b)
  {
  }

  /** What one more line adds is read off the expansion of the lines before it (`ShownFor`): an
      abbreviation with an open trace whose enclosing section has at least N frames becomes exactly
      the last N of them, marked; every other line is passed through. */
  lemma EachLine(lines: seq<string>, line: string)
    ensures TextOf(ShowAll(KindOf, lines)) == Expand(lines)
    ensures Expand(lines + [line]) == Expand(lines) + TextOf(ShownFor(KindOf, ShowAll(KindOf, lines), line))
  {
    KindOfIsSane();
    NextLine(KindOf, lines, line);
  }

  function WithSpaceBehind(frames: seq<string>): seq<string> {
    seq(|frames|, i requires 0 <= i < |frames| => frames[i] + "\U{00A0}")
  }

  /** What an abbreviation of `n` frames becomes: if a trace is open and its enclosing section has that many
      frames, the last `n` of them, each with a no-break space behind it. */
  function Replacement(open: bool, frames: seq<string>, line: string, n: nat): seq<string> {
    if open && n <= |frames| then WithSpaceBehind(frames[|frames| - n..]) else [line]
  }

  /** In the words of the lines: an abbreviation of `n` frames becomes those of the enclosing section. */
  lemma EachAbbreviation(lines: seq<string>, line: string, n: nat)
    requires AbbreviationText(line, n)
    ensures var shown := ShowAll(KindOf, lines);
      Expand(lines + [line]) ==
        Expand(lines) + Replacement(TraceOpen(KindOf, shown), EnclosingFrames(KindOf, shown), line, n)
  {
    KindOfAbbreviation(line, n);
    EachLine(lines, line);
    AbbreviationShown(KindOf, ShowAll(KindOf, lines), line);
  }

  lemma KindOfAbbreviation(line: string, n: nat)
    requires AbbreviationText(line, n)
    ensures KindOf(line) == Elided(n)
  {
    KindIff(line, n);
  }

  lemma AbbreviationShown(k: Classifier, shown: seq<Shown>, line: string)
    requires k(line).Elided?
    ensures TextOf(ShownFor(k, shown, line)) ==
            Replacement(TraceOpen(k, shown), EnclosingFrames(k, shown), line, k(line).n)
  {
    var frames := EnclosingFrames(k, shown);
    ShownForElided(k, shown, line, frames);
    if Expands(k, shown, line) {
      InsertedText(frames[|frames| - k(line).n..]);
    } else {
      PassedText(line);
    }
  }

  lemma ShownForElided(k: Classifier, shown: seq<Shown>, line: string, frames: seq<string>)
    requires k(line).Elided? && frames == EnclosingFrames(k, shown)
    ensures Expands(k, shown, line) ==> ShownFor(k, shown, line) == InsertedAll(frames[|frames| - k(line).n..])
    ensures !Expands(k, shown, line) ==> ShownFor(k, shown, line) == [Passed(line)]
  {
  }

  lemma InsertedText(frames: seq<string>)
    ensures TextOf(InsertedAll(frames)) == WithSpaceBehind(frames)
  {
  }

  lemma PassedText(line: string)
    ensures TextOf([Passed(line)]) == [line]
  {
  }

  lemma EveryOtherLine(lines: seq<string>, line: string)
    requires forall n :: !AbbreviationText(line, n)
    ensures Expand(lines + [line]) == Expand(lines) + [line]
  {
    if KindOf(line).Elided? {
      KindIff(line, KindOf(line).n);
    }
    EachLine(lines, line);
    assert TextOf([Passed(line)]) == [line];
  }

  lemma NextLine(k: Classifier, lines: seq<string>, line: string)
    requires Sane(k)
    ensures TextOf(ShowAll(k, lines)) == ExpandFrom(k, FRESH, lines)
    ensures ExpandFrom(k, FRESH, lines + [line]) ==
            ExpandFrom(k, FRESH, lines) + TextOf(ShownFor(k, ShowAll(k, lines), line))
  {
    ShowAllFollows(k, lines);
    LastLine(k, FRESH, lines, line);
    ShownStep(k, ShowAll(k, lines), line);
  }

  function Plain(k: Classifier, lines: seq<string>): seq<string> {
    if lines == [] then []
    else Plain(k, lines[..|lines| - 1])
         + if k(lines[|lines| - 1]).Elided? then [] else [lines[|lines| - 1]]
  }

  function PlainPassed(k: Classifier, shown: seq<Shown>): seq<string> {
    if shown == [] then []
    else
      var last := shown[|shown| - 1];
      PlainPassed(k, shown[..|shown| - 1])
      + if last.Passed? && !k(last.line).Elided? then [last.line] else []
  }

  lemma {:induction false} InsertedAreNotPlain(k: Classifier, shown: seq<Shown>, more: seq<Shown>)
    requires forall i :: 0 <= i < |more| ==> more[i].Inserted?
    ensures PlainPassed(k, shown + more) == PlainPassed(k, shown)
  {
    if more == [] {
      assert shown + more == shown;
    } else {
      assert (shown + more)[..|shown + more| - 1] == shown + more[..|more| - 1];
      InsertedAreNotPlain(k, shown, more[..|more| - 1]);
    }
  }

  /** Every line that is no abbreviation passes through once, in order. */
  lemma {:induction false} PlainLinesPassOnce(k: Classifier, lines: seq<string>)
    ensures PlainPassed(k, ShowAll(k, lines)) == Plain(k, lines)
  {
    if lines != [] {
      var init, last := lines[..|lines| - 1], lines[|lines| - 1];
      PlainLinesPassOnce(k, init);
      var shown, more := ShowAll(k, init), ShownFor(k, ShowAll(k, init), last);
      if more == [Passed(last)] {
        assert (shown + more)[..|shown + more| - 1] == shown;
      } else {
        InsertedAreNotPlain(k, shown, more);
      }
    }
  }
}
