/** Records out of the lines of a device log: a header, then body lines up to the next header. */
module Assembler {

  import opened Clock
  import opened Options
  import opened Parse
  import opened Ring
  import opened StackTrace
  import opened Text

  /** The record being read. */
  datatype Pending = Pending(header: Option<Header>, body: seq<string>)

  const NOTHING := Pending(None, [])

  /** `line` without its carriage returns. */
  function WithoutReturns(line: string): string {
    if line == [] then []
    else if line[0] == '\r' then WithoutReturns(line[1..])
    else [line[0]] + WithoutReturns(line[1..])
  }

  /** A line about the log itself has no clock, no process and no level. */
  function SystemMessage(raw: string): Body {
    Body([], 0, 0, None, None, '?', [], raw)
  }

  function JoinBody(lines: seq<string>): string {
    TrimEnd(Join(lines, '\n'))
  }

  function RecordOf(h: Header, body: seq<string>): Body {
    Body(h.ts, h.pid, h.tid, h.uid, None, h.level, h.tag, JoinBody(Expand(body)))
  }

  /** A header without a body is no record yet and stays. */
  function Flushed(p: Pending): (Pending, seq<Body>) {
    if p.header.Some? && p.body != [] then (NOTHING, [RecordOf(p.header.value, p.body)]) else (p, [])
  }

  datatype LineKind = System | Head(h: Header) | Text

  function KindOfLine(now: Now, line: string): LineKind {
    if IsSystemLine(line) then System
    else
      match ParseLongHeader(now, line)
      case Some(h) => Head(h)
      case None => Text
  }

  /** The assembler works for any way to tell lines apart; the source's way is `KindOfLine`. */
  type Reader = string -> LineKind

  function ReaderAt(now: Now): Reader {
    line => KindOfLine(now, line)
  }

  function Ingested(kind: Reader, p: Pending, raw: string): (Pending, seq<Body>) {
    var line := WithoutReturns(raw);
    match kind(line)
    case System => (p, [SystemMessage(line)])
    case Head(h) => (Flushed(p).0.(header := Some(h)), Flushed(p).1)
    case Text => (if p.header.Some? then p.(body := p.body + [line]) else p, [])
  }

  /** Everything the assembler hands out for `lines` and a last `take`. */
  function AssembledFrom(kind: Reader, p: Pending, lines: seq<string>): seq<Body>
    decreases |lines|
  {
    if lines == [] then Flushed(p).1
    else
      var (q, out) := Ingested(kind, p, lines[0]);
      out + AssembledFrom(kind, q, lines[1..])
  }

  function Assembled(kind: Reader, lines: seq<string>): seq<Body> {
    AssembledFrom(kind, NOTHING, lines)
  }

  class MessageAssembler {
    const kind: Reader
    var header: Option<Header>
    var body: seq<string>

    ghost function View(): Pending
      reads this
    {
      Pending(header, body)
    }

    constructor (now: Now)
      ensures View() == NOTHING && kind == ReaderAt(now)
    {
      kind, header, body := ReaderAt(now), None, [];
    }

    predicate HasPending()
      reads this
    {
      header.Some? && body != []
    }

    method Ingest(raw: string) returns (out: seq<Body>)
      modifies this
      ensures (View(), out) == Ingested(kind, old(View()), raw)
    {
      var line := WithoutReturns(raw);
      out := [];
      match kind(line)
      case System =>
        out := [SystemMessage(line)];
      case Head(h) =>
        var msg := Flush();
        if msg.Some? {
          out := [msg.value];
        }
        header := Some(h);
      case Text =>
        if header.Some? {
          body := body + [line];
        }
    }

    method Take() returns (msg: Option<Body>)
      modifies this
      ensures (View(), if msg.Some? then [msg.value] else []) == Flushed(old(View()))
    {
      msg := Flush();
    }

    method Flush() returns (msg: Option<Body>)
      modifies this
      ensures (View(), if msg.Some? then [msg.value] else []) == Flushed(old(View()))
    {
      if !HasPending() {
        return None;
      }
      var h := header.value;
      header := None;
      var lines := body;
      body := [];
      var expanded := ExpandLines(lines);
      msg := Some(Body(h.ts, h.pid, h.tid, h.uid, None, h.level, h.tag, JoinBody(expanded)));
    }
  }

  // ---------- a header splits the log ----------

  /** The state in which the lines leave the assembler, and what they made it hand out. */
  function After(kind: Reader, p: Pending, lines: seq<string>): (Pending, seq<Body>)
    decreases |lines|
  {
    if lines == [] then (p, [])
    else
      var (q, out) := Ingested(kind, p, lines[0]);
      var (r, more) := After(kind, q, lines[1..]);
      (r, out + more)
  }

  lemma {:induction false} AssembledAppend(kind: Reader, p: Pending, xs: seq<string>, ys: seq<string>)
    ensures AssembledFrom(kind, p, xs + ys)
         == After(kind, p, xs).1 + AssembledFrom(kind, After(kind, p, xs).0, ys)
    decreases |xs|
  {
    if xs == [] {
      assert xs + ys == ys;
    } else {
      assert (xs + ys)[1..] == xs[1..] + ys;
      AssembledAppend(kind, Ingested(kind, p, xs[0]).0, xs[1..], ys);
    }
  }

  lemma {:induction false} BodyNeedsHeader(kind: Reader, p: Pending, lines: seq<string>)
    requires p.header.None? ==> p.body == []
    ensures var q := After(kind, p, lines).0; q.header.None? ==> q.body == []
    decreases |lines|
  {
    if lines != [] {
      BodyNeedsHeader(kind, Ingested(kind, p, lines[0]).0, lines[1..]);
    }
  }

  lemma {:induction false} TakenAtEnd(kind: Reader, p: Pending, lines: seq<string>)
    ensures AssembledFrom(kind, p, lines) == After(kind, p, lines).1 + Flushed(After(kind, p, lines).0).1
  {
    AssembledAppend(kind, p, lines, []);
    assert lines + [] == lines;
  }

  /** Assembling splits at any header. */
  lemma HeaderSplits(kind: Reader, xs: seq<string>, h: string, ys: seq<string>)
    requires kind(WithoutReturns(h)).Head?
    ensures Assembled(kind, xs + [h] + ys) == Assembled(kind, xs) + Assembled(kind, [h] + ys)
  {
    var p := After(kind, NOTHING, xs).0;
    BodyNeedsHeader(kind, NOTHING, xs);
    GroupsAlike(xs, [h], ys);
    AssembledAppend(kind, NOTHING, xs, [h] + ys);
    TakenAtEnd(kind, NOTHING, xs);
    assert ([h] + ys)[1..] == ys;
  }

  /** A line about the log itself comes out where it stands and changes nothing else: neither does
      it close the open record nor become part of it. */
  lemma SystemLineOnlyInserts(kind: Reader, xs: seq<string>, line: string, ys: seq<string>)
    requires kind(WithoutReturns(line)).System?
    ensures var before := After(kind, NOTHING, xs).1;
            var behind := AssembledFrom(kind, After(kind, NOTHING, xs).0, ys);
            && Assembled(kind, xs + ys) == before + behind
            && Assembled(kind, xs + [line] + ys) == before + [SystemMessage(WithoutReturns(line))] + behind
            && SystemMessage(WithoutReturns(line)) == Body("", 0, 0, None, None, '?', "", WithoutReturns(line))
  {
    GroupsAlike(xs, [line], ys);
    AssembledAppend(kind, NOTHING, xs, ys);
    AssembledAppend(kind, NOTHING, xs, [line] + ys);
    assert ([line] + ys)[1..] == ys;
  }

  lemma HeaderIsNoSystemLine(now: Now, line: string)
    requires ParseLongHeader(now, line).Some?
    ensures !IsSystemLine(line)
  {
    var t := TrimStart(line);
    TrimEndIsPrefix(t);
    assert Trim(line)[0] == '[' == t[0];
    assert SYSTEM_LINE_PREFIX[0] == '-' && (line[0] == '-' ==> t == line);
  }

  /** Reading the log, it splits at every line that parses as a header. */
  lemma LogSplitsAtHeaders(now: Now, xs: seq<string>, h: string, ys: seq<string>)
    requires ParseLongHeader(now, WithoutReturns(h)).Some?
    ensures Assembled(ReaderAt(now), xs + [h] + ys)
         == Assembled(ReaderAt(now), xs) + Assembled(ReaderAt(now), [h] + ys)
  {
    HeaderIsNoSystemLine(now, WithoutReturns(h));
    HeaderSplits(ReaderAt(now), xs, h, ys);
  }

  // ---------- printing and assembling ----------

  function HeaderOf(b: Body): Header {
    Header(b.ts, b.pid, b.tid, b.uid, b.level, b.tag)
  }

  /** A record as the log's printer writes it. */
  function PrintRecord(b: Body): string {
    PrintHeader(HeaderOf(b)) + "\n" + b.msg + "\n\n"
  }

  function Flatten<T>(parts: seq<seq<T>>): seq<T> {
    if parts == [] then [] else parts[0] + Flatten(parts[1..])
  }

  function PrintLog(records: seq<Body>): string {
    Flatten(seq(|records|, i requires 0 <= i < |records| => PrintRecord(records[i])))
  }

  /** The lines of a text; a last line break does not open another line. */
  function Lines(text: string): seq<string> {
    var parts := Split(text, Is('\n'));
    if parts != [] && parts[|parts| - 1] == [] then parts[..|parts| - 1] else parts
  }

  /** A last line counts with or without a line break behind it. */
  lemma LastLineCounts(text: string, last: string)
    requires last != [] && '\n' !in last
    ensures Lines(text + ['\n'] + last) == Split(text, Is('\n')) + [last]
    ensures Lines(text + ['\n'] + last + ['\n']) == Split(text, Is('\n')) + [last]
  {
    SplitAppend(text, '\n', last, Is('\n'));
    SplitNone(last, Is('\n'));
    SplitAppend(text + ['\n'] + last, '\n', [], Is('\n'));
    SplitNone([], Is('\n'));
    assert text + ['\n'] + last + ['\n'] + [] == text + ['\n'] + last + ['\n'];
    var parts := Split(text, Is('\n')) + [last] + [""];
    assert parts[..|parts| - 1] == Split(text, Is('\n')) + [last];
  }

  /** A body line that stays what it is: no carriage return, no header, nothing about the log. */
  predicate IsBodyLine(kind: Reader, line: string) {
    '\r' !in line && kind(line) == Text
  }

  ghost predicate AllBodyLines(kind: Reader, lines: seq<string>) {
    forall line :: line in lines ==> IsBodyLine(kind, line)
  }

  function BodyLines(b: Body): seq<string> {
    Split(b.msg, Is('\n'))
  }

  /** A message made of body lines and trimmed at the end, with no abbreviated stack frame in it
      that is left to be expanded. */
  ghost predicate MessagePrints(kind: Reader, b: Body) {
    && TrimEnd(b.msg) == b.msg
    && AllBodyLines(kind, BodyLines(b))
    && Expand(BodyLines(b)) == BodyLines(b)
  }

  predicate HeadPrints(b: Body) {
    b.app.None? && Printable(HeaderOf(b)) && '\r' !in b.tag && '\n' !in b.tag
  }

  /** The header parser comes back from each of the lines. */
  ghost predicate AllReturn(now: Now, lines: seq<string>) {
    forall line :: line in lines ==> ReadHeader(now, line).Returns?
  }

  /** Records that a printed log keeps. */
  ghost predicate Loggable(now: Now, b: Body) {
    HeadPrints(b) && MessagePrints(ReaderAt(now), b) && AllReturn(now, BodyLines(b))
  }

  ghost predicate AllLoggable(now: Now, records: seq<Body>) {
    forall b :: b in records ==> Loggable(now, b)
  }

  lemma SliceLoggable(now: Now, log: seq<Body>, from: nat, upto: nat)
    requires AllLoggable(now, log) && from <= upto <= |log|
    ensures AllLoggable(now, log[from..upto])
  {
  }

  lemma {:induction false} NoReturns(line: string)
    requires '\r' !in line
    ensures WithoutReturns(line) == line
  {
    if line != [] {
      NoReturns(line[1..]);
      assert line == [line[0]] + line[1..];
    }
  }

  lemma {:induction false} BodyIsCollected(kind: Reader, h: Header, body: seq<string>, lines: seq<string>)
    requires AllBodyLines(kind, lines)
    ensures After(kind, Pending(Some(h), body), lines).0 == Pending(Some(h), body + lines)
    ensures After(kind, Pending(Some(h), body), lines).1 == []
    decreases |lines|
  {
    if lines == [] {
      assert body + lines == body;
    } else {
      assert IsBodyLine(kind, lines[0]);
      NoReturns(lines[0]);
      assert Ingested(kind, Pending(Some(h), body), lines[0]) == (Pending(Some(h), body + [lines[0]]), []);
      BodyIsCollected(kind, h, body + [lines[0]], lines[1..]);
      assert body + [lines[0]] + lines[1..] == body + lines;
    }
  }

  lemma EmptyIsBodyLine(now: Now)
    ensures IsBodyLine(ReaderAt(now), [])
  {
  }

  lemma ClockOf(ts: string) returns (p: Parts)
    requires Canonicalize(ts) == Some(ts)
    ensures ts == ClockText(p)
  {
    p := ParseParts(ts).value;
  }

  lemma HeaderHasNoBreak(h: Header)
    requires RestPrints(h) && '\r' !in h.tag && '\n' !in h.tag && '\r' !in h.ts && '\n' !in h.ts
    ensures '\r' !in PrintHeader(h) && '\n' !in PrintHeader(h)
  {
    IdsHaveNoBreak(h);
    PadHasNoBreak(h.tag, 8);
    PartsHaveNot('\r', h.ts, PrintIds(h), h.level, PadRight(h.tag, 8));
    PartsHaveNot('\n', h.ts, PrintIds(h), h.level, PadRight(h.tag, 8));
  }

  lemma PartsHaveNot(c: char, ts: string, ids: string, level: char, tag: string)
    requires c !in ts && c !in ids && c != level && c !in tag && c !in "[] /"
    ensures c !in "[ " + ts + " " + ids + " " + [level] + "/" + tag + " ]"
  {
  }

  lemma PadHasNoBreak(s: string, width: nat)
    requires '\r' !in s && '\n' !in s
    ensures '\r' !in PadRight(s, width) && '\n' !in PadRight(s, width)
    ensures '\r' !in PadLeft(s, width) && '\n' !in PadLeft(s, width)
  {
  }

  lemma ClockHasNoBreak(p: Parts)
    ensures '\r' !in ClockText(p) && '\n' !in ClockText(p)
  {
  }

  lemma IdsHaveNoBreak(h: Header)
    requires h.uid.Some? ==> UidPrints(h.uid.value)
    ensures '\r' !in PrintIds(h) && '\n' !in PrintIds(h)
  {
    PadHasNoBreak(Decimal(h.pid), 5);
    PadHasNoBreak(Decimal(h.tid), 5);
    if h.uid.Some? {
      PadHasNoBreak(h.uid.value, 5);
    }
  }

  lemma PrintedHeaderIsRead(now: Now, b: Body)
    requires HeadPrints(b)
    ensures '\r' !in PrintHeader(HeaderOf(b)) && '\n' !in PrintHeader(HeaderOf(b))
    ensures ReaderAt(now)(PrintHeader(HeaderOf(b))) == Head(HeaderOf(b))
  {
    var h := HeaderOf(b);
    HeaderReadsBack(now, h);
    HeaderIsNoSystemLine(now, PrintHeader(h));
    var p := ClockOf(h.ts);
    ClockHasNoBreak(p);
    HeaderHasNoBreak(h);
  }

  /** A record's lines alone give the record. */
  lemma OneRecord(kind: Reader, b: Body, head: string)
    requires b.app.None? && MessagePrints(kind, b) && IsBodyLine(kind, [])
    requires '\r' !in head && kind(head) == Head(HeaderOf(b))
    ensures Assembled(kind, [head] + BodyLines(b) + [""]) == [b]
  {
    var h, lines := HeaderOf(b), BodyLines(b) + [""];
    NoReturns(head);
    assert [head] + BodyLines(b) + [""] == [head] + lines;
    assert ([head] + lines)[1..] == lines;
    BodyIsCollected(kind, h, [], lines);
    assert [] + lines == lines;
    TakenAtEnd(kind, Pending(Some(h), []), lines);
    MessageReadsBack(b.msg, BodyLines(b));
  }

  lemma SeparatorPasses(k: Classifier, lines: seq<string>)
    requires ExpandFrom(k, FRESH, lines) == lines && k("") == Other
    ensures ExpandFrom(k, FRESH, lines + [""]) == lines + [""]
  {
    ExpandFromAppend(k, FRESH, lines, [""]);
    ExpandOne(k, StacksAfter(k, FRESH, lines), "");
  }

  lemma SeparatorIsTrimmed(msg: string)
    requires TrimEnd(msg) == msg
    ensures TrimEnd(msg + ['\n']) == msg
  {
  }

  /** The separator line behind a message is trimmed away again. */
  lemma MessageReadsBack(msg: string, lines: seq<string>)
    requires lines == Split(msg, Is('\n')) && Expand(lines) == lines && TrimEnd(msg) == msg
    ensures JoinBody(Expand(lines + [""])) == msg
  {
    SeparatorPasses(KindOf, lines);
    JoinSplit(msg, '\n');
    JoinAppend(lines, "", '\n');
    assert msg + ['\n'] + "" == msg + ['\n'];
    SeparatorIsTrimmed(msg);
  }

  // ---------- the printed text ----------

  function RecordLines(b: Body): seq<string> {
    [PrintHeader(HeaderOf(b))] + BodyLines(b) + [""]
  }

  function LogLines(records: seq<Body>): seq<string> {
    Flatten(seq(|records|, i requires 0 <= i < |records| => RecordLines(records[i])))
  }

  lemma PrintedRecordSplits(b: Body, rest: string)
    requires '\n' !in PrintHeader(HeaderOf(b))
    ensures Split(PrintRecord(b) + rest, Is('\n')) == RecordLines(b) + Split(rest, Is('\n'))
  {
    RecordSplits(PrintHeader(HeaderOf(b)), b.msg, rest);
  }

  lemma RecordSplits(head: string, msg: string, rest: string)
    requires '\n' !in head
    ensures Split(head + "\n" + msg + "\n\n" + rest, Is('\n'))
         == [head] + Split(msg, Is('\n')) + [""] + Split(rest, Is('\n'))
  {
    var p := Is('\n');
    var tail := [] + ['\n'] + rest;
    assert head + "\n" + msg + "\n\n" + rest == head + ['\n'] + (msg + ['\n'] + tail);
    SplitAt(head, '\n', msg + ['\n'] + tail, p);
    SplitAppend(msg, '\n', tail, p);
    SplitAt([], '\n', rest, p);
  }

  /** `piece` breaks into exactly `lines`, whatever follows it. */
  ghost predicate BreaksInto(piece: string, lines: seq<string>) {
    forall rest: string :: Split(piece + rest, Is('\n')) == lines + Split(rest, Is('\n'))
  }

  lemma OnePieceBreaks(piece: string, chunk: seq<string>, text: string, lines: seq<string>, rest: string)
    requires BreaksInto(piece, chunk) && Split(text + rest, Is('\n')) == lines + Split(rest, Is('\n'))
    ensures Split(piece + text + rest, Is('\n')) == chunk + lines + Split(rest, Is('\n'))
  {
    assert piece + text + rest == piece + (text + rest);
    assert chunk + (lines + Split(rest, Is('\n'))) == chunk + lines + Split(rest, Is('\n'));
  }

  lemma {:induction false} PiecesBreak(pieces: seq<string>, chunks: seq<seq<string>>, rest: string)
    requires |pieces| == |chunks|
    requires forall i :: 0 <= i < |pieces| ==> BreaksInto(pieces[i], chunks[i])
    ensures Split(Flatten(pieces) + rest, Is('\n')) == Flatten(chunks) + Split(rest, Is('\n'))
  {
    if pieces == [] {
      assert Flatten(pieces) + rest == rest;
    } else {
      PiecesBreak(pieces[1..], chunks[1..], rest);
      OnePieceBreaks(pieces[0], chunks[0], Flatten(pieces[1..]), Flatten(chunks[1..]), rest);
    }
  }

  lemma PrintedLogSplits(now: Now, records: seq<Body>, rest: string)
    requires forall b :: b in records ==> HeadPrints(b)
    ensures Split(PrintLog(records) + rest, Is('\n')) == LogLines(records) + Split(rest, Is('\n'))
  {
    var pieces := seq(|records|, i requires 0 <= i < |records| => PrintRecord(records[i]));
    var chunks := seq(|records|, i requires 0 <= i < |records| => RecordLines(records[i]));
    forall i | 0 <= i < |records| ensures BreaksInto(pieces[i], chunks[i]) {
      RecordBreaks(now, records[i]);
    }
    PiecesBreak(pieces, chunks, rest);
  }

  lemma RecordBreaks(now: Now, b: Body)
    requires HeadPrints(b)
    ensures BreaksInto(PrintRecord(b), RecordLines(b))
  {
    PrintedHeaderIsRead(now, b);
    forall rest: string
      ensures Split(PrintRecord(b) + rest, Is('\n')) == RecordLines(b) + Split(rest, Is('\n'))
    {
      PrintedRecordSplits(b, rest);
    }
  }

  /** `lines` begin with a header and give exactly `b`. */
  ghost predicate Gives(kind: Reader, lines: seq<string>, b: Body) {
    lines != [] && kind(WithoutReturns(lines[0])).Head? && Assembled(kind, lines) == [b]
  }

  lemma {:induction false} ChunksAssemble(kind: Reader, chunks: seq<seq<string>>, records: seq<Body>)
    requires |chunks| == |records|
    requires forall i :: 0 <= i < |chunks| ==> Gives(kind, chunks[i], records[i])
    ensures Assembled(kind, Flatten(chunks)) == records
  {
    if chunks != [] {
      var first, rest := chunks[0], Flatten(chunks[1..]);
      ChunksAssemble(kind, chunks[1..], records[1..]);
      assert records == [records[0]] + records[1..];
      if |chunks| == 1 {
        assert first + rest == first;
      } else {
        assert Gives(kind, chunks[1], records[1]);
        HeaderSplits(kind, first, rest[0], rest[1..]);
        assert first + rest == first + [rest[0]] + rest[1..] && rest == [rest[0]] + rest[1..];
      }
    }
  }

  lemma RecordReturns(now: Now, b: Body)
    requires Loggable(now, b)
    ensures AllReturn(now, RecordLines(b))
  {
    PrintedHeaderReturns(now, HeaderOf(b));
  }

  lemma {:induction false} AllOfChunks(now: Now, chunks: seq<seq<string>>)
    requires forall i :: 0 <= i < |chunks| ==> AllReturn(now, chunks[i])
    ensures AllReturn(now, Flatten(chunks))
  {
    if chunks != [] {
      AllOfChunks(now, chunks[1..]);
    }
  }

  /** Nothing that is printed is a line from which the header parser does not come back. */
  lemma PrintedLogReturns(now: Now, records: seq<Body>)
    requires AllLoggable(now, records)
    ensures AllReturn(now, Lines(PrintLog(records)))
  {
    var chunks := seq(|records|, i requires 0 <= i < |records| => RecordLines(records[i]));
    forall i | 0 <= i < |records| ensures AllReturn(now, chunks[i]) {
      RecordReturns(now, records[i]);
    }
    AllOfChunks(now, chunks);
    PrintedLogHasLines(now, records);
  }

  lemma PrintedLogHasLines(now: Now, records: seq<Body>)
    requires forall b :: b in records ==> HeadPrints(b)
    ensures Lines(PrintLog(records)) == LogLines(records)
  {
    PrintedLogSplits(now, records, []);
    assert PrintLog(records) + [] == PrintLog(records);
    SplitNone([], Is('\n'));
  }

  lemma LogLinesAssemble(now: Now, records: seq<Body>)
    requires AllLoggable(now, records)
    ensures Assembled(ReaderAt(now), LogLines(records)) == records
  {
    var chunks := seq(|records|, i requires 0 <= i < |records| => RecordLines(records[i]));
    forall i | 0 <= i < |records| ensures Gives(ReaderAt(now), chunks[i], records[i]) {
      RecordAssembles(now, records[i]);
    }
    ChunksAssemble(ReaderAt(now), chunks, records);
  }

  lemma RecordAssembles(now: Now, b: Body)
    requires Loggable(now, b)
    ensures Gives(ReaderAt(now), RecordLines(b), b)
  {
    PrintedHeaderIsRead(now, b);
    NoReturns(PrintHeader(HeaderOf(b)));
    EmptyIsBodyLine(now);
    OneRecord(ReaderAt(now), b, PrintHeader(HeaderOf(b)));
  }

  /** Printing records and assembling the lines of the printed text returns the same records. */
  lemma PrintedLogReadsBack(now: Now, records: seq<Body>)
    requires AllLoggable(now, records)
    ensures Assembled(ReaderAt(now), Lines(PrintLog(records))) == records
  {
    PrintedLogHasLines(now, records);
    LogLinesAssemble(now, records);
  }

  /** Lines none of which abbreviates frames need no expansion. */
  lemma {:induction false} PlainNeedsNoExpansion(k: Classifier, c: Stacks, lines: seq<string>)
    requires forall line :: line in lines ==> !k(line).Elided?
    ensures ExpandFrom(k, c, lines) == lines
    decreases |lines|
  {
    if lines != [] {
      PlainNeedsNoExpansion(k, ProcessLine(k, c, lines[0]).0, lines[1..]);
      assert lines == [lines[0]] + lines[1..];
    }
  }

  // ---------- a text that breaks off ----------

  /** What the flush makes of the first `n` lines of a printed record. */
  function CutShort(b: Body, n: nat): Option<Body> {
    if n <= 1 then None
    else if n > |BodyLines(b)| then Some(b)
    else Some(b.(msg := JoinBody(BodyLines(b)[..n - 1])))
  }

  lemma BodyAssembles(kind: Reader, h: Header, head: string, lines: seq<string>)
    requires '\r' !in head && kind(head) == Head(h) && AllBodyLines(kind, lines)
    ensures Assembled(kind, [head] + lines) == if lines == [] then [] else [RecordOf(h, lines)]
  {
    NoReturns(head);
    assert ([head] + lines)[1..] == lines;
    BodyIsCollected(kind, h, [], lines);
    assert [] + lines == lines;
    TakenAtEnd(kind, Pending(Some(h), []), lines);
  }

  lemma BeginningOfBody(kind: Reader, b: Body, m: nat)
    requires MessagePrints(kind, b) && m <= |BodyLines(b)|
    ensures Expand(BodyLines(b)[..m]) == BodyLines(b)[..m]
    ensures AllBodyLines(kind, BodyLines(b)[..m])
    ensures m == |BodyLines(b)| ==> JoinBody(BodyLines(b)[..m]) == b.msg
  {
    var body := BodyLines(b);
    assert body == body[..m] + body[m..];
    BeginningStays(KindOf, FRESH, body[..m], body[m..]);
    if m == |body| {
      assert body[..m] == body;
      JoinSplit(b.msg, '\n');
    }
  }

  lemma FirstLines(b: Body, n: nat)
    requires 0 < n <= |BodyLines(b)| + 1
    ensures RecordLines(b)[..n] == [PrintHeader(HeaderOf(b))] + BodyLines(b)[..n - 1]
  {
  }

  /** The first lines of a printed record: the header alone is no record, the whole body is the
      record with or without the separator, and less gives a record with a shorter message. */
  lemma CutAssembles(now: Now, b: Body, n: nat)
    requires Loggable(now, b) && 0 < n <= |RecordLines(b)|
    ensures Assembled(ReaderAt(now), RecordLines(b)[..n])
         == match CutShort(b, n) case None => [] case Some(c) => [c]
  {
    if n == |RecordLines(b)| {
      RecordAssembles(now, b);
      assert RecordLines(b)[..n] == RecordLines(b);
    } else {
      PrintedHeaderIsRead(now, b);
      BeginningOfBody(ReaderAt(now), b, n - 1);
      BodyAssembles(ReaderAt(now), HeaderOf(b), PrintHeader(HeaderOf(b)), BodyLines(b)[..n - 1]);
      FirstLines(b, n);
    }
  }

  lemma CutIsShorter(b: Body, n: nat)
    requires 1 < n <= |BodyLines(b)|
    ensures CutShort(b, n).value.msg != b.msg
  {
    var body := BodyLines(b);
    JoinGrows(body[..n - 1], body[n - 1..], '\n');
    assert body == body[..n - 1] + body[n - 1..];
    JoinSplit(b.msg, '\n');
    TrimEndIsPrefix(Join(body[..n - 1], '\n'));
  }

  /** Each line with its line break. */
  function Terminated(lines: seq<string>): string {
    if lines == [] then [] else lines[0] + ['\n'] + Terminated(lines[1..])
  }

  lemma {:induction false} TerminatedSplits(lines: seq<string>)
    requires forall line :: line in lines ==> '\n' !in line
    ensures Split(Terminated(lines), Is('\n')) == lines + [""]
  {
    if lines == [] {
      SplitNone([], Is('\n'));
    } else {
      assert lines[0] in lines;
      TerminatedSplits(lines[1..]);
      SplitAt(lines[0], '\n', Terminated(lines[1..]), Is('\n'));
    }
  }

  ghost predicate NoBreaks(lines: seq<string>) {
    forall line :: line in lines ==> '\n' !in line
  }

  lemma SplitHasNoBreaks(head: string, msg: string)
    requires '\n' !in head
    ensures NoBreaks([head] + Split(msg, Is('\n')) + [""])
  {
    PartsAreFree(msg, Is('\n'), Is('\n'));
  }

  lemma LastBreakIsNoLine(text: string, lines: seq<string>)
    requires Split(text, Is('\n')) == lines + [""]
    ensures Lines(text) == lines
  {
    var parts := Split(text, Is('\n'));
    assert parts[|parts| - 1] == "" && parts[..|parts| - 1] == lines;
  }

  /** The lines of a printed log that breaks off behind `lines`. */
  lemma CutLogSplits(now: Now, records: seq<Body>, lines: seq<string>)
    requires forall b :: b in records ==> HeadPrints(b)
    requires NoBreaks(lines)
    ensures Lines(PrintLog(records) + Terminated(lines)) == LogLines(records) + lines
  {
    TerminatedSplits(lines);
    PrintedLogSplits(now, records, Terminated(lines));
    GroupsAlike(LogLines(records), lines, [""]);
    LastBreakIsNoLine(PrintLog(records) + Terminated(lines), LogLines(records) + lines);
  }

  lemma HeadSplits(kind: Reader, before: seq<string>, lines: seq<string>)
    requires lines != [] && '\r' !in lines[0] && kind(lines[0]).Head?
    ensures Assembled(kind, before + lines) == Assembled(kind, before) + Assembled(kind, lines)
  {
    NoReturns(lines[0]);
    HeaderSplits(kind, before, lines[0], lines[1..]);
    assert lines == [lines[0]] + lines[1..];
    assert before + lines == before + [lines[0]] + lines[1..];
  }

  lemma CutLinesPrint(now: Now, b: Body, n: nat)
    requires HeadPrints(b) && 0 < n <= |RecordLines(b)|
    ensures var first := RecordLines(b)[..n];
      NoBreaks(first) && '\r' !in first[0] && ReaderAt(now)(first[0]).Head?
  {
    PrintedHeaderIsRead(now, b);
    SplitHasNoBreaks(PrintHeader(HeaderOf(b)), b.msg);
    assert RecordLines(b)[..n][0] == PrintHeader(HeaderOf(b));
    assert forall line :: line in RecordLines(b)[..n] ==> line in RecordLines(b);
  }

  /** A printed log that breaks off behind a line of a record gives the records before it and what
      the flush makes of that one. */
  lemma CutLogReadsBack(now: Now, records: seq<Body>, b: Body, n: nat)
    requires Loggable(now, b) && AllLoggable(now, records)
    requires 0 < n <= |RecordLines(b)|
    ensures Assembled(ReaderAt(now), Lines(PrintLog(records) + Terminated(RecordLines(b)[..n])))
         == records + match CutShort(b, n) case None => [] case Some(c) => [c]
  {
    CutLinesPrint(now, b, n);
    CutLogSplits(now, records, RecordLines(b)[..n]);
    HeadSplits(ReaderAt(now), LogLines(records), RecordLines(b)[..n]);
    LogLinesAssemble(now, records);
    CutAssembles(now, b, n);
  }
}
