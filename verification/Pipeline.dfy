/** From the text a device prints to the ring: assembler, resume and ring together. */
module Pipeline {

  import opened Assembler
  import opened Follow
  import opened FollowRuns
  import opened Options
  import opened Parse
  import opened Ring

  /** What one worker reads, and how it ends: the printed records `from` up to `upto` of the log,
      and the first `lines` lines of the next one, where its text breaks off; and what others do to the
      ring before each record that comes of it. */
  datatype Reading = Reading(from: nat, upto: nat, lines: nat, between: seq<seq<Other>>, end: FollowEnd)

  predicate Fits(log: seq<Body>, s: Reading) {
    && s.from <= s.upto <= |log|
    && (s.lines > 0 ==> s.upto < |log| && s.lines <= |RecordLines(log[s.upto])|)
  }

  ghost predicate AllFit(log: seq<Body>, readings: seq<Reading>) {
    forall s :: s in readings ==> Fits(log, s)
  }

  /** The text of a reading as its worker gets it, and the records the assembler makes of it. */
  function TextOf(log: seq<Body>, s: Reading): string
    requires Fits(log, s)
  {
    PrintLog(log[s.from..s.upto])
    + if s.lines == 0 then [] else Terminated(RecordLines(log[s.upto])[..s.lines])
  }

  function RecordsRead(now: Now, text: string): seq<Body> {
    Assembled(ReaderAt(now), Lines(text))
  }

  function ReaderFor(now: Now, log: seq<Body>, s: Reading): Worker
    requires Fits(log, s)
  {
    Worker(RecordsRead(now, TextOf(log, s)), s.between, s.end)
  }

  function Readers(now: Now, log: seq<Body>, readings: seq<Reading>): seq<Worker>
    requires AllFit(log, readings)
  {
    seq(|readings|, i requires 0 <= i < |readings| => ReaderFor(now, log, readings[i]))
  }

  /** The same as a stretch of records: behind its header alone a record has not begun, behind the
      last line of its body it is whole, and in between it is cut off. */
  function StretchOf(log: seq<Body>, s: Reading): Stretch
    requires Fits(log, s)
  {
    if s.lines <= 1 then Stretch(s.from, s.upto, None)
    else if s.lines > |BodyLines(log[s.upto])| then Stretch(s.from, s.upto + 1, None)
    else Stretch(s.from, s.upto, CutShort(log[s.upto], s.lines))
  }

  function Stretches(log: seq<Body>, readings: seq<Reading>): seq<Stretch>
    requires AllFit(log, readings)
  {
    seq(|readings|, i requires 0 <= i < |readings| => StretchOf(log, readings[i]))
  }

  function SenderFor(log: seq<Body>, s: Reading): Worker
    requires Fits(log, s)
  {
    Worker(Delivered(log, StretchOf(log, s)), s.between, s.end)
  }

  function Senders(log: seq<Body>, readings: seq<Reading>): seq<Worker>
    requires AllFit(log, readings)
  {
    seq(|readings|, i requires 0 <= i < |readings| => SenderFor(log, readings[i]))
  }

  lemma DeliveredIs(log: seq<Body>, s: Reading)
    requires Fits(log, s)
    ensures s.lines == 0 ==> Delivered(log, StretchOf(log, s)) == log[s.from..s.upto]
    ensures s.lines > 0 ==>
      (var last := match CutShort(log[s.upto], s.lines) case None => [] case Some(c) => [c];
       Delivered(log, StretchOf(log, s)) == log[s.from..s.upto] + last)
  {
    if 0 < s.lines {
      OneMore(log, s.from, s.upto);
    }
  }

  lemma OneMore<T>(log: seq<T>, from: nat, upto: nat)
    requires from <= upto < |log|
    ensures log[from..upto] + [] == log[from..upto]
    ensures log[from..upto] + [log[upto]] == log[from..upto + 1]
  {
  }

  lemma ReaderGetsRecords(now: Now, log: seq<Body>, s: Reading)
    requires Fits(log, s) && s.lines == 0 && AllLoggable(now, log)
    ensures RecordsRead(now, TextOf(log, s)) == log[s.from..s.upto]
  {
    SliceLoggable(now, log, s.from, s.upto);
    PrintedLogReadsBack(now, log[s.from..s.upto]);
    assert TextOf(log, s) == PrintLog(log[s.from..s.upto]);
  }

  lemma ReaderGetsCut(now: Now, log: seq<Body>, s: Reading)
    requires Fits(log, s) && s.lines > 0 && AllLoggable(now, log)
    ensures RecordsRead(now, TextOf(log, s)) ==
              log[s.from..s.upto] + match CutShort(log[s.upto], s.lines) case None => [] case Some(c) => [c]
  {
    SliceLoggable(now, log, s.from, s.upto);
    CutLogReadsBack(now, log[s.from..s.upto], log[s.upto], s.lines);
  }

  lemma ReaderGetsStretch(now: Now, log: seq<Body>, s: Reading)
    requires Fits(log, s) && AllLoggable(now, log)
    ensures ReaderFor(now, log, s) == SenderFor(log, s)
  {
    DeliveredIs(log, s);
    if s.lines == 0 {
      ReaderGetsRecords(now, log, s);
    } else {
      ReaderGetsCut(now, log, s);
    }
  }

  lemma ReadersGetWhatWasSent(now: Now, log: seq<Body>, readings: seq<Reading>)
    requires AllFit(log, readings) && AllLoggable(now, log)
    ensures Readers(now, log, readings) == Senders(log, readings)
  {
    forall i | 0 <= i < |readings|
      ensures ReaderFor(now, log, readings[i]) == SenderFor(log, readings[i])
    {
      ReaderGetsStretch(now, log, readings[i]);
    }
  }

  /** A device prints its log, for each worker from a record at or before the last clock of the ring on,
      or from anywhere if the ring is empty, and the text may break off behind any line. Line by line
      through the assembler, with any number of restarts, and whatever others do to the ring, each record
      enters the ring once, in order, if and only if every reading is harmless: it resends nothing that
      the ring has lost of its last clock, nor anything once the ring was emptied, and no record of the
      last clock or later is cut off between the first and the last line of its body. */
  lemma PrintedLogEntersOnceIff(now: Now, r: Ring.State, log: seq<Body>, readings: seq<Reading>)
    requires DeviceLog(log) && Valid(r) && r.buf == []
    requires AllFit(log, readings) && AllLoggable(now, log)
    requires Delivers(log, Beginning(r), Senders(log, readings), Stretches(log, readings))
    ensures var reached := Reached(0, Senders(log, readings), Stretches(log, readings));
            && reached <= |log|
            && (AdmittedBy(r, Readers(now, log, readings), false) == log[..reached]
                <==> AllHarmless(log, Beginning(r), Senders(log, readings), Stretches(log, readings)))
  {
    ReadersGetWhatWasSent(now, log, readings);
    ExactlyOnceIff(r, log, Senders(log, readings), Stretches(log, readings));
  }

  /** A record cut off reads like none of the others at its moment, so it counts as cut off. */
  lemma CutStandsOut(log: seq<Body>, s: Reading)
    requires Fits(log, s) && 1 < s.lines <= |BodyLines(log[s.upto])|
    requires forall b :: b in log && b.ts == log[s.upto].ts && b != log[s.upto] ==>
               !Alike(b, CutShort(log[s.upto], s.lines).value)
    ensures StretchOf(log, s).cut.Some? && CutOf(log, s.upto, StretchOf(log, s).cut.value)
  {
    CutIsShorter(log[s.upto], s.lines);
  }
}
