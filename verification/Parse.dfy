/** The header lines of `logcat -v long,uid,year`, read and printed. */
module Parse {

  import opened Arithmetic
  import opened Clock
  import opened Options
  import opened Text

  const SYSTEM_LINE_PREFIX := "--------- beginning of "
  const I64_MAX: nat := 0x7FFF_FFFF_FFFF_FFFF

  datatype Header = Header(
    ts: string, pid: nat, tid: nat, uid: Option<string>, level: char, tag: string)

  /** What the parser asks its surroundings: the text of the current year, and the local wall
      clock at an epoch time if the calendar has one. */
  datatype Now = Now(year: string, wall: (nat, nat) -> Option<Parts>)

  predicate IsSystemLine(raw: string) {
    StartsWith(raw, SYSTEM_LINE_PREFIX) || StartsWith(TrimStart(raw), SYSTEM_LINE_PREFIX)
  }

  /** A line about the log itself, indented or not. */
  lemma SystemLineIff(line: string)
    ensures IsSystemLine(line) <==>
            exists indent, rest :: line == indent + "--------- beginning of " + rest && Blank(indent)
  {
    if IsSystemLine(line) {
      var _, _ := SystemLineIsWritten(line, "--------- beginning of ");
    }
    if indent, rest :| line == indent + "--------- beginning of " + rest && Blank(indent) {
      WrittenIsSystemLine(indent, "--------- beginning of ", rest);
    }
  }

  lemma SystemLineIsWritten(line: string, prefix: string) returns (indent: string, rest: string)
    requires StartsWith(line, prefix) || StartsWith(TrimStart(line), prefix)
    ensures line == indent + prefix + rest && Blank(indent)
  {
    if StartsWith(line, prefix) {
      indent, rest := "", line[|prefix|..];
    } else {
      indent := TrimStartRemoves(line);
      rest := TrimStart(line)[|prefix|..];
      GroupsAlike(indent, prefix, rest);
    }
  }

  lemma WrittenIsSystemLine(indent: string, prefix: string, rest: string)
    requires Blank(indent) && prefix != [] && prefix[0] == '-'
    ensures StartsWith(TrimStart(indent + prefix + rest), prefix)
  {
    GroupsAlike(indent, prefix, rest);
    TrimStartOf(indent, prefix + rest);
  }

  function ParseLongHeader(now: Now, raw: string): Option<Header> {
    match StripBrackets(Trim(raw))
    case None => None
    case Some(inner) =>
      match TakeTimestamp(now, inner)
      case None => None
      case Some((ts, rest)) => ParseRest(ts, rest)
  }

  /** The header behind its clock. */
  function ParseRest(ts: string, rest: string): Option<Header> {
    match TakeLevelTag(TrimStart(SkipZone(rest)))
    case None => None
    case Some((ids, level, tag)) =>
      match ParseProcessIds(ids)
      case None => None
      case Some((uid, pid, tid)) => Some(Header(ts, pid, tid, uid, level, tag))
  }

  function StripBrackets(line: string): Option<string> {
    match StripPrefix(line, "[")
    case None => None
    case Some(open) =>
      match StripSuffix(open, "]")
      case None => None
      case Some(inner) => if Trim(inner) == [] then None else Some(Trim(inner))
  }

  // ---------- clock ----------

  function TakeTimestamp(now: Now, inner: string): Option<(string, string)> {
    var ymd := TakeYmd(inner);
    if ymd.Some? then ymd
    else
      var md := TakeMd(now, inner);
      if md.Some? then md else TakeEpoch(now, inner)
  }

  function SplitDateTime(inner: string): Option<(string, string, string)> {
    match SplitOnce(inner, IsWhitespace)
    case None => None
    case Some((date, rest)) =>
      match SplitOnce(TrimStart(rest), IsWhitespace)
      case None => None
      case Some((time, tail)) => Some((date, time, tail))
  }

  function TakeYmd(inner: string): Option<(string, string)> {
    match SplitDateTime(inner)
    case None => None
    case Some((date, time, rest)) =>
      match Canonicalize(date + " " + time)
      case None => None
      case Some(ts) => Some((ts, rest))
  }

  predicate IsMd(date: string) {
    var parts := Split(date, Is('-'));
    |parts| == 2 && |parts[0]| == 2 && |parts[1]| == 2
  }

  function TakeMd(now: Now, inner: string): Option<(string, string)> {
    match SplitDateTime(inner)
    case None => None
    case Some((date, time, rest)) =>
      if !IsMd(date) then None
      else
        match Canonicalize(now.year + "-" + date + " " + time)
        case None => None
        case Some(ts) => Some((ts, rest))
  }

  /** Seconds that do not fit an `i64` count as zero. */
  function TakeEpoch(now: Now, inner: string): Option<(string, string)> {
    match SplitOnce(inner, IsWhitespace)
    case None => None
    case Some((token, rest)) =>
      match SplitOnce(token, Is('.'))
      case None => None
      case Some((sec, milli)) =>
        if sec == [] || !AllDigits(sec) || |milli| < 3 || !AllDigits(milli) then None
        else
          var seconds := if DigitsValue(sec) <= I64_MAX then DigitsValue(sec) else 0;
          match now.wall(seconds, DigitsValue(milli[..3]))
          case None => None
          case Some(parts) =>
            match FormatDatetime(parts)
            case None => None
            case Some(ts) => Some((ts, rest))
  }

  function SkipZone(rest: string): string {
    var trimmed := TrimStart(rest);
    match SplitOnce(trimmed, IsWhitespace)
    case None => trimmed
    case Some((token, tail)) => if IsZoneToken(token) then tail else trimmed
  }

  // ---------- level and tag ----------

  predicate IsPriority(c: char) {
    c in "VDIWEFA"
  }

  lemma PriorityIff(c: char)
    ensures IsPriority(c) <==> c == 'V' || c == 'D' || c == 'I' || c == 'W' || c == 'E' || c == 'F' || c == 'A'
  {
    assert "VDIWEFA"[0] == 'V' && "VDIWEFA"[1] == 'D' && "VDIWEFA"[2] == 'I' && "VDIWEFA"[3] == 'W';
    assert "VDIWEFA"[4] == 'E' && "VDIWEFA"[5] == 'F' && "VDIWEFA"[6] == 'A';
  }

  function TakeLevelTag(rest: string): Option<(string, char, string)> {
    match FindLast(rest, Is('/'))
    case None => None
    case Some(slash) =>
      var before, tag := TrimEnd(rest[..slash]), Trim(rest[slash + 1..]);
      match FindLast(before, IsWhitespace)
      case None => None
      case Some(blank) =>
        var level := before[blank + 1..];
        if |level| == 1 && IsPriority(level[0]) then Some((Trim(before[..blank + 1]), level[0], tag))
        else None
  }

  // ---------- process ----------

  function TrimAll(parts: seq<string>): seq<string> {
    seq(|parts|, i requires 0 <= i < |parts| => Trim(parts[i]))
  }

  predicate IsToken(part: string) {
    part != [] && forall i :: 0 <= i < |part| ==> !IsWhitespace(part[i])
  }

  function ParseProcessIds(ids: string): Option<(Option<string>, nat, nat)> {
    var parts := TrimAll(Split(ids, Is(':')));
    if |parts| == 2 && IsToken(parts[0]) && IsToken(parts[1]) then
      Some((None, ParsePid(parts[0]), ParseThreadId(parts[1])))
    else if |parts| == 3 && IsToken(parts[0]) && IsToken(parts[1]) && IsToken(parts[2]) then
      Some((Some(parts[0]), ParsePid(parts[1]), ParseThreadId(parts[2])))
    else None
  }

  /** What does not read as an `i64` counts as the placeholder, and so does -1; other numbers
      outside 32 bits count as zero. */
  function ParsePid(s: string): nat {
    var negative := s != [] && s[0] == '-';
    var digits := if s != [] && (s[0] == '-' || s[0] == '+') then s[1..] else s;
    if digits == [] || !AllDigits(digits) then U32_MAX
    else
      var n := DigitsValue(digits);
      if negative then (if n == 1 || n > I64_MAX + 1 then U32_MAX else 0)
      else if n > I64_MAX then U32_MAX
      else if n <= U32_MAX then n
      else 0
  }

  function HexDigit(c: char): Option<nat> {
    if '0' <= c <= '9' then Some(c as nat - '0' as nat)
    else if 'a' <= c <= 'f' then Some(c as nat - 'a' as nat + 10)
    else if 'A' <= c <= 'F' then Some(c as nat - 'A' as nat + 10)
    else None
  }

  function HexValue(s: string): Option<nat> {
    if s == [] then Some(0)
    else
      match (HexValue(s[..|s| - 1]), HexDigit(s[|s| - 1]))
      case (Some(high), Some(low)) => Some(high * 16 + low)
      case _ => None
  }

  function ParseThreadId(s: string): nat {
    var trimmed := Trim(s);
    if StartsWith(trimmed, "0x") || StartsWith(trimmed, "0X") then
      var hex := trimmed[2..];
      var digits := if hex != [] && hex[0] == '+' then hex[1..] else hex;
      match HexValue(digits)
      case Some(n) => if digits != [] && n <= U32_MAX then n else U32_MAX
      case None => U32_MAX
    else
      match ParseUnsigned(trimmed, U32_MAX)
      case Some(n) => n
      case None => U32_MAX
  }

  // ---------- the printer ----------

  function PrintPidTid(h: Header): string {
    PadLeft(Decimal(h.pid), 5) + (":" + PadLeft(Decimal(h.tid), 5))
  }

  function PrintIds(h: Header): string {
    match h.uid
    case Some(uid) => PadLeft(uid, 5) + (":" + PrintPidTid(h))
    case None => " " + PrintPidTid(h)
  }

  /** `[ %s %s%5d:%5d %c/%-8s ]`, the format of the log's own printer. */
  function PrintHeader(h: Header): string {
    "[ " + h.ts + " " + PrintIds(h) + " " + [h.level] + "/" + PadRight(h.tag, 8) + " ]"
  }

  /** What the parser itself can return, and printed ids that do not begin with a word that is
      taken for a zone. */
  predicate Printable(h: Header) {
    Canonicalize(h.ts) == Some(h.ts) && RestPrints(h) && !IsZoneToken(FirstWord(TrimmedIds(h)))
  }

  /** The word before the first blank. */
  function FirstWord(s: string): string {
    match SplitOnce(s, IsWhitespace)
    case None => s
    case Some((word, _)) => word
  }

  /** The ids as they stand once the padding in front is gone. */
  function TrimmedIds(h: Header): string {
    match h.uid
    case Some(uid) => uid + (":" + PrintPidTid(h))
    case None => Decimal(h.pid) + (":" + PadLeft(Decimal(h.tid), 5))
  }

  predicate RestPrints(h: Header) {
    && h.pid <= U32_MAX && h.tid <= U32_MAX
    && (h.uid.Some? ==> UidPrints(h.uid.value))
    && IsPriority(h.level)
    && TagPrints(h.tag)
  }

  predicate UidPrints(uid: string) {
    IsToken(uid) && ':' !in uid
  }

  predicate TagPrints(tag: string) {
    NoMargin(tag) && '/' !in tag
  }

  // ---------- reading a printed header ----------

  lemma PadLeftOf(s: string, width: nat) returns (pad: string)
    ensures PadLeft(s, width) == pad + s && Blank(pad) && forall i :: 0 <= i < |pad| ==> pad[i] == ' '
  {
    pad := if |s| < width then Spaces(width - |s|) else [];
  }

  lemma PadRightOf(s: string, width: nat) returns (pad: string)
    ensures PadRight(s, width) == s + pad && Blank(pad)
  {
    pad := if |s| < width then Spaces(width - |s|) else [];
  }

  lemma DecimalIsToken(n: nat)
    ensures IsToken(Decimal(n)) && NoMargin(Decimal(n))
  {
  }

  lemma PidReadsBack(n: nat)
    requires n <= U32_MAX
    ensures ParsePid(Decimal(n)) == n
  {
    DecimalValue(n);
  }

  lemma ThreadIdReadsBack(n: nat)
    requires n <= U32_MAX
    ensures ParseThreadId(Decimal(n)) == n
  {
    DecimalValue(n);
    DecimalIsToken(n);
    var s := Decimal(n);
    TrimmedAlready(s);
    assert |s| >= 2 ==> IsDigit(s[1]);
  }

  lemma PaddedPart(s: string, width: nat)
    requires IsToken(s) && ':' !in s
    ensures Trim(PadLeft(s, width)) == s && Free(PadLeft(s, width), Is(':'))
  {
    var pad := PadLeftOf(s, width);
    TrimOf(pad, s, []);
    assert pad + s + [] == pad + s;
  }

  lemma TokenIsTrimmed(s: string)
    requires IsToken(s)
    ensures Trim(s) == s
  {
  }

  lemma PadLeftAppend(s: string, width: nat, t: string) returns (pad: string)
    ensures PadLeft(s, width) + t == pad + (s + t) && Blank(pad)
  {
    pad := PadLeftOf(s, width);
    assert pad + s + t == pad + (s + t);
  }

  lemma IdsPadding(h: Header) returns (pad: string)
    ensures PrintIds(h) == pad + TrimmedIds(h) && Blank(pad)
  {
    if h.uid.Some? {
      pad := PadLeftAppend(h.uid.value, 5, ":" + PrintPidTid(h));
    } else {
      var more := PadLeftAppend(Decimal(h.pid), 5, ":" + PadLeft(Decimal(h.tid), 5));
      pad := " " + more;
      assert " " + (more + TrimmedIds(h)) == pad + TrimmedIds(h);
    }
  }

  lemma ColonSplit(a: string, b: string)
    requires Free(a, Is(':'))
    ensures Split(a + (":" + b), Is(':')) == [a] + Split(b, Is(':'))
  {
    assert a + (":" + b) == a + [':'] + b;
    SplitAt(a, ':', b, Is(':'));
  }

  lemma PidTidSplit(h: Header)
    ensures Split(PrintPidTid(h), Is(':')) == [PadLeft(Decimal(h.pid), 5), PadLeft(Decimal(h.tid), 5)]
    ensures Split(PadLeft(Decimal(h.tid), 5), Is(':')) == [PadLeft(Decimal(h.tid), 5)]
    ensures Trim(PadLeft(Decimal(h.pid), 5)) == Decimal(h.pid)
    ensures Trim(PadLeft(Decimal(h.tid), 5)) == Decimal(h.tid)
  {
    var pid, tid := Decimal(h.pid), Decimal(h.tid);
    PaddedPart(pid, 5);
    PaddedPart(tid, 5);
    ColonSplit(PadLeft(pid, 5), PadLeft(tid, 5));
    SplitNone(PadLeft(tid, 5), Is(':'));
  }

  lemma IdsSplit(h: Header)
    requires h.uid.Some? ==> UidPrints(h.uid.value)
    ensures TrimAll(Split(TrimmedIds(h), Is(':')))
         == (if h.uid.Some? then [h.uid.value] else []) + [Decimal(h.pid), Decimal(h.tid)]
  {
    var pid, tid := Decimal(h.pid), Decimal(h.tid);
    PidTidSplit(h);
    if h.uid.Some? {
      TokenIsTrimmed(h.uid.value);
      ColonSplit(h.uid.value, PrintPidTid(h));
    } else {
      DecimalIsToken(h.pid);
      TokenIsTrimmed(pid);
      DigitsAreFree(pid, Is(':'));
      ColonSplit(pid, PadLeft(tid, 5));
    }
  }

  lemma ProcessSteps(ids: string, uid: Option<string>, pid: string, tid: string)
    requires TrimAll(Split(ids, Is(':'))) == (if uid.Some? then [uid.value] else []) + [pid, tid]
    requires IsToken(pid) && IsToken(tid) && (uid.Some? ==> IsToken(uid.value))
    ensures ParseProcessIds(ids) == Some((uid, ParsePid(pid), ParseThreadId(tid)))
  {
  }

  lemma IdsReadBack(h: Header)
    requires RestPrints(h)
    ensures ParseProcessIds(TrimmedIds(h)) == Some((h.uid, h.pid, h.tid))
  {
    IdsSplit(h);
    DecimalIsToken(h.pid);
    DecimalIsToken(h.tid);
    ProcessSteps(TrimmedIds(h), h.uid, Decimal(h.pid), Decimal(h.tid));
    PidReadsBack(h.pid);
    ThreadIdReadsBack(h.tid);
  }

  lemma IdsTrim(ids: string, level: char)
    requires ids != [] && NoMargin(ids)
    ensures Trim((ids + [' '] + [level])[..|ids| + 1]) == ids
  {
    TrimOf([], ids, [' ']);
    assert (ids + [' '] + [level])[..|ids| + 1] == [] + ids + [' '];
  }

  lemma LevelEndsHead(ids: string, level: char)
    requires !IsWhitespace(level)
    ensures TrimEnd(ids + [' '] + [level]) == ids + [' '] + [level]
  {
  }

  lemma CharEndsHead(head: string, level: char)
    requires !IsWhitespace(level)
    ensures TrimEnd(head + [level]) == head + [level]
  {
  }

  lemma LevelIsFound(ids: string, blank: char, level: char, p: Text.Test)
    requires p(blank) && !p(level)
    ensures FindLast(ids + [blank] + [level], p) == Some(|ids|)
    ensures (ids + [blank] + [level])[|ids| + 1..] == [level]
  {
  }

  /** Level and tag come off behind ids that begin and end with a character. */
  lemma LevelTagReadsBack(ids: string, level: char, tag: string)
    requires IsPriority(level) && TagPrints(tag) && ids != [] && NoMargin(ids)
    ensures TakeLevelTag(ids + [' '] + [level] + ['/'] + tag) == Some((ids, level, tag))
  {
    var head := ids + [' '] + [level];
    var rest := head + ['/'] + tag;
    FindLastAt(head, '/', tag, Is('/'));
    assert rest[..|head|] == head && rest[|head| + 1..] == tag;
    TrimmedAlready(tag);
    LevelEndsHead(ids, level);
    LevelIsFound(ids, ' ', level, IsWhitespace);
    IdsTrim(ids, level);
  }

  lemma TrimmedAlready(s: string)
    requires NoMargin(s)
    ensures Trim(s) == s
  {
  }

  /** What stands behind the first word of `ids` when a blank and `more` follow them. */
  function AfterWord(ids: string, more: string): string {
    match SplitOnce(ids, IsWhitespace)
    case None => more
    case Some((_, tail)) => tail + [' '] + more
  }

  lemma WordSplits(ids: string, more: string)
    ensures SplitOnce(ids + [' '] + more, IsWhitespace) == Some((FirstWord(ids), AfterWord(ids, more)))
  {
    SplitOnceRebuilds(ids, IsWhitespace);
    match SplitOnce(ids, IsWhitespace)
    case None => SplitOnceAt(ids, ' ', more, IsWhitespace);
    case Some((word, tail)) =>
      var x := ids[|word|];
      assert ids + [' '] + more == word + [x] + (tail + [' '] + more);
      SplitOnceAt(word, x, tail + [' '] + more, IsWhitespace);
  }

  /** The first word of the ids alone decides whether something is skipped in front of them. */
  lemma ZoneDecides(pad: string, ids: string, more: string)
    requires Blank(pad) && ids != [] && !IsWhitespace(ids[0])
    ensures SkipZone(pad + (ids + [' '] + more))
         == if IsZoneToken(FirstWord(ids)) then AfterWord(ids, more) else ids + [' '] + more
  {
    TrimStartOf(pad, ids + [' '] + more);
    WordSplits(ids, more);
  }

  lemma DateTimeSplits(date: string, time: string, rest: string)
    requires Free(date, IsWhitespace) && Free(time, IsWhitespace) && time != []
    ensures SplitDateTime(date + [' '] + (time + [' '] + rest)) == Some((date, time, rest))
  {
    var tail := time + [' '] + rest;
    SplitOnceAt(date, ' ', tail, IsWhitespace);
    TrimStartOf([], tail);
    assert [] + tail == tail;
    SplitOnceAt(time, ' ', rest, IsWhitespace);
  }

  lemma ClockLayout(p: Parts) returns (date: string, time: string)
    ensures ClockText(p) == date + " " + time && time != []
    ensures Free(date, IsWhitespace) && Free(time, IsWhitespace)
  {
    date, time := DateText(p), TimeText(p);
  }

  lemma ClockReadsBack(now: Now, p: Parts, rest: string)
    requires ValidParts(p)
    ensures TakeTimestamp(now, ClockText(p) + " " + rest) == Some((ClockText(p), rest))
  {
    var date, time := ClockLayout(p);
    assert date + " " + time + " " + rest == date + [' '] + (time + [' '] + rest);
    DateTimeSplits(date, time, rest);
    ParseFormatted(p);
  }

  lemma BracketsComeOff(inner: string, pad: string)
    requires inner != [] && NoMargin(inner) && Blank(pad)
    ensures StripBrackets(Trim(['['] + ([' '] + inner + pad) + [']'])) == Some(inner)
  {
    var line := ['['] + ([' '] + inner + pad) + [']'];
    TrimmedAlready(line);
    assert line[1..] == ([' '] + inner + pad) + [']'];
    var open := line[1..];
    assert open[..|open| - 1] == [' '] + inner + pad;
    TrimOf([' '], inner, pad);
  }

  /** The printed header seen as the parser takes it apart. */
  lemma HeaderLayout(h: Header, pad: string, front: string)
    requires PadRight(h.tag, 8) == h.tag + pad && PrintIds(h) == front + TrimmedIds(h)
    ensures PrintHeader(h) == ['['] + ([' '] + (h.ts + " " + (front + RestOf(h))) + (pad + [' '])) + [']']
  {
    Regroup(h.ts, front, TrimmedIds(h), h.level, h.tag, pad);
    RestInParts(h);
  }

  lemma Regroup(ts: string, front: string, ids: string, level: char, tag: string, pad: string)
    ensures "[ " + ts + " " + (front + ids) + " " + [level] + "/" + (tag + pad) + " ]"
         == ['['] + ([' '] + (ts + " " + (front + (ids + [' '] + [level] + ['/'] + tag))) + (pad + [' '])) + [']']
  {
  }

  lemma IdsAreTrimmed(h: Header)
    requires RestPrints(h)
    ensures TrimmedIds(h) != [] && NoMargin(TrimmedIds(h))
  {
  }

  lemma RestEnds(h: Header)
    requires RestPrints(h)
    ensures TrimmedIds(h) <= RestOf(h) && !IsWhitespace(RestOf(h)[|RestOf(h)| - 1])
  {
  }

  lemma PrintedTakesApart(now: Now, h: Header) returns (inner: string, front: string)
    requires Canonicalize(h.ts) == Some(h.ts) && RestPrints(h)
    ensures Blank(front)
    ensures StripBrackets(Trim(PrintHeader(h))) == Some(inner)
    ensures TakeTimestamp(now, inner) == Some((h.ts, front + RestOf(h)))
  {
    var pad := PadRightOf(h.tag, 8);
    front := IdsPadding(h);
    IdsAreTrimmed(h);
    RestEnds(h);
    HeaderLayout(h, pad, front);
    InnerTakesApart(now, h.ts, front, TrimmedIds(h), RestOf(h), pad + [' ']);
    inner := h.ts + " " + (front + RestOf(h));
  }

  /** A printed header is read up to its ids as it was printed. */
  lemma PrintedReads(now: Now, h: Header) returns (front: string)
    requires Canonicalize(h.ts) == Some(h.ts) && RestPrints(h)
    ensures Blank(front)
    ensures ParseLongHeader(now, PrintHeader(h)) == ParseRest(h.ts, front + RestOf(h))
  {
    var inner: string;
    inner, front := PrintedTakesApart(now, h);
    ParseSteps(now, PrintHeader(h), inner, h.ts, front + RestOf(h));
  }

  /** A printed header reads back as the same header exactly if its ids do not begin with a word
      that is taken for a zone. */
  lemma HeaderReadsBack(now: Now, h: Header)
    requires Canonicalize(h.ts) == Some(h.ts) && RestPrints(h)
    ensures ParseLongHeader(now, PrintHeader(h)) == Some(h) <==> !IsZoneToken(FirstWord(TrimmedIds(h)))
  {
    var front := PrintedReads(now, h);
    RestReadsBack(h, front);
  }

  lemma ParseSteps(now: Now, line: string, inner: string, ts: string, rest: string)
    requires StripBrackets(Trim(line)) == Some(inner)
    requires TakeTimestamp(now, inner) == Some((ts, rest))
    ensures ParseLongHeader(now, line) == ParseRest(ts, rest)
  {
  }

  lemma InnerReads(now: Now, ts: string, front: string, ids: string, rest: string, pad: string)
    requires Canonicalize(ts) == Some(ts) && Blank(pad)
    requires ids != [] && ids <= rest && !IsWhitespace(rest[|rest| - 1])
    ensures ParseLongHeader(now, ['['] + ([' '] + (ts + " " + (front + rest)) + pad) + [']'])
         == ParseRest(ts, front + rest)
  {
    InnerTakesApart(now, ts, front, ids, rest, pad);
    ParseSteps(now, ['['] + ([' '] + (ts + " " + (front + rest)) + pad) + [']'], ts + " " + (front + rest), ts, front + rest);
  }

  lemma InnerTakesApart(now: Now, ts: string, front: string, ids: string, rest: string, pad: string)
    requires Canonicalize(ts) == Some(ts) && Blank(pad)
    requires ids != [] && ids <= rest && !IsWhitespace(rest[|rest| - 1])
    ensures var inner := ts + " " + (front + rest);
      && StripBrackets(Trim(['['] + ([' '] + inner + pad) + [']'])) == Some(inner)
      && TakeTimestamp(now, inner) == Some((ts, front + rest))
  {
    var p := ParseParts(ts).value;
    InnerIsTrimmed(p, front, rest, ids);
    var inner := ts + " " + (front + rest);
    BracketsComeOff(inner, pad);
    ClockReadsBack(now, p, front + rest);
  }

  /** What the ids are followed by. */
  function LevelTagOf(h: Header): string {
    [h.level] + ['/'] + h.tag
  }

  function RestOf(h: Header): string {
    TrimmedIds(h) + [' '] + LevelTagOf(h)
  }

  lemma RestInParts(h: Header)
    ensures RestOf(h) == TrimmedIds(h) + [' '] + [h.level] + ['/'] + h.tag
  {
  }

  lemma RestReadsBack(h: Header, front: string)
    requires RestPrints(h) && Blank(front)
    ensures ParseRest(h.ts, front + RestOf(h)) == Some(h) <==> !IsZoneToken(FirstWord(TrimmedIds(h)))
  {
    IdsAreTrimmed(h);
    ZoneDecides(front, TrimmedIds(h), LevelTagOf(h));
    if IsZoneToken(FirstWord(TrimmedIds(h))) {
      ZoneLosesUid(h, front + RestOf(h));
    } else {
      TrimStartOf([], RestOf(h));
      assert [] + RestOf(h) == RestOf(h);
      NoZoneReadsBack(h, front + RestOf(h));
    }
  }

  lemma NoZoneReadsBack(h: Header, rest: string)
    requires RestPrints(h) && TrimStart(SkipZone(rest)) == RestOf(h)
    ensures ParseRest(h.ts, rest) == Some(h)
  {
    IdsAreTrimmed(h);
    var ids := TrimmedIds(h);
    RestInParts(h);
    LevelTagReadsBack(ids, h.level, h.tag);
    IdsReadBack(h);
    RestSteps(h, rest, RestOf(h), ids);
  }

  // ---------- ids that look like a zone ----------

  ghost predicate OneColon(s: string) {
    forall i, j :: 0 <= i < j < |s| ==> !(s[i] == ':' && s[j] == ':')
  }

  lemma OneColonSplits(s: string)
    requires OneColon(s)
    ensures |Split(s, Is(':'))| <= 2
  {
    SplitOnceRebuilds(s, Is(':'));
    match SplitOnce(s, Is(':'))
    case None =>
    case Some((a, b)) =>
      assert forall j :: 0 <= j < |b| ==> s[|a| + 1 + j] == b[j];
      SplitNone(b, Is(':'));
  }

  lemma TrimKeepsOneColon(s: string)
    requires OneColon(s)
    ensures OneColon(TrimEnd(s)) && OneColon(TrimStart(s)) && OneColon(Trim(s))
  {
    TrimStartIsSuffix(s);
    TrimEndIsPrefix(s);
    TrimEndIsPrefix(TrimStart(s));
  }

  lemma FewColonsInIds(head: string, tag: string)
    requires '/' !in tag && OneColon(head)
    ensures match TakeLevelTag(head + ['/'] + tag) case None => true case Some((ids, _, _)) => OneColon(ids)
  {
    FindLastAt(head, '/', tag, Is('/'));
    assert (head + ['/'] + tag)[..|head|] == head;
    TrimKeepsOneColon(head);
    match FindLast(TrimEnd(head), IsWhitespace)
    case None =>
    case Some(blank) => TrimKeepsOneColon(TrimEnd(head)[..blank + 1]);
  }

  lemma FewColonsNoUid(ids: string)
    requires OneColon(ids)
    ensures match ParseProcessIds(ids) case None => true case Some((uid, _, _)) => uid.None?
  {
    OneColonSplits(ids);
  }

  lemma {:induction false} TrimStartStops(s: string, x: char, t: string)
    requires !IsWhitespace(x)
    ensures TrimStart(s + [x] + t) == TrimStart(s + [x]) + t
  {
    if s == [] {
      assert s + [x] + t == [x] + t && s + [x] == [x];
    } else if IsWhitespace(s[0]) {
      assert (s + [x] + t)[1..] == s[1..] + [x] + t;
      assert (s + [x])[1..] == s[1..] + [x];
      TrimStartStops(s[1..], x, t);
    }
  }

  lemma PidTidHasOneColon(h: Header)
    ensures OneColon(PrintPidTid(h))
  {
    PaddedPart(Decimal(h.pid), 5);
    PaddedPart(Decimal(h.tid), 5);
  }

  /** Only a uid can begin with a sign; the word skipped holds all of it and the colon behind. */
  lemma SkippedWordHoldsUid(h: Header)
    requires RestPrints(h) && IsZoneToken(FirstWord(TrimmedIds(h)))
    ensures h.uid.Some? && |FirstWord(TrimmedIds(h))| > |h.uid.value|
  {
    var ids := TrimmedIds(h);
    SplitOnceRebuilds(ids, IsWhitespace);
    assert ids[0] == FirstWord(ids)[0];
    assert h.uid.Some?;
    match SplitOnce(ids, IsWhitespace)
    case None =>
    case Some((word, _)) =>
      assert IsWhitespace(ids[|word|]);
      assert forall i :: 0 <= i < |h.uid.value| ==> ids[i] == h.uid.value[i];
      assert ids[|h.uid.value|] == ':';
  }

  lemma TailHasOneColon(h: Header)
    requires RestPrints(h) && IsZoneToken(FirstWord(TrimmedIds(h)))
    ensures match SplitOnce(TrimmedIds(h), IsWhitespace) case None => true case Some((_, tail)) => OneColon(tail)
  {
    SkippedWordHoldsUid(h);
    PidTidHasOneColon(h);
    var ids, own := TrimmedIds(h), PrintPidTid(h);
    SplitOnceRebuilds(ids, IsWhitespace);
    match SplitOnce(ids, IsWhitespace)
    case None =>
    case Some((word, tail)) =>
      assert ids == h.uid.value + (":" + own) && |ids| == |h.uid.value| + 1 + |own|;
      assert tail == ids[|word| + 1..] == own[|word| - |h.uid.value|..];
  }

  /** No slash behind its own, and no second colon in front of it. */
  ghost predicate LosesUid(rest: string, tag: string) {
    exists head :: rest == head + ['/'] + tag && OneColon(head)
  }

  lemma TrimmedLosesUid(front: string, level: char, tag: string)
    requires OneColon(front) && !IsWhitespace(level) && level != ':'
    ensures LosesUid(TrimStart(front + [level] + (['/'] + tag)), tag)
  {
    TrimStartStops(front, level, ['/'] + tag);
    TrimKeepsOneColon(front + [level]);
    var head := TrimStart(front + [level]);
    assert head + (['/'] + tag) == head + ['/'] + tag;
  }

  lemma LeftBehindZone(h: Header)
    requires RestPrints(h) && IsZoneToken(FirstWord(TrimmedIds(h)))
    ensures LosesUid(TrimStart(AfterWord(TrimmedIds(h), LevelTagOf(h))), h.tag)
  {
    TailHasOneColon(h);
    match SplitOnce(TrimmedIds(h), IsWhitespace)
    case None =>
      assert LevelTagOf(h) == [] + [h.level] + (['/'] + h.tag);
      TrimmedLosesUid([], h.level, h.tag);
    case Some((_, tail)) =>
      assert tail + [' '] + LevelTagOf(h) == (tail + [' ']) + [h.level] + (['/'] + h.tag);
      TrimmedLosesUid(tail + [' '], h.level, h.tag);
  }

  lemma ZoneLosesUid(h: Header, rest: string)
    requires RestPrints(h) && IsZoneToken(FirstWord(TrimmedIds(h)))
    requires SkipZone(rest) == AfterWord(TrimmedIds(h), LevelTagOf(h))
    ensures ParseRest(h.ts, rest) != Some(h)
  {
    SkippedWordHoldsUid(h);
    LeftBehindZone(h);
    var left := TrimStart(AfterWord(TrimmedIds(h), LevelTagOf(h)));
    var head :| left == head + ['/'] + h.tag && OneColon(head);
    FewColonsInIds(head, h.tag);
    match TakeLevelTag(left)
    case None =>
    case Some((ids, _, _)) => FewColonsNoUid(ids);
  }

  lemma {:induction false} DigitsOfPrefix(s: string, more: string)
    ensures CountDigits(s + more) >= CountDigits(s)
  {
    if s != [] {
      assert (s + more)[1..] == s[1..] + more;
      DigitsOfPrefix(s[1..], more);
    }
  }

  lemma WordHoldsFront(front: string, more: string)
    requires Free(front, IsWhitespace)
    ensures front <= FirstWord(front + more)
  {
    var s := front + more;
    SplitOnceRebuilds(s, IsWhitespace);
    match SplitOnce(s, IsWhitespace)
    case None =>
    case Some((word, _)) =>
      assert word == s[..|word|];
      assert forall i :: 0 <= i < |front| ==> !IsWhitespace(s[i]);
  }

  lemma ZoneGrows(zone: string, word: string)
    requires IsZoneToken(zone) && zone <= word
    ensures IsZoneToken(word)
  {
    assert word == zone + word[|zone|..];
    DigitsOfPrefix(zone, word[|zone|..]);
  }

  /** A uid that is itself a zone token is never read back. */
  lemma ZoneUidIsLost(now: Now, h: Header)
    requires Canonicalize(h.ts) == Some(h.ts) && RestPrints(h)
    requires h.uid.Some? && IsZoneToken(h.uid.value)
    ensures ParseLongHeader(now, PrintHeader(h)) != Some(h)
  {
    WordHoldsFront(h.uid.value, ":" + PrintPidTid(h));
    ZoneGrows(h.uid.value, FirstWord(TrimmedIds(h)));
    HeaderReadsBack(now, h);
  }

  lemma OffsetIsZone(uid: string)
    requires uid == "+0800"
    ensures UidPrints(uid) && IsZoneToken(uid)
  {
    var digits := uid[1..];
    assert digits[3..] == [uid[4]];
    assert CountDigits(digits[3..]) == 1;
    assert digits[2..][1..] == digits[3..] && digits[1..][1..] == digits[2..];
    assert CountDigits(digits[2..]) == 2;
    assert CountDigits(digits[1..]) == 3;
  }

  // ---------- with the zone printed ----------

  /** The header as the log's printer writes it when it is told to print the zone as well. */
  function PrintZoned(h: Header, zone: string): string {
    "[ " + h.ts + " " + zone + " " + PrintIds(h) + " " + [h.level] + "/" + PadRight(h.tag, 8) + " ]"
  }

  predicate ZonePrints(zone: string) {
    IsToken(zone) && IsZoneToken(zone)
  }

  lemma ZoneIsSkipped(zone: string, front: string, rest: string)
    requires ZonePrints(zone) && Blank(front) && rest != [] && !IsWhitespace(rest[0])
    ensures TrimStart(SkipZone(zone + " " + (front + rest))) == rest
  {
    var all := zone + [' '] + (front + rest);
    TrimStartOf([], all);
    assert [] + all == all;
    SplitOnceAt(zone, ' ', front + rest, IsWhitespace);
    TrimStartOf(front, rest);
  }

  lemma RegroupZoned(ts: string, zone: string, front: string, ids: string, level: char, tag: string, pad: string)
    ensures "[ " + ts + " " + zone + " " + (front + ids) + " " + [level] + "/" + (tag + pad) + " ]"
         == ['['] + ([' '] + (ts + " " + ((zone + " " + front) + (ids + [' '] + ([level] + ['/'] + tag)))) + (pad + [' '])) + [']']
  {
  }

  lemma ZonedLayout(h: Header, zone: string, pad: string, front: string)
    requires PadRight(h.tag, 8) == h.tag + pad && PrintIds(h) == front + TrimmedIds(h)
    ensures PrintZoned(h, zone)
         == ['['] + ([' '] + (h.ts + " " + ((zone + " " + front) + RestOf(h))) + (pad + [' '])) + [']']
  {
    RegroupZoned(h.ts, zone, front, TrimmedIds(h), h.level, h.tag, pad);
  }

  lemma ZonedReads(now: Now, h: Header, zone: string) returns (front: string)
    requires Canonicalize(h.ts) == Some(h.ts) && RestPrints(h)
    ensures Blank(front)
    ensures ParseLongHeader(now, PrintZoned(h, zone)) == ParseRest(h.ts, zone + " " + front + RestOf(h))
  {
    var pad := PadRightOf(h.tag, 8);
    front := IdsPadding(h);
    IdsAreTrimmed(h);
    RestEnds(h);
    ZonedLayout(h, zone, pad, front);
    InnerReads(now, h.ts, zone + " " + front, TrimmedIds(h), RestOf(h), pad + [' ']);
  }

  lemma RestBegins(h: Header)
    requires RestPrints(h)
    ensures RestOf(h) != [] && !IsWhitespace(RestOf(h)[0])
  {
    IdsAreTrimmed(h);
  }

  lemma GroupsAlike<T>(a: seq<T>, b: seq<T>, c: seq<T>)
    ensures a + b + c == a + (b + c)
  {
  }

  /** With the zone printed every header reads back, whatever its ids begin with. */
  lemma ZonedReadsBack(now: Now, h: Header, zone: string)
    requires Canonicalize(h.ts) == Some(h.ts) && RestPrints(h) && ZonePrints(zone)
    ensures ParseLongHeader(now, PrintZoned(h, zone)) == Some(h)
  {
    var front := ZonedReads(now, h, zone);
    RestBegins(h);
    GroupsAlike(zone + " ", front, RestOf(h));
    ZoneIsSkipped(zone, front, RestOf(h));
    NoZoneReadsBack(h, zone + " " + front + RestOf(h));
  }

  /** A uid at which it fails: the line with a zone reads as a header, and that header printed without
      one does not. */
  lemma OffsetUidIsLost(now: Now, h: Header)
    requires Canonicalize(h.ts) == Some(h.ts) && RestPrints(h) && h.uid == Some("+0800")
    ensures ParseLongHeader(now, PrintZoned(h, "+0800")) == Some(h)
    ensures ParseLongHeader(now, PrintHeader(h)) != Some(h)
  {
    OffsetIsZone(h.uid.value);
    ZonedReadsBack(now, h, "+0800");
    ZoneUidIsLost(now, h);
  }

  lemma OffsetHeaderPrints(h: Header)
    requires h.pid == h.tid == 1 && h.uid == Some("+0800") && h.level == 'I' && h.tag == "tag"
    ensures RestPrints(h)
  {
    OffsetIsZone("+0800");
    assert NoMargin("tag") && '/' !in "tag";
  }

  /** There is such a header. */
  lemma OffsetUidHeader(now: Now, p: Parts) returns (h: Header)
    requires ValidParts(p)
    ensures h == Header(ClockText(p), 1, 1, Some("+0800"), 'I', "tag")
    ensures ParseLongHeader(now, PrintZoned(h, "+0800")) == Some(h)
    ensures ParseLongHeader(now, PrintHeader(h)) != Some(h)
  {
    h := Header(ClockText(p), 1, 1, Some("+0800"), 'I', "tag");
    ParseFormatted(p);
    OffsetHeaderPrints(h);
    OffsetUidIsLost(now, h);
  }

  lemma RestSteps(h: Header, rest: string, skipped: string, ids: string)
    requires TrimStart(SkipZone(rest)) == skipped
    requires TakeLevelTag(skipped) == Some((ids, h.level, h.tag))
    requires ParseProcessIds(ids) == Some((h.uid, h.pid, h.tid))
    ensures ParseRest(h.ts, rest) == Some(h)
  {
  }

  lemma InnerIsTrimmed(p: Parts, front: string, rest: string, ids: string)
    requires ids != [] && ids <= rest && !IsWhitespace(rest[|rest| - 1])
    ensures NoMargin(ClockText(p) + " " + (front + rest))
  {
  }

  // ---------- what the parser returns ----------

  lemma TrimOutcome(s: string, p: Test)
    ensures NoMargin(Trim(s))
    ensures Free(s, p) ==> Free(Trim(s), p)
  {
    var t := TrimStart(s);
    TrimStartIsSuffix(s);
    TrimStartEnds(s);
    TrimEndIsPrefix(t);
  }

  lemma {:induction false} TrimStartEnds(s: string)
    ensures TrimStart(s) == [] || !IsWhitespace(TrimStart(s)[0])
  {
    if s != [] && IsWhitespace(s[0]) {
      TrimStartEnds(s[1..]);
    }
  }

  lemma TakenTagPrints(rest: string)
    requires TakeLevelTag(rest).Some?
    ensures IsPriority(TakeLevelTag(rest).value.1) && TagPrints(TakeLevelTag(rest).value.2)
  {
    FindLastIsLast(rest, Is('/'));
    var slash := FindLast(rest, Is('/')).value;
    TrimOutcome(rest[slash + 1..], Is('/'));
  }

  lemma ParsedIdsPrint(ids: string)
    requires ParseProcessIds(ids).Some?
    ensures var (uid, pid, tid) := ParseProcessIds(ids).value;
            && pid <= U32_MAX && tid <= U32_MAX
            && (uid.Some? ==> IsToken(uid.value) && ':' !in uid.value)
  {
    var raw := Split(ids, Is(':'));
    if |raw| == 3 {
      PartsAreFree(ids, Is(':'), Is(':'));
      assert raw[0] in raw;
      TrimOutcome(raw[0], Is(':'));
    }
  }

  lemma TakenClockIsCanonical(now: Now, inner: string)
    requires TakeTimestamp(now, inner).Some?
    ensures var ts := TakeTimestamp(now, inner).value.0; Canonicalize(ts) == Some(ts)
  {
    if TakeYmd(inner).Some? {
      var (date, time, _) := SplitDateTime(inner).value;
      CanonicalIsFixed(date + " " + time);
    } else if TakeMd(now, inner).Some? {
      var (date, time, _) := SplitDateTime(inner).value;
      CanonicalIsFixed(now.year + "-" + date + " " + time);
    } else {
      var (token, _) := SplitOnce(inner, IsWhitespace).value;
      var (sec, milli) := SplitOnce(token, Is('.')).value;
      var seconds := if DigitsValue(sec) <= I64_MAX then DigitsValue(sec) else 0;
      ParseFormatted(now.wall(seconds, DigitsValue(milli[..3])).value);
    }
  }

  /** Whatever line a header came from: printed in the printer's own format it reads back as the
      same header, exactly if its ids do not begin with a word that is taken for a zone. */
  lemma ReprintedReadsTheSame(now: Now, raw: string, h: Header)
    requires ParseLongHeader(now, raw) == Some(h)
    ensures ParseLongHeader(now, PrintHeader(h)) == Some(h) <==> Printable(h)
    ensures ParseLongHeader(now, PrintHeader(h)) == Some(h) <==> !IsZoneToken(FirstWord(TrimmedIds(h)))
  {
    var inner := StripBrackets(Trim(raw)).value;
    var (ts, rest) := TakeTimestamp(now, inner).value;
    TakenClockIsCanonical(now, inner);
    ParsedRestPrints(ts, rest, h);
    HeaderReadsBack(now, h);
  }

  lemma ParsedRestPrints(ts: string, rest: string, h: Header)
    requires ParseRest(ts, rest) == Some(h)
    ensures h.ts == ts && RestPrints(h)
  {
    var skipped := TrimStart(SkipZone(rest));
    TakenTagPrints(skipped);
    ParsedIdsPrint(TakeLevelTag(skipped).value.0);
  }

  // ---------- byte offsets ----------

  /** The length of a character in UTF-8. */
  function Utf8Len(c: char): nat {
    var n := c as int;
    if n < 0x80 then 1 else if n < 0x800 then 2 else if n < 0x1_0000 then 3 else 4
  }

  function ByteLen(s: string): nat {
    if s == [] then 0 else ByteLen(s[..|s| - 1]) + Utf8Len(s[|s| - 1])
  }

  /** The text from a byte offset on; None where the offset is behind the text or inside a character,
      at which the source's slice does not return. */
  function SliceFrom(s: string, offset: nat): Option<string> {
    if offset == 0 then Some(s)
    else if s == [] || offset < Utf8Len(s[0]) then None
    else SliceFrom(s[1..], offset - Utf8Len(s[0]))
  }

  lemma {:induction false} ByteLenFirst(s: string)
    requires s != []
    ensures ByteLen(s) == Utf8Len(s[0]) + ByteLen(s[1..])
  {
    if |s| == 1 {
      assert s[..0] == [] && s[1..] == [];
    } else {
      ByteLenFirst(s[..|s| - 1]);
      assert s[1..][..|s| - 2] == s[..|s| - 1][1..];
    }
  }

  /** A slice one byte behind the start of a character. */
  lemma {:induction false} SliceBehind(s: string, i: nat)
    requires i < |s|
    ensures SliceFrom(s, ByteLen(s[..i]) + 1) == if Utf8Len(s[i]) == 1 then Some(s[i + 1..]) else None
  {
    if i == 0 {
      assert s[..0] == [] && ByteLen(s[..0]) == 0;
      assert Utf8Len(s[0]) == 1 ==> SliceFrom(s, 1) == SliceFrom(s[1..], 0);
    } else {
      SliceBehind(s[1..], i - 1);
      ByteLenFirst(s[..i]);
      assert s[..i][1..] == s[1..][..i - 1] && s[1..][i - 1..][1..] == s[i + 1..];
      assert s[1..][i..] == s[i + 1..];
    }
  }

  datatype Outcome<T> = Returns(value: T) | Panics

  /** `take_level_tag` with its slice at a byte offset, one byte behind the start of the last blank. */
  function ReadLevelTag(rest: string): Outcome<Option<(string, char, string)>> {
    match FindLast(rest, Is('/'))
    case None => Returns(None)
    case Some(slash) =>
      var before, tag := TrimEnd(rest[..slash]), Trim(rest[slash + 1..]);
      match FindLast(before, IsWhitespace)
      case None => Returns(None)
      case Some(blank) =>
        match SliceFrom(before, ByteLen(before[..blank]) + 1)
        case None => Panics
        case Some(level) =>
          if ByteLen(level) == 1 && IsPriority(level[0]) && |level| <= |before|
          then Returns(Some((Trim(before[..|before| - |level|]), level[0], tag)))
          else Returns(None)
  }

  function ReadRest(ts: string, rest: string): Outcome<Option<Header>> {
    match ReadLevelTag(TrimStart(SkipZone(rest)))
    case Panics => Panics
    case Returns(None) => Returns(None)
    case Returns(Some((ids, level, tag))) =>
      match ParseProcessIds(ids)
      case None => Returns(None)
      case Some((uid, pid, tid)) => Returns(Some(Header(ts, pid, tid, uid, level, tag)))
  }

  function ReadHeader(now: Now, raw: string): Outcome<Option<Header>> {
    match StripBrackets(Trim(raw))
    case None => Returns(None)
    case Some(inner) =>
      match TakeTimestamp(now, inner)
      case None => Returns(None)
      case Some((ts, rest)) => ReadRest(ts, rest)
  }

  /** The blank in front of the level is longer than a byte. */
  predicate WideBlank(rest: string) {
    match FindLast(rest, Is('/'))
    case None => false
    case Some(slash) =>
      var before := TrimEnd(rest[..slash]);
      match FindLast(before, IsWhitespace)
      case None => false
      case Some(blank) => Utf8Len(before[blank]) > 1
  }

  predicate WideHeader(now: Now, raw: string) {
    match StripBrackets(Trim(raw))
    case None => false
    case Some(inner) =>
      match TakeTimestamp(now, inner)
      case None => false
      case Some((_, rest)) => WideBlank(TrimStart(SkipZone(rest)))
  }

  lemma OneByte(s: string)
    ensures ByteLen(s) == 1 <==> |s| == 1 && Utf8Len(s[0]) == 1
  {
    if |s| > 1 {
      ByteLenFirst(s);
      ByteLenFirst(s[1..]);
    } else if |s| == 1 {
      assert s[..0] == [];
    }
  }

  lemma LevelTagReads(rest: string)
    ensures ReadLevelTag(rest) == if WideBlank(rest) then Panics else Returns(TakeLevelTag(rest))
  {
    match FindLast(rest, Is('/'))
    case None =>
    case Some(slash) =>
      var before := TrimEnd(rest[..slash]);
      match FindLast(before, IsWhitespace)
      case None =>
      case Some(blank) =>
        SliceBehind(before, blank);
        OneByte(before[blank + 1..]);
  }

  /** The parser returns, and what it returns is the header, if and only if a line that has brackets and
      a clock has no blank of more than a byte in front of its level. */
  lemma HeaderReturnsIff(now: Now, raw: string)
    ensures ReadHeader(now, raw).Returns? <==> !WideHeader(now, raw)
    ensures ReadHeader(now, raw).Returns? ==> ReadHeader(now, raw) == Returns(ParseLongHeader(now, raw))
  {
    match StripBrackets(Trim(raw))
    case None =>
    case Some(inner) =>
      match TakeTimestamp(now, inner)
      case None =>
      case Some((_, rest)) => LevelTagReads(TrimStart(SkipZone(rest)));
  }

  /** A line at which it does not return. */
  lemma WideBlankPanics(now: Now, ts: string, wide: char)
    requires Canonicalize(ts) == Some(ts) && IsWhitespace(wide) && Utf8Len(wide) > 1
    ensures ReadHeader(now, ['['] + ([' '] + (ts + " " + ([] + ("1:1" + [wide] + "I/x"))) + []) + [']']) == Panics
  {
    var ids, rest := "1:1", "1:1" + [wide] + "I/x";
    InnerTakesApart(now, ts, [], ids, rest, []);
    assert [] + rest == rest;
    WideRest(wide, rest);
    HeaderReturnsIff(now, ['['] + ([' '] + (ts + " " + ([] + rest)) + []) + [']']);
  }

  lemma WideRest(wide: char, rest: string)
    requires IsWhitespace(wide) && Utf8Len(wide) > 1 && rest == "1:1" + [wide] + "I/x"
    ensures WideBlank(TrimStart(SkipZone(rest)))
  {
    var ids, head := "1:1", "1:1" + [wide] + ['I'];
    assert rest == ids + [wide] + "I/x" == head + ['/'] + "x";
    SplitOnceAt(ids, wide, "I/x", IsWhitespace);
    assert TrimStart(rest) == rest && SkipZone(rest) == rest;
    FindLastAt(head, '/', "x", Is('/'));
    assert rest[..|head|] == head;
    CharEndsHead(ids + [wide], 'I');
    LevelIsFound(ids, wide, 'I', IsWhitespace);
  }

  lemma PrintedSkips(h: Header, front: string)
    requires Printable(h) && Blank(front)
    ensures TrimStart(SkipZone(front + RestOf(h))) == RestOf(h)
  {
    IdsAreTrimmed(h);
    RestBegins(h);
    ZoneDecides(front, TrimmedIds(h), LevelTagOf(h));
    TrimStartOf([], RestOf(h));
    assert [] + RestOf(h) == RestOf(h);
  }

  lemma RestIsNarrow(h: Header)
    requires RestPrints(h)
    ensures !WideBlank(RestOf(h))
  {
    NarrowBlank(TrimmedIds(h), h.level, h.tag);
    RestInParts(h);
  }

  lemma NarrowHeader(now: Now, raw: string, inner: string, ts: string, rest: string)
    requires StripBrackets(Trim(raw)) == Some(inner) && TakeTimestamp(now, inner) == Some((ts, rest))
    requires !WideBlank(TrimStart(SkipZone(rest)))
    ensures !WideHeader(now, raw)
  {
  }

  /** A printed header is one at which it does. */
  lemma PrintedHeaderReturns(now: Now, h: Header)
    requires Printable(h)
    ensures ReadHeader(now, PrintHeader(h)) == Returns(Some(h))
  {
    HeaderReadsBack(now, h);
    var inner, front := PrintedTakesApart(now, h);
    PrintedSkips(h, front);
    RestIsNarrow(h);
    NarrowHeader(now, PrintHeader(h), inner, h.ts, front + RestOf(h));
    HeaderReturnsIff(now, PrintHeader(h));
  }

  lemma NarrowBlank(ids: string, level: char, tag: string)
    requires IsPriority(level) && '/' !in tag
    ensures !WideBlank(ids + [' '] + [level] + ['/'] + tag)
  {
    var head := ids + [' '] + [level];
    FindLastAt(head, '/', tag, Is('/'));
    assert (head + ['/'] + tag)[..|head|] == head;
    LevelEndsHead(ids, level);
    LevelIsFound(ids, ' ', level, IsWhitespace);
  }
}
