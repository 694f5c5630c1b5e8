/** The other forms in which a header may be written: a clock without its year, seconds since the epoch,
    and ids that are no plain numbers. */
module HeaderForms {

  import opened Arithmetic
  import opened Clock
  import opened Options
  import opened Parse
  import opened Text

  // ---------- clocks ----------

  lemma TextOfTwo(date: string, time: string)
    requires date != [] && time != [] && Free(date, IsWhitespace) && Free(time, IsWhitespace)
    ensures Trim(date + " " + time) == date + " " + time
    ensures EndsWith(date + " " + time, "Z") <==> time[|time| - 1] == 'Z'
  {
    var s := date + " " + time;
    assert s[0] == date[0] && s[|s| - 1] == time[|time| - 1] && s[|s| - 1..] == [s[|s| - 1]];
    TrimmedAlready(s);
  }

  lemma WordBeforeBlank(date: string)
    requires date != [] && Free(date, IsWhitespace)
    ensures Words(date + " ") == [date]
  {
    SplitOnceAt(date, ' ', [], IsWhitespace);
    assert date + [' '] + [] == date + " ";
  }

  /** Two words of which the first is no date, and has no `T` in it, are no clock. */
  lemma NoDateNoClock(date: string, time: string)
    requires date != [] && time != [] && Free(date, IsWhitespace) && Free(time, IsWhitespace)
    requires ParseDate(date).None? && Free(date, Is('T'))
    ensures Canonicalize(date + " " + time).None?
  {
    var s := date + " " + time;
    TextOfTwo(date, time);
    SplitOnceNone(date, Is('T'));
    if time[|time| - 1] == 'Z' {
      var short := time[..|time| - 1];
      assert s[..|s| - 1] == date + " " + short;
      WordsOfTwo(date, short);
      NoDateParts(s, date + " " + short, date, short);
    } else {
      WordsOfTwo(date, time);
      NoDateParts(s, s, date, time);
    }
  }

  lemma NoDateParts(raw: string, body: string, date: string, time: string)
    requires raw != [] && Trim(raw) == raw && body == if EndsWith(raw, "Z") then raw[..|raw| - 1] else raw
    requires Words(body) == if time == [] then [date] else [date, time]
    requires ParseDate(date).None? && SplitOnce(date, Is('T')).None?
    ensures Canonicalize(raw).None?
  {
  }

  lemma WordsOfTwo(date: string, time: string)
    requires date != [] && Free(date, IsWhitespace) && Free(time, IsWhitespace)
    ensures Words(date + " " + time) == if time == [] then [date] else [date, time]
  {
    if time == [] {
      WordBeforeBlank(date);
      assert date + " " + [] == date + " ";
    } else {
      TwoWords(date, time);
    }
  }

  lemma FieldsAreFree(p: Parts)
    ensures Free(Dec(p.month, 2), Is('-')) && Free(Dec(p.day, 2), Is('-'))
    ensures Free(TimeText(p), IsWhitespace) && TimeText(p) != []
  {
  }

  lemma MonthDaySplits(p: Parts)
    ensures Split(Dec(p.month, 2) + "-" + Dec(p.day, 2), Is('-')) == [Dec(p.month, 2), Dec(p.day, 2)]
  {
    FieldsAreFree(p);
    SplitAt(Dec(p.month, 2), '-', Dec(p.day, 2), Is('-'));
    SplitNone(Dec(p.day, 2), Is('-'));
  }

  lemma MonthDayIsNoDate(md: string, a: string, b: string)
    requires Split(md, Is('-')) == [a, b]
    ensures ParseDate(md).None?
  {
  }

  lemma YearInFront(now: Now, p: Parts)
    requires now.year == Dec(p.year, 4)
    ensures now.year + "-" + (Dec(p.month, 2) + "-" + Dec(p.day, 2)) + " " + TimeText(p) == ClockText(p)
  {
    assert now.year + "-" + (Dec(p.month, 2) + "-" + Dec(p.day, 2)) == DateText(p);
  }

  lemma MonthDaySteps(now: Now, md: string, time: string, ts: string, rest: string)
    requires SplitDateTime(md + [' '] + (time + [' '] + rest)) == Some((md, time, rest))
    requires Canonicalize(md + " " + time).None? && IsMd(md)
    requires Canonicalize(now.year + "-" + md + " " + time) == Some(ts)
    ensures TakeTimestamp(now, md + [' '] + (time + [' '] + rest)) == Some((ts, rest))
  {
  }

  /** A clock that leaves out the year is one of the current year. */
  lemma MonthDayReads(now: Now, p: Parts, rest: string)
    requires ValidParts(p) && now.year == Dec(p.year, 4)
    ensures var md := Dec(p.month, 2) + "-" + Dec(p.day, 2);
      TakeTimestamp(now, md + [' '] + (TimeText(p) + [' '] + rest)) == Some((ClockText(p), rest))
  {
    var md, time := Dec(p.month, 2) + "-" + Dec(p.day, 2), TimeText(p);
    FieldsAreFree(p);
    MonthDaySplits(p);
    MonthDayIsNoDate(md, Dec(p.month, 2), Dec(p.day, 2));
    MonthDayIsWord(p);
    DateTimeSplits(md, time, rest);
    NoDateNoClock(md, time);
    YearInFront(now, p);
    ParseFormatted(p);
    MonthDaySteps(now, md, time, ClockText(p), rest);
  }

  lemma MonthDayIsWord(p: Parts)
    ensures var md := Dec(p.month, 2) + "-" + Dec(p.day, 2); md != [] && Free(md, IsWhitespace) && Free(md, Is('T'))
  {
  }

  /** Seconds since the epoch with a fraction are the local wall clock at that moment; of the fraction the
      first three digits count, and seconds beyond 64 bits are none. */
  lemma EpochReads(now: Now, sec: string, milli: string, p: Parts, rest: string)
    requires sec != [] && AllDigits(sec) && |milli| >= 3 && AllDigits(milli) && ValidParts(p)
    requires now.wall(if DigitsValue(sec) <= I64_MAX then DigitsValue(sec) else 0, DigitsValue(milli[..3])) == Some(p)
    ensures TakeTimestamp(now, sec + "." + milli + [' '] + rest) == Some((ClockText(p), rest))
  {
    var token := sec + "." + milli;
    var inner := token + [' '] + rest;
    EpochToken(sec, milli);
    SplitOnceAt(token, ' ', rest, IsWhitespace);
    NoYearBefore(now, token, rest);
    SplitOnceAt(sec, '.', milli, Is('.'));
  }

  lemma EpochToken(sec: string, milli: string)
    requires AllDigits(sec) && AllDigits(milli)
    ensures var token := sec + "." + milli;
      && Free(token, IsWhitespace) && Free(token, Is('T')) && Free(token, Is('-')) && ParseDate(token).None?
    ensures Free(sec, Is('.'))
  {
    var token := sec + "." + milli;
    SplitNone(token, Is('-'));
  }

  lemma NoYearBefore(now: Now, token: string, rest: string)
    requires token != [] && Free(token, IsWhitespace) && Free(token, Is('T')) && Free(token, Is('-')) && ParseDate(token).None?
    ensures TakeYmd(token + [' '] + rest).None? && TakeMd(now, token + [' '] + rest).None?
  {
    SplitOnceAt(token, ' ', rest, IsWhitespace);
    SplitNone(token, Is('-'));
    var later := TrimStart(rest);
    var left := TrimStartRemoves(rest);
    match SplitOnce(later, IsWhitespace)
    case None =>
    case Some((time, _)) =>
      SplitOnceRebuilds(later, IsWhitespace);
      NoDateNoClock(token, time);
  }

  // ---------- ids ----------

  /** A process id that is no plain number: beyond 32 bits it counts as zero, beyond 64 as the placeholder, and
      so does -1; other negative numbers count as zero. */
  lemma PidForms(n: nat)
    ensures ParsePid(Decimal(n)) == if n <= U32_MAX then n else if n <= I64_MAX then 0 else U32_MAX
    ensures ParsePid("+" + Decimal(n)) == ParsePid(Decimal(n))
    ensures ParsePid("-" + Decimal(n)) == if n == 1 || n > I64_MAX + 1 then U32_MAX else 0
  {
    SignedPid(Decimal(n));
    DecimalValue(n);
  }

  lemma SignedPid(digits: string)
    requires digits != [] && AllDigits(digits)
    ensures ParsePid(digits) ==
            if DigitsValue(digits) <= U32_MAX then DigitsValue(digits) else if DigitsValue(digits) <= I64_MAX then 0 else U32_MAX
    ensures ParsePid("+" + digits) == ParsePid(digits)
    ensures ParsePid("-" + digits) == if DigitsValue(digits) == 1 || DigitsValue(digits) > I64_MAX + 1 then U32_MAX else 0
  {
    assert IsDigit(digits[0]);
    assert ("+" + digits)[1..] == digits && ("-" + digits)[1..] == digits;
  }

  lemma WordIsNoPid(s: string)
    requires s != [] && !IsDigit(s[0]) && s[0] != '-' && s[0] != '+'
    ensures ParsePid(s) == U32_MAX
  {
  }

  function HexChar(n: nat, ten: char): char
    requires n < 16 && (ten == 'a' || ten == 'A')
  {
    if n < 10 then '0' + n as char else ten + (n - 10) as char
  }

  /** In hexadecimal, with small or capital letters. */
  function HexText(n: nat, ten: char): (s: string)
    requires ten == 'a' || ten == 'A'
    ensures s != []
  {
    if n < 16 then [HexChar(n, ten)] else HexText(n / 16, ten) + [HexChar(n % 16, ten)]
  }

  lemma {:induction false} HexReadsBack(n: nat, ten: char)
    requires ten == 'a' || ten == 'A'
    ensures HexValue(HexText(n, ten)) == Some(n) && IsToken(HexText(n, ten)) && HexText(n, ten)[0] != '+'
  {
    HexCharReads(n % 16, ten);
    if n < 16 {
      assert HexText(n, ten)[..0] == [] && HexText(n, ten)[0] == HexChar(n, ten);
    } else {
      HexReadsBack(n / 16, ten);
      assert HexText(n, ten)[..|HexText(n, ten)| - 1] == HexText(n / 16, ten);
    }
  }

  lemma HexCharReads(n: nat, ten: char)
    requires n < 16 && (ten == 'a' || ten == 'A')
    ensures HexDigit(HexChar(n, ten)) == Some(n) && !IsWhitespace(HexChar(n, ten)) && HexChar(n, ten) != '+'
  {
  }

  /** A thread id in hexadecimal reads as its number, one beyond 32 bits as the placeholder. */
  lemma HexThreadReads(n: nat, ten: char)
    requires ten == 'a' || ten == 'A'
    ensures ParseThreadId("0x" + HexText(n, ten)) == if n <= U32_MAX then n else U32_MAX
    ensures ParseThreadId("0X" + HexText(n, ten)) == if n <= U32_MAX then n else U32_MAX
  {
    HexMarkReads("0x", n, ten);
    HexMarkReads("0X", n, ten);
  }

  lemma HexMarkReads(mark: string, n: nat, ten: char)
    requires (mark == "0x" || mark == "0X") && (ten == 'a' || ten == 'A')
    ensures ParseThreadId(mark + HexText(n, ten)) == if n <= U32_MAX then n else U32_MAX
  {
    HexReadsBack(n, ten);
    HexTrimmed(mark, n, ten);
  }

  /** Nothing behind the mark is no number. */
  lemma NoHexDigits()
    ensures ParseThreadId("0x") == U32_MAX && ParseThreadId("0X") == U32_MAX && ParseThreadId("0x+") == U32_MAX
  {
    TokenIsTrimmed("0x");
    TokenIsTrimmed("0X");
    TokenIsTrimmed("0x+");
    assert "0x"[2..] == [] && "0X"[2..] == [] && "0x+"[2..] == "+" && "+"[1..] == [];
  }

  lemma HexTrimmed(mark: string, n: nat, ten: char)
    requires (mark == "0x" || mark == "0X") && (ten == 'a' || ten == 'A')
    ensures Trim(mark + HexText(n, ten)) == mark + HexText(n, ten) && (mark + HexText(n, ten))[2..] == HexText(n, ten)
  {
    HexReadsBack(n, ten);
    TokenIsTrimmed(mark + HexText(n, ten));
  }
}
