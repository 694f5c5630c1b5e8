/** Which texts are dates, times and canonical clocks, told from the printer of decimals. */
module ClockForms {

  import opened Arithmetic
  import opened Clock
  import opened Options
  import opened Text

  lemma {:induction false} FieldIff(s: string, width: nat, n: nat)
    requires 0 < width <= 4
    ensures |s| == width && ParseU32Exact(s) == Some(n) <==> n < Pow10(width) && s == Dec(n, width)
  {
    if |s| == width && AllDigits(s) {
      ValueDec(s);
    }
    if n < Pow10(width) {
      DecParses(n, width);
    }
  }

  lemma ThreeParts(s: string, sep: char, a: string, b: string, c: string)
    requires Split(s, Is(sep)) == [a, b, c]
    ensures s == a + [sep] + b + [sep] + c
  {
    JoinSplit(s, sep);
    assert [a, b, c][1..] == [b, c] && [b, c][1..] == [c];
    assert Join([b, c], sep) == b + [sep] + Join([c], sep) && Join([c], sep) == c;
    assert Join([a, b, c], sep) == a + [sep] + Join([b, c], sep);
    assert a + [sep] + (b + [sep] + c) == a + [sep] + b + [sep] + c;
  }

  /** A date is four, two and two digits with a stroke between. */
  lemma DateIff(s: string, y: nat, m: nat, d: nat)
    ensures ParseDate(s) == Some((y, m, d)) <==>
              y < 10000 && m < 100 && d < 100 && s == Dec(y, 4) + "-" + Dec(m, 2) + "-" + Dec(d, 2)
  {
    Pow10Small();
    FieldIff(Dec(y, 4), 4, y);
    FieldIff(Dec(m, 2), 2, m);
    FieldIff(Dec(d, 2), 2, d);
    ThreeFields(Dec(y, 4), Dec(m, 2), Dec(d, 2), '-');
    var parts := Split(s, Is('-'));
    if |parts| == 3 {
      FieldIff(parts[0], 4, y);
      FieldIff(parts[1], 2, m);
      FieldIff(parts[2], 2, d);
      ThreeParts(s, '-', parts[0], parts[1], parts[2]);
    }
  }

  function Hms(h: nat, m: nat, sec: nat): string {
    Dec(h, 2) + ":" + Dec(m, 2) + ":" + Dec(sec, 2)
  }

  lemma HmsIff(s: string, h: nat, m: nat, sec: nat)
    ensures var parts := Split(s, Is(':'));
      && |parts| == 3 && |parts[0]| == |parts[1]| == |parts[2]| == 2
      && ParseU32Exact(parts[0]) == Some(h) && ParseU32Exact(parts[1]) == Some(m) && ParseU32Exact(parts[2]) == Some(sec)
      <==> h < 100 && m < 100 && sec < 100 && s == Hms(h, m, sec)
  {
    Pow10Small();
    FieldIff(Dec(h, 2), 2, h);
    FieldIff(Dec(m, 2), 2, m);
    FieldIff(Dec(sec, 2), 2, sec);
    ThreeFields(Dec(h, 2), Dec(m, 2), Dec(sec, 2), ':');
    var parts := Split(s, Is(':'));
    if |parts| == 3 {
      FieldIff(parts[0], 2, h);
      FieldIff(parts[1], 2, m);
      FieldIff(parts[2], 2, sec);
      ThreeParts(s, ':', parts[0], parts[1], parts[2]);
    }
  }

  /** The thousandths that a fraction stands for: its first three digits, zeros behind a shorter one. */
  predicate Thousandths(frac: string, ms: nat) {
    frac != [] && AllDigits(frac) && AllDigits((frac + "00")[..3]) && ms == DigitsValue((frac + "00")[..3])
  }

  lemma FractionIff(frac: string, ms: nat)
    ensures ParseFracMillis(frac) == Some(ms) <==> Thousandths(frac, ms)
  {
    if frac != [] && AllDigits(frac) {
      assert Zeros(0) == "" && Zeros(1) == "0" && Zeros(2) == "00" by {
        assert Zeros(1) == Zeros(0) + ['0'] && Zeros(2) == Zeros(1) + ['0'];
      }
      var filled := if |frac| >= 3 then frac[..3] else frac + Zeros(3 - |frac|);
      assert (frac + "00")[..3] == filled;
    }
  }

  ghost predicate WithFraction(s: string, hms: string, ms: nat) {
    exists frac :: s == hms + "." + frac && Thousandths(frac, ms)
  }

  lemma FractionSplits(s: string, hms: string, ms: nat)
    requires Free(hms, Is('.'))
    ensures SplitOnce(s, Is('.')).None? ==> !WithFraction(s, hms, ms)
    ensures SplitOnce(s, Is('.')).Some? ==>
      var (head, tail) := SplitOnce(s, Is('.')).value;
      s != hms && (WithFraction(s, hms, ms) <==> head == hms && Thousandths(tail, ms))
  {
    SplitOnceRebuilds(s, Is('.'));
    if frac :| s == hms + "." + frac && Thousandths(frac, ms) {
      SplitOnceAt(hms, '.', frac, Is('.'));
    }
    SplitOnceNone(hms, Is('.'));
    if SplitOnce(s, Is('.')).Some? {
      var (head, tail) := SplitOnce(s, Is('.')).value;
      assert s == head + "." + tail;
    }
  }

  /** A time is hours, minutes and seconds in two digits each, and perhaps a fraction of any length. */
  lemma TimeIff(s: string, h: nat, m: nat, sec: nat, ms: nat)
    ensures ParseTime(s) == Some((h, m, sec, ms)) <==>
      && h < 100 && m < 100 && sec < 100
      && ((s == Hms(h, m, sec) && ms == 0) || WithFraction(s, Hms(h, m, sec), ms))
  {
    HmsIsFree(h, m, sec);
    FractionSplits(s, Hms(h, m, sec), ms);
    match SplitOnce(s, Is('.'))
    case None =>
      HmsIff(s, h, m, sec);
    case Some((head, tail)) =>
      HmsIff(head, h, m, sec);
      FractionIff(tail, ms);
  }

  lemma HmsIsFree(h: nat, m: nat, sec: nat)
    ensures Free(Hms(h, m, sec), Is('.'))
  {
  }

  function DigitsOf(s: string): string {
    if s == [] then [] else (if '0' <= s[0] <= '9' then [s[0]] else []) + DigitsOf(s[1..])
  }

  lemma {:induction false} DigitsAreCounted(s: string)
    ensures CountDigits(s) == |DigitsOf(s)|
  {
    if s != [] {
      DigitsAreCounted(s[1..]);
    }
  }

  /** A zone is a sign and whatever follows with at least four digits in it. */
  lemma ZoneIff(s: string)
    ensures IsZoneToken(s) <==> (exists rest :: s == "+" + rest || s == "-" + rest) && |DigitsOf(s)| >= 4
  {
    DigitsAreCounted(s);
    if s != [] {
      assert s == [s[0]] + s[1..];
    }
  }

  predicate InRange(p: Parts) {
    && p.year <= 9999 && 1 <= p.month <= 12 && 1 <= p.day <= 31
    && p.hour <= 23 && p.minute <= 59 && p.second <= 59 && p.millis <= 999
  }

  predicate Writes(s: string, p: Parts) {
    s == Dec(p.year, 4) + "-" + Dec(p.month, 2) + "-" + Dec(p.day, 2) + " " + Hms(p.hour, p.minute, p.second) + "." + Dec(p.millis, 3)
  }

  lemma WritesClock(s: string, p: Parts)
    ensures Writes(s, p) <==> s == ClockText(p)
  {
    assert ClockText(p) == DateText(p) + " " + (Hms(p.hour, p.minute, p.second) + "." + Dec(p.millis, 3));
  }

  lemma RangeIsValid(p: Parts)
    ensures InRange(p) <==> FormatDatetime(p).Some?
  {
  }

  /** Canonical are exactly the texts of clocks with fields in range. */
  lemma CanonicalIff(s: string)
    ensures Canonicalize(s) == Some(s) <==> exists p :: Writes(s, p) && InRange(p)
  {
    if Canonicalize(s) == Some(s) {
      var p := ParseParts(s).value;
      WritesClock(s, p);
      RangeIsValid(p);
      assert Writes(s, p) && InRange(p);
    }
    if p :| Writes(s, p) && InRange(p) {
      WritesClock(s, p);
      RangeIsValid(p);
      ParseFormatted(p);
    }
  }

  /** Read leniently, a text gives a clock exactly if it has a date and a time and their fields are in range. */
  lemma AcceptedIff(raw: string)
    ensures Canonicalize(raw).Some? <==> ParseParts(raw).Some? && InRange(ParseParts(raw).value)
  {
  }
}
