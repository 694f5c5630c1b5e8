/** Wall clocks as text: `YYYY-MM-DD HH:MM:SS.mmm`, read leniently, written one way only. */
module Clock {

  import opened Arithmetic
  import opened Options
  import opened Order
  import opened Text

  datatype Parts = Parts(
    year: nat, month: nat, day: nat, hour: nat, minute: nat, second: nat, millis: nat)

  predicate ValidParts(p: Parts) {
    && p.year <= 9999 && 1 <= p.month <= 12 && 1 <= p.day <= 31
    && p.hour <= 23 && p.minute <= 59 && p.second <= 59 && p.millis <= 999
  }

  function DateText(p: Parts): string {
    Dec(p.year, 4) + "-" + Dec(p.month, 2) + "-" + Dec(p.day, 2)
  }

  function HmsText(p: Parts): string {
    Dec(p.hour, 2) + ":" + Dec(p.minute, 2) + ":" + Dec(p.second, 2)
  }

  function TimeText(p: Parts): string {
    HmsText(p) + "." + Dec(p.millis, 3)
  }

  function ClockText(p: Parts): string {
    DateText(p) + " " + TimeText(p)
  }

  function FormatDatetime(p: Parts): Option<string> {
    if ValidParts(p) then Some(ClockText(p)) else None
  }

  // ---------- reading ----------

  function CountDigits(s: string): nat {
    if s == [] then 0 else CountDigits(s[1..]) + if IsDigit(s[0]) then 1 else 0
  }

  predicate IsZoneToken(s: string) {
    s != [] && (s[0] == '+' || s[0] == '-') && CountDigits(s) >= 4
  }

  function ParseU32Exact(s: string): Option<nat> {
    if s != [] && AllDigits(s) && DigitsValue(s) <= U32_MAX then Some(DigitsValue(s)) else None
  }

  function ParseDate(s: string): Option<(nat, nat, nat)> {
    var parts := Split(s, Is('-'));
    if |parts| != 3 || |parts[0]| != 4 || |parts[1]| != 2 || |parts[2]| != 2 then None
    else
      match (ParseU32Exact(parts[0]), ParseU32Exact(parts[1]), ParseU32Exact(parts[2]))
      case (Some(y), Some(m), Some(d)) => Some((y, m, d))
      case _ => None
  }

  function Zeros(n: nat): (s: string)
    ensures |s| == n && AllDigits(s)
  {
    if n == 0 then [] else Zeros(n - 1) + ['0']
  }

  /** Only the first three digits of a fraction count; a shorter one is filled up with zeros. */
  function ParseFracMillis(frac: string): Option<nat> {
    if frac == [] || !AllDigits(frac) then None
    else Some(DigitsValue(if |frac| >= 3 then frac[..3] else frac + Zeros(3 - |frac|)))
  }

  method ReadFracMillis(frac: string) returns (millis: Option<nat>)
    ensures millis == ParseFracMillis(frac)
  {
    var digits := "";
    for i := 0 to |frac|
      invariant forall k :: 0 <= k < i ==> IsDigit(frac[k])
      invariant digits == frac[..if i <= 3 then i else 3]
    {
      if !IsDigit(frac[i]) {
        return None;
      }
      if |digits| < 3 {
        digits := digits + [frac[i]];
      }
    }
    if digits == [] {
      return None;
    }
    ghost var read, n := digits, 0;
    while |digits| < 3
      invariant |read| + n == |digits| <= 3 && digits == read + Zeros(n)
    {
      assert read + (Zeros(n) + ['0']) == digits + ['0'];
      digits := digits + ['0'];
      n := n + 1;
    }
    assert read + Zeros(0) == read && (|frac| < 3 ==> read == frac);
    millis := ReadDigits(digits);
  }

  method ReadDigits(digits: string) returns (n: Option<nat>)
    requires |digits| == 3 && AllDigits(digits)
    ensures n == Some(DigitsValue(digits))
  {
    ValueDec(digits);
    assert Pow10(3) == 1000;
    n := ParseU32Exact(digits);
  }

  function ParseTime(s: string): Option<(nat, nat, nat, nat)> {
    var (hms, frac) :=
      match SplitOnce(s, Is('.'))
      case Some((head, tail)) => (head, Some(tail))
      case None => (s, None);
    var parts := Split(hms, Is(':'));
    if |parts| != 3 || |parts[0]| != 2 || |parts[1]| != 2 || |parts[2]| != 2 then None
    else
      var millis := if frac.Some? then ParseFracMillis(frac.value) else Some(0);
      match (ParseU32Exact(parts[0]), ParseU32Exact(parts[1]), ParseU32Exact(parts[2]), millis)
      case (Some(h), Some(m), Some(sec), Some(ms)) => Some((h, m, sec, ms))
      case _ => None
  }

  function ParseParts(raw: string): Option<Parts> {
    var trimmed := Trim(raw);
    if trimmed == [] then None
    else
      var withoutZ := if EndsWith(trimmed, "Z") then trimmed[..|trimmed| - 1] else trimmed;
      var tokens := Words(withoutZ);
      var dateTime :=
        if |tokens| == 1 then SplitOnce(tokens[0], Is('T'))
        else if |tokens| == 2 || (|tokens| == 3 && IsZoneToken(tokens[2])) then Some((tokens[0], tokens[1]))
        else None;
      match dateTime
      case None => None
      case Some((date, time)) =>
        match (ParseDate(date), ParseTime(time))
        case (Some((y, mo, d)), Some((h, mi, sec, ms))) => Some(Parts(y, mo, d, h, mi, sec, ms))
        case _ => None
  }

  function Canonicalize(raw: string): Option<string> {
    match ParseParts(raw)
    case None => None
    case Some(p) => FormatDatetime(p)
  }

  // ---------- text order is time order ----------

  /** Earlier in time: the first field that differs decides. */
  predicate Before(p: Parts, q: Parts) {
    if p.year != q.year then p.year < q.year
    else if p.month != q.month then p.month < q.month
    else if p.day != q.day then p.day < q.day
    else if p.hour != q.hour then p.hour < q.hour
    else if p.minute != q.minute then p.minute < q.minute
    else if p.second != q.second then p.second < q.second
    else p.millis < q.millis
  }

  lemma {:induction false} LessAppend(a: string, b: string, c: string, d: string)
    requires |a| == |b|
    ensures Less(a + c, b + d) <==> Less(a, b) || (a == b && Less(c, d))
  {
    if a == [] {
      assert a + c == c && b + d == d;
    } else {
      assert (a + c)[1..] == a[1..] + c && (b + d)[1..] == b[1..] + d;
      LessAppend(a[1..], b[1..], c, d);
      assert a == [a[0]] + a[1..] && b == [b[0]] + b[1..];
    }
  }

  lemma {:induction false} DecOrder(n: nat, m: nat, width: nat)
    requires n < Pow10(width) && m < Pow10(width)
    ensures Less(Dec(n, width), Dec(m, width)) <==> n < m
    ensures Dec(n, width) == Dec(m, width) <==> n == m
  {
    DecValue(n, width);
    DecValue(m, width);
    if width > 0 {
      DecOrder(n / 10, m / 10, width - 1);
      LessAppend(Dec(n / 10, width - 1), Dec(m / 10, width - 1), [Digit(n % 10)], [Digit(m % 10)]);
      assert Less([Digit(n % 10)], [Digit(m % 10)]) <==> n % 10 < m % 10;
    }
  }

  /** A numeric field in front of the rest: it decides unless it is equal. */
  lemma FieldOrder(n: nat, m: nat, width: nat, sep: string, c: string, d: string)
    requires n < Pow10(width) && m < Pow10(width)
    ensures Less(Dec(n, width) + sep + c, Dec(m, width) + sep + d) <==> n < m || (n == m && Less(c, d))
  {
    DecOrder(n, m, width);
    assert Dec(n, width) + sep + c == Dec(n, width) + (sep + c);
    assert Dec(m, width) + sep + d == Dec(m, width) + (sep + d);
    LessAppend(Dec(n, width), Dec(m, width), sep + c, sep + d);
    LessAppend(sep, sep, c, d);
    Irreflexive(sep);
  }

  lemma ClockTextNested(p: Parts)
    ensures ClockText(p) ==
      Dec(p.year, 4) + "-" + (Dec(p.month, 2) + "-" + (Dec(p.day, 2) + " " + (Dec(p.hour, 2) + ":"
      + (Dec(p.minute, 2) + ":" + (Dec(p.second, 2) + "." + Dec(p.millis, 3))))))
  {
  }

  lemma Pow10Small()
    ensures Pow10(2) == 100 && Pow10(3) == 1000 && Pow10(4) == 10000
  {
  }

  /** For valid clocks the order of the texts is the order in time. */
  lemma TextOrderIsTimeOrder(p: Parts, q: Parts)
    requires ValidParts(p) && ValidParts(q)
    ensures Less(FormatDatetime(p).value, FormatDatetime(q).value) <==> Before(p, q)
  {
    Pow10Small();
    ClockTextNested(p);
    ClockTextNested(q);
    var p6, q6 := Dec(p.millis, 3), Dec(q.millis, 3);
    var p5, q5 := Dec(p.second, 2) + "." + p6, Dec(q.second, 2) + "." + q6;
    var p4, q4 := Dec(p.minute, 2) + ":" + p5, Dec(q.minute, 2) + ":" + q5;
    var p3, q3 := Dec(p.hour, 2) + ":" + p4, Dec(q.hour, 2) + ":" + q4;
    var p2, q2 := Dec(p.day, 2) + " " + p3, Dec(q.day, 2) + " " + q3;
    var p1, q1 := Dec(p.month, 2) + "-" + p2, Dec(q.month, 2) + "-" + q2;
    FieldOrder(p.year, q.year, 4, "-", p1, q1);
    FieldOrder(p.month, q.month, 2, "-", p2, q2);
    FieldOrder(p.day, q.day, 2, " ", p3, q3);
    FieldOrder(p.hour, q.hour, 2, ":", p4, q4);
    FieldOrder(p.minute, q.minute, 2, ":", p5, q5);
    FieldOrder(p.second, q.second, 2, ".", p6, q6);
    DecOrder(p.millis, q.millis, 3);
  }

  // ---------- reading back ----------

  lemma DecParses(n: nat, width: nat)
    requires 0 < width <= 4 && n < Pow10(width)
    ensures ParseU32Exact(Dec(n, width)) == Some(n)
  {
    DecValue(n, width);
    Pow10Small();
    assert Pow10(1) == 10;
  }

  lemma ThreeFields(a: string, b: string, c: string, sep: char)
    requires AllDigits(a) && AllDigits(b) && AllDigits(c) && !IsDigit(sep)
    ensures Split(a + [sep] + b + [sep] + c, Is(sep)) == [a, b, c]
  {
    DigitsAreFree(a, Is(sep));
    DigitsAreFree(b, Is(sep));
    DigitsAreFree(c, Is(sep));
    assert a + [sep] + b + [sep] + c == a + [sep] + (b + [sep] + c);
    SplitAt(a, sep, b + [sep] + c, Is(sep));
    SplitAt(b, sep, c, Is(sep));
    SplitNone(c, Is(sep));
  }

  lemma DateReadsBack(p: Parts)
    requires ValidParts(p)
    ensures ParseDate(DateText(p)) == Some((p.year, p.month, p.day))
  {
    Pow10Small();
    ThreeFields(Dec(p.year, 4), Dec(p.month, 2), Dec(p.day, 2), '-');
    DecParses(p.year, 4);
    DecParses(p.month, 2);
    DecParses(p.day, 2);
  }

  lemma TimeReadsBack(p: Parts)
    requires ValidParts(p)
    ensures ParseTime(TimeText(p)) == Some((p.hour, p.minute, p.second, p.millis))
  {
    Pow10Small();
    ThreeFields(Dec(p.hour, 2), Dec(p.minute, 2), Dec(p.second, 2), ':');
    DecParses(p.hour, 2);
    DecParses(p.minute, 2);
    DecParses(p.second, 2);
    SplitOnceAt(HmsText(p), '.', Dec(p.millis, 3), Is('.'));
    DecValue(p.millis, 3);
    assert Dec(p.millis, 3)[..3] == Dec(p.millis, 3);
  }

  lemma TwoWords(a: string, b: string)
    requires a != [] && b != [] && Free(a, IsWhitespace) && Free(b, IsWhitespace)
    ensures Words(a + " " + b) == [a, b]
  {
    SplitOnceAt(a, ' ', b, IsWhitespace);
    SplitOnceNone(b, IsWhitespace);
  }

  lemma FormattedIsTrimmed(p: Parts)
    ensures Trim(ClockText(p)) == ClockText(p) && !EndsWith(ClockText(p), "Z")
  {
  }

  lemma WordsParse(raw: string, date: string, time: string)
    requires raw != [] && Trim(raw) == raw && !EndsWith(raw, "Z") && Words(raw) == [date, time]
    requires ParseDate(date).Some? && ParseTime(time).Some?
    ensures var (y, mo, d) := ParseDate(date).value;
            var (h, mi, sec, ms) := ParseTime(time).value;
            ParseParts(raw) == Some(Parts(y, mo, d, h, mi, sec, ms))
  {
  }

  /** Parsing a formatted clock gives its parts back. */
  lemma ParseFormatted(p: Parts)
    requires ValidParts(p)
    ensures ParseParts(FormatDatetime(p).value) == Some(p)
  {
    var date, time := DateText(p), TimeText(p);
    FormattedIsTrimmed(p);
    TwoWords(date, time);
    DateReadsBack(p);
    TimeReadsBack(p);
    WordsParse(ClockText(p), date, time);
  }

  /** What canonicalisation accepts it turns into 23 characters that it leaves as they are. */
  lemma CanonicalIsFixed(raw: string)
    requires Canonicalize(raw).Some?
    ensures |Canonicalize(raw).value| == 23
    ensures Canonicalize(Canonicalize(raw).value) == Canonicalize(raw)
  {
    ParseFormatted(ParseParts(raw).value);
  }

  // ---------- lenient forms ----------

  lemma TrimmedParse(raw: string, body: string, tokens: seq<string>)
    requires Trim(raw) == raw && raw != []
    requires body == (if EndsWith(raw, "Z") then raw[..|raw| - 1] else raw) && Words(body) == tokens
    ensures |tokens| == 3 && IsZoneToken(tokens[2]) && ParseDate(tokens[0]).Some? && ParseTime(tokens[1]).Some? ==>
      ParseParts(raw) == Some(PartsOf(ParseDate(tokens[0]).value, ParseTime(tokens[1]).value))
    ensures |tokens| == 1 && SplitOnce(tokens[0], Is('T')).Some? ==>
      var (date, time) := SplitOnce(tokens[0], Is('T')).value;
      ParseDate(date).Some? && ParseTime(time).Some? ==>
        ParseParts(raw) == Some(PartsOf(ParseDate(date).value, ParseTime(time).value))
  {
  }

  function PartsOf(date: (nat, nat, nat), time: (nat, nat, nat, nat)): Parts {
    Parts(date.0, date.1, date.2, time.0, time.1, time.2, time.3)
  }

  lemma ThreeWords(a: string, b: string, c: string)
    requires a != [] && b != [] && c != []
    requires Free(a, IsWhitespace) && Free(b, IsWhitespace) && Free(c, IsWhitespace)
    ensures Words(a + " " + (b + " " + c)) == [a, b, c]
  {
    SplitOnceAt(a, ' ', b + " " + c, IsWhitespace);
    TwoWords(b, c);
  }

  lemma TrimmedNoZulu(raw: string)
    requires raw != [] && !IsWhitespace(raw[0]) && !IsWhitespace(raw[|raw| - 1]) && raw[|raw| - 1] != 'Z'
    ensures Trim(raw) == raw && !EndsWith(raw, "Z")
  {
    assert raw[|raw| - 1..] == [raw[|raw| - 1]];
  }

  lemma ZonedWords(date: string, time: string, zone: string)
    requires date != [] && time != [] && zone != [] && zone[|zone| - 1] != 'Z'
    requires Free(date, IsWhitespace) && Free(time, IsWhitespace) && Free(zone, IsWhitespace)
    ensures var raw := date + " " + time + " " + zone;
      Trim(raw) == raw && !EndsWith(raw, "Z") && Words(raw) == [date, time, zone]
  {
    var raw := date + " " + time + " " + zone;
    assert raw == date + " " + (time + " " + zone);
    ThreeWords(date, time, zone);
    assert raw[|raw| - 1] == zone[|zone| - 1] && raw[0] == date[0];
    TrimmedNoZulu(raw);
  }

  /** A zone behind the clock is read over: the local time stands as it is. */
  lemma ZoneIsReadOver(p: Parts, zone: string)
    requires ValidParts(p) && IsZoneToken(zone) && Free(zone, IsWhitespace) && zone[|zone| - 1] != 'Z'
    ensures Canonicalize(ClockText(p) + " " + zone) == FormatDatetime(p)
  {
    var date, time := DateText(p), TimeText(p);
    DateReadsBack(p);
    TimeReadsBack(p);
    ZonedWords(date, time, zone);
    var raw := date + " " + time + " " + zone;
    TrimmedParse(raw, raw, [date, time, zone]);
  }

  lemma OneWord(a: string)
    requires a != [] && Free(a, IsWhitespace)
    ensures Words(a) == [a]
  {
    SplitOnceNone(a, IsWhitespace);
  }

  /** The form with a `T` and the one with a `Z` at the end mean the same clock. */
  lemma IsoMeansTheSame(p: Parts, zulu: bool)
    requires ValidParts(p)
    ensures Canonicalize(DateText(p) + "T" + TimeText(p) + if zulu then "Z" else "") == FormatDatetime(p)
  {
    var date, time := DateText(p), TimeText(p);
    var body := date + "T" + time;
    var raw := body + if zulu then "Z" else "";
    IsoIsTrimmed(p, zulu);
    OneWord(body);
    assert Free(date, Is('T'));
    SplitOnceAt(date, 'T', time, Is('T'));
    DateReadsBack(p);
    TimeReadsBack(p);
    TrimmedParse(raw, body, [body]);
  }

  lemma IsoIsTrimmed(p: Parts, zulu: bool)
    ensures var body := DateText(p) + "T" + TimeText(p);
            var raw := body + if zulu then "Z" else "";
            && raw != [] && body != [] && Free(body, IsWhitespace) && Trim(raw) == raw
            && body == if EndsWith(raw, "Z") then raw[..|raw| - 1] else raw
  {
  }

  lemma {:induction false} ZerosScale(s: string, n: nat)
    requires AllDigits(s)
    ensures DigitsValue(s + Zeros(n)) == DigitsValue(s) * Pow10(n)
  {
    if n == 0 {
      assert s + Zeros(0) == s;
    } else {
      ZerosScale(s, n - 1);
      var long := s + Zeros(n);
      assert long[..|long| - 1] == s + Zeros(n - 1) && long[|long| - 1] == '0';
      TimesTen(DigitsValue(s), Pow10(n - 1));
    }
  }

  lemma TimesTen(a: nat, b: nat)
    ensures a * b * 10 == a * (10 * b)
  {
  }

  /** A fraction counts in thousandths: fewer than three digits are scaled up, ... */
  lemma ShortFraction(frac: string, n: nat)
    requires frac != [] && AllDigits(frac) && |frac| + n == 3
    ensures ParseFracMillis(frac) == Some(DigitsValue(frac) * Pow10(n))
  {
    ZerosScale(frac, n);
    FilledUp(frac, n);
  }

  lemma FilledUp(frac: string, n: nat)
    requires frac != [] && AllDigits(frac) && |frac| + n == 3
    ensures ParseFracMillis(frac) == Some(DigitsValue(frac + Zeros(n)))
  {
    if n == 0 {
      assert frac + Zeros(0) == frac == frac[..3];
    }
  }

  /** ... more than three are cut off. */
  lemma LongFraction(frac: string)
    requires |frac| > 3 && AllDigits(frac)
    ensures ParseFracMillis(frac) == ParseFracMillis(frac[..3])
  {
    assert frac[..3][..3] == frac[..3];
  }
}
