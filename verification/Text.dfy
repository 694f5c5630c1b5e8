/** The string operations of the standard library that the parsers use. */
module Text {

  import opened Options

  /** The Unicode White_Space property. */
  predicate IsWhitespace(c: char) {
    var n := c as int;
    || 9 <= n <= 13 || n == 0x20 || n == 0x85 || n == 0xA0 || n == 0x1680 || 0x2000 <= n <= 0x200A
    || n == 0x2028 || n == 0x2029 || n == 0x202F || n == 0x205F || n == 0x3000
  }

  lemma WhitespaceIff(c: char)
    ensures IsWhitespace(c) <==>
      || c in "\t\n\U{000B}\U{000C}\r \U{0085}\U{00A0}\U{1680}\U{2028}\U{2029}\U{202F}\U{205F}\U{3000}"
      || c in "\U{2000}\U{2001}\U{2002}\U{2003}\U{2004}\U{2005}\U{2006}\U{2007}\U{2008}\U{2009}\U{200A}"
  {
    var thin := "\U{2000}\U{2001}\U{2002}\U{2003}\U{2004}\U{2005}\U{2006}\U{2007}\U{2008}\U{2009}\U{200A}";
    if 0x2000 <= c as int <= 0x200A {
      assert thin[c as int - 0x2000] == c;
    }
    var others := "\t\n\U{000B}\U{000C}\r \U{0085}\U{00A0}\U{1680}\U{2028}\U{2029}\U{202F}\U{205F}\U{3000}";
    if 9 <= c as int <= 13 {
      assert others[c as int - 9] == c;
    }
    assert others[5] == ' ' && others[6] as int == 0x85 && others[7] as int == 0xA0 && others[8] as int == 0x1680;
    assert others[9] as int == 0x2028 && others[10] as int == 0x2029 && others[11] as int == 0x202F;
    assert others[12] as int == 0x205F && others[13] as int == 0x3000;
  }

  predicate IsDigit(c: char) {
    '0' <= c <= '9'
  }

  function TrimStart(s: string): string {
    if s != [] && IsWhitespace(s[0]) then TrimStart(s[1..]) else s
  }

  function TrimEnd(s: string): string {
    if s != [] && IsWhitespace(s[|s| - 1]) then TrimEnd(s[..|s| - 1]) else s
  }

  function Trim(s: string): string {
    TrimEnd(TrimStart(s))
  }

  predicate StartsWith(s: string, prefix: string) {
    prefix <= s
  }

  predicate EndsWith(s: string, suffix: string) {
    |suffix| <= |s| && s[|s| - |suffix|..] == suffix
  }

  function StripPrefix(s: string, prefix: string): Option<string> {
    if StartsWith(s, prefix) then Some(s[|prefix|..]) else None
  }

  function StripSuffix(s: string, suffix: string): Option<string> {
    if EndsWith(s, suffix) then Some(s[..|s| - |suffix|]) else None
  }

  predicate AllDigits(s: string) {
    forall i :: 0 <= i < |s| ==> IsDigit(s[i])
  }

  function DigitsValue(s: string): nat
    requires AllDigits(s)
  {
    if s == [] then 0 else DigitsValue(s[..|s| - 1]) * 10 + (s[|s| - 1] as int - '0' as int)
  }

  /** `parse` of an unsigned integer type whose largest value is `max`: an optional plus sign and
      at least one digit. */
  function ParseUnsigned(s: string, max: nat): Option<nat> {
    var digits := if s != [] && s[0] == '+' then s[1..] else s;
    if digits != [] && AllDigits(digits) && DigitsValue(digits) <= max then Some(DigitsValue(digits))
    else None
  }

  /** A number is read from at least one digit, with a plus sign in front or none, up to the largest. */
  lemma UnsignedIff(s: string, max: nat, n: nat)
    ensures ParseUnsigned(s, max) == Some(n) <==> n <= max && exists sign, digits :: Unsigned(s, sign, digits, n)
  {
    if ParseUnsigned(s, max) == Some(n) {
      var sign := if s[0] == '+' then "+" else "";
      assert s == sign + s[|sign|..];
      assert Unsigned(s, sign, s[|sign|..], n);
    }
    if sign, digits :| Unsigned(s, sign, digits, n) {
      assert IsDigit(digits[0]);
      assert sign == "" ==> s == digits;
      assert sign == "+" ==> s[1..] == digits;
    }
  }

  predicate Unsigned(s: string, sign: string, digits: string, n: nat) {
    && s == sign + digits && (sign == "" || sign == "+")
    && digits != "" && AllDigits(digits) && DigitsValue(digits) == n
  }

  // ---------- splitting ----------

  type Test = char -> bool

  function Is(c: char): Test {
    x => x == c
  }

  ghost predicate Free(s: string, p: Test) {
    forall i :: 0 <= i < |s| ==> !p(s[i])
  }

  /** Cut at the first character that passes, which is left out. */
  function SplitOnce(s: string, p: Test): (r: Option<(string, string)>)
    ensures r.None? ==> Free(s, p)
    ensures r.Some? ==> |r.value.0| + 1 + |r.value.1| == |s| && Free(r.value.0, p)
  {
    if s == [] then None
    else if p(s[0]) then Some(([], s[1..]))
    else
      match SplitOnce(s[1..], p)
      case None => None
      case Some((a, b)) => Some(([s[0]] + a, b))
  }

  function Split(s: string, p: Test): seq<string>
    decreases |s|
  {
    match SplitOnce(s, p)
    case None => [s]
    case Some((a, b)) => [a] + Split(b, p)
  }

  function Words(s: string): seq<string>
    decreases |s|
  {
    TrimStartIsSuffix(s);
    var t := TrimStart(s);
    if t == [] then []
    else
      match SplitOnce(t, IsWhitespace)
      case None => [t]
      case Some((a, b)) => [a] + Words(b)
  }

  /** The last position that passes. */
  function FindLast(s: string, p: Test): (r: Option<nat>)
    ensures r.Some? ==> r.value < |s|
  {
    if s == [] then None
    else if p(s[|s| - 1]) then Some(|s| - 1)
    else FindLast(s[..|s| - 1], p)
  }

  /** Stripping takes a prefix or suffix away exactly where it stands, even if nothing is left. */
  lemma StripsOff(s: string, part: string)
    ensures StripPrefix(part + s, part) == Some(s) && StripSuffix(s + part, part) == Some(s)
    ensures StripPrefix(s, part).Some? ==> s == part + StripPrefix(s, part).value
    ensures StripSuffix(s, part).Some? ==> s == StripSuffix(s, part).value + part
  {
  }

  lemma {:induction false} SplitOnceAt(a: string, x: char, b: string, p: Test)
    requires Free(a, p) && p(x)
    ensures SplitOnce(a + [x] + b, p) == Some((a, b))
  {
    var s := a + [x] + b;
    if a == [] {
      assert s == [x] + b;
    } else {
      assert s[0] == a[0] && s[1..] == a[1..] + [x] + b;
      SplitOnceAt(a[1..], x, b, p);
      assert [a[0]] + a[1..] == a;
    }
  }

  lemma {:induction false} SplitOnceNone(s: string, p: Test)
    requires Free(s, p)
    ensures SplitOnce(s, p) == None
  {
    if s != [] {
      SplitOnceNone(s[1..], p);
    }
  }

  lemma SplitAt(a: string, x: char, b: string, p: Test)
    requires Free(a, p) && p(x)
    ensures Split(a + [x] + b, p) == [a] + Split(b, p)
  {
    SplitOnceAt(a, x, b, p);
  }

  lemma SplitNone(s: string, p: Test)
    requires Free(s, p)
    ensures Split(s, p) == [s]
  {
    SplitOnceNone(s, p);
  }

  lemma {:induction false} SplitAppend(a: string, x: char, b: string, p: Test)
    requires p(x)
    ensures Split(a + [x] + b, p) == Split(a, p) + Split(b, p)
    decreases |a|
  {
    SplitOnceRebuilds(a, p);
    match SplitOnce(a, p)
    case None => SplitAt(a, x, b, p);
    case Some((u, v)) =>
      var y := a[|u|];
      assert a + [x] + b == u + [y] + (v + [x] + b);
      SplitAt(u, y, v + [x] + b, p);
      SplitAppend(v, x, b, p);
  }

  lemma {:induction false} PartsAreFree(s: string, p: Test, q: Test)
    ensures forall part :: part in Split(s, p) ==> Free(part, p) && (Free(s, q) ==> Free(part, q))
    decreases |s|
  {
    SplitOnceRebuilds(s, p);
    match SplitOnce(s, p)
    case None =>
    case Some((a, b)) =>
      assert forall i :: 0 <= i < |b| ==> b[i] == s[|a| + 1 + i];
      assert forall i :: 0 <= i < |a| ==> a[i] == s[i];
      PartsAreFree(b, p, q);
  }

  lemma {:induction false} FindLastIsLast(s: string, p: Test)
    ensures match FindLast(s, p)
            case None => Free(s, p)
            case Some(i) => p(s[i]) && Free(s[i + 1..], p)
  {
    if s != [] && !p(s[|s| - 1]) {
      FindLastIsLast(s[..|s| - 1], p);
    }
  }

  lemma {:induction false} FindLastAt(a: string, x: char, b: string, p: Test)
    requires p(x) && Free(b, p)
    ensures FindLast(a + [x] + b, p) == Some(|a|)
    decreases |b|
  {
    var s := a + [x] + b;
    if b != [] {
      assert s[..|s| - 1] == a + [x] + b[..|b| - 1];
      FindLastAt(a, x, b[..|b| - 1], p);
    }
  }

  // ---------- decimal ----------

  function Digit(n: nat): char
    requires n < 10
  {
    '0' + n as char
  }

  /** `n` in decimal, padded with zeros to `width` digits. */
  function Dec(n: nat, width: nat): (s: string)
    ensures |s| == width && AllDigits(s)
  {
    if width == 0 then [] else Dec(n / 10, width - 1) + [Digit(n % 10)]
  }

  function Pow10(n: nat): (p: nat)
    ensures p > 0
  {
    if n == 0 then 1 else 10 * Pow10(n - 1)
  }

  lemma {:induction false} DecValue(n: nat, width: nat)
    requires n < Pow10(width)
    ensures DigitsValue(Dec(n, width)) == n
  {
    if width > 0 {
      DecValue(n / 10, width - 1);
    }
  }

  lemma {:induction false} ValueDec(s: string)
    requires AllDigits(s)
    ensures DigitsValue(s) < Pow10(|s|) && Dec(DigitsValue(s), |s|) == s
  {
    if s != [] {
      ValueDec(s[..|s| - 1]);
    }
  }

  // ---------- trimming ----------

  predicate NoMargin(s: string) {
    s == [] || (!IsWhitespace(s[0]) && !IsWhitespace(s[|s| - 1]))
  }

  lemma {:induction false} TrimStartOf(blank: string, s: string)
    requires forall i :: 0 <= i < |blank| ==> IsWhitespace(blank[i])
    requires s == [] || !IsWhitespace(s[0])
    ensures TrimStart(blank + s) == s
  {
    if blank == [] {
      assert blank + s == s;
    } else {
      assert (blank + s)[1..] == blank[1..] + s;
      TrimStartOf(blank[1..], s);
    }
  }

  lemma {:induction false} TrimEndOf(s: string, blank: string)
    requires forall i :: 0 <= i < |blank| ==> IsWhitespace(blank[i])
    requires s == [] || !IsWhitespace(s[|s| - 1])
    ensures TrimEnd(s + blank) == s
  {
    if blank == [] {
      assert s + blank == s;
    } else {
      assert (s + blank)[..|s + blank| - 1] == s + blank[..|blank| - 1];
      TrimEndOf(s, blank[..|blank| - 1]);
    }
  }

  lemma {:induction false} TrimStartAppend(s: string, t: string)
    requires TrimStart(s) != []
    ensures TrimStart(s + t) == TrimStart(s) + t
  {
    if IsWhitespace(s[0]) {
      assert (s + t)[1..] == s[1..] + t;
      TrimStartAppend(s[1..], t);
    }
  }

  lemma {:induction false} TrimStartIsSuffix(s: string)
    ensures |TrimStart(s)| <= |s| && TrimStart(s) == s[|s| - |TrimStart(s)|..]
  {
    if s != [] && IsWhitespace(s[0]) {
      TrimStartIsSuffix(s[1..]);
    }
  }

  lemma {:induction false} TrimEndIsPrefix(s: string)
    ensures TrimEnd(s) <= s
    ensures TrimEnd(s) == [] || !IsWhitespace(TrimEnd(s)[|TrimEnd(s)| - 1])
    ensures s != [] && !IsWhitespace(s[0]) ==> TrimEnd(s) != []
  {
    if s != [] && IsWhitespace(s[|s| - 1]) {
      TrimEndIsPrefix(s[..|s| - 1]);
    }
  }

  ghost predicate Blank(s: string) {
    forall i :: 0 <= i < |s| ==> IsWhitespace(s[i])
  }

  lemma TrimOf(left: string, s: string, right: string)
    requires Blank(left) && Blank(right) && NoMargin(s)
    ensures Trim(left + s + right) == s
    ensures s != [] ==> TrimStart(left + s + right) == s + right
  {
    if s == [] {
      TrimStartOf(left + right, []);
      assert left + s + right == left + right == left + right + [];
    } else {
      assert left + s + right == left + (s + right);
      TrimStartOf(left, s + right);
      TrimEndOf(s, right);
    }
  }

  lemma {:induction false} TrimStartRemoves(s: string) returns (left: string)
    ensures s == left + TrimStart(s) && Blank(left)
    ensures TrimStart(s) == [] || !IsWhitespace(TrimStart(s)[0])
  {
    if s != [] && IsWhitespace(s[0]) {
      left := TrimStartRemoves(s[1..]);
      left := [s[0]] + left;
      assert s == [s[0]] + s[1..];
    } else {
      left := [];
    }
  }

  lemma {:induction false} TrimEndRemoves(s: string) returns (right: string)
    ensures s == TrimEnd(s) + right && Blank(right)
  {
    if s != [] && IsWhitespace(s[|s| - 1]) {
      right := TrimEndRemoves(s[..|s| - 1]);
      right := right + [s[|s| - 1]];
      assert s == s[..|s| - 1] + [s[|s| - 1]];
    } else {
      right := [];
    }
  }

  /** Trimming takes blanks away on both sides and nothing else. */
  lemma TrimRemoves(s: string) returns (left: string, right: string)
    ensures s == left + Trim(s) + right && Blank(left) && Blank(right)
  {
    left := TrimStartRemoves(s);
    right := TrimEndRemoves(TrimStart(s));
  }

  // ---------- decimal without padding ----------

  function Decimal(n: nat): (s: string)
    ensures s != [] && AllDigits(s)
  {
    if n < 10 then [Digit(n)] else Decimal(n / 10) + [Digit(n % 10)]
  }

  lemma {:induction false} DecimalValue(n: nat)
    ensures DigitsValue(Decimal(n)) == n
  {
    if n < 10 {
      assert Decimal(n)[..0] == [];
    } else {
      DecimalValue(n / 10);
    }
  }

  lemma DigitsAreFree(s: string, p: Test)
    requires AllDigits(s) && forall c :: IsDigit(c) ==> !p(c)
    ensures Free(s, p)
  {
  }

  function Spaces(n: nat): (s: string)
    ensures |s| == n && Blank(s)
  {
    seq(n, _ => ' ')
  }

  /** `%5d` and `%5s`. */
  function PadLeft(s: string, width: nat): string {
    if |s| < width then Spaces(width - |s|) + s else s
  }

  /** `%-8s`. */
  function PadRight(s: string, width: nat): string {
    if |s| < width then s + Spaces(width - |s|) else s
  }

  // ---------- lines ----------

  function Join(lines: seq<string>, sep: char): string {
    if lines == [] then []
    else if |lines| == 1 then lines[0]
    else lines[0] + [sep] + Join(lines[1..], sep)
  }

  lemma {:induction false} JoinSplit(s: string, sep: char)
    ensures Split(s, Is(sep)) != []
    ensures Join(Split(s, Is(sep)), sep) == s
    decreases |s|
  {
    match SplitOnce(s, Is(sep))
    case None =>
    case Some((a, b)) =>
      JoinSplit(b, sep);
      SplitOnceRebuilds(s, Is(sep));
      assert s == a + [sep] + b;
  }

  lemma {:induction false} SplitOnceRebuilds(s: string, p: Test)
    ensures match SplitOnce(s, p)
            case None => true
            case Some((a, b)) => p(s[|a|]) && s == a + [s[|a|]] + b
  {
    if s != [] && !p(s[0]) {
      SplitOnceRebuilds(s[1..], p);
      match SplitOnce(s[1..], p)
      case None =>
      case Some((a, b)) =>
        assert s == [s[0]] + s[1..];
    }
  }

  lemma {:induction false} JoinAppend(lines: seq<string>, last: string, sep: char)
    requires lines != []
    ensures Join(lines + [last], sep) == Join(lines, sep) + [sep] + last
  {
    assert (lines + [last])[1..] == lines[1..] + [last];
    if |lines| > 1 {
      JoinAppend(lines[1..], last, sep);
    } else {
      assert [last][1..] == [];
    }
  }

  /** Lines that are left out make a text shorter, even empty ones. */
  lemma {:induction false} JoinGrows(a: seq<string>, b: seq<string>, sep: char)
    requires a != [] && b != []
    ensures |Join(a, sep)| < |Join(a + b, sep)|
  {
    assert (a + b)[1..] == a[1..] + b;
    if |a| > 1 {
      JoinGrows(a[1..], b, sep);
    }
  }
}
