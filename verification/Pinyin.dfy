/** Matching a query typed in pinyin against text in Chinese characters. */
module Pinyin {

  import opened Options
  import opened Text

  /** Readings of the listed characters, as positions in the list of syllables. */
  datatype Dict = Dict(syllables: seq<string>, byChar: map<char, seq<nat>>)

  ghost predicate Sound(dict: Dict) {
    && (forall syl :: syl in dict.syllables ==> syl != [])
    && (forall c :: c in dict.byChar ==> forall id :: id in dict.byChar[c] ==> id < |dict.syllables|)
    && (forall c :: c in dict.byChar ==> Unique(dict.byChar[c]))
  }

  predicate Unique(ids: seq<nat>) {
    forall i, j :: 0 <= i < j < |ids| ==> ids[i] != ids[j]
  }

  // ---------- the table ----------

  predicate IsLower(c: char) {
    'a' <= c <= 'z'
  }

  predicate AllLower(s: string) {
    forall i :: 0 <= i < |s| ==> IsLower(s[i])
  }

  /** The syllable and the characters of a line, if it holds any. */
  function Entry(line: string): Option<(string, string)> {
    if line == [] || line[0] == '#' then None
    else
      match SplitOnce(line, Is('\t'))
      case None => None
      case Some((syl, chars)) => if syl != [] && AllLower(syl) then Some((syl, chars)) else None
  }

  /** Some line lists `c` under `syl`. */
  ghost predicate ListedIn(lines: seq<string>, c: char, syl: string) {
    exists i :: 0 <= i < |lines| && Lists(lines[i], c, syl)
  }

  predicate Lists(line: string, c: char, syl: string) {
    Entry(line).Some? && Entry(line).value.0 == syl && c in Entry(line).value.1
  }

  /** A line lists a character under a syllable of small letters that stands before a tab. */
  lemma ListsIff(line: string, c: char, syl: string)
    ensures Lists(line, c, syl) <==>
      && syl != "" && (forall i :: 0 <= i < |syl| ==> syl[i] in "abcdefghijklmnopqrstuvwxyz")
      && exists chars :: line == syl + "\t" + chars && c in chars
  {
    forall i | 0 <= i < |syl| ensures IsLower(syl[i]) <==> syl[i] in "abcdefghijklmnopqrstuvwxyz" {
      SmallLetter(syl[i]);
    }
    SplitOnceRebuilds(line, Is('\t'));
    if chars :| line == syl + "\t" + chars && c in chars && AllLower(syl) && syl != "" {
      assert Free(syl, Is('\t')) && line[0] == syl[0];
      SplitOnceAt(syl, '\t', chars, Is('\t'));
    }
    if Lists(line, c, syl) {
      assert line == syl + "\t" + Entry(line).value.1;
    }
  }

  lemma SmallLetter(c: char)
    ensures IsLower(c) <==> c in "abcdefghijklmnopqrstuvwxyz"
  {
    if IsLower(c) {
      assert "abcdefghijklmnopqrstuvwxyz"[c as int - 'a' as int] == c;
    }
  }

  predicate Reads(dict: Dict, c: char, syl: string) {
    c in dict.byChar && exists id :: id in dict.byChar[c] && id < |dict.syllables| && dict.syllables[id] == syl
  }

  ghost predicate Indexes(index: map<string, nat>, syllables: seq<string>) {
    && (forall syl :: syl in index ==> index[syl] < |syllables| && syllables[index[syl]] == syl)
    && (forall i :: 0 <= i < |syllables| ==> syllables[i] in index && index[syllables[i]] == i)
  }

  /** A character has exactly the readings that the lines list for it, once each. */
  method ParseDict(lines: seq<string>) returns (dict: Dict)
    ensures Sound(dict)
    ensures forall c, syl :: Reads(dict, c, syl) <==> ListedIn(lines, c, syl)
  {
    var index: map<string, nat> := map[];
    dict := Dict([], map[]);
    for n := 0 to |lines|
      invariant Sound(dict) && Indexes(index, dict.syllables)
      invariant forall c, syl :: Reads(dict, c, syl) <==> ListedIn(lines[..n], c, syl)
    {
      var entry := Entry(lines[n]);
      ghost var before := dict;
      LinesGrow(lines, n);
      match entry
      case None =>
      case Some((syl, chars)) =>
        var id;
        if syl in index {
          id := index[syl];
        } else {
          id := |dict.syllables|;
          index := index[syl := id];
          dict := dict.(syllables := dict.syllables + [syl]);
          SyllableAdded(before, syl);
        }
        dict := ListAll(dict, chars, id);
    }
    assert lines[..|lines|] == lines;
  }

  /** Every character of `chars` gets the reading `id`. */
  method ListAll(dict: Dict, chars: string, id: nat) returns (r: Dict)
    requires Sound(dict) && id < |dict.syllables|
    requires forall i :: 0 <= i < |dict.syllables| && i != id ==> dict.syllables[i] != dict.syllables[id]
    ensures Sound(r) && r.syllables == dict.syllables
    ensures forall c, syl :: Reads(r, c, syl) <==> Reads(dict, c, syl) || (c in chars && syl == dict.syllables[id])
  {
    r := dict;
    for n := 0 to |chars|
      invariant Sound(r) && r.syllables == dict.syllables
      invariant forall c, syl ::
        Reads(r, c, syl) <==> Reads(dict, c, syl) || (c in chars[..n] && syl == dict.syllables[id])
    {
      var ch := chars[n];
      ghost var before := r;
      var ids := if ch in r.byChar then r.byChar[ch] else [];
      var ids' := if id in ids then ids else ids + [id];
      r := r.(byChar := r.byChar[ch := ids']);
      ReadingAdded(before, ch, id, r);
      assert chars[..n + 1] == chars[..n] + [ch];
    }
    assert chars[..|chars|] == chars;
  }

  lemma LinesGrow(lines: seq<string>, n: nat)
    requires n < |lines|
    ensures forall c, syl ::
      ListedIn(lines[..n + 1], c, syl) <==> ListedIn(lines[..n], c, syl) || Lists(lines[n], c, syl)
  {
  }

  lemma SyllableAdded(dict: Dict, syl: string)
    requires Sound(dict)
    ensures forall c, s :: Reads(dict.(syllables := dict.syllables + [syl]), c, s) <==> Reads(dict, c, s)
  {
  }

  lemma ReadingAdded(dict: Dict, ch: char, id: nat, r: Dict)
    requires Sound(dict) && id < |dict.syllables| && r.syllables == dict.syllables
    requires r.byChar.Keys == dict.byChar.Keys + {ch}
    requires forall c :: c in dict.byChar && c != ch ==> r.byChar[c] == dict.byChar[c]
    requires Unique(r.byChar[ch])
    requires forall i :: i in r.byChar[ch] <==> i == id || (ch in dict.byChar && i in dict.byChar[ch])
    ensures Sound(r)
    ensures forall c, syl :: Reads(r, c, syl) <==> Reads(dict, c, syl) || (c == ch && syl == dict.syllables[id])
  {
  }

  // ---------- the query ----------

  predicate IsLetter(c: char) {
    'a' <= c <= 'z' || 'A' <= c <= 'Z'
  }

  lemma LetterIff(c: char)
    ensures IsLetter(c) <==> c in "abcdefghijklmnopqrstuvwxyz" || c in "ABCDEFGHIJKLMNOPQRSTUVWXYZ"
  {
    SmallLetter(c);
    if 'A' <= c <= 'Z' {
      assert "ABCDEFGHIJKLMNOPQRSTUVWXYZ"[c as int - 'A' as int] == c;
    }
  }

  predicate IsQuery(token: string) {
    && (forall i :: 0 <= i < |token| ==> IsLetter(token[i]) || token[i] == '\'')
    && exists i :: 0 <= i < |token| && IsLetter(token[i])
  }

  predicate Letter(c: char) {
    c in "abcdefghijklmnopqrstuvwxyz" || c in "ABCDEFGHIJKLMNOPQRSTUVWXYZ"
  }

  /** A query is letters and separators, with a letter at least. */
  lemma QueryIff(token: string)
    ensures IsQuery(token) <==>
            (forall c :: c in token ==> Letter(c) || c == '\'') && exists c :: c in token && Letter(c)
  {
    forall c ensures IsLetter(c) <==> Letter(c) {
      LetterIff(c);
    }
    EveryPosition(token);
  }

  lemma EveryPosition(token: string)
    ensures IsQuery(token) <==>
            (forall c :: c in token ==> IsLetter(c) || c == '\'') && exists c :: c in token && IsLetter(c)
  {
    assert forall i :: 0 <= i < |token| ==> token[i] in token;
  }

  /** The query without its separators. */
  function NeedleChars(token: string): string {
    if token == [] then []
    else if token[0] == '\'' then NeedleChars(token[1..])
    else [token[0]] + NeedleChars(token[1..])
  }

  // ---------- the matcher ----------

  function CommonPrefix(syl: string, needle: string): (n: nat)
    ensures n <= |syl| && n <= |needle| && syl[..n] == needle[..n]
    ensures n < |syl| && n < |needle| ==> syl[n] != needle[n]
  {
    if syl == [] || needle == [] || syl[0] != needle[0] then 0
    else
      var n := CommonPrefix(syl[1..], needle[1..]);
      assert syl[..n + 1] == [syl[0]] + syl[1..][..n] && needle[..n + 1] == [needle[0]] + needle[1..][..n];
      n + 1
  }

  /** How much of a syllable the needle spells from position `ni` on. */
  method PrefixLen(syl: string, needle: string, ni: nat) returns (n: nat)
    requires ni <= |needle|
    ensures n == CommonPrefix(syl, needle[ni..])
  {
    var rest := |needle| - ni;
    n := 0;
    for i := 0 to |syl|
      invariant n == i && n <= rest && syl[..n] == needle[ni..][..n]
    {
      if n >= rest || syl[i] != needle[ni + n] {
        break;
      }
      n := n + 1;
    }
    PrefixIsUnique(syl, needle[ni..], n);
  }

  lemma {:induction false} PrefixIsUnique(syl: string, needle: string, n: nat)
    requires n <= |syl| && n <= |needle| && syl[..n] == needle[..n]
    requires n < |syl| && n < |needle| ==> syl[n] != needle[n]
    ensures n == CommonPrefix(syl, needle)
  {
  }

  /** The end of a match of `needle` that begins exactly at `hay`'s start, counted from there. */
  function Consume(hay: string, needle: string, dict: Dict): Option<nat>
    requires Sound(dict)
    decreases |hay|, 2, 0
  {
    if needle == [] then Some(0)
    else if hay == [] then None
    else if IsLetter(hay[0]) then
      if hay[0] == needle[0] then Behind(Consume(hay[1..], needle[1..], dict)) else None
    else if hay[0] in dict.byChar then ConsumeReadings(hay, needle, dict, dict.byChar[hay[0]])
    else Behind(Consume(hay[1..], needle, dict))
  }

  function Behind(end: Option<nat>): Option<nat> {
    match end
    case None => None
    case Some(n) => Some(n + 1)
  }

  /** The readings are tried in turn, ... */
  function ConsumeReadings(hay: string, needle: string, dict: Dict, ids: seq<nat>): Option<nat>
    requires Sound(dict) && hay != [] && forall id :: id in ids ==> id < |dict.syllables|
    decreases |hay|, 1, |ids|
  {
    if ids == [] then None
    else
      assert ids[0] in ids && forall id :: id in ids[1..] ==> id in ids;
      var found := ConsumePrefixes(hay, needle, dict, 1, CommonPrefix(dict.syllables[ids[0]], needle));
      if found.Some? then found else ConsumeReadings(hay, needle, dict, ids[1..])
  }

  /** ... and of each one the prefixes that the needle spells, the shortest first. */
  function ConsumePrefixes(hay: string, needle: string, dict: Dict, k: nat, max: nat): Option<nat>
    requires Sound(dict) && hay != [] && max <= |needle|
    decreases |hay|, 0, max + 1 - k
  {
    if k > max then None
    else
      var found := Behind(Consume(hay[1..], needle[k..], dict));
      if found.Some? then found else ConsumePrefixes(hay, needle, dict, k + 1, max)
  }

  // ---------- what a match is ----------

  /** What the character may take of the needle: an exact letter, a non-empty prefix of one of its
      readings, or nothing if it is neither a letter nor listed. */
  ghost predicate Takes(dict: Dict, c: char, piece: string) {
    if IsLetter(c) then piece == [c]
    else if c in dict.byChar then
      piece != [] && exists id :: id in dict.byChar[c] && id < |dict.syllables| && piece <= dict.syllables[id]
    else piece == []
  }

  function Concat(pieces: seq<string>): string {
    if pieces == [] then [] else pieces[0] + Concat(pieces[1..])
  }

  /** The needle is cut into one piece for each of the first characters of `hay`. */
  ghost predicate IsCut(hay: string, needle: string, dict: Dict, pieces: seq<string>) {
    && |pieces| <= |hay|
    && Concat(pieces) == needle
    && forall i :: 0 <= i < |pieces| ==> Takes(dict, hay[i], pieces[i])
  }

  ghost predicate Matches(hay: string, needle: string, dict: Dict) {
    exists pieces :: IsCut(hay, needle, dict, pieces)
  }

  lemma CutFirst(hay: string, needle: string, dict: Dict, piece: string, pieces: seq<string>)
    requires hay != [] && piece <= needle && Takes(dict, hay[0], piece)
    requires IsCut(hay[1..], needle[|piece|..], dict, pieces)
    ensures IsCut(hay, needle, dict, [piece] + pieces)
  {
  }

  lemma CutRest(hay: string, needle: string, dict: Dict, pieces: seq<string>)
    requires IsCut(hay, needle, dict, pieces) && pieces != []
    ensures pieces[0] <= needle && Takes(dict, hay[0], pieces[0])
    ensures IsCut(hay[1..], needle[|pieces[0]|..], dict, pieces[1..])
  {
  }

  /** What the matcher finds is a cut that ends where it says. */
  lemma {:induction false} ConsumeIsCut(hay: string, needle: string, dict: Dict) returns (pieces: seq<string>)
    requires Sound(dict) && Consume(hay, needle, dict).Some?
    ensures IsCut(hay, needle, dict, pieces) && |pieces| == Consume(hay, needle, dict).value
    decreases |hay|, 2, 0
  {
    if needle == [] {
      pieces := [];
    } else if IsLetter(hay[0]) {
      var rest := ConsumeIsCut(hay[1..], needle[1..], dict);
      CutFirst(hay, needle, dict, [hay[0]], rest);
      pieces := [[hay[0]]] + rest;
    } else if hay[0] in dict.byChar {
      pieces := ReadingsAreCut(hay, needle, dict, dict.byChar[hay[0]]);
    } else {
      var rest := ConsumeIsCut(hay[1..], needle, dict);
      assert needle[0..] == needle;
      CutFirst(hay, needle, dict, [], rest);
      pieces := [[]] + rest;
    }
  }

  lemma {:induction false} ReadingsAreCut(hay: string, needle: string, dict: Dict, ids: seq<nat>)
    returns (pieces: seq<string>)
    requires Sound(dict) && hay != [] && !IsLetter(hay[0]) && hay[0] in dict.byChar
    requires forall id :: id in ids ==> id in dict.byChar[hay[0]]
    requires ConsumeReadings(hay, needle, dict, ids).Some?
    ensures IsCut(hay, needle, dict, pieces)
    ensures |pieces| == ConsumeReadings(hay, needle, dict, ids).value
    decreases |hay|, 1, |ids|
  {
    assert ids[0] in ids && forall id :: id in ids[1..] ==> id in ids;
    var max := CommonPrefix(dict.syllables[ids[0]], needle);
    if ConsumePrefixes(hay, needle, dict, 1, max).Some? {
      pieces := PrefixesAreCut(hay, needle, dict, ids[0], 1, max);
    } else {
      pieces := ReadingsAreCut(hay, needle, dict, ids[1..]);
    }
  }

  lemma {:induction false} PrefixesAreCut(hay: string, needle: string, dict: Dict, id: nat, k: nat, max: nat)
    returns (pieces: seq<string>)
    requires Sound(dict) && hay != [] && !IsLetter(hay[0]) && hay[0] in dict.byChar && id in dict.byChar[hay[0]]
    requires 1 <= k && max == CommonPrefix(dict.syllables[id], needle)
    requires ConsumePrefixes(hay, needle, dict, k, max).Some?
    ensures IsCut(hay, needle, dict, pieces)
    ensures |pieces| == ConsumePrefixes(hay, needle, dict, k, max).value
    decreases |hay|, 0, max + 1 - k
  {
    if Consume(hay[1..], needle[k..], dict).Some? {
      var rest := ConsumeIsCut(hay[1..], needle[k..], dict);
      var syl := dict.syllables[id];
      assert needle[..k] == syl[..max][..k] == syl[..k];
      assert Takes(dict, hay[0], needle[..k]);
      CutFirst(hay, needle, dict, needle[..k], rest);
      pieces := [needle[..k]] + rest;
    } else {
      pieces := PrefixesAreCut(hay, needle, dict, id, k + 1, max);
    }
  }

  /** Wherever there is a cut the matcher finds one. */
  lemma {:induction false} CutIsConsumed(hay: string, needle: string, dict: Dict, pieces: seq<string>)
    requires Sound(dict) && IsCut(hay, needle, dict, pieces)
    ensures Consume(hay, needle, dict).Some?
    decreases |hay|, 2, 0
  {
    if needle != [] {
      CutRest(hay, needle, dict, pieces);
      var piece := pieces[0];
      CutIsConsumed(hay[1..], needle[|piece|..], dict, pieces[1..]);
      if !IsLetter(hay[0]) {
        if hay[0] in dict.byChar {
          var id :| id in dict.byChar[hay[0]] && id < |dict.syllables| && piece <= dict.syllables[id];
          ReadingIsTried(hay, needle, dict, dict.byChar[hay[0]], id, piece);
        } else {
          assert needle[0..] == needle;
        }
      }
    }
  }

  lemma {:induction false} ReadingIsTried(
    hay: string, needle: string, dict: Dict, ids: seq<nat>, id: nat, piece: string
  )
    requires Sound(dict) && hay != [] && id in ids && forall i :: i in ids ==> i < |dict.syllables|
    requires piece != [] && piece <= dict.syllables[id] && piece <= needle
    requires Consume(hay[1..], needle[|piece|..], dict).Some?
    ensures ConsumeReadings(hay, needle, dict, ids).Some?
    decreases |ids|
  {
    assert forall i :: i in ids[1..] ==> i in ids;
    if ids[0] == id {
      var syl := dict.syllables[id];
      var max := CommonPrefix(syl, needle);
      assert forall i :: 0 <= i < |piece| ==> syl[i] == piece[i] == needle[i];
      PrefixIsTried(hay, needle, dict, 1, max, |piece|);
    } else {
      ReadingIsTried(hay, needle, dict, ids[1..], id, piece);
    }
  }

  lemma {:induction false} PrefixIsTried(hay: string, needle: string, dict: Dict, k: nat, max: nat, n: nat)
    requires Sound(dict) && hay != [] && max <= |needle| && k <= n <= max
    requires Consume(hay[1..], needle[n..], dict).Some?
    ensures ConsumePrefixes(hay, needle, dict, k, max).Some?
    decreases n - k
  {
    if k < n {
      PrefixIsTried(hay, needle, dict, k + 1, max, n);
    }
  }

  /** The matcher succeeds exactly where the needle can be cut. */
  lemma ConsumeIff(hay: string, needle: string, dict: Dict)
    requires Sound(dict)
    ensures Consume(hay, needle, dict).Some? <==> Matches(hay, needle, dict)
  {
    if Consume(hay, needle, dict).Some? {
      var pieces := ConsumeIsCut(hay, needle, dict);
    }
    if pieces :| IsCut(hay, needle, dict, pieces) {
      CutIsConsumed(hay, needle, dict, pieces);
    }
  }

  // ---------- the search ----------

  predicate Eligible(c: char, dict: Dict) {
    IsLetter(c) || c in dict.byChar
  }

  /** The first position from `from` on where a match begins at a letter or a listed character. */
  method FindFrom(hay: string, needle: string, from: nat, dict: Dict) returns (r: Option<(nat, nat)>)
    requires Sound(dict)
    ensures r.Some? ==>
      var (start, end) := r.value;
      && needle != [] && from <= start < end <= |hay| && Eligible(hay[start], dict)
      && (exists pieces :: IsCut(hay[start..], needle, dict, pieces) && start + |pieces| == end)
      && (forall s :: from <= s < start ==> !(Eligible(hay[s], dict) && Matches(hay[s..], needle, dict)))
    ensures r.None? && needle != [] ==> forall s :: from <= s <= |hay| ==> !Matches(hay[s..], needle, dict)
  {
    if needle == [] {
      return None;
    }
    var start := from;
    while start < |hay|
      invariant from <= start
      invariant forall s :: from <= s < start && s < |hay| ==> !(Eligible(hay[s], dict) && Matches(hay[s..], needle, dict))
    {
      var ch := hay[start];
      if Eligible(ch, dict) {
        ConsumeIff(hay[start..], needle, dict);
        var found := Consume(hay[start..], needle, dict);
        if found.Some? {
          var pieces := ConsumeIsCut(hay[start..], needle, dict);
          var end := start + found.value;
          if end > start {
            return Some((start, end));
          }
        }
      }
      start := start + 1;
    }
    forall s | from <= s <= |hay| ensures !Matches(hay[s..], needle, dict) {
      if pieces :| IsCut(hay[s..], needle, dict, pieces) {
        var t := SkipToEligible(hay, needle, dict, s, pieces);
      }
    }
    r := None;
  }

  /** A match that begins at a character it skips also begins further on, at one it uses. */
  lemma {:induction false} SkipToEligible(hay: string, needle: string, dict: Dict, s: nat, pieces: seq<string>)
    returns (t: nat)
    requires needle != [] && s <= |hay| && IsCut(hay[s..], needle, dict, pieces)
    ensures s <= t < |hay| && Eligible(hay[t], dict) && Matches(hay[t..], needle, dict)
    decreases |pieces|
  {
    CutRest(hay[s..], needle, dict, pieces);
    if Eligible(hay[s], dict) {
      t := s;
    } else {
      assert hay[s..][1..] == hay[s + 1..] && needle[0..] == needle;
      t := SkipToEligible(hay, needle, dict, s + 1, pieces[1..]);
    }
  }

  /** Nothing is found for anything but letters and separators, or in a text without a listed
      character. Otherwise the search finds a match exactly if there is one. */
  method FindSpan(hay: string, token: string, from: nat, dict: Dict) returns (r: Option<(nat, nat)>)
    requires Sound(dict)
    ensures r.Some? <==>
      && IsQuery(token) && (exists c :: c in hay && c in dict.byChar)
      && exists s :: from <= s <= |hay| && Matches(hay[s..], NeedleChars(token), dict)
    ensures r.Some? ==>
      var (start, end) := r.value;
      && from <= start < end <= |hay| && Eligible(hay[start], dict)
      && (exists pieces :: IsCut(hay[start..], NeedleChars(token), dict, pieces) && start + |pieces| == end)
      && (forall s :: from <= s < start ==> !(Eligible(hay[s], dict) && Matches(hay[s..], NeedleChars(token), dict)))
  {
    if !IsQuery(token) || !(exists c :: c in hay && c in dict.byChar) {
      return None;
    }
    QueryHasNeedle(token);
    r := FindFrom(hay, NeedleChars(token), from, dict);
  }

  lemma {:induction false} QueryHasNeedle(token: string)
    requires exists i :: 0 <= i < |token| && IsLetter(token[i])
    ensures NeedleChars(token) != []
  {
    if token[0] == '\'' {
      var i :| 0 <= i < |token| && IsLetter(token[i]);
      assert token[1..][i - 1] == token[i];
      QueryHasNeedle(token[1..]);
    }
  }
}
