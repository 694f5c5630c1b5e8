/** Absolute paths on the device, and the roots that guard them. */
module Paths {

  import opened Options
  import opened Text

  datatype PathError = NotAbsolute(path: string) | Traversal(path: string) | InvalidName(detail: string)

  /** A path in normal form. */
  datatype RemotePath = RemotePath(normalized: string)

  function PosixSlashes(path: string): string {
    seq(|path|, i requires 0 <= i < |path| => if path[i] == '\\' then '/' else path[i])
  }

  predicate IsAbsolute(path: string) {
    StartsWith(path, "/")
  }

  function WithoutTrailingSlash(path: string): string {
    if path != [] && path[|path| - 1] == '/' then WithoutTrailingSlash(path[..|path| - 1]) else path
  }

  /** Empty segments and "." fall away; ".." is refused. */
  function Kept(parts: seq<string>): Option<seq<string>> {
    if parts == [] then Some([])
    else if parts[0] == ".." then None
    else
      match Kept(parts[1..])
      case None => None
      case Some(rest) => if parts[0] == "" || parts[0] == "." then Some(rest) else Some([parts[0]] + rest)
  }

  function ParsePath(raw: string): Result<RemotePath, PathError> {
    var replaced := PosixSlashes(raw);
    if !IsAbsolute(replaced) then Err(NotAbsolute(raw))
    else
      match Kept(Split(replaced, Is('/')))
      case None => Err(Traversal(raw))
      case Some(parts) => Ok(RemotePath("/" + Join(parts, '/')))
  }

  method ReadPath(raw: string) returns (r: Result<RemotePath, PathError>)
    ensures r == ParsePath(raw)
  {
    var replaced := PosixSlashes(raw);
    if !IsAbsolute(replaced) {
      return Err(NotAbsolute(raw));
    }
    var segments := Split(replaced, Is('/'));
    var parts: seq<string> := [];
    var i := 0;
    assert segments[0..] == segments;
    while i < |segments|
      invariant i <= |segments|
      invariant Kept(segments).Some? <==> Kept(segments[i..]).Some?
      invariant Kept(segments).Some? ==> Kept(segments).value == parts + Kept(segments[i..]).value
    {
      assert segments[i..][1..] == segments[i + 1..];
      if segments[i] == ".." {
        return Err(Traversal(raw));
      }
      if segments[i] != "" && segments[i] != "." {
        parts := parts + [segments[i]];
      }
      i := i + 1;
    }
    assert segments[i..] == [] && parts + [] == parts;
    r := Ok(RemotePath("/" + Join(parts, '/')));
  }

  predicate IsStrictlyUnder(path: RemotePath, root: RemotePath) {
    StartsWith(path.normalized, root.normalized + "/")
  }

  predicate IsUnder(path: RemotePath, root: RemotePath) {
    path.normalized == root.normalized || IsStrictlyUnder(path, root)
  }

  function FileName(path: RemotePath): string {
    match FindLast(path.normalized, Is('/'))
    case None => path.normalized
    case Some(i) => path.normalized[i + 1..]
  }

  function JoinPath(dir: string, name: string): string {
    if dir == "/" then "/" + name else WithoutTrailingSlash(dir) + "/" + name
  }

  function ParentOf(path: string): Option<string> {
    var trimmed := WithoutTrailingSlash(path);
    if trimmed == [] || trimmed == "/" then None
    else
      match FindLast(trimmed, Is('/'))
      case None => Some("/")
      case Some(i) => Some(if i == 0 then "/" else trimmed[..i])
  }

  function NonEmpty(parts: seq<string>): seq<string> {
    if parts == [] then []
    else if parts[0] == "" then NonEmpty(parts[1..])
    else [parts[0]] + NonEmpty(parts[1..])
  }

  function PathSegments(path: string): seq<string> {
    NonEmpty(Split(path, Is('/')))
  }

  // ---------- names ----------

  function ValidateEntryName(name: string): Option<PathError> {
    var trimmed := Trim(name);
    if trimmed == "" then Some(InvalidName("empty"))
    else if trimmed == "." || trimmed == ".." then Some(InvalidName(trimmed))
    else if '/' in trimmed || '\\' in trimmed || '\0' in trimmed then Some(InvalidName("separator"))
    else None
  }

  /** Exactly which names an entry may have. */
  lemma AllowedNameIff(name: string)
    ensures ValidateEntryName(name).None? <==>
      var trimmed := Trim(name);
      && trimmed != "" && trimmed != "." && trimmed != ".."
      && forall c :: c in trimmed ==> c != '/' && c != '\\' && c as int != 0
  {
  }

  /** What has no slash in it, or only the first, lies in the root. */
  lemma ParentOfName(name: string)
    requires name != "" && Free(name, Is('/'))
    ensures ParentOf(name) == Some("/") && ParentOf("/" + name) == Some("/")
  {
    SlashesTrimmed(name);
    SlashesTrimmed("/" + name);
    FindLastIsLast(name, Is('/'));
    FindLastAt([], '/', name, Is('/'));
    assert [] + ['/'] + name == "/" + name;
  }

  // ---------- the normal form ----------

  predicate IsSegment(s: string) {
    s != "" && s != "." && s != ".." && '/' !in s && '\\' !in s
  }

  ghost predicate AreSegments(segs: seq<string>) {
    forall s :: s in segs ==> IsSegment(s)
  }

  function Slashed(segs: seq<string>): string {
    if segs == [] then [] else ['/'] + segs[0] + Slashed(segs[1..])
  }

  function PathText(segs: seq<string>): string {
    if segs == [] then "/" else Slashed(segs)
  }

  ghost predicate IsNormal(p: RemotePath) {
    AreSegments(PathSegments(p.normalized)) && p.normalized == PathText(PathSegments(p.normalized))
  }

  /** The segments of a normal path. */
  function Segs(p: RemotePath): seq<string> {
    PathSegments(p.normalized)
  }

  lemma {:induction false} SlashedAppend(a: seq<string>, b: seq<string>)
    ensures Slashed(a + b) == Slashed(a) + Slashed(b)
  {
    if a == [] {
      assert a + b == b;
    } else {
      assert (a + b)[1..] == a[1..] + b;
      SlashedAppend(a[1..], b);
    }
  }

  lemma {:induction false} JoinIsSlashed(segs: seq<string>)
    ensures "/" + Join(segs, '/') == PathText(segs)
  {
    if segs == [] {
      assert "/" + [] == "/";
    } else if |segs| == 1 {
      assert segs[1..] == [] && Slashed([]) == [];
      assert ['/'] + segs[0] + [] == "/" + segs[0];
    } else {
      JoinIsSlashed(segs[1..]);
      assert "/" + (segs[0] + ['/'] + Join(segs[1..], '/')) == ['/'] + segs[0] + ("/" + Join(segs[1..], '/'));
    }
  }

  lemma {:induction false} SplitJoin(parts: seq<string>, sep: char)
    requires parts != [] && forall part :: part in parts ==> sep !in part
    ensures Split(Join(parts, sep), Is(sep)) == parts
  {
    var first := parts[0];
    assert first in parts && Free(first, Is(sep));
    if |parts| == 1 {
      SplitNone(first, Is(sep));
    } else {
      SplitJoin(parts[1..], sep);
      SplitAt(first, sep, Join(parts[1..], sep), Is(sep));
    }
  }

  lemma SlashedSplits(segs: seq<string>)
    requires AreSegments(segs)
    ensures Split(Slashed(segs), Is('/')) == [""] + segs
  {
    if segs == [] {
      SplitNone([], Is('/'));
    } else {
      SplitJoin(segs, '/');
      JoinIsSlashed(segs);
      SplitAt([], '/', Join(segs, '/'), Is('/'));
    }
  }

  lemma {:induction false} SegmentsAreNonEmpty(segs: seq<string>)
    requires AreSegments(segs)
    ensures NonEmpty(segs) == segs && Kept(segs) == Some(segs)
  {
    if segs != [] {
      assert IsSegment(segs[0]);
      SegmentsAreNonEmpty(segs[1..]);
      assert segs == [segs[0]] + segs[1..];
    }
  }

  /** A normal path spells its segments and nothing else. */
  lemma TextHasSegments(segs: seq<string>)
    requires AreSegments(segs)
    ensures PathSegments(PathText(segs)) == segs
    ensures IsNormal(RemotePath(PathText(segs)))
  {
    SegmentsAreNonEmpty(segs);
    if segs == [] {
      assert "/" == [] + ['/'] + [];
      SplitAt([], '/', [], Is('/'));
      SplitNone([], Is('/'));
      assert NonEmpty(["", ""]) == [];
    } else {
      SlashedSplits(segs);
      assert ([""] + segs)[1..] == segs;
    }
  }

  lemma {:induction false} KeptAreSegments(parts: seq<string>)
    requires forall s :: s in parts ==> '/' !in s && '\\' !in s
    ensures Kept(parts).None? <==> ".." in parts
    ensures Kept(parts).Some? ==> AreSegments(Kept(parts).value)
  {
    if parts != [] {
      KeptAreSegments(parts[1..]);
    }
  }

  lemma SplitGivesNames(raw: string)
    ensures forall s :: s in Split(PosixSlashes(raw), Is('/')) ==> '/' !in s && '\\' !in s
  {
    PartsAreFree(PosixSlashes(raw), Is('/'), Is('\\'));
    forall s | s in Split(PosixSlashes(raw), Is('/')) ensures '/' !in s && '\\' !in s {
      assert Free(s, Is('/')) && Free(s, Is('\\'));
    }
  }

  /** Exactly the absolute paths without ".." parse, and what comes out is in normal form. */
  lemma ParseOutcome(raw: string)
    ensures ParsePath(raw) == Err(NotAbsolute(raw)) <==> raw == "" || (raw[0] != '/' && raw[0] != '\\')
    ensures ParsePath(raw) == Err(Traversal(raw)) <==>
      raw != "" && (raw[0] == '/' || raw[0] == '\\') && ".." in Split(PosixSlashes(raw), Is('/'))
    ensures ParsePath(raw).Ok? <==>
      IsAbsolute(PosixSlashes(raw)) && ".." !in Split(PosixSlashes(raw), Is('/'))
    ensures ParsePath(raw).Ok? ==>
      IsNormal(ParsePath(raw).value) && Some(Segs(ParsePath(raw).value)) == Kept(Split(PosixSlashes(raw), Is('/')))
  {
    var parts := Split(PosixSlashes(raw), Is('/'));
    SplitGivesNames(raw);
    KeptAreSegments(parts);
    if ParsePath(raw).Ok? {
      JoinIsSlashed(Kept(parts).value);
      TextHasSegments(Kept(parts).value);
    }
  }

  lemma {:induction false} SlashedIsPlain(segs: seq<string>)
    requires AreSegments(segs)
    ensures '\\' !in Slashed(segs)
  {
    if segs != [] {
      assert IsSegment(segs[0]);
      SlashedIsPlain(segs[1..]);
    }
  }

  /** Parsing changes nothing about a path that is in normal form. */
  lemma NormalIsFixed(p: RemotePath)
    requires IsNormal(p)
    ensures ParsePath(p.normalized) == Ok(p)
  {
    var segs := Segs(p);
    SlashedIsPlain(segs);
    assert PosixSlashes(p.normalized) == p.normalized;
    JoinIsSlashed(segs);
    SegmentsAreNonEmpty(segs);
    if segs == [] {
      assert "/" == [] + ['/'] + [];
      SplitAt([], '/', [], Is('/'));
      SplitNone([], Is('/'));
      assert Kept(["", ""]) == Some([]);
    } else {
      SlashedSplits(segs);
      assert ([""] + segs)[1..] == segs;
    }
  }

  lemma SameSegmentsSamePath(p: RemotePath, q: RemotePath)
    requires IsNormal(p) && IsNormal(q)
    ensures p == q <==> Segs(p) == Segs(q)
  {
  }

  // ---------- under a root ----------

  /** Adding a slash and comparing text is comparing segment by segment, root "/" apart. */
  lemma StrictlyUnderIsPrefix(p: RemotePath, root: RemotePath)
    requires IsNormal(p) && IsNormal(root)
    ensures root.normalized != "/" ==> (IsStrictlyUnder(p, root) <==> Segs(root) < Segs(p))
    ensures root.normalized == "/" ==> !IsStrictlyUnder(p, root)
  {
    var s, r := Segs(p), Segs(root);
    if r == [] {
      NoDoubleSlash(p);
    } else {
      assert root.normalized[1] != '/' by { assert IsSegment(r[0]); }
      if r < s {
        assert s == r + s[|r|..];
        SlashedAppend(r, s[|r|..]);
      }
      if IsStrictlyUnder(p, root) {
        PrefixSplits(p, root);
      }
    }
  }

  lemma PrefixSplits(p: RemotePath, root: RemotePath)
    requires IsNormal(p) && IsNormal(root) && Segs(root) != [] && IsStrictlyUnder(p, root)
    ensures Segs(root) < Segs(p)
  {
    var head := root.normalized;
    var tail := p.normalized[|head| + 1..];
    assert p.normalized == head + ['/'] + tail;
    assert |p.normalized| > 1;
    SlashedPrefix(Segs(p), Segs(root), tail);
  }

  lemma {:induction false} SlashedPrefix(s: seq<string>, r: seq<string>, tail: string)
    requires AreSegments(s) && AreSegments(r) && Slashed(s) == Slashed(r) + ['/'] + tail
    ensures r < s
  {
    SlashedSplits(s);
    SlashedSplits(r);
    SplitAppend(Slashed(r), '/', tail, Is('/'));
    JoinSplit(tail, '/');
    InFront([""], r, Split(tail, Is('/')));
    SameBehind("", s, r + Split(tail, Is('/')));
  }

  lemma InFront<T>(a: seq<T>, b: seq<T>, c: seq<T>)
    ensures a + (b + c) == a + b + c
  {
  }

  lemma SameBehind(first: string, a: seq<string>, b: seq<string>)
    requires [first] + a == [first] + b
    ensures a == b
  {
    assert a == ([first] + a)[1..] == ([first] + b)[1..] == b;
  }

  lemma NoDoubleSlash(p: RemotePath)
    requires IsNormal(p)
    ensures !StartsWith(p.normalized, "//")
  {
    var s := Segs(p);
    if s != [] {
      assert IsSegment(s[0]);
      assert p.normalized[1] == s[0][0];
    }
  }

  /** The text tests agree with the comparison of segments exactly if the root is not "/" or the
      path is "/" itself. */
  lemma UnderAgreesIff(p: RemotePath, root: RemotePath)
    requires IsNormal(p) && IsNormal(root)
    ensures (IsUnder(p, root) <==> Segs(root) <= Segs(p)) <==> root.normalized != "/" || p.normalized == "/"
    ensures (IsStrictlyUnder(p, root) <==> Segs(root) < Segs(p)) <==> root.normalized != "/" || p.normalized == "/"
  {
    StrictlyUnderIsPrefix(p, root);
    SameSegmentsSamePath(p, root);
    assert root.normalized == "/" <==> Segs(root) == [] by { RootHasNoSegments(root); }
    assert p.normalized == "/" <==> Segs(p) == [] by { RootHasNoSegments(p); }
  }

  lemma RootHasNoSegments(p: RemotePath)
    requires IsNormal(p)
    ensures p.normalized == "/" <==> Segs(p) == []
  {
    if Segs(p) != [] {
      assert IsSegment(Segs(p)[0]);
    }
  }

  // ---------- up and down ----------

  lemma {:induction false} SlashesTrimmed(s: string)
    requires s != [] ==> s[|s| - 1] != '/'
    ensures WithoutTrailingSlash(s) == s
  {
  }

  lemma SlashedLast(segs: seq<string>, name: string)
    ensures Slashed(segs + [name]) == Slashed(segs) + ['/'] + name
  {
    SlashedAppend(segs, [name]);
    assert [name][1..] == [] && Slashed([]) == [];
    assert Slashed([name]) == ['/'] + name + [] == ['/'] + name;
    assert Slashed(segs) + (['/'] + name) == Slashed(segs) + ['/'] + name;
  }

  /** The last slash of a path stands before its last segment. */
  lemma LastSlash(segs: seq<string>, name: string)
    requires '/' !in name
    ensures Slashed(segs + [name]) == Slashed(segs) + ['/'] + name
    ensures FindLast(Slashed(segs + [name]), Is('/')) == Some(|Slashed(segs)|)
  {
    SlashedLast(segs, name);
    FindLastAt(Slashed(segs), '/', name, Is('/'));
  }

  /** Joining a name, then taking the parent and the last segment, gives all three back. */
  lemma JoinedTakesApart(segs: seq<string>, name: string)
    requires AreSegments(segs) && IsSegment(name)
    ensures JoinPath(PathText(segs), name) == PathText(segs + [name])
    ensures ParentOf(PathText(segs + [name])) == Some(PathText(segs))
    ensures FileName(RemotePath(PathText(segs + [name]))) == name
  {
    LastSlash(segs, name);
    var text := PathText(segs + [name]);
    assert text[|text| - 1] == name[|name| - 1];
    SlashesTrimmed(text);
    assert text[..|Slashed(segs)|] == Slashed(segs) && text[|Slashed(segs)| + 1..] == name;
    if segs == [] {
      assert text == "/" + name;
    } else {
      var init, last := segs[..|segs| - 1], segs[|segs| - 1];
      assert segs == init + [last] && IsSegment(last);
      LastSlash(init, last);
      assert PathText(segs)[|PathText(segs)| - 1] == last[|last| - 1];
      SlashesTrimmed(PathText(segs));
    }
  }

  lemma RootHasNoParent()
    ensures ParentOf("/") == None && FileName(RemotePath("/")) == ""
  {
  }

  // ---------- joining before parsing ----------

  lemma KeptFirst(first: string, rest: seq<string>)
    ensures Kept([first] + rest).Some? <==> first != ".." && Kept(rest).Some?
    ensures Kept([first] + rest).Some? ==>
      Kept([first] + rest).value == (if first == "" || first == "." then [] else [first]) + Kept(rest).value
  {
    assert ([first] + rest)[1..] == rest;
  }

  lemma {:induction false} KeptAppend(a: seq<string>, b: seq<string>)
    ensures Kept(a + b).Some? <==> Kept(a).Some? && Kept(b).Some?
    ensures Kept(a + b).Some? ==> Kept(a + b).value == Kept(a).value + Kept(b).value
  {
    if a == [] {
      assert a + b == b;
    } else {
      assert a + b == [a[0]] + (a[1..] + b) && a == [a[0]] + a[1..];
      KeptFirst(a[0], a[1..] + b);
      KeptFirst(a[0], a[1..]);
      KeptAppend(a[1..], b);
    }
  }

  lemma PosixAppend(a: string, b: string)
    ensures PosixSlashes(a + b) == PosixSlashes(a) + PosixSlashes(b)
  {
  }

  lemma {:induction false} TrailingSlashesDoNotCount(dir: string)
    ensures Kept(Split(PosixSlashes(WithoutTrailingSlash(dir)), Is('/'))) == Kept(Split(PosixSlashes(dir), Is('/')))
    ensures dir != [] && !IsAbsolute(PosixSlashes(dir)) ==>
      WithoutTrailingSlash(dir) != [] && WithoutTrailingSlash(dir)[0] == dir[0]
    ensures IsAbsolute(PosixSlashes(dir)) ==>
      WithoutTrailingSlash(dir) == [] || IsAbsolute(PosixSlashes(WithoutTrailingSlash(dir)))
  {
    if dir != [] && dir[|dir| - 1] == '/' {
      var init := dir[..|dir| - 1];
      TrailingSlashesDoNotCount(init);
      assert PosixSlashes(dir) == PosixSlashes(init) + ['/'] + [];
      SplitAppend(PosixSlashes(init), '/', [], Is('/'));
      SplitNone([], Is('/'));
      KeptAppend(Split(PosixSlashes(init), Is('/')), [""]);
      assert Kept([""]) == Some([]);
      if Kept(Split(PosixSlashes(init), Is('/'))).Some? {
        var k := Kept(Split(PosixSlashes(init), Is('/'))).value;
        assert k + [] == k;
      }
    }
  }

  /** Joining a name to any directory text adds one segment to what the text parses to, and makes
      it parse neither more nor less. */
  lemma JoinedParses(dir: string, name: string)
    requires dir != "" && IsSegment(name)
    ensures ParsePath(JoinPath(dir, name)).Ok? <==> ParsePath(dir).Ok?
    ensures ParsePath(dir).Ok? ==>
      Segs(ParsePath(JoinPath(dir, name)).value) == Segs(ParsePath(dir).value) + [name]
  {
    var base := WithoutTrailingSlash(dir);
    var joined := JoinPath(dir, name);
    assert joined == base + (['/'] + name) by {
      if dir == "/" {
        assert WithoutTrailingSlash("/") == WithoutTrailingSlash("");
      }
    }
    assert PosixSlashes(['/'] + name) == ['/'] + name;
    PosixAppend(base, ['/'] + name);
    assert PosixSlashes(joined) == PosixSlashes(base) + ['/'] + name;
    TrailingSlashesDoNotCount(dir);
    SplitAppend(PosixSlashes(base), '/', name, Is('/'));
    SplitNone(name, Is('/'));
    SegmentsAreNonEmpty([name]);
    KeptAppend(Split(PosixSlashes(base), Is('/')), [name]);
    ParseOutcome(dir);
    ParseOutcome(joined);
    assert IsAbsolute(PosixSlashes(joined)) <==> IsAbsolute(PosixSlashes(dir));
  }

  /** What a name of any shape adds to a path: it may hold several segments, or none. */
  function KeptOf(name: string): Option<seq<string>> {
    Kept(Split(PosixSlashes(name), Is('/')))
  }

  lemma NoTrailingSlash(segs: seq<string>)
    requires AreSegments(segs) && segs != []
    ensures Slashed(segs) != [] && Slashed(segs)[|Slashed(segs)| - 1] != '/'
  {
    var init, last := segs[..|segs| - 1], segs[|segs| - 1];
    assert segs == init + [last] && IsSegment(last);
    SlashedLast(init, last);
  }

  lemma JoinedText(segs: seq<string>, name: string)
    requires AreSegments(segs)
    ensures JoinPath(PathText(segs), name) == Slashed(segs) + ['/'] + name
  {
    if segs != [] {
      NoTrailingSlash(segs);
      SlashesTrimmed(PathText(segs));
    }
  }

  /** Joining a name of any shape to a path in normal form parses unless the name climbs, and adds
      exactly the name's own segments. */
  lemma JoinedBelow(dir: RemotePath, name: string)
    requires IsNormal(dir)
    ensures ParsePath(JoinPath(dir.normalized, name)).Ok? <==> KeptOf(name).Some?
    ensures KeptOf(name).Some? ==>
      Segs(ParsePath(JoinPath(dir.normalized, name)).value) == Segs(dir) + KeptOf(name).value
  {
    var segs := Segs(dir);
    var joined := JoinPath(dir.normalized, name);
    JoinedText(segs, name);
    SlashedIsPlain(segs);
    assert PosixSlashes(joined) == Slashed(segs) + ['/'] + PosixSlashes(name);
    SplitAppend(Slashed(segs), '/', PosixSlashes(name), Is('/'));
    SlashedSplits(segs);
    SegmentsAreNonEmpty(segs);
    assert ([""] + segs)[1..] == segs;
    KeptAppend([""] + segs, Split(PosixSlashes(name), Is('/')));
    ParseOutcome(joined);
    assert IsAbsolute(PosixSlashes(joined)) by {
      if segs != [] {
        assert Slashed(segs)[0] == '/';
      }
    }
  }

  lemma SegmentKeepsItself(name: string)
    requires IsSegment(name)
    ensures KeptOf(name) == Some([name])
  {
    assert PosixSlashes(name) == name;
    SplitNone(name, Is('/'));
    SegmentsAreNonEmpty([name]);
  }

  // ---------- roots ----------

  datatype SafetyError = Path(error: PathError) | OutsideRoot(path: string)

  datatype SafetyRoot = SafetyRoot(roots: seq<RemotePath>)

  /** Roots are parsed when the set is made. */
  ghost predicate ValidRoots(s: SafetyRoot) {
    forall r :: r in s.roots ==> IsNormal(r)
  }

  function ParseRoots(raws: seq<string>): Result<SafetyRoot, PathError> {
    if raws == [] then Ok(SafetyRoot([]))
    else
      match ParsePath(raws[0])
      case Err(e) => Err(e)
      case Ok(first) =>
        match ParseRoots(raws[1..])
        case Err(e) => Err(e)
        case Ok(rest) => Ok(SafetyRoot([first] + rest.roots))
  }

  lemma {:induction false} ParsedRootsAreValid(raws: seq<string>)
    requires ParseRoots(raws).Ok?
    ensures ValidRoots(ParseRoots(raws).value) && |ParseRoots(raws).value.roots| == |raws|
    ensures forall i :: 0 <= i < |raws| ==> ParsePath(raws[i]) == Ok(ParseRoots(raws).value.roots[i])
  {
    if raws != [] {
      ParseOutcome(raws[0]);
      ParsedRootsAreValid(raws[1..]);
    }
  }

  function Check(s: SafetyRoot, raw: string): Result<RemotePath, SafetyError> {
    match ParsePath(raw)
    case Err(e) => Err(Path(e))
    case Ok(path) =>
      if exists r :: r in s.roots && IsUnder(path, r) then Ok(path) else Err(OutsideRoot(path.normalized))
  }

  function CheckDescendant(s: SafetyRoot, raw: string): Result<RemotePath, SafetyError> {
    match ParsePath(raw)
    case Err(e) => Err(Path(e))
    case Ok(path) =>
      if exists r :: r in s.roots && IsStrictlyUnder(path, r) then Ok(path) else Err(OutsideRoot(path.normalized))
  }

  ghost predicate UnderSome(s: SafetyRoot, segs: seq<string>) {
    exists r :: r in s.roots && Segs(r) <= segs
  }

  ghost predicate StrictlyUnderSome(s: SafetyRoot, segs: seq<string>) {
    exists r :: r in s.roots && Segs(r) < segs
  }

  /** What passes lies under a root segment by segment. With no root "/" everything that lies
      under a root passes. */
  lemma CheckedIsUnderRoot(s: SafetyRoot, raw: string)
    requires ValidRoots(s) && ParsePath(raw).Ok?
    ensures Check(s, raw).Ok? ==> UnderSome(s, Segs(ParsePath(raw).value))
    ensures CheckDescendant(s, raw).Ok? ==> StrictlyUnderSome(s, Segs(ParsePath(raw).value))
    ensures RemotePath("/") !in s.roots ==>
      (Check(s, raw).Ok? <==> UnderSome(s, Segs(ParsePath(raw).value)))
    ensures RemotePath("/") !in s.roots ==>
      (CheckDescendant(s, raw).Ok? <==> StrictlyUnderSome(s, Segs(ParsePath(raw).value)))
  {
    ParseOutcome(raw);
    var p := ParsePath(raw).value;
    forall r | r in s.roots
      ensures IsUnder(p, r) ==> Segs(r) <= Segs(p)
      ensures IsStrictlyUnder(p, r) ==> Segs(r) < Segs(p)
      ensures r.normalized != "/" ==> (IsUnder(p, r) <==> Segs(r) <= Segs(p))
      ensures r.normalized != "/" ==> (IsStrictlyUnder(p, r) <==> Segs(r) < Segs(p))
    {
      UnderAgreesIff(p, r);
      StrictlyUnderIsPrefix(p, r);
      SameSegmentsSamePath(p, r);
    }
    assert forall r :: r in s.roots && r.normalized == "/" ==> r == RemotePath("/");
  }
}
