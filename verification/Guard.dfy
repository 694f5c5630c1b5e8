/** The check of a path against what the device itself says about links in it. */
module Guard {

  import opened Options
  import opened Paths
  import opened Text

  datatype FileError =
    | BadPath(error: PathError)
    | Outside(path: string)
    | RemoteNotFound(path: string)
    | ReadlinkUnparseable(path: string)
    | Transport(detail: string)
    | Cancelled
    | NoEntryName(path: string)
    | TreeLimit
    | TreeDepth
    | EmptyTree(path: string)

  /** What a query can end with. Cancelling and every failure of the connection are `Broken`. */
  datatype Readlink = Canonical(resolved: string) | Missing | Unparseable | Broken(error: FileError)

  /** The device may answer the same question differently the next time: the first argument counts
      the queries. */
  type Device = (nat, string) -> Readlink

  datatype RecheckKind = Inclusive | Descendant

  function FromSafety(error: SafetyError): FileError {
    match error
    case Path(e) => BadPath(e)
    case OutsideRoot(path) => Outside(path)
  }

  function RecheckResolved(safety: SafetyRoot, resolved: string, kind: RecheckKind): Result<RemotePath, FileError> {
    match (if kind.Inclusive? then Check(safety, resolved) else CheckDescendant(safety, resolved))
    case Ok(path) => Ok(path)
    case Err(e) => Err(FromSafety(e))
  }

  function NormalizeMut(safety: SafetyRoot, raw: string): Result<RemotePath, FileError> {
    match CheckDescendant(safety, raw)
    case Err(e) => Err(FromSafety(e))
    case Ok(path) =>
      match ValidateEntryName(FileName(path))
      case Some(e) => Err(BadPath(e))
      case None => Ok(path)
  }

  /** With no root "/", a path may be changed exactly if it parses, lies strictly under a root segment
      by segment and ends in an allowed name; and it is used in normal form. */
  lemma MayBeChangedIff(safety: SafetyRoot, raw: string)
    requires ValidRoots(safety) && RemotePath("/") !in safety.roots
    ensures NormalizeMut(safety, raw).Ok? <==>
      && ParsePath(raw).Ok? && StrictlyUnderSome(safety, Segs(ParsePath(raw).value))
      && ValidateEntryName(FileName(ParsePath(raw).value)).None?
    ensures NormalizeMut(safety, raw).Ok? ==> IsNormal(NormalizeMut(safety, raw).value)
  {
    ParseOutcome(raw);
    if ParsePath(raw).Ok? {
      CheckedIsUnderRoot(safety, raw);
    }
  }

  function CanonicalBase(resolved: string): string {
    if resolved == "" then "/" else resolved
  }

  function FirstBadName(names: seq<string>): Option<PathError> {
    if names == [] then None
    else if ValidateEntryName(names[0]).Some? then ValidateEntryName(names[0])
    else FirstBadName(names[1..])
  }

  function JoinAll(base: string, names: seq<string>): string
    decreases |names|
  {
    if names == [] then base else JoinAll(JoinPath(base, names[0]), names[1..])
  }

  function JoinedCanonical(resolved: string, remainder: seq<string>): Result<string, FileError> {
    match FirstBadName(remainder)
    case Some(e) => Err(BadPath(e))
    case None => Ok(JoinAll(CanonicalBase(resolved), remainder))
  }

  method JoinCanonical(resolved: string, remainder: seq<string>) returns (r: Result<string, FileError>)
    ensures r == JoinedCanonical(resolved, remainder)
  {
    assert remainder[0..] == remainder;
    for i := 0 to |remainder|
      invariant FirstBadName(remainder) == FirstBadName(remainder[i..])
    {
      assert remainder[i..][1..] == remainder[i + 1..];
      var bad := ValidateEntryName(remainder[i]);
      if bad.Some? {
        return Err(BadPath(bad.value));
      }
    }
    if remainder == [] {
      return Ok(CanonicalBase(resolved));
    }
    var acc := CanonicalBase(resolved);
    for i := 0 to |remainder|
      invariant JoinAll(CanonicalBase(resolved), remainder) == JoinAll(acc, remainder[i..])
    {
      assert remainder[i..][1..] == remainder[i + 1..];
      acc := JoinPath(acc, remainder[i]);
    }
    r := Ok(acc);
  }

  /** The walk up from `current`, with `suffix` already found missing below it: the first answer
      that names a canonical path, and the names below. */
  function Walk(
    device: Device, path: string, current: seq<string>, suffix: seq<string>, query: nat
  ): Result<(string, seq<string>), FileError>
    decreases |current|
  {
    match device(query, PathText(current))
    case Canonical(resolved) => Ok((resolved, suffix))
    case Unparseable => Err(ReadlinkUnparseable(path))
    case Broken(e) => Err(e)
    case Missing =>
      if current == [] then Err(RemoteNotFound(path))
      else Walk(device, path, current[..|current| - 1], [current[|current| - 1]] + suffix, query + 1)
  }

  function Finish(safety: SafetyRoot, kind: RecheckKind, resolved: string, suffix: seq<string>): Result<RemotePath, FileError> {
    match JoinedCanonical(resolved, suffix)
    case Err(e) => Err(e)
    case Ok(candidate) => RecheckResolved(safety, candidate, kind)
  }

  function Resolved(device: Device, safety: SafetyRoot, kind: RecheckKind, path: RemotePath): Result<RemotePath, FileError> {
    match Walk(device, path.normalized, Segs(path), [], 0)
    case Err(e) => Err(e)
    case Ok((resolved, suffix)) => Finish(safety, kind, resolved, suffix)
  }

  /** One step up: what the text operations do to the path that `segs` spell. */
  lemma WalkStep(segs: seq<string>)
    requires AreSegments(segs)
    ensures segs == [] ==> ParentOf(PathText(segs)) == None && FileName(RemotePath(PathText(segs))) == ""
    ensures segs != [] ==>
      && IsSegment(segs[|segs| - 1]) && AreSegments(segs[..|segs| - 1])
      && ParentOf(PathText(segs)) == Some(PathText(segs[..|segs| - 1]))
      && FileName(RemotePath(PathText(segs))) == segs[|segs| - 1]
  {
    if segs == [] {
      RootHasNoParent();
    } else {
      var init, last := segs[..|segs| - 1], segs[|segs| - 1];
      assert segs == init + [last] && last in segs;
      JoinedTakesApart(init, last);
    }
  }

  /** The last segment of a path in normal form, read from its text. */
  method LastName(current: string, ghost segs: seq<string>) returns (name: Result<string, PathError>)
    requires AreSegments(segs) && current == PathText(segs)
    ensures name == Ok(if segs == [] then "" else segs[|segs| - 1])
  {
    TextHasSegments(segs);
    NormalIsFixed(RemotePath(current));
    WalkStep(segs);
    var parsed := ReadPath(current);
    match parsed
    case Err(e) => name := Err(e);
    case Ok(p) => name := Ok(FileName(p));
  }

  /** Parent and last name of a path that turned out to be missing. */
  method StepUp(path: string, current: string, ghost segs: seq<string>)
    returns (r: Result<(string, string), FileError>)
    requires AreSegments(segs) && current == PathText(segs)
    ensures segs == [] ==> r == Err(RemoteNotFound(path))
    ensures segs != [] ==> r == Ok((PathText(segs[..|segs| - 1]), segs[|segs| - 1]))
    ensures segs != [] ==> AreSegments(segs[..|segs| - 1])
  {
    WalkStep(segs);
    var parent := ParentOf(current);
    if parent.None? {
      return Err(RemoteNotFound(path));
    }
    var name := LastName(current, segs);
    match name
    case Err(e) => r := Err(BadPath(e));
    case Ok(last) => r := if last == "" then Err(RemoteNotFound(path)) else Ok((parent.value, last));
  }

  lemma LastMoves<T>(s: seq<T>, behind: seq<T>)
    requires s != []
    ensures s[..|s| - 1] + ([s[|s| - 1]] + behind) == s + behind
  {
  }

  /** The loop ends after at most one query for the path and one for each ancestor. */
  method WalkUp(device: Device, path: string, ghost from: seq<string>)
    returns (r: Result<(string, seq<string>), FileError>, queries: nat)
    requires AreSegments(from) && path == PathText(from)
    ensures 1 <= queries <= |from| + 1
    ensures r == Walk(device, path, from, [], 0)
  {
    var current := path;
    var remainder: seq<string> := [];
    queries := 0;
    ghost var segs := from;
    while true
      invariant AreSegments(segs) && current == PathText(segs)
      invariant segs + remainder == from && queries == |remainder|
      invariant Walk(device, path, from, [], 0) == Walk(device, path, segs, remainder, queries)
      decreases |segs|
    {
      var answer := device(queries, current);
      queries := queries + 1;
      match answer
      case Broken(e) =>
        return Err(e), queries;
      case Canonical(resolved) =>
        return Ok((resolved, remainder)), queries;
      case Unparseable =>
        return Err(ReadlinkUnparseable(path)), queries;
      case Missing =>
        var up := StepUp(path, current, segs);
        match up
        case Err(e) =>
          return Err(e), queries;
        case Ok((parent, name)) =>
          LastMoves(segs, remainder);
          remainder := [name] + remainder;
          current := parent;
          segs := segs[..|segs| - 1];
    }
  }

  method ResolveAndRecheck(device: Device, safety: SafetyRoot, path: RemotePath, kind: RecheckKind)
    returns (r: Result<RemotePath, FileError>, queries: nat)
    requires IsNormal(path)
    ensures 1 <= queries <= |Segs(path)| + 1
    ensures r == Resolved(device, safety, kind, path)
  {
    var found;
    found, queries := WalkUp(device, path.normalized, Segs(path));
    if found.Err? {
      return Err(found.error), queries;
    }
    var candidate := JoinCanonical(found.value.0, found.value.1);
    if candidate.Err? {
      return Err(candidate.error), queries;
    }
    r := RecheckResolved(safety, candidate.value, kind);
  }

  // ---------- what a result means ----------

  /** The path itself and its closer ancestors are missing, `k` of them one after the other. */
  ghost predicate MissingUpTo(device: Device, segs: seq<string>, k: nat, query: nat)
    requires k <= |segs|
    decreases k
  {
    k > 0 ==>
      && device(query, PathText(segs)) == Missing
      && MissingUpTo(device, segs[..|segs| - 1], k - 1, query + 1)
  }

  /** The nearest ancestor that is not missing is `k` segments up, and this is what it resolves to. */
  ghost predicate NearestResolves(device: Device, segs: seq<string>, k: nat, resolved: string) {
    && k <= |segs| && MissingUpTo(device, segs, k, 0)
    && device(k, PathText(segs[..|segs| - k])) == Canonical(resolved)
  }

  /** What a resolved ancestor with `suffix` behind it denotes. */
  ghost function Extended(resolved: string, suffix: seq<string>): Option<RemotePath> {
    match ParsePath(CanonicalBase(resolved))
    case Err(_) => None
    case Ok(base) => Some(RemotePath(PathText(Segs(base) + suffix)))
  }

  /** `p` passes the roots' text test for this kind of check. */
  predicate PassesRoots(safety: SafetyRoot, kind: RecheckKind, p: RemotePath) {
    exists r :: r in safety.roots && (if kind.Inclusive? then IsUnder(p, r) else IsStrictlyUnder(p, r))
  }

  function SegsOf(raw: string): Option<seq<string>> {
    match ParsePath(raw)
    case Err(_) => None
    case Ok(p) => Some(Segs(p))
  }

  /** Joining `name` to `dir` adds it to what `dir` parses to. */
  ghost predicate AddsOne(parse: string -> Option<seq<string>>, dir: string, name: string) {
    && (parse(JoinPath(dir, name)).Some? <==> parse(dir).Some?)
    && (parse(dir).Some? ==> parse(JoinPath(dir, name)).value == parse(dir).value + [name])
  }

  lemma {:induction false} JoinAllAdds(parse: string -> Option<seq<string>>, base: string, names: seq<string>)
    requires forall dir, name :: dir != "" && IsSegment(name) ==> AddsOne(parse, dir, name)
    requires base != "" && AreSegments(names)
    ensures parse(JoinAll(base, names)).Some? <==> parse(base).Some?
    ensures parse(base).Some? ==> parse(JoinAll(base, names)).value == parse(base).value + names
    decreases |names|
  {
    if names != [] {
      assert IsSegment(names[0]) && AddsOne(parse, base, names[0]);
      JoinAllAdds(parse, JoinPath(base, names[0]), names[1..]);
    }
  }

  lemma JoinAllParses(base: string, names: seq<string>)
    requires base != "" && AreSegments(names)
    ensures SegsOf(JoinAll(base, names)).Some? <==> SegsOf(base).Some?
    ensures SegsOf(base).Some? ==> SegsOf(JoinAll(base, names)).value == SegsOf(base).value + names
  {
    forall dir, name | dir != "" && IsSegment(name) ensures AddsOne(SegsOf, dir, name) {
      JoinedParses(dir, name);
    }
    JoinAllAdds(SegsOf, base, names);
  }

  lemma ExtendedParses(resolved: string, suffix: seq<string>)
    requires AreSegments(suffix)
    ensures var joined := ParsePath(JoinAll(CanonicalBase(resolved), suffix));
            && (joined.Ok? <==> Extended(resolved, suffix).Some?)
            && (joined.Ok? ==> Extended(resolved, suffix) == Some(joined.value) && IsNormal(joined.value))
  {
    var base := CanonicalBase(resolved);
    JoinAllParses(base, suffix);
    ParseOutcome(JoinAll(base, suffix));
  }

  lemma RecheckMeans(safety: SafetyRoot, candidate: string, kind: RecheckKind)
    ensures var r := RecheckResolved(safety, candidate, kind);
            r.Ok? <==> ParsePath(candidate).Ok? && PassesRoots(safety, kind, ParsePath(candidate).value)
    ensures var r := RecheckResolved(safety, candidate, kind);
            r.Ok? ==> ParsePath(candidate) == Ok(r.value)
  {
  }

  lemma {:induction false} WalkAt(
    device: Device, path: string, segs: seq<string>, suffix: seq<string>, query: nat, k: nat
  )
    requires k <= |segs| && MissingUpTo(device, segs, k, query)
    ensures Walk(device, path, segs, suffix, query)
         == Walk(device, path, segs[..|segs| - k], segs[|segs| - k..] + suffix, query + k)
    decreases k
  {
    if k == 0 {
      assert segs[..|segs|] == segs && segs[|segs|..] + suffix == suffix;
    } else {
      var init, last := segs[..|segs| - 1], segs[|segs| - 1];
      WalkAt(device, path, init, [last] + suffix, query + 1, k - 1);
      TakenFromEnd(segs, k, suffix);
    }
  }

  lemma TakenFromEnd<T>(s: seq<T>, k: nat, behind: seq<T>)
    requires 0 < k <= |s|
    ensures s[..|s| - 1][..|s| - k] == s[..|s| - k]
    ensures s[..|s| - 1][|s| - k..] + ([s[|s| - 1]] + behind) == s[|s| - k..] + behind
  {
  }

  lemma {:induction false} WalkNeedsNearest(
    device: Device, path: string, segs: seq<string>, suffix: seq<string>, query: nat
  ) returns (k: nat)
    requires Walk(device, path, segs, suffix, query).Ok?
    ensures k <= |segs| && MissingUpTo(device, segs, k, query)
    ensures device(query + k, PathText(segs[..|segs| - k])).Canonical?
    decreases |segs|
  {
    if device(query, PathText(segs)).Canonical? {
      k := 0;
      assert segs[..|segs|] == segs;
    } else {
      var init, last := segs[..|segs| - 1], segs[|segs| - 1];
      var up := WalkNeedsNearest(device, path, init, [last] + suffix, query + 1);
      k := up + 1;
      assert init[..|init| - up] == segs[..|segs| - k];
    }
  }

  lemma WalkFinds(device: Device, path: string, segs: seq<string>, k: nat, resolved: string)
    requires NearestResolves(device, segs, k, resolved)
    ensures Walk(device, path, segs, [], 0) == Ok((resolved, segs[|segs| - k..]))
  {
    WalkAt(device, path, segs, [], 0, k);
    assert segs[|segs| - k..] + [] == segs[|segs| - k..];
  }

  /** Finishing succeeds exactly when no missing name is forbidden and the resolved ancestor,
      extended by them, passes the roots; and that is the result. */
  lemma FinishMeans(safety: SafetyRoot, kind: RecheckKind, resolved: string, suffix: seq<string>)
    requires AreSegments(suffix)
    ensures var r, p := Finish(safety, kind, resolved, suffix), Extended(resolved, suffix);
            && (r.Ok? <==> FirstBadName(suffix) == None && p.Some? && PassesRoots(safety, kind, p.value))
            && (r.Ok? ==> p == Some(r.value) && IsNormal(r.value))
  {
    ExtendedParses(resolved, suffix);
    RecheckMeans(safety, JoinAll(CanonicalBase(resolved), suffix), kind);
  }

  /** A resolved path is the canonical form of the nearest ancestor that is not missing, followed by
      exactly the missing names; there is a result exactly when that path passes. */
  lemma ResolvedMeans(
    device: Device, safety: SafetyRoot, kind: RecheckKind, path: RemotePath, k: nat, resolved: string
  )
    requires IsNormal(path) && NearestResolves(device, Segs(path), k, resolved)
    ensures var suffix := Segs(path)[|Segs(path)| - k..];
            var r, p := Resolved(device, safety, kind, path), Extended(resolved, suffix);
            && (r.Ok? <==> FirstBadName(suffix) == None && p.Some? && PassesRoots(safety, kind, p.value))
            && (r.Ok? ==> p == Some(r.value) && IsNormal(r.value))
  {
    WalkFinds(device, path.normalized, Segs(path), k, resolved);
    FinishMeans(safety, kind, resolved, Segs(path)[|Segs(path)| - k..]);
  }

  /** Without an ancestor that resolves there is no result. */
  lemma ResultNeedsAncestor(device: Device, safety: SafetyRoot, kind: RecheckKind, path: RemotePath)
    returns (k: nat, resolved: string)
    requires Resolved(device, safety, kind, path).Ok?
    ensures NearestResolves(device, Segs(path), k, resolved)
  {
    k := WalkNeedsNearest(device, path.normalized, Segs(path), [], 0);
    resolved := device(k, PathText(Segs(path)[..|Segs(path)| - k])).resolved;
  }

  /** What passes the roots lies under one of them segment by segment. */
  lemma PassedIsUnderRoot(safety: SafetyRoot, kind: RecheckKind, p: RemotePath)
    requires ValidRoots(safety) && IsNormal(p) && PassesRoots(safety, kind, p)
    ensures if kind.Inclusive? then UnderSome(safety, Segs(p)) else StrictlyUnderSome(safety, Segs(p))
  {
    var r :| r in safety.roots && (if kind.Inclusive? then IsUnder(p, r) else IsStrictlyUnder(p, r));
    StrictlyUnderIsPrefix(p, r);
    SameSegmentsSamePath(p, r);
    assert Segs(r) <= Segs(p);
  }
}
