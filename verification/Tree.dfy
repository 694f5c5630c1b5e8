/** Expansion of dragged files and directories into a flat list. */
module Tree {

  import opened Guard
  import opened Options
  import opened Paths
  import opened Text

  const MAX_TREE_ENTRIES: nat := 4096
  const MAX_TREE_DEPTH: nat := 24

  datatype EntryKind = Dir | File | Symlink | Other

  datatype Listed = Listed(name: string, kind: EntryKind, size: nat)

  datatype TreeEntry = TreeEntry(remote: string, relative: string, isDir: bool, size: nat)

  /** What the device answers, whatever it is: links may lead in circles and a directory may list
      differently the next time. The number is the moment of the question. */
  datatype World = World(
    list: (nat, string) -> Result<seq<Listed>, FileError>,
    resolve: (nat, RemotePath) -> Result<RemotePath, FileError>,
    cancelled: nat -> bool)

  /** The check that every path goes through before anything is done with it. */
  type Normalizer = string -> Result<RemotePath, FileError>

  function NormalizerOf(safety: SafetyRoot): Normalizer {
    raw => NormalizeMut(safety, raw)
  }

  /** A symbolic link says nothing about what it leads to. */
  function DirFlag(kind: EntryKind): Option<bool> {
    match kind
    case Dir => Some(true)
    case File => Some(false)
    case Other => Some(false)
    case Symlink => None
  }

  function ListedSize(isDir: bool, size: nat): nat {
    if isDir then 0 else size
  }

  function TreeBounds(isDir: bool, depth: nat, count: nat): Option<FileError> {
    if count >= MAX_TREE_ENTRIES then Some(FileError.TreeLimit)
    else if isDir && depth >= MAX_TREE_DEPTH then Some(FileError.TreeDepth)
    else None
  }

  function JoinRelative(parent: string, name: string): string {
    if parent == [] then name else parent + ['/'] + name
  }

  // ---------- what an expansion is ----------

  /** The number of directories above the entry that were dragged along with it. */
  function Depth(relative: string): int {
    |Split(relative, Is('/'))| - 1
  }

  /** Something stands for `remote` in the list. */
  ghost predicate HasRemote(out: seq<TreeEntry>, remote: string) {
    exists i :: 0 <= i < |out| && out[i].remote == remote
  }

  ghost predicate Distinct(out: seq<TreeEntry>) {
    forall i, j :: 0 <= i < j < |out| ==> out[i].remote != out[j].remote
  }

  /** At moment `t` the first entry of that name in the directory that holds `path` was this kind. */
  ghost predicate ClassifiedAs(world: World, path: RemotePath, isDir: bool, size: nat, t: nat, i: nat) {
    && ParentOf(path.normalized).Some?
    && world.list(t, ParentOf(path.normalized).value).Ok?
    && var entries := world.list(t, ParentOf(path.normalized).value).value;
       && i < |entries| && entries[i].name == FileName(path)
       && (forall j :: 0 <= j < i ==> entries[j].name != FileName(path))
       && isDir == entries[i].kind.Dir? && size == if isDir then 0 else entries[i].size
  }

  /** `remote` resolved to something of this kind. */
  ghost predicate ResolvedAs(world: World, remote: RemotePath, isDir: bool, size: nat) {
    exists u, resolved, t, i ::
      world.resolve(u, remote) == Ok(resolved) && ClassifiedAs(world, resolved, isDir, size, t, i)
  }

  /** At moment `t` the directory at `parent` listed something that is this entry. Its kind is the
      listed one, or for a link that of what the link leads to. */
  ghost predicate ListedAs(world: World, norm: Normalizer, parent: string, e: TreeEntry, t: nat, c: Listed) {
    && world.list(t, parent).Ok? && c in world.list(t, parent).value
    && norm(JoinPath(parent, c.name)) == Ok(RemotePath(e.remote))
    && if !c.kind.Symlink? then e.isDir == c.kind.Dir? && e.size == (if e.isDir then 0 else c.size)
       else ResolvedAs(world, RemotePath(e.remote), e.isDir, e.size)
  }

  ghost predicate ChildOf(world: World, norm: Normalizer, parent: TreeEntry, e: TreeEntry) {
    && parent.isDir
    && e.relative == parent.relative + ['/'] + FileName(RemotePath(e.remote))
    && exists t, c :: ListedAs(world, norm, parent.remote, e, t, c)
  }

  ghost predicate Dragged(world: World, norm: Normalizer, raws: seq<string>, e: TreeEntry) {
    && e.relative == FileName(RemotePath(e.remote))
    && (exists raw :: raw in raws && norm(raw) == Ok(RemotePath(e.remote)))
    && ResolvedAs(world, RemotePath(e.remote), e.isDir, e.size)
  }

  /** The entry was dragged itself or stands behind the directory that lists it. */
  ghost predicate Placed(world: World, norm: Normalizer, raws: seq<string>, out: seq<TreeEntry>, i: nat)
    requires i < |out|
  {
    || Dragged(world, norm, raws, out[i])
    || exists j :: 0 <= j < i && ChildOf(world, norm, out[j], out[i])
  }

  predicate DepthFits(e: TreeEntry) {
    0 <= Depth(e.relative) <= MAX_TREE_DEPTH && (e.isDir ==> Depth(e.relative) < MAX_TREE_DEPTH)
  }

  /** In numbers: at most 4096 entries, none deeper than 24 below what was dragged, directories less deep. */
  lemma GrownWithin(world: World, norm: Normalizer, raws: seq<string>, out: seq<TreeEntry>, i: nat)
    requires Grown(world, norm, raws, out) && i < |out|
    ensures |out| <= 4096 && 0 <= Depth(out[i].relative) <= 24 && (out[i].isDir ==> Depth(out[i].relative) <= 23)
  {
  }

  ghost predicate Grown(world: World, norm: Normalizer, raws: seq<string>, out: seq<TreeEntry>) {
    && |out| <= MAX_TREE_ENTRIES
    && Distinct(out)
    && (forall i :: 0 <= i < |out| ==> DepthFits(out[i]))
    && (forall i :: 0 <= i < |out| ==> Placed(world, norm, raws, out, i))
  }

  /** Everything the directory listed at moment `t` stands in the list. */
  ghost predicate ExpandedAt(world: World, norm: Normalizer, out: seq<TreeEntry>, remote: string, t: nat) {
    && world.list(t, remote).Ok?
    && forall c :: c in world.list(t, remote).value ==> ChildStands(norm, out, remote, c)
  }

  ghost predicate ChildStands(norm: Normalizer, out: seq<TreeEntry>, remote: string, c: Listed) {
    && norm(JoinPath(remote, c.name)).Ok?
    && HasRemote(out, norm(JoinPath(remote, c.name)).value.normalized)
  }

  ghost predicate Expanded(world: World, norm: Normalizer, out: seq<TreeEntry>, remote: string) {
    exists t :: ExpandedAt(world, norm, out, remote, t)
  }

  /** The directories from position `from` on are expanded. */
  ghost predicate AllExpanded(world: World, norm: Normalizer, out: seq<TreeEntry>, from: nat) {
    forall i :: from <= i < |out| && out[i].isDir ==> Expanded(world, norm, out, out[i].remote)
  }

  // ---------- why there may be no list ----------

  ghost predicate NotListed(world: World, path: RemotePath, t: nat) {
    && ParentOf(path.normalized).Some?
    && world.list(t, ParentOf(path.normalized).value).Ok?
    && forall c :: c in world.list(t, ParentOf(path.normalized).value).value ==> c.name != FileName(path)
  }

  /** The device refused or broke off, a path did not pass, something was not there any more, ... */
  ghost predicate DeviceFailed(world: World, norm: Normalizer, error: FileError) {
    || (exists t, path :: world.list(t, path) == Err(error))
    || (exists t, path :: world.resolve(t, path) == Err(error))
    || (error == Cancelled && exists t :: world.cancelled(t))
    || (exists raw :: norm(raw) == Err(error))
    || (exists path, t :: NotListed(world, path, t) && error == RemoteNotFound(path.normalized))
    || (exists t, p, path :: world.resolve(t, p) == Ok(path) && ParentOf(path.normalized).None?
                             && error == NoEntryName(path.normalized))
  }

  /** ... the list was full, a directory lay too deep, or nothing was dragged. */
  ghost predicate OverLimit(world: World, norm: Normalizer, raws: seq<string>, error: FileError) {
    || (error == FileError.TreeLimit && exists out :: Grown(world, norm, raws, out) && |out| == MAX_TREE_ENTRIES)
    || (error == FileError.TreeDepth && exists out, e: TreeEntry ::
          Grown(world, norm, raws, out) && e.isDir && Depth(e.relative) >= MAX_TREE_DEPTH
          && exists j :: 0 <= j < |out| && ChildOf(world, norm, out[j], e))
  }

  ghost predicate HasCause(world: World, norm: Normalizer, raws: seq<string>, error: FileError) {
    DeviceFailed(world, norm, error) || OverLimit(world, norm, raws, error)
  }

  // ---------- the paths that pass ----------

  predicate Named(p: RemotePath) {
    FileName(p) != [] && forall i :: 0 <= i < |FileName(p)| ==> FileName(p)[i] != '/'
  }

  /** What the expansion needs to know about the check of paths. */
  ghost predicate NamesAll(norm: Normalizer) {
    forall raw :: norm(raw).Ok? ==> Named(norm(raw).value)
  }

  lemma NormalizedIsNamed(safety: SafetyRoot)
    ensures NamesAll(NormalizerOf(safety))
  {
    forall raw | NormalizerOf(safety)(raw).Ok? ensures Named(NormalizerOf(safety)(raw).value) {
      PassedHasName(safety, raw);
    }
  }

  lemma PassedHasName(safety: SafetyRoot, raw: string)
    requires NormalizeMut(safety, raw).Ok?
    ensures Named(NormalizeMut(safety, raw).value)
  {
    var p := NormalizeMut(safety, raw).value;
    FindLastIsLast(p.normalized, Is('/'));
    assert Trim([]) == [];
  }

  // ---------- the expansion ----------

  class Expansion {
    const world: World
    const norm: Normalizer
    const raws: seq<string>
    var clock: nat
    var out: seq<TreeEntry>
    var seen: set<string>

    ghost predicate Valid()
      reads this
    {
      NamesAll(norm) && Grown(world, norm, raws, out)
    }

    /** Claimed is what stands in the list. */
    ghost predicate Settled()
      reads this
    {
      forall r :: r in seen <==> HasRemote(out, r)
    }

    /** `claimed` is claimed too, and does not stand in the list yet. */
    ghost predicate SettledBut(claimed: string)
      reads this
    {
      && !HasRemote(out, claimed)
      && forall r :: r in seen <==> r == claimed || HasRemote(out, r)
    }

    constructor (world: World, norm: Normalizer, raws: seq<string>)
      requires NamesAll(norm)
      ensures this.world == world && this.norm == norm && this.raws == raws
      ensures out == [] && Valid() && Settled()
    {
      this.world, this.norm, this.raws, clock, out, seen := world, norm, raws, 0, [], {};
    }

    method List(path: string) returns (t: nat, r: Result<seq<Listed>, FileError>)
      modifies this`clock
      ensures t == old(clock) && clock == t + 1 && r == world.list(t, path)
    {
      t := clock;
      clock := clock + 1;
      r := world.list(t, path);
    }

    method Resolve(path: RemotePath) returns (r: Result<RemotePath, FileError>)
      modifies this`clock
      ensures clock == old(clock) + 1 && r == world.resolve(old(clock), path)
    {
      r := world.resolve(clock, path);
      clock := clock + 1;
    }

    method ClaimRemote(remote: string) returns (first: bool)
      requires Settled()
      modifies this`seen
      ensures first == !HasRemote(out, remote)
      ensures first ==> SettledBut(remote)
      ensures !first ==> Settled()
    {
      first := remote !in seen;
      seen := seen + {remote};
    }

    /** What a link leads to is asked of the directory that holds it. */
    method Classify(path: RemotePath, ghost u: nat, ghost remote: RemotePath)
      returns (r: Result<(bool, nat), FileError>)
      requires world.resolve(u, remote) == Ok(path)
      modifies this`clock
      ensures r.Ok? ==> ResolvedAs(world, remote, r.value.0, r.value.1)
      ensures r.Err? ==> DeviceFailed(world, norm, r.error)
    {
      var parent := ParentOf(path.normalized);
      if parent.None? {
        return Err(NoEntryName(path.normalized));
      }
      var name := FileName(path);
      var t, entries := List(parent.value);
      if entries.Err? {
        return Err(entries.error);
      }
      for i := 0 to |entries.value|
        invariant forall j :: 0 <= j < i ==> entries.value[j].name != name
      {
        var entry := entries.value[i];
        if entry.name == name {
          var isDir := DirFlag(entry.kind) == Some(true);
          assert ClassifiedAs(world, path, isDir, ListedSize(isDir, entry.size), t, i);
          return Ok((isDir, ListedSize(isDir, entry.size)));
        }
      }
      assert NotListed(world, path, t);
      r := Err(RemoteNotFound(path.normalized));
    }

    /** The kind and size of a listed child. */
    method ChildKind(child: Listed, resolved: RemotePath, ghost u: nat, ghost remote: RemotePath)
      returns (r: Result<(bool, nat), FileError>)
      requires world.resolve(u, remote) == Ok(resolved)
      modifies this`clock
      ensures !child.kind.Symlink? ==> r == Ok((child.kind.Dir?, if child.kind.Dir? then 0 else child.size))
      ensures child.kind.Symlink? && r.Ok? ==> ResolvedAs(world, remote, r.value.0, r.value.1)
      ensures r.Err? ==> DeviceFailed(world, norm, r.error)
    {
      match DirFlag(child.kind)
      case Some(isDir) => r := Ok((isDir, ListedSize(isDir, child.size)));
      case None => r := Classify(resolved, u, remote);
    }

    method PushTree(remote: RemotePath, parentRel: string, isDir: bool, size: nat, depth: nat)
      returns (error: Option<FileError>)
      requires Valid() && SettledBut(remote.normalized) && Named(remote)
      requires depth <= MAX_TREE_DEPTH && (if parentRel == [] then depth == 0 else Depth(parentRel) == depth - 1)
      requires
        var e := TreeEntry(remote.normalized, JoinRelative(parentRel, FileName(remote)), isDir, size);
        || Dragged(world, norm, raws, e)
        || exists j :: 0 <= j < |out| && ChildOf(world, norm, out[j], e)
      modifies this`clock, this`out, this`seen
      ensures error.None? ==> Valid() && Settled()
      ensures error.None? ==> old(out) <= out && HasRemote(out, remote.normalized)
      ensures error.None? ==> AllExpanded(world, norm, out, |old(out)|)
      ensures error.Some? ==> HasCause(world, norm, raws, error.value)
      decreases MAX_TREE_DEPTH - depth, 2
    {
      ghost var entry := TreeEntry(remote.normalized, JoinRelative(parentRel, FileName(remote)), isDir, size);
      JoinedDepth(parentRel, FileName(remote), depth);
      error := TreeBounds(isDir, depth, |out|);
      if error.Some? {
        BoundsHaveCause(world, norm, raws, out, entry, depth);
        return;
      }
      var name := FileName(remote);
      if name == [] {
        return Some(NoEntryName(remote.normalized));
      }
      var relative := JoinRelative(parentRel, name);
      var e := TreeEntry(remote.normalized, relative, isDir, size);
      EntryPlaced(world, norm, raws, out, e);
      out := out + [e];
      assert HasRemote(out, remote.normalized) by { assert out[|out| - 1] == e; }
      assert Settled() by { HasRemoteAfter(old(out), e); }
      if !isDir {
        return None;
      }
      error := PushChildren(e, relative, depth);
      if error.None? {
        ExpandedBehind(world, norm, old(out), e, out);
      }
    }

    method PushChildren(parent: TreeEntry, relative: string, depth: nat) returns (error: Option<FileError>)
      requires Valid() && Settled() && out != [] && out[|out| - 1] == parent
      requires parent.isDir && parent.relative == relative && relative != []
      requires depth < MAX_TREE_DEPTH && Depth(relative) == depth
      modifies this`clock, this`out, this`seen
      ensures error.None? ==> Valid() && Settled()
      ensures error.None? ==> old(out) <= out && Expanded(world, norm, out, parent.remote)
      ensures error.None? ==> AllExpanded(world, norm, out, |old(out)|)
      ensures error.Some? ==> HasCause(world, norm, raws, error.value)
      decreases MAX_TREE_DEPTH - depth, 1
    {
      var at := |out| - 1;
      var t, children := List(parent.remote);
      if children.Err? {
        return Some(children.error);
      }
      for i := 0 to |children.value|
        invariant Valid() && Settled() && old(out) <= out
        invariant AllExpanded(world, norm, out, |old(out)|)
        invariant forall k :: 0 <= k < i ==> ChildStands(norm, out, parent.remote, children.value[k])
      {
        ghost var before := out;
        error := PushChild(parent, at, relative, t, children.value[i], depth);
        if error.Some? {
          return;
        }
        StandingStays(norm, before, out, parent.remote, children.value[..i]);
        ExpansionsStay(world, norm, before, out, |old(out)|);
      }
      assert ExpandedAt(world, norm, out, parent.remote, t);
      error := None;
    }

    method PushChild(parent: TreeEntry, ghost at: nat, relative: string, ghost t: nat, child: Listed, depth: nat)
      returns (error: Option<FileError>)
      requires Valid() && Settled() && at < |out| && out[at] == parent
      requires parent.isDir && parent.relative == relative && relative != []
      requires depth < MAX_TREE_DEPTH && Depth(relative) == depth
      requires world.list(t, parent.remote).Ok? && child in world.list(t, parent.remote).value
      modifies this`clock, this`out, this`seen
      ensures error.None? ==> Valid() && Settled()
      ensures error.None? ==> old(out) <= out && ChildStands(norm, out, parent.remote, child)
      ensures error.None? ==> AllExpanded(world, norm, out, |old(out)|)
      ensures error.Some? ==> HasCause(world, norm, raws, error.value)
      decreases MAX_TREE_DEPTH - depth, 0
    {
      if world.cancelled(clock) {
        return Some(Cancelled);
      }
      var path := norm(JoinPath(parent.remote, child.name));
      if path.Err? {
        return Some(path.error);
      }
      var first := ClaimRemote(path.value.normalized);
      if !first {
        return None;
      }
      ghost var u := clock;
      var resolved := Resolve(path.value);
      if resolved.Err? {
        return Some(resolved.error);
      }
      var kind := ChildKind(child, resolved.value, u, path.value);
      if kind.Err? {
        return Some(kind.error);
      }
      var (isDir, size) := kind.value;
      ghost var e := TreeEntry(path.value.normalized, JoinRelative(relative, FileName(path.value)), isDir, size);
      assert ListedAs(world, norm, parent.remote, e, t, child);
      assert ChildOf(world, norm, out[at], e);
      error := PushTree(path.value, relative, isDir, size, depth + 1);
    }
  }

  lemma BoundsHaveCause(
    world: World, norm: Normalizer, raws: seq<string>, out: seq<TreeEntry>, e: TreeEntry, depth: nat
  )
    requires Grown(world, norm, raws, out) && TreeBounds(e.isDir, depth, |out|).Some? && Depth(e.relative) == depth
    requires depth > 0 ==> exists j :: 0 <= j < |out| && ChildOf(world, norm, out[j], e)
    ensures HasCause(world, norm, raws, TreeBounds(e.isDir, depth, |out|).value)
  {
  }

  lemma JoinedDepth(parentRel: string, name: string, depth: nat)
    requires name != [] && forall i :: 0 <= i < |name| ==> name[i] != '/'
    requires if parentRel == [] then depth == 0 else Depth(parentRel) == depth - 1
    ensures Depth(JoinRelative(parentRel, name)) == depth
  {
    SplitNone(name, Is('/'));
    if parentRel != [] {
      SplitAppend(parentRel, '/', name, Is('/'));
    }
  }

  lemma EntryPlaced(world: World, norm: Normalizer, raws: seq<string>, out: seq<TreeEntry>, e: TreeEntry)
    requires Grown(world, norm, raws, out) && |out| < MAX_TREE_ENTRIES
    requires DepthFits(e) && !HasRemote(out, e.remote)
    requires Dragged(world, norm, raws, e) || exists j :: 0 <= j < |out| && ChildOf(world, norm, out[j], e)
    ensures Grown(world, norm, raws, out + [e])
  {
    var longer := out + [e];
    forall i | 0 <= i < |longer| ensures Placed(world, norm, raws, longer, i) {
      if i < |out| {
        assert Placed(world, norm, raws, out, i);
        if !Dragged(world, norm, raws, out[i]) {
          var j :| 0 <= j < i && ChildOf(world, norm, out[j], out[i]);
          assert longer[j] == out[j];
        }
      } else if !Dragged(world, norm, raws, e) {
        var j :| 0 <= j < |out| && ChildOf(world, norm, out[j], e);
        assert longer[j] == out[j];
      }
    }
  }

  lemma HasRemoteAfter(out: seq<TreeEntry>, e: TreeEntry)
    ensures forall r :: HasRemote(out + [e], r) <==> r == e.remote || HasRemote(out, r)
  {
    var longer := out + [e];
    forall r ensures HasRemote(longer, r) <==> r == e.remote || HasRemote(out, r) {
      if HasRemote(out, r) {
        var i :| 0 <= i < |out| && out[i].remote == r;
        assert longer[i].remote == r;
      }
      assert longer[|out|] == e;
    }
  }

  lemma RemoteStays(before: seq<TreeEntry>, after: seq<TreeEntry>, r: string)
    requires before <= after && HasRemote(before, r)
    ensures HasRemote(after, r)
  {
  }

  lemma StandingStays(norm: Normalizer, before: seq<TreeEntry>, after: seq<TreeEntry>, remote: string, children: seq<Listed>)
    requires before <= after
    requires forall k :: 0 <= k < |children| ==> ChildStands(norm, before, remote, children[k])
    ensures forall k :: 0 <= k < |children| ==> ChildStands(norm, after, remote, children[k])
  {
  }

  lemma ExpandedBehind(world: World, norm: Normalizer, before: seq<TreeEntry>, e: TreeEntry, after: seq<TreeEntry>)
    requires before + [e] <= after
    requires Expanded(world, norm, after, e.remote) && AllExpanded(world, norm, after, |before| + 1)
    ensures AllExpanded(world, norm, after, |before|)
  {
  }

  lemma ExpansionsStay(world: World, norm: Normalizer, before: seq<TreeEntry>, after: seq<TreeEntry>, from: nat)
    requires before <= after && from <= |before|
    requires AllExpanded(world, norm, before, from) && AllExpanded(world, norm, after, |before|)
    ensures AllExpanded(world, norm, after, from)
  {
    forall i | from <= i < |after| && after[i].isDir ensures Expanded(world, norm, after, after[i].remote) {
      if i < |before| {
        var remote := before[i].remote;
        assert Expanded(world, norm, before, remote);
        var t: nat :| ExpandedAt(world, norm, before, remote, t);
        forall c | c in world.list(t, remote).value ensures ChildStands(norm, after, remote, c) {
          assert ChildStands(norm, before, remote, c);
          RemoteStays(before, after, norm(JoinPath(remote, c.name)).value.normalized);
        }
        assert ExpandedAt(world, norm, after, remote, t);
      }
    }
  }

  /** The list stands for `raw`. */
  ghost predicate RootStands(norm: Normalizer, out: seq<TreeEntry>, raw: string) {
    norm(raw).Ok? && HasRemote(out, norm(raw).value.normalized)
  }

  function FirstOf(raws: seq<string>): string {
    if raws == [] then [] else raws[0]
  }

  method ExpandAll(world: World, norm: Normalizer, remotes: seq<string>)
    returns (r: Result<seq<TreeEntry>, FileError>)
    requires NamesAll(norm)
    ensures r.Ok? ==> r.value != [] && Grown(world, norm, remotes, r.value)
    ensures r.Ok? ==> AllExpanded(world, norm, r.value, 0)
    ensures r.Err? ==> HasCause(world, norm, remotes, r.error) || (remotes == [] && r.error.EmptyTree?)
    ensures r.Ok? ==> forall raw :: raw in remotes ==> RootStands(norm, r.value, raw)
  {
    var tree := new Expansion(world, norm, remotes);
    for i := 0 to |remotes|
      invariant fresh(tree) && tree.world == world && tree.norm == norm && tree.raws == remotes
      invariant tree.Valid() && tree.Settled()
      invariant AllExpanded(world, norm, tree.out, 0)
      invariant forall k :: 0 <= k < i ==> RootStands(norm, tree.out, remotes[k])
    {
      ghost var before := tree.out;
      var error := PushRoot(tree, remotes[i]);
      if error.Some? {
        return Err(error.value);
      }
      RootsStay(norm, before, tree.out, remotes[..i]);
      ExpansionsStay(world, norm, before, tree.out, 0);
    }
    if tree.out == [] {
      return Err(EmptyTree(FirstOf(remotes)));
    }
    r := Ok(tree.out);
  }

  /** A list that comes back is never empty and never over the limit. Nothing stands in it twice,
      nothing stands in it that was neither dragged nor listed by a directory before it, no directory
      lies at the deepest level, and nothing that was dragged or listed is missing. */
  method ListTree(world: World, safety: SafetyRoot, remotes: seq<string>)
    returns (r: Result<seq<TreeEntry>, FileError>)
    ensures r.Ok? ==> r.value != [] && Grown(world, NormalizerOf(safety), remotes, r.value)
    ensures r.Ok? ==> AllExpanded(world, NormalizerOf(safety), r.value, 0)
    ensures r.Err? ==>
      HasCause(world, NormalizerOf(safety), remotes, r.error) || (remotes == [] && r.error.EmptyTree?)
    ensures r.Ok? ==> forall raw :: raw in remotes ==> RootStands(NormalizerOf(safety), r.value, raw)
  {
    NormalizedIsNamed(safety);
    r := ExpandAll(world, NormalizerOf(safety), remotes);
  }

  method PushRoot(tree: Expansion, raw: string) returns (error: Option<FileError>)
    requires tree.Valid() && tree.Settled() && raw in tree.raws
    modifies tree`clock, tree`out, tree`seen
    ensures error.None? ==> tree.Valid() && tree.Settled()
    ensures error.None? ==> old(tree.out) <= tree.out && RootStands(tree.norm, tree.out, raw)
    ensures error.None? ==> AllExpanded(tree.world, tree.norm, tree.out, |old(tree.out)|)
    ensures error.Some? ==> HasCause(tree.world, tree.norm, tree.raws, error.value)
  {
    var path := tree.norm(raw);
    if path.Err? {
      return Some(path.error);
    }
    var first := tree.ClaimRemote(path.value.normalized);
    if !first {
      return None;
    }
    ghost var u := tree.clock;
    var resolved := tree.Resolve(path.value);
    if resolved.Err? {
      return Some(resolved.error);
    }
    var kind := tree.Classify(resolved.value, u, path.value);
    if kind.Err? {
      return Some(kind.error);
    }
    var (isDir, size) := kind.value;
    error := tree.PushTree(path.value, [], isDir, size, 0);
  }

  lemma RootsStay(norm: Normalizer, before: seq<TreeEntry>, after: seq<TreeEntry>, raws: seq<string>)
    requires before <= after
    requires forall k :: 0 <= k < |raws| ==> RootStands(norm, before, raws[k])
    ensures forall k :: 0 <= k < |raws| ==> RootStands(norm, after, raws[k])
  {
  }

  // ---------- where the relative path leads ----------

  /** The relative path is the remote path from the dragged entry's own name on. */
  ghost predicate SpelledFrom(root: RemotePath, e: TreeEntry) {
    var segs := Segs(RemotePath(e.remote));
    Segs(root) != [] && Segs(root) <= segs && e.relative == Join(segs[|Segs(root)| - 1..], '/')
  }

  lemma {:induction false} JoinConcat(a: seq<string>, b: seq<string>, sep: char)
    requires a != [] && b != []
    ensures Join(a + b, sep) == Join(a, sep) + [sep] + Join(b, sep)
    decreases |a|
  {
    assert (a + b)[1..] == a[1..] + b;
    if |a| > 1 {
      JoinConcat(a[1..], b, sep);
    } else {
      assert a[1..] + b == b;
    }
  }

  lemma JoinIsLast(parts: seq<string>, sep: char)
    requires parts != []
    ensures Join(parts, sep) == parts[|parts| - 1] <==> |parts| == 1
  {
    if |parts| > 1 {
      var init, last := parts[..|parts| - 1], parts[|parts| - 1];
      assert parts == init + [last];
      JoinAppend(init, last, sep);
    }
  }

  lemma FileNameIsLast(p: RemotePath)
    requires IsNormal(p) && Segs(p) != []
    ensures FileName(p) == Segs(p)[|Segs(p)| - 1]
  {
    var segs := Segs(p);
    var init, last := segs[..|segs| - 1], segs[|segs| - 1];
    assert segs == init + [last] && IsSegment(last);
    JoinedTakesApart(init, last);
  }

  /** Joining only the last of the added segments gives the whole only if one was added. */
  lemma LastOfKept(segs: seq<string>, kept: seq<string>, m: nat)
    requires m < |segs| && kept != []
    ensures Join((segs + kept)[m..], '/') == Join(segs[m..], '/') + ['/'] + kept[|kept| - 1] <==> |kept| == 1
  {
    assert (segs + kept)[m..] == segs[m..] + kept;
    JoinConcat(segs[m..], kept, '/');
    JoinIsLast(kept, '/');
    SameTail(Join(segs[m..], '/') + ['/'], Join(kept, '/'), kept[|kept| - 1]);
  }

  /** Below a directory whose relative path spells its remote path, a child's does exactly if its
      listed name adds a single segment. */
  lemma ChildSpelledIff(root: RemotePath, parent: TreeEntry, e: TreeEntry, kept: seq<string>)
    requires SpelledFrom(root, parent) && kept != []
    requires Segs(RemotePath(e.remote)) == Segs(RemotePath(parent.remote)) + kept
    requires e.relative == parent.relative + ['/'] + kept[|kept| - 1]
    ensures SpelledFrom(root, e) <==> |kept| == 1
  {
    LastOfKept(Segs(RemotePath(parent.remote)), kept, |Segs(root)| - 1);
  }

  /** A listed child lies below its directory by the segments of the listed name. */
  lemma ChildSegments(p: RemotePath, q: RemotePath, name: string)
    requires IsNormal(p) && ParsePath(JoinPath(p.normalized, name)) == Ok(q) && p != q
    ensures KeptOf(name).Some? && KeptOf(name).value != [] && Segs(q) == Segs(p) + KeptOf(name).value
    ensures FileName(q) == KeptOf(name).value[|KeptOf(name).value| - 1]
  {
    JoinedBelow(p, name);
    ParseOutcome(JoinPath(p.normalized, name));
    SameSegmentsSamePath(p, q);
    assert Segs(p) + [] == Segs(p);
    FileNameIsLast(q);
  }

  lemma SameTail(head: string, a: string, b: string)
    ensures head + a == head + b <==> a == b
  {
    if head + a == head + b {
      assert a == (head + a)[|head|..] == (head + b)[|head|..] == b;
    }
  }

  /** The number of segments that a listed name adds to its directory's path. */
  function Adds(name: string): nat {
    match KeptOf(name)
    case None => 0
    case Some(kept) => |kept|
  }

  /** `e` is what directory `parent` listed at moment `t` as `c`, one level further down. */
  ghost predicate Below(world: World, norm: Normalizer, parent: TreeEntry, e: TreeEntry, t: nat, c: Listed) {
    && ListedAs(world, norm, parent.remote, e, t, c) && e.remote != parent.remote
    && e.relative == parent.relative + ['/'] + FileName(RemotePath(e.remote))
  }

  /** A listed entry below a directory whose relative path spells its remote path has that property
      too exactly if its listed name adds a single segment. */
  lemma ListedSpelledIff(
    world: World, safety: SafetyRoot, root: RemotePath, parent: TreeEntry, e: TreeEntry, t: nat, c: Listed
  )
    requires IsNormal(RemotePath(parent.remote)) && SpelledFrom(root, parent)
    requires Below(world, NormalizerOf(safety), parent, e, t, c)
    ensures SpelledFrom(root, e) <==> Adds(c.name) == 1
  {
    PassedIsNormal(safety, JoinPath(parent.remote, c.name));
    ChildSegments(RemotePath(parent.remote), RemotePath(e.remote), c.name);
    ChildSpelledIff(root, parent, e, KeptOf(c.name).value);
  }

  lemma BackslashAddsTwo()
    ensures KeptOf("a\\b") == Some(["a", "b"]) && Adds("a\\b") == 2
  {
    assert PosixSlashes("a\\b") == "a" + ['/'] + "b";
    SplitAt("a", '/', "b", Is('/'));
    SplitNone("b", Is('/'));
    assert IsSegment("a") && IsSegment("b");
    SegmentsAreNonEmpty(["a", "b"]);
  }

  /** A file named `a\b` on the device is one entry whose remote path has two segments more than its
      directory, and whose relative path has one. */
  lemma BackslashStrays(
    world: World, safety: SafetyRoot, root: RemotePath, parent: TreeEntry, e: TreeEntry, t: nat, size: nat
  )
    requires IsNormal(RemotePath(parent.remote)) && SpelledFrom(root, parent)
    requires Below(world, NormalizerOf(safety), parent, e, t, Listed("a\\b", File, size))
    ensures !SpelledFrom(root, e)
  {
    BackslashAddsTwo();
    ListedSpelledIff(world, safety, root, parent, e, t, Listed("a\\b", File, size));
  }

  // ---------- an expansion in which it strays ----------

  /** Nothing changes and no link leads anywhere; directory `dir` holds a file named `a\b` and nothing
      else, and every other directory holds `dir`. */
  function BackslashWorld(dir: RemotePath, size: nat): World {
    World(
      (t, path) => Ok([if path == dir.normalized then Listed("a\\b", File, size) else Listed(FileName(dir), Dir, 0)]),
      (t, path) => Ok(path),
      t => false)
  }

  /** Where a path may be changed, so may what lies below it under an allowed name. */
  lemma BelowMayBeChanged(safety: SafetyRoot, dir: RemotePath, p: RemotePath, more: seq<string>)
    requires NormalizeMut(safety, dir.normalized) == Ok(dir) && ParsePath(p.normalized) == Ok(p)
    requires IsNormal(dir) && IsNormal(p) && Segs(p) == Segs(dir) + more && more != []
    requires ValidateEntryName(FileName(p)).None?
    ensures NormalizeMut(safety, p.normalized) == Ok(p)
  {
    HasSegments(safety, dir);
    SlashedAppend(Segs(dir), more);
    var root :| root in safety.roots && IsStrictlyUnder(dir, root);
    assert IsStrictlyUnder(p, root);
  }

  lemma HasSegments(safety: SafetyRoot, dir: RemotePath)
    requires NormalizeMut(safety, dir.normalized) == Ok(dir)
    ensures IsNormal(dir) && Segs(dir) != [] && Named(dir)
  {
    PassedIsNormal(safety, dir.normalized);
    PassedHasName(safety, dir.normalized);
    RootHasNoSegments(dir);
    RootHasNoParent();
  }

  lemma HeldBelow(dir: RemotePath) returns (up: string)
    requires IsNormal(dir) && Segs(dir) != []
    ensures ParentOf(dir.normalized) == Some(up) && up != dir.normalized
  {
    var segs := Segs(dir);
    var init, last := segs[..|segs| - 1], segs[|segs| - 1];
    assert segs == init + [last] && IsSegment(last);
    JoinedTakesApart(init, last);
    up := PathText(init);
    TextHasSegments(init);
  }

  /** The path of the file that `dir` lists. */
  lemma BackslashPath(safety: SafetyRoot, dir: RemotePath) returns (p: RemotePath)
    requires NormalizeMut(safety, dir.normalized) == Ok(dir)
    ensures NormalizeMut(safety, JoinPath(dir.normalized, "a\\b")) == Ok(p) && p != dir
  {
    HasSegments(safety, dir);
    BackslashAddsTwo();
    JoinedBelow(dir, "a\\b");
    ParseOutcome(JoinPath(dir.normalized, "a\\b"));
    p := ParsePath(JoinPath(dir.normalized, "a\\b")).value;
    FileNameIsLast(p);
    SameSegmentsSamePath(p, dir);
    NormalIsFixed(p);
    BIsAllowed();
    BelowMayBeChanged(safety, dir, p, ["a", "b"]);
    SamePathPasses(safety, JoinPath(dir.normalized, "a\\b"), p);
  }

  lemma BIsAllowed()
    ensures ValidateEntryName("b").None?
  {
    assert Trim("b") == "b";
  }

  lemma SamePathPasses(safety: SafetyRoot, raw: string, p: RemotePath)
    requires ParsePath(raw) == Ok(p) == ParsePath(p.normalized)
    ensures NormalizeMut(safety, raw) == NormalizeMut(safety, p.normalized)
  {
  }

  lemma BackslashDragged(norm: Normalizer, dir: RemotePath, size: nat, up: string)
    requires norm(dir.normalized) == Ok(dir)
    requires ParentOf(dir.normalized) == Some(up) && up != dir.normalized
    ensures Dragged(BackslashWorld(dir, size), norm, [dir.normalized], TreeEntry(dir.normalized, FileName(dir), true, 0))
  {
    assert ClassifiedAs(BackslashWorld(dir, size), dir, true, 0, 0, 0);
    assert BackslashWorld(dir, size).resolve(0, dir) == Ok(dir);
    assert dir.normalized in [dir.normalized];
  }

  lemma BackslashGrows(norm: Normalizer, dir: RemotePath, size: nat, p: RemotePath, parent: TreeEntry, e: TreeEntry)
    requires norm(JoinPath(dir.normalized, "a\\b")) == Ok(p) && p != dir && Named(p) && Named(dir)
    requires parent == TreeEntry(dir.normalized, FileName(dir), true, 0)
    requires e == TreeEntry(p.normalized, FileName(dir) + ['/'] + FileName(p), false, size)
    requires Dragged(BackslashWorld(dir, size), norm, [dir.normalized], parent)
    ensures Grown(BackslashWorld(dir, size), norm, [dir.normalized], [parent, e])
    ensures AllExpanded(BackslashWorld(dir, size), norm, [parent, e], 0)
    ensures Below(BackslashWorld(dir, size), norm, parent, e, 0, Listed("a\\b", File, size))
  {
    var world, out, c := BackslashWorld(dir, size), [parent, e], Listed("a\\b", File, size);
    JoinedDepth([], FileName(dir), 0);
    JoinedDepth(FileName(dir), FileName(p), 1);
    assert ListedAs(world, norm, dir.normalized, e, 0, c);
    assert ChildOf(world, norm, out[0], out[1]);
    assert out[1].remote == p.normalized;
    assert ExpandedAt(world, norm, out, dir.normalized, 0);
  }

  /** Wherever a directory may be dragged at all there is such an expansion: the directory and its one
      file are the whole list, and the file's relative path does not spell its remote path. */
  lemma BackslashStraysSomewhere(safety: SafetyRoot, dir: RemotePath, size: nat)
    returns (parent: TreeEntry, e: TreeEntry)
    requires NormalizeMut(safety, dir.normalized) == Ok(dir)
    ensures Grown(BackslashWorld(dir, size), NormalizerOf(safety), [dir.normalized], [parent, e])
    ensures AllExpanded(BackslashWorld(dir, size), NormalizerOf(safety), [parent, e], 0)
    ensures SpelledFrom(dir, parent) && !SpelledFrom(dir, e)
  {
    var world, norm := BackslashWorld(dir, size), NormalizerOf(safety);
    HasSegments(safety, dir);
    var up := HeldBelow(dir);
    var p := BackslashPath(safety, dir);
    PassedHasName(safety, JoinPath(dir.normalized, "a\\b"));
    parent := TreeEntry(dir.normalized, FileName(dir), true, 0);
    e := TreeEntry(p.normalized, FileName(dir) + ['/'] + FileName(p), false, size);
    BackslashDragged(norm, dir, size, up);
    BackslashGrows(norm, dir, size, p, parent, e);
    NamedIsSpelled(dir, parent);
    BackslashStrays(world, safety, dir, parent, e, 0, size);
  }


  // ---------- the way down from what was dragged ----------

  /** Entries one below the other, and for each step what was listed. */
  datatype Way = Way(entries: seq<TreeEntry>, steps: seq<(nat, Listed)>)

  function Last(way: Way): TreeEntry
    requires way.entries != []
  {
    way.entries[|way.entries| - 1]
  }

  /** The way without its last step. */
  function Upper(way: Way): Way
    requires |way.entries| == |way.steps| + 1 && way.steps != []
  {
    Way(way.entries[..|way.steps|], way.steps[..|way.steps| - 1])
  }

  ghost predicate LeadsDown(world: World, norm: Normalizer, way: Way)
    decreases |way.steps|
  {
    && |way.entries| == |way.steps| + 1
    && (way.steps != [] ==>
          && LeadsDown(world, norm, Upper(way))
          && var (t, c) := way.steps[|way.steps| - 1];
             Below(world, norm, Last(Upper(way)), Last(way), t, c))
  }

  function AddsAll(steps: seq<(nat, Listed)>): nat {
    if steps == [] then 0 else AddsAll(steps[..|steps| - 1]) + Adds(steps[|steps| - 1].1.name)
  }

  ghost predicate AllSingle(steps: seq<(nat, Listed)>) {
    forall step :: step in steps ==> Adds(step.1.name) == 1
  }

  /** The entry of a dragged path. */
  ghost predicate StandsFor(e: TreeEntry, root: RemotePath) {
    IsNormal(root) && Named(root) && e.remote == root.normalized && e.relative == FileName(root)
  }

  ghost predicate BeginsAt(way: Way, root: RemotePath) {
    way.entries != [] && StandsFor(way.entries[0], root)
  }

  /** What a way down adds to path and depth. */
  ghost predicate Measures(way: Way, root: RemotePath) {
    && way.entries != []
    && var segs := Segs(RemotePath(Last(way).remote));
       && IsNormal(RemotePath(Last(way).remote)) && Segs(root) != []
       && Segs(root) <= segs && |segs| == |Segs(root)| + AddsAll(way.steps)
       && Last(way).relative != [] && Depth(Last(way).relative) == |way.steps|
       && AddsAll(way.steps) >= |way.steps|
       && (AddsAll(way.steps) == |way.steps| <==> AllSingle(way.steps))
  }

  lemma WayBegins(way: Way, root: RemotePath)
    requires |way.entries| == 1 && way.steps == [] && BeginsAt(way, root)
    ensures Measures(way, root) && SpelledFrom(root, Last(way))
  {
    NamedIsSpelled(root, way.entries[0]);
    JoinedDepth([], FileName(root), 0);
  }

  lemma StepMeasures(world: World, safety: SafetyRoot, root: RemotePath, up: Way, e: TreeEntry, t: nat, c: Listed)
    requires Measures(up, root) && Below(world, NormalizerOf(safety), Last(up), e, t, c)
    ensures Measures(Way(up.entries + [e], up.steps + [(t, c)]), root)
  {
    var p, q := RemotePath(Last(up).remote), RemotePath(e.remote);
    PassedIsNormal(safety, JoinPath(Last(up).remote, c.name));
    PassedHasName(safety, JoinPath(Last(up).remote, c.name));
    ChildSegments(p, q, c.name);
    JoinedDepth(Last(up).relative, FileName(q), |up.steps| + 1);
    AddsGrow(up.steps, (t, c));
    assert Last(Way(up.entries + [e], up.steps + [(t, c)])) == e;
  }

  lemma AddsGrow(steps: seq<(nat, Listed)>, step: (nat, Listed))
    requires AddsAll(steps) >= |steps| && (AddsAll(steps) == |steps| <==> AllSingle(steps))
    requires Adds(step.1.name) >= 1
    ensures var more := steps + [step];
            && AddsAll(more) == AddsAll(steps) + Adds(step.1.name) >= |more|
            && (AddsAll(more) == |more| <==> AllSingle(more))
  {
    var more := steps + [step];
    assert more[..|more| - 1] == steps;
    if AllSingle(more) {
      assert forall s :: s in steps ==> s in more;
      assert step in more;
    }
  }

  lemma WayInTwo(way: Way)
    requires |way.entries| == |way.steps| + 1 && way.steps != []
    ensures Upper(way).entries[0] == way.entries[0]
    ensures way == Way(Upper(way).entries + [Last(way)], Upper(way).steps + [way.steps[|way.steps| - 1]])
  {
  }

  lemma {:induction false} WayMeasures(world: World, safety: SafetyRoot, root: RemotePath, way: Way)
    requires LeadsDown(world, NormalizerOf(safety), way) && BeginsAt(way, root)
    ensures Measures(way, root)
    decreases |way.steps|
  {
    if way.steps == [] {
      WayBegins(way, root);
    } else {
      WayInTwo(way);
      var step := way.steps[|way.steps| - 1];
      WayMeasures(world, safety, root, Upper(way));
      StepMeasures(world, safety, root, Upper(way), Last(way), step.0, step.1);
    }
  }

  lemma {:induction false} SingleWaySpells(world: World, safety: SafetyRoot, root: RemotePath, way: Way)
    requires LeadsDown(world, NormalizerOf(safety), way) && BeginsAt(way, root) && AllSingle(way.steps)
    ensures SpelledFrom(root, Last(way))
    decreases |way.steps|
  {
    if way.steps == [] {
      WayBegins(way, root);
    } else {
      WayInTwo(way);
      var step := way.steps[|way.steps| - 1];
      SingleWaySpells(world, safety, root, Upper(way));
      WayMeasures(world, safety, root, Upper(way));
      ListedSpelledIff(world, safety, root, Last(Upper(way)), Last(way), step.0, step.1);
    }
  }

  /** A spelled relative path is as deep as its remote path is long below the dragged entry. */
  lemma SpelledDepth(root: RemotePath, e: TreeEntry)
    requires IsNormal(RemotePath(e.remote)) && SpelledFrom(root, e)
    ensures Depth(e.relative) == |Segs(RemotePath(e.remote))| - |Segs(root)|
  {
    var tail := Segs(RemotePath(e.remote))[|Segs(root)| - 1..];
    assert forall s :: s in tail ==> s in Segs(RemotePath(e.remote));
    SplitJoin(tail, '/');
  }

  /** However far down: the relative path of an entry is its remote path from the dragged entry's own
      name on exactly if every listed name on the way adds a single segment. */
  lemma WaySpelledIff(world: World, safety: SafetyRoot, root: RemotePath, way: Way)
    requires LeadsDown(world, NormalizerOf(safety), way) && BeginsAt(way, root)
    ensures SpelledFrom(root, Last(way)) <==> AllSingle(way.steps)
  {
    WayMeasures(world, safety, root, way);
    if AllSingle(way.steps) {
      SingleWaySpells(world, safety, root, way);
    }
    if SpelledFrom(root, Last(way)) {
      SpelledDepth(root, Last(way));
    }
  }

  /** Every entry of an expansion has such a way down from something that was dragged. */
  lemma {:induction false} EntryHasWay(
    world: World, safety: SafetyRoot, raws: seq<string>, out: seq<TreeEntry>, i: nat
  ) returns (way: Way, raw: string)
    requires Grown(world, NormalizerOf(safety), raws, out) && i < |out|
    ensures LeadsDown(world, NormalizerOf(safety), way) && Last(way) == out[i]
    ensures raw in raws && NormalizerOf(safety)(raw).Ok? && BeginsAt(way, NormalizerOf(safety)(raw).value)
    decreases i
  {
    var norm := NormalizerOf(safety);
    assert Placed(world, norm, raws, out, i);
    if Dragged(world, norm, raws, out[i]) {
      raw :| raw in raws && norm(raw) == Ok(RemotePath(out[i].remote));
      PassedIsNormal(safety, raw);
      PassedHasName(safety, raw);
      way := Way([out[i]], []);
    } else {
      var j :| 0 <= j < i && ChildOf(world, norm, out[j], out[i]);
      var up;
      up, raw := EntryHasWay(world, safety, raws, out, j);
      var t, c :| ListedAs(world, norm, out[j].remote, out[i], t, c);
      way := Way(up.entries + [out[i]], up.steps + [(t, c)]);
      WayExtends(world, norm, up, out[i], t, c);
    }
  }

  lemma WayExtends(world: World, norm: Normalizer, up: Way, e: TreeEntry, t: nat, c: Listed)
    requires LeadsDown(world, norm, up) && Below(world, norm, Last(up), e, t, c)
    ensures LeadsDown(world, norm, Way(up.entries + [e], up.steps + [(t, c)]))
  {
    var way := Way(up.entries + [e], up.steps + [(t, c)]);
    assert Upper(way) == up;
  }

  ghost predicate SingleNames(world: World) {
    forall t: nat, path, c :: world.list(t, path).Ok? && c in world.list(t, path).value ==> IsSegment(c.name)
  }

  ghost predicate Spelled(norm: Normalizer, raws: seq<string>, e: TreeEntry) {
    exists raw :: raw in raws && norm(raw).Ok? && SpelledFrom(norm(raw).value, e)
  }

  lemma PassedIsNormal(safety: SafetyRoot, raw: string)
    requires NormalizeMut(safety, raw).Ok?
    ensures ParsePath(raw) == Ok(NormalizeMut(safety, raw).value) && IsNormal(NormalizeMut(safety, raw).value)
  {
    ParseOutcome(raw);
  }

  lemma DraggedIsSpelled(world: World, safety: SafetyRoot, raws: seq<string>, e: TreeEntry)
    requires Dragged(world, NormalizerOf(safety), raws, e)
    ensures Spelled(NormalizerOf(safety), raws, e) && IsNormal(RemotePath(e.remote))
  {
    var norm := NormalizerOf(safety);
    var raw :| raw in raws && norm(raw) == Ok(RemotePath(e.remote));
    PassedIsNormal(safety, raw);
    NormalizedIsNamed(safety);
    NamedIsSpelled(RemotePath(e.remote), e);
    assert SpelledFrom(norm(raw).value, e);
  }

  lemma NamedIsSpelled(p: RemotePath, e: TreeEntry)
    requires IsNormal(p) && FileName(p) != [] && e.remote == p.normalized && e.relative == FileName(p)
    ensures SpelledFrom(p, e)
  {
    RootHasNoSegments(p);
    RootHasNoParent();
    FileNameIsLast(p);
    assert Segs(p)[|Segs(p)| - 1..] == [FileName(p)];
  }

  /** When every listed name is a single segment, every relative path is the remote path below the
      parent of what was dragged. */
  lemma {:induction false} RelativeSpellsRemote(
    world: World, safety: SafetyRoot, raws: seq<string>, out: seq<TreeEntry>, i: nat
  )
    requires Grown(world, NormalizerOf(safety), raws, out) && SingleNames(world) && i < |out|
    ensures Spelled(NormalizerOf(safety), raws, out[i]) && IsNormal(RemotePath(out[i].remote))
    decreases i
  {
    var norm := NormalizerOf(safety);
    assert Placed(world, norm, raws, out, i);
    if Dragged(world, norm, raws, out[i]) {
      DraggedIsSpelled(world, safety, raws, out[i]);
    } else {
      var j :| 0 <= j < i && ChildOf(world, norm, out[j], out[i]);
      RelativeSpellsRemote(world, safety, raws, out, j);
      var raw :| raw in raws && norm(raw).Ok? && SpelledFrom(norm(raw).value, out[j]);
      var t, c :| ListedAs(world, norm, out[j].remote, out[i], t, c);
      PassedIsNormal(safety, JoinPath(out[j].remote, c.name));
      SegmentKeepsItself(c.name);
      assert out[j].remote != out[i].remote;
      ChildSegments(RemotePath(out[j].remote), RemotePath(out[i].remote), c.name);
      ChildSpelledIff(norm(raw).value, out[j], out[i], [c.name]);
      assert SpelledFrom(norm(raw).value, out[i]);
    }
  }
}
