/**
  Whole runs on an overlay mount: every filesystem call, and every sequence of
  them, does to the merged tree what it would do to a plain filesystem.
*/
module OverlayRun {
  import opened Prelude
  import opened Keys
  import opened VirtualPath
  import opened OverlayState
  import opened MergedTree
  import opened RenamePlan
  import opened Overlay

  datatype Call =
    | Resolve(path: string)
    | Exists(path: string)
    | IsFileCall(path: string)
    | IsDirCall(path: string)
    | Read(path: string)
    | StatCall(path: string)
    | Iterdir(path: string)
    | Write(path: string, data: Bytes, result: int)
    | Append(path: string, data: Bytes, result: int)
    | OpenRead(path: string)
    | OpenWrite(path: string)
    | OpenAppend(path: string)
    | Mkdir(path: string, parents: bool, existOk: bool)
    | Unlink(path: string)
    | Rmdir(path: string)
    | Rename(path: string, dst: string)

  datatype Value =
    | Nothing
    | Truth(b: bool)
    | Count(n: int)
    | Data(bytes: Bytes)
    | Info(stat: Stat)
    | Listed(paths: seq<string>)
    | PathValue(path: string)

  /** What reaches a mount: routing refuses longer paths, and Go slices are shorter than 2^64 bytes. */
  predicate Admitted(call: Call) {
    && |call.path| <= PATH_MAX
    && (call.Rename? ==> |call.dst| <= PATH_MAX)
    && (call.Write? || call.Append? ==> |call.data| <= MAX_UINT64)
  }

  ghost predicate CanWrite(t: Tree, rel: string) {
    HasParents(t, rel) && !IsDir(t, rel)
  }

  ghost function ContentAt(t: Tree, rel: string): Bytes {
    if IsFile(t, rel) then t[rel].content else []
  }

  ghost predicate CanRename(t: Tree, src: string, dst: string) {
    && src != "" && dst != "" && src in t && HasParents(t, src) && HasParents(t, dst)
    && !Anc(src, dst) && (forall k | k in t :: !Anc(dst, k))
    && (dst in t ==> (IsDir(t, dst) <==> IsDir(t, src)))
  }

  /**
    One successful call on a plain filesystem holding tree t: the call was
    allowed, it answered v, and it left tree u.
  */
  ghost predicate PlainStep(virtualPath: string, t: Tree, call: Call, now: real, v: Value, u: Tree) {
    var r := ResolveVirtualPath(call.path, virtualPath);
    match call
    case Resolve(path) => v == PathValue(Normalized(path)) && u == t
    case Rename(_, dst) =>
      var d := ResolveVirtualPath(dst, virtualPath);
      && r.Rel? && d.Rel? && CanRename(t, r.key, d.key) && v == Nothing
      && forall k :: Lookup(u, k) == RenamedAt(t, r.key, d.key, k)
    case _ => r.Rel? && PlainAt(t, r.key, call, now, v, u)
  }

  ghost predicate PlainAt(t: Tree, rel: string, call: Call, now: real, v: Value, u: Tree) {
    match call
    case Exists(_) => v == Truth(rel in t) && u == t
    case IsFileCall(_) => v == Truth(IsFile(t, rel)) && u == t
    case IsDirCall(_) => v == Truth(IsDir(t, rel)) && u == t
    case Read(_) => IsFile(t, rel) && v == Data(t[rel].content) && u == t
    case StatCall(_) => rel in t && v == Info(NodeStat(t[rel])) && u == t
    case Iterdir(path) =>
      && IsDir(t, rel) && u == t
      && exists names | Distinct(names) && (forall n :: n in names <==> CleanName(n) && Child(rel, n) in t) ::
           v == Listed(ChildPaths(path, names))
    case Write(_, data, result) => CanWrite(t, rel) && v == Count(result) && u == t[rel := FileNode(data, now)]
    case Append(_, data, result) => CanWrite(t, rel) && v == Count(result) && u == t[rel := FileNode(ContentAt(t, rel) + data, now)]
    case OpenRead(_) => IsFile(t, rel) && v == Nothing && u == t
    case OpenWrite(_) => CanWrite(t, rel) && v == Nothing && u == t[rel := FileNode([], now)]
    case OpenAppend(_) => CanWrite(t, rel) && v == Nothing && u == if rel in t then t else t[rel := FileNode([], now)]
    case Mkdir(_, parents, existOk) =>
      v == Nothing &&
      if rel in t then existOk && IsDir(t, rel) && u == t
      else if parents then !FileOnChain(t, rel) && u == MkdirUpTo(t, rel, |rel| + 1, now)
      else HasParents(t, rel) && u == t[rel := DirNode(now)]
    case Unlink(_) => IsFile(t, rel) && v == Nothing && u == t - {rel}
    case Rmdir(_) => v == Nothing && rel != "" && IsDir(t, rel) && EmptyDir(t, rel) && u == t - {rel}
    case _ => false
  }

  function NodeStat(n: Node): Stat {
    match n
    case FileNode(content, mtime) => Stat(false, |content|, mtime)
    case DirNode(mtime) => Stat(true, 4096, mtime)
  }

  // ----- what stands in the way -----

  /** What a mount is configured with, and what changes while it is used. */
  datatype Settings = Settings(host: Host, virtualPath: string, memLimit: nat, writeLimit: Option<nat>)

  datatype Snap = Snap(entries: Entries, used: nat)

  ghost function SettingsOf(m: Mount): Settings {
    Settings(m.host, m.virtualPath, m.memLimit, m.writeLimit)
  }

  ghost function Now(m: Mount): Snap
    reads m`writeUsed, m.overlay`entries, m.overlay.entries.Values`value
  {
    Snap(m.overlay.Model(), m.writeUsed)
  }

  ghost function TreeOf(c: Settings, s: Snap): Tree {
    View(c.host, s.entries)
  }

  /** Whether a plain filesystem holding t would allow the call on rel. */
  ghost predicate CanAt(t: Tree, rel: string, call: Call) {
    match call
    case Read(_) => IsFile(t, rel)
    case OpenRead(_) => IsFile(t, rel)
    case StatCall(_) => rel in t
    case Iterdir(_) => IsDir(t, rel)
    case Write(_, _, _) => CanWrite(t, rel)
    case Append(_, _, _) => CanWrite(t, rel)
    case OpenWrite(_) => CanWrite(t, rel)
    case OpenAppend(_) => CanWrite(t, rel)
    case Mkdir(_, parents, existOk) =>
      if rel in t then existOk && IsDir(t, rel) else if parents then !FileOnChain(t, rel) else HasParents(t, rel)
    case Unlink(_) => IsFile(t, rel)
    case Rmdir(_) => rel != "" && IsDir(t, rel) && EmptyDir(t, rel)
    case _ => true
  }

  lemma CannotAt(t: Tree, rel: string, call: Call, now: real)
    requires !CanAt(t, rel, call)
    ensures forall v, u :: !PlainAt(t, rel, call, now, v, u)
  {
  }

  /** A new name whose host path runs through a regular file that the overlay replaced. */
  ghost predicate BlockedAt(c: Settings, m: Entries, rel: string, call: Call) {
    && (call.Write? || call.Append? || call.OpenWrite? || call.OpenAppend? || call.Mkdir?)
    && rel !in m && HostBlocked(c.host, rel)
  }

  ghost predicate ListingOver(c: Settings, m: Entries, rel: string, vpath: string) {
    && Total(m) <= c.memLimit
    && exists keys | ListedKeys(m, rel, keys) :: !ListingFits(c.host, m, rel, vpath, keys, c.memLimit - Total(m))
  }

  /** An append must fit; one that copies a file must also fit into what is free before the copy. */
  ghost predicate AppendOver(c: Settings, m: Entries, rel: string, data: Bytes, now: real) {
    var content := ContentAt(View(c.host, m), rel);
    || Total(m[rel := FileEntry(content + data, now)]) > c.memLimit
    || (!(rel in m && m[rel].FileEntry?) && |content| + |data| + Total(m) > c.memLimit)
  }

  /** The call needs more memory than the limit leaves. */
  ghost predicate MemoryAt(c: Settings, m: Entries, rel: string, call: Call, now: real) {
    var t := View(c.host, m);
    match call
    case Read(_) => IsFile(t, rel) && |t[rel].content| + Total(m) > c.memLimit
    case Iterdir(path) => IsDir(t, rel) && ListingOver(c, m, rel, path)
    case Write(_, data, _) => Total(m[rel := FileEntry(data, now)]) > c.memLimit
    case OpenWrite(_) => Total(m[rel := FileEntry([], now)]) > c.memLimit
    case OpenAppend(_) => rel !in t && Total(m[rel := FileEntry([], now)]) > c.memLimit
    case Append(_, data, _) => AppendOver(c, m, rel, data, now)
    case Mkdir(_, parents, _) =>
      rel !in t && if parents then ChainTooBig(m, t, rel, now, c.memLimit) else Total(m[rel := DirEntry(now)]) > c.memLimit
    case Unlink(_) => Total(m[rel := Tombstone]) > c.memLimit
    case Rmdir(_) => Total(m[rel := Tombstone]) > c.memLimit
    case _ => false
  }

  ghost predicate RenameOver(c: Settings, m: Entries, src: string, dst: string) {
    if IsDir(View(c.host, m), src) then
      || Total(m) > c.memLimit
      || PlanTooBig(c.host, m, src, dst, c.memLimit - Total(m))
      || Total(RenamedEntries(c.host, m, src, dst)) > c.memLimit
    else (src in m || src in c.host) && Total(m[src := Tombstone][dst := SourceEntry(c.host, m, src)]) > c.memLimit
  }

  ghost predicate MemoryOver(c: Settings, s: Snap, call: Call, now: real) {
    var r := ResolveVirtualPath(call.path, c.virtualPath);
    if call.Rename? then
      var d := ResolveVirtualPath(call.dst, c.virtualPath);
      r.Rel? && d.Rel? && RenameOver(c, s.entries, r.key, d.key)
    else r.Rel? && MemoryAt(c, s.entries, r.key, call, now)
  }

  /** The bytes a call counts as written: an append that copies a file writes the copy too. */
  ghost function WriteCharge(c: Settings, s: Snap, call: Call): nat {
    var r := ResolveVirtualPath(call.path, c.virtualPath);
    match call
    case Write(_, data, _) => |data|
    case Append(_, data, _) =>
      if r.Rel? && !(r.key in s.entries && s.entries[r.key].FileEntry?) then SatAdd(|ContentAt(TreeOf(c, s), r.key)|, |data|)
      else |data|
    case _ => 0
  }

  ghost predicate Writes(call: Call) {
    call.Write? || call.Append? || call.OpenWrite?
  }

  ghost predicate WriteOver(c: Settings, s: Snap, call: Call) {
    c.writeLimit.Some? && Writes(call) && SatAdd(s.used, WriteCharge(c, s, call)) > c.writeLimit.value
  }

  ghost function UsedAfter(c: Settings, s: Snap, call: Call): nat {
    if c.writeLimit.Some? && Writes(call) then SatAdd(s.used, WriteCharge(c, s, call)) else s.used
  }

  ghost predicate Blocked(c: Settings, s: Snap, call: Call) {
    var r := ResolveVirtualPath(call.path, c.virtualPath);
    r.Rel? && BlockedAt(c, s.entries, r.key, call)
  }

  /** The path, or a rename's other path, is rejected, or the call would remove or move the mount itself. */
  ghost predicate BadPathOf(c: Settings, call: Call, e: PathError) {
    var r := ResolveVirtualPath(call.path, c.virtualPath);
    || r == Rejected(e)
    || (call.Rename? && ResolveVirtualPath(call.dst, c.virtualPath) == Rejected(e))
    || (e == PathEscape && call.Rmdir? && r == Rel(""))
    || (e == PathEscape && call.Rename? && (r == Rel("") || ResolveVirtualPath(call.dst, c.virtualPath) == Rel("")))
  }

  /**
    Why a call may fail: the path is bad, a limit is in the way, or a plain
    filesystem would not allow it either. The one other reason is a host file
    that the overlay replaced.
  */
  ghost predicate Excused(c: Settings, s: Snap, call: Call, now: real, e: Error) {
    && (e == MemoryLimitExceeded ==> MemoryOver(c, s, call, now))
    && (e == WriteLimitExceeded ==> WriteOver(c, s, call))
    && (e.BadPath? ==> BadPathOf(c, call, e.path))
    && (e != MemoryLimitExceeded && e != WriteLimitExceeded && !Blocked(c, s, call) ==>
          forall v, u :: !PlainStep(c.virtualPath, TreeOf(c, s), call, now, v, u))
  }

  /** The one failure that leaves a trace: the chain of a parents-mkdir, made from the top as far as it fits. */
  ghost predicate PartialMkdir(c: Settings, s: Snap, call: Call, now: real, e: Error, u: Tree) {
    var r := ResolveVirtualPath(call.path, c.virtualPath);
    && call.Mkdir? && call.parents && r.Rel? && e == MemoryLimitExceeded
    && FilledUp(s.entries, TreeOf(c, s), r.key, now, c.memLimit, u)
  }

  /**
    A call succeeds exactly when nothing stands in its way, and then it does what
    a plain filesystem would do; otherwise it fails with a reason and leaves
    everything alone.
  */
  ghost predicate Refines(c: Settings, s: Snap, call: Call, now: real, r: Outcome<Value>, z: Snap) {
    && (r.Ok? ==>
          && PlainStep(c.virtualPath, TreeOf(c, s), call, now, r.value, TreeOf(c, z))
          && !MemoryOver(c, s, call, now) && !WriteOver(c, s, call) && !Blocked(c, s, call)
          && z.used == UsedAfter(c, s, call))
    && (r.Err? ==>
          && Excused(c, s, call, now, r.error) && z.used == s.used
          && (z.entries == s.entries || PartialMkdir(c, s, call, now, r.error, TreeOf(c, z))))
  }

  // ----- open -----

  /** Opening for reading checks that a file is there. */
  method OpenForRead(m: Mount, rel: string) returns (r: Outcome<Value>)
    requires m.Valid()
    ensures r == if IsFile(m.Merged(), rel) then Ok(Nothing)
                 else if IsDir(m.Merged(), rel) then Err(IsADirectory)
                 else Err(m.MissingError(rel))
  {
    hide Total, State.Indexed, Shadowed, Connected;
    var e := m.overlay.Get(rel);
    ViewLookup(m.host, m.overlay.Model(), rel);
    if e.Some? {
      assert RefOk(m.host, e.value);
      return if e.value.DirEntry? then Err(IsADirectory) else if e.value.Tombstone? then Err(NotFound) else Ok(Nothing);
    }
    match Classify(m.host, rel)
    case TargetDir => r := Err(IsADirectory);
    case TargetFile => r := Ok(Nothing);
    case TargetAbsent => r := Err(NotFound);
    case TargetBlocked => r := Err(NotADirectory);
  }

  /** Opening for appending creates a missing file and leaves an existing one as it is. */
  method EnsureAppendTarget(m: Mount, rel: string, now: real) returns (r: Outcome<Value>)
    requires m.Valid() && CleanKey(rel)
    modifies m.overlay
    ensures m.Valid() && fresh(m.overlay.entries.Values - old(m.overlay.entries.Values))
    ensures r.Err? ==> m.overlay.Model() == old(m.overlay.Model())
    ensures
      var t := old(m.Merged());
      if IsFile(t, rel) then r == Ok(Nothing) && m.Merged() == t
      else if IsDir(t, rel) then r == Err(IsADirectory)
      else if old(m.Blocked(rel)) then r == Err(NotADirectory)
      else if !HasParents(t, rel) then r == Err(NotFound)
      else if Total(old(m.overlay.Model())[rel := FileEntry([], now)]) > m.memLimit then r == Err(MemoryLimitExceeded)
      else r == Ok(Nothing) && m.Merged() == t[rel := FileNode([], now)]
  {
    hide Total, State.Indexed, Shadowed, View, HasParents, HostBlocked, WellFormedHost;
    var e := m.overlay.Get(rel);
    ViewLookup(m.host, m.overlay.Model(), rel);
    if m.Blocked(rel) { m.BlockedMeansAbsent(rel); }
    if e.Some? {
      assert RefOk(m.host, e.value);
      if e.value.DirEntry? { return Err(IsADirectory); }
      if !e.value.Tombstone? { return Ok(Nothing); }
    } else {
      match Classify(m.host, rel)
      case TargetDir => return Err(IsADirectory);
      case TargetBlocked => return Err(NotADirectory);
      case TargetFile =>
        var ok := m.EnsureParentExists(rel);
        assert HasParents(m.Merged(), rel);
        return Ok(Nothing);
      case TargetAbsent =>
    }
    var ok := m.EnsureParentExists(rel);
    if !ok { return Err(NotFound); }
    m.FileFits(rel, [], now);
    var stored := m.Store(rel, FileEntry([], now));
    r := if stored then Ok(Nothing) else Err(MemoryLimitExceeded);
  }

  // ----- dispatch -----

  predicate IsQuery(call: Call) {
    call.Exists? || call.IsFileCall? || call.IsDirCall? || call.Read? || call.StatCall? || call.Iterdir? || call.OpenRead?
  }

  /** What a call on a resolved key promises. */
  ghost predicate RefinesAt(c: Settings, m: Entries, rel: string, call: Call, now: real, r: Outcome<Value>, n: Entries) {
    var t, u := View(c.host, m), View(c.host, n);
    && (r.Ok? ==>
          PlainAt(t, rel, call, now, r.value, u) && !MemoryAt(c, m, rel, call, now) && !BlockedAt(c, m, rel, call))
    && (r.Err? ==>
          && r.error != WriteLimitExceeded
          && (r.error == MemoryLimitExceeded ==> MemoryAt(c, m, rel, call, now))
          && (r.error.BadPath? ==> r.error.path == PathEscape && call.Rmdir? && rel == "")
          && (r.error != MemoryLimitExceeded ==> !CanAt(t, rel, call) || BlockedAt(c, m, rel, call))
          && (n == m || (call.Mkdir? && call.parents && r.error == MemoryLimitExceeded && FilledUp(m, t, rel, now, c.memLimit, u))))
  }

  /** The calls that only look. */
  method Query(m: Mount, call: Call, rel: string, now: real) returns (r: Outcome<Value>)
    requires m.Valid() && IsQuery(call)
    ensures RefinesAt(SettingsOf(m), m.overlay.Model(), rel, call, now, r, m.overlay.Model())
  {
    hide Total, State.Indexed, Inv, View, WellFormedHost, HasParents, ChildPaths, EmptyDir, MkdirUpTo, FileOnChain, HostBlocked, ListingOver;
    match call
    case Exists(_) => var b := m.Exists(rel); r := Ok(Truth(b));
    case IsFileCall(_) => var b := m.IsFileAt(rel); r := Ok(Truth(b));
    case IsDirCall(_) => var b := m.IsDirAt(rel); r := Ok(Truth(b));
    case Read(_) => var o := m.Read(rel); r := if o.Ok? then Ok(Data(o.value)) else Err(o.error);
    case StatCall(_) => var o := m.StatAt(rel); r := if o.Ok? then Ok(Info(o.value)) else Err(o.error);
    case Iterdir(path) =>
      var o, names := m.Iterdir(rel, path);
      r := if o.Ok? then Ok(Listed(o.value)) else Err(o.error);
      if IsDir(m.Merged(), rel) { ListingDecided(m, rel, path, o.Ok?); }
    case OpenRead(_) => r := OpenForRead(m, rel);
  }

  /** There is one list of keys to charge, so one answer. */
  lemma ListingDecided(m: Mount, rel: string, vpath: string, fits: bool)
    requires m.Valid()
    requires exists keys | ListedKeys(m.overlay.Model(), rel, keys) ::
               fits <==> ListingFits(m.host, m.overlay.Model(), rel, vpath, keys, m.AvailableMemory())
    ensures fits <==> !ListingOver(SettingsOf(m), m.overlay.Model(), rel, vpath)
  {
    hide Total, State.Indexed, Inv, View, WellFormedHost, ListingFits;
    var mine :| ListedKeys(m.overlay.Model(), rel, mine) &&
                (fits <==> ListingFits(m.host, m.overlay.Model(), rel, vpath, mine, m.AvailableMemory()));
    forall keys | ListedKeys(m.overlay.Model(), rel, keys) ensures keys == mine {
      SortedUnique(keys, mine);
    }
  }

  lemma VisibleParents(m: Mount, rel: string)
    requires m.Valid() && rel in m.Merged()
    ensures HasParents(m.Merged(), rel)
  {
  }

  /** The calls that change one place of the tree, given its resolved key. */
  method Change(m: Mount, call: Call, rel: string, now: real) returns (r: Outcome<Value>)
    requires m.Valid() && CleanKey(rel)
    requires call.Unlink? || call.Rmdir? || call.OpenAppend?
    modifies m.overlay
    ensures m.Valid() && fresh(m.overlay.entries.Values - old(m.overlay.entries.Values))
    ensures RefinesAt(SettingsOf(m), old(m.overlay.Model()), rel, call, now, r, m.overlay.Model())
  {
    hide Total, State.Indexed, Inv, View, WellFormedHost, HasParents, ChildPaths, EmptyDir, MkdirUpTo, FileOnChain, HostBlocked, ChainTooBig, FilledUp, ListingOver, AppendOver;
    match call
    case Unlink(_) => var o := m.Unlink(rel); r := if o.Ok? then Ok(Nothing) else Err(o.error);
    case Rmdir(_) => var o := m.Rmdir(rel); r := if o.Ok? then Ok(Nothing) else Err(o.error);
    case OpenAppend(_) =>
      if rel in m.Merged() { VisibleParents(m, rel); }
      if m.Blocked(rel) { m.BlockedMeansAbsent(rel); }
      r := EnsureAppendTarget(m, rel, now);
  }

  method MakeDirectory(m: Mount, call: Call, rel: string, now: real) returns (r: Outcome<Value>)
    requires m.Valid() && CleanKey(rel) && call.Mkdir?
    modifies m.overlay
    ensures m.Valid() && fresh(m.overlay.entries.Values - old(m.overlay.entries.Values))
    ensures RefinesAt(SettingsOf(m), old(m.overlay.Model()), rel, call, now, r, m.overlay.Model())
  {
    hide Total, State.Indexed, Inv, View, WellFormedHost, HasParents, EmptyDir, MkdirUpTo, FileOnChain, HostBlocked, ChainTooBig, FilledUp;
    if m.Blocked(rel) { m.BlockedMeansAbsent(rel); }
    var o := m.Mkdir(rel, call.parents, call.existOk, now);
    r := if o.Ok? then Ok(Nothing) else Err(o.error);
  }

  lemma RenameAllowed(m: Mount, src: string, dst: string)
    requires m.Valid() && CleanKey(dst)
    ensures m.RenameRefusal(src, dst).None? <==> CanRename(m.Merged(), src, dst)
    ensures m.RenameRefusal(src, dst) == Some(BadPath(PathEscape)) ==> src == "" || dst == ""
  {
    hide Total, State.Indexed, Inv, View, WellFormedHost;
    if m.RenameRefusal(src, dst).None? { m.RefusedNothing(src, dst); }
  }

  method ExecuteRename(m: Mount, call: Call, now: real) returns (r: Outcome<Value>)
    requires m.Valid() && Admitted(call) && call.Rename?
    modifies m.overlay, m.overlay.entries.Values
    ensures m.Valid() && fresh(m.overlay.entries.Values - old(m.overlay.entries.Values))
    ensures Refines(SettingsOf(m), old(Now(m)), call, now, r, Now(m))
  {
    hide Total, State.Indexed, Inv, View, WellFormedHost, ResolveVirtualPath, CanRename, RenamedAt, PlanTooBig, RenamedEntries, HostBlocked;
    ghost var src, dst := m.Resolve(call.path), m.Resolve(call.dst);
    if src.Rel? && dst.Rel? {
      m.ResolvedClean(call.dst);
      RenameAllowed(m, src.key, dst.key);
    }
    var o := m.Rename(call.path, call.dst);
    r := if o.Ok? then Ok(Nothing) else Err(o.error);
  }

  method ExecuteWrite(m: Mount, call: Call, now: real) returns (r: Outcome<Value>)
    requires m.Valid() && Admitted(call) && call.Write?
    modifies m`writeUsed, m.overlay
    ensures m.Valid() && fresh(m.overlay.entries.Values - old(m.overlay.entries.Values))
    ensures Refines(SettingsOf(m), old(Now(m)), call, now, r, Now(m))
  {
    hide Total, State.Indexed, Inv, View, WellFormedHost, ResolveVirtualPath, HasParents, HostBlocked, FilledUp, EmptyDir, MkdirUpTo, FileOnChain, ChainTooBig, ListingOver, CanRename, RenamedAt, RenameOver, Normalized;
    var o := m.Write(call.path, call.data, call.result, now);
    r := if o.Ok? then Ok(Count(o.value)) else Err(o.error);
  }

  /** Opening for writing truncates. */
  method ExecuteOpenWrite(m: Mount, call: Call, now: real) returns (r: Outcome<Value>)
    requires m.Valid() && Admitted(call) && call.OpenWrite?
    modifies m`writeUsed, m.overlay
    ensures m.Valid() && fresh(m.overlay.entries.Values - old(m.overlay.entries.Values))
    ensures Refines(SettingsOf(m), old(Now(m)), call, now, r, Now(m))
  {
    hide Total, State.Indexed, Inv, View, WellFormedHost, ResolveVirtualPath, HasParents, HostBlocked, FilledUp, EmptyDir, MkdirUpTo, FileOnChain, ChainTooBig, ListingOver, CanRename, RenamedAt, RenameOver, Normalized;
    var o := m.Write(call.path, [], 0, now);
    r := if o.Ok? then Ok(Nothing) else Err(o.error);
  }

  method ExecuteAppend(m: Mount, call: Call, now: real) returns (r: Outcome<Value>)
    requires m.Valid() && Admitted(call) && call.Append?
    modifies m`writeUsed, m.overlay, m.overlay.entries.Values
    ensures m.Valid() && fresh(m.overlay.entries.Values - old(m.overlay.entries.Values))
    ensures Refines(SettingsOf(m), old(Now(m)), call, now, r, Now(m))
  {
    hide Total, State.Indexed, Inv, View, WellFormedHost, ResolveVirtualPath, HasParents, HostBlocked, FilledUp, EmptyDir, MkdirUpTo, FileOnChain, ChainTooBig, ListingOver, CanRename, RenamedAt, RenameOver, Normalized;
    var o := m.Append(call.path, call.data, now);
    r := if o.Ok? then Ok(Count(call.result)) else Err(o.error);
  }

  /** A call on a resolved key that keeps its promise there refines the plain filesystem. */
  lemma ResolvedRefines(c: Settings, s: Snap, call: Call, now: real, r: Outcome<Value>, z: Snap)
    requires !call.Rename? && !call.Resolve? && !Writes(call) && ResolveVirtualPath(call.path, c.virtualPath).Rel?
    requires RefinesAt(c, s.entries, ResolveVirtualPath(call.path, c.virtualPath).key, call, now, r, z.entries) && z.used == s.used
    ensures Refines(c, s, call, now, r, z)
  {
    hide ResolveVirtualPath, PlainAt, CanAt, MemoryAt, BlockedAt, View, FilledUp;
    var rel := ResolveVirtualPath(call.path, c.virtualPath).key;
    if !CanAt(TreeOf(c, s), rel, call) { CannotAt(TreeOf(c, s), rel, call, now); }
  }

  lemma RejectedRefines(c: Settings, s: Snap, call: Call, now: real)
    requires !call.Rename? && !call.Resolve? && !Writes(call) && ResolveVirtualPath(call.path, c.virtualPath).Rejected?
    ensures Refines(c, s, call, now, Err(BadPath(ResolveVirtualPath(call.path, c.virtualPath).error)), s)
  {
    hide ResolveVirtualPath, PlainAt, View;
  }

  lemma ResolveRefines(c: Settings, s: Snap, call: Call, now: real)
    requires call.Resolve?
    ensures Refines(c, s, call, now, Ok(PathValue(Normalized(call.path))), s)
  {
    hide ResolveVirtualPath, View;
  }

  /** overlayExecute: one filesystem call. */
  method Execute(m: Mount, call: Call, now: real) returns (r: Outcome<Value>)
    requires m.Valid() && Admitted(call)
    modifies m`writeUsed, m.overlay, m.overlay.entries.Values
    ensures m.Valid() && fresh(m.overlay.entries.Values - old(m.overlay.entries.Values))
    ensures Refines(SettingsOf(m), old(Now(m)), call, now, r, Now(m))
  {
    hide Total, State.Indexed, Inv, View, WellFormedHost, ResolveVirtualPath, Refines, RefinesAt;
    if call.Resolve? {
      var p := NormalizeVirtualPath(call.path);
      ResolveRefines(SettingsOf(m), Now(m), call, now);
      return Ok(PathValue(p));
    }
    if call.Rename? {
      r := ExecuteRename(m, call, now);
      return;
    }
    if call.Append? {
      r := ExecuteAppend(m, call, now);
      return;
    }
    if call.Write? {
      r := ExecuteWrite(m, call, now);
      return;
    }
    if call.OpenWrite? {
      r := ExecuteOpenWrite(m, call, now);
      return;
    }
    var resolved := m.Resolve(call.path);
    if resolved.Rejected? {
      RejectedRefines(SettingsOf(m), Now(m), call, now);
      return Err(BadPath(resolved.error));
    }
    m.ResolvedClean(call.path);
    if IsQuery(call) {
      r := Query(m, call, resolved.key, now);
    } else if call.Mkdir? {
      r := MakeDirectory(m, call, resolved.key, now);
    } else {
      r := Change(m, call, resolved.key, now);
    }
    ResolvedRefines(SettingsOf(m), old(Now(m)), call, now, r, Now(m));
  }

  /** What holds at every moment of a run. */
  ghost predicate Sound(c: Settings, s: Snap) {
    Connected(TreeOf(c, s)) && Total(s.entries) <= c.memLimit
  }

  lemma SoundNow(m: Mount)
    requires m.Valid()
    ensures Sound(SettingsOf(m), Now(m))
  {
    hide Total, State.Indexed, View, WellFormedHost;
    m.ConnectedMerged();
  }

  /** A count of written bytes that starts within the limit stays within it. */
  ghost predicate WriteLimitKept(c: Settings, start: nat, s: Snap) {
    c.writeLimit.Some? && start <= c.writeLimit.value ==> s.used <= c.writeLimit.value
  }

  lemma UsedWithinLimit(c: Settings, start: nat, s: Snap, call: Call, now: real, r: Outcome<Value>, z: Snap)
    requires Refines(c, s, call, now, r, z) && WriteLimitKept(c, start, s)
    ensures WriteLimitKept(c, start, z)
  {
    hide PlainStep, MemoryOver, Blocked, Excused, PartialMkdir, WriteCharge, View;
  }

  /**
    Any sequence of calls: the states before, between and after them form a run
    of a plain filesystem whose only extra failures are the limits and the keys
    blocked by a replaced host file; both limits hold throughout.
  */
  method Run(m: Mount, calls: seq<Call>, clock: seq<real>) returns (results: seq<Outcome<Value>>, ghost snaps: seq<Snap>)
    requires m.Valid() && |clock| == |calls| && forall c | c in calls :: Admitted(c)
    modifies m`writeUsed, m.overlay, m.overlay.entries.Values
    ensures m.Valid()
    ensures |results| == |calls| && |snaps| == |calls| + 1
    ensures snaps[0] == old(Now(m)) && snaps[|calls|] == Now(m)
    ensures forall i | 0 <= i < |calls| :: Refines(SettingsOf(m), snaps[i], calls[i], clock[i], results[i], snaps[i + 1])
    ensures forall i | 0 <= i <= |calls| :: Sound(SettingsOf(m), snaps[i])
    ensures forall i | 0 <= i <= |calls| :: WriteLimitKept(SettingsOf(m), old(m.writeUsed), snaps[i])
  {
    hide Total, State.Indexed, Inv, View, WellFormedHost, Refines, Sound, Admitted, WriteCharge;
    results, snaps := [], [Now(m)];
    SoundNow(m);
    for n := 0 to |calls|
      invariant m.Valid() && fresh(m.overlay.entries.Values - old(m.overlay.entries.Values))
      invariant |results| == n && |snaps| == n + 1
      invariant snaps[0] == old(Now(m)) && snaps[n] == Now(m)
      invariant forall i | 0 <= i < n :: Refines(SettingsOf(m), snaps[i], calls[i], clock[i], results[i], snaps[i + 1])
      invariant forall i | 0 <= i <= n :: Sound(SettingsOf(m), snaps[i])
      invariant forall i | 0 <= i <= n :: WriteLimitKept(SettingsOf(m), old(m.writeUsed), snaps[i])
    {
      assert Admitted(calls[n]);
      ghost var before := Now(m);
      var r := Execute(m, calls[n], clock[n]);
      SoundNow(m);
      UsedWithinLimit(SettingsOf(m), old(m.writeUsed), before, calls[n], clock[n], r, Now(m));
      results := results + [r];
      snaps := snaps + [Now(m)];
    }
  }

  // ----- where the code falls short of a plain filesystem -----

  /**
    Renaming something onto itself changes nothing, but it is refused for a
    directory that is not empty, which a POSIX filesystem would leave alone.
  */
  lemma SelfRename(t: Tree, d: string)
    requires Connected(t) && d in t && d != ""
    ensures CanRename(t, d, d) <==> EmptyDir(t, d)
    ensures forall k :: RenamedAt(t, d, d, k) == Lookup(t, k)
  {
    forall k ensures RenamedAt(t, d, d, k) == Lookup(t, k) {
      if Within(k, d) { assert d + k[|d|..] == k; }
    }
  }

  /**
    A host file that was replaced by an overlay directory blocks new names below
    it: the tree allows the write, the host lookup answers ENOTDIR. This happens
    for exactly the keys Mount.Write and Mount.Mkdir call Blocked.
  */
  lemma BlockedBelowReplacedFile(h: Host, m: Entries)
    requires h == map["" := HostDir(["f"], 0.0), "f" := HostFile([], 0.0)]
    requires m == map["f" := DirEntry(1.0)]
    ensures WellFormedHost(h) && Inv(h, m)
    ensures CanWrite(View(h, m), "f/x") && EmptyDir(View(h, m), "f")
    ensures "f/x" !in m && HostBlocked(h, "f/x")
  {
    var k := "f/x";
    assert k[..1] == "f" && k[1] == '/';
    assert forall a :: Anc(a, k) ==> a == "f" by {
      forall a | Anc(a, k) ensures a == "f" { assert |a| == 1; }
    }
    assert forall a, j | j in h :: !Anc(a, j);
    assert Child("", "f") == "f";
    forall d, n | CleanName(n) && Child(d, n) in h && d in h && h[d].HostDir? ensures n in h[d].names {
      assert d == "" && Child(d, n) == n;
    }
    assert forall a, j | j in View(h, m) :: !Anc(a, j);
  }
}
