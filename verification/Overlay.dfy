/**
  An overlay mount (internal/mountfs/overlay.go). Every operation is specified
  by what it does to the merged tree; the entries are only how it is stored.
*/
module Overlay {
  import opened Prelude
  import opened Keys
  import opened VirtualPath
  import opened OverlayState
  import opened MergedTree
  import opened RenamePlan

  datatype Error =
    | BadPath(path: PathError)
    | NotFound
    | AlreadyExists
    | IsADirectory
    | NotADirectory
    | DirectoryNotEmpty
    | InvalidInput
    | WriteLimitExceeded
    | MemoryLimitExceeded

  datatype Outcome<+T> = Ok(value: T) | Err(error: Error)

  datatype Stat = Stat(isDir: bool, size: int, mtime: real)

  /** Above this limit (half an exbibyte) a rename plan could saturate the uint64 counters. */
  const EXACT_LIMIT: nat := 0x0800_0000_0000_0000

  const LISTING_ENTRY_MEMORY_USAGE: nat := 128

  const PATH_MAX: nat := 4096

  function FormatChildPath(parent: string, child: string): string {
    if parent != "" && parent[|parent| - 1] == '/' then parent + child else parent + "/" + child
  }

  /** The listed names as paths below the directory that was asked for. */
  function ChildPaths(vpath: string, names: seq<string>): seq<string> {
    if names == [] then [] else ChildPaths(vpath, names[..|names| - 1]) + [FormatChildPath(vpath, names[|names| - 1])]
  }

  lemma ChildPathsStep(vpath: string, names: seq<string>, n: string)
    ensures ChildPaths(vpath, names + [n]) == ChildPaths(vpath, names) + [FormatChildPath(vpath, n)]
  {
    assert (names + [n])[..|names|] == names;
  }

  lemma {:induction false} ChildPathsAt(vpath: string, names: seq<string>, i: nat)
    requires i < |names|
    ensures |ChildPaths(vpath, names)| == |names| && ChildPaths(vpath, names)[i] == FormatChildPath(vpath, names[i])
    decreases |names|
  {
    if |names| > 1 { ChildPathsAt(vpath, names[..|names| - 1], if i < |names| - 1 then i else 0); }
  }

  /**
    A listed path leads back to the child it was listed for: under any spelling
    of the directory's path it resolves to the child's key. A host name that is
    foreign is listed all the same, and its path is refused.
  */
  lemma ListedResolves(vpath: string, mountVirtual: string, rel: string, names: seq<string>, i: nat)
    requires IsNormalizedVirtualPath(mountVirtual) && ResolveVirtualPath(vpath, mountVirtual) == Rel(rel) && i < |names|
    requires CleanName(names[i]) && names[i] != "." && names[i] != ".." && '\0' !in names[i]
    ensures |ChildPaths(vpath, names)| == |names|
    ensures ResolveVirtualPath(ChildPaths(vpath, names)[i], mountVirtual) ==
      if Foreign(names[i]) then Rejected(PathEscape) else Rel(Child(rel, names[i]))
  {
    hide ResolveVirtualPath, IsNormalizedVirtualPath, Foreign, Child, ChildPaths;
    ChildPathsAt(vpath, names, i);
    if vpath != "" && vpath[|vpath| - 1] == '/' {
      var parent := vpath[..|vpath| - 1];
      assert vpath == parent + "/";
      SlashResolves(parent, mountVirtual);
      ResolveChild(parent, mountVirtual, rel, names[i]);
    } else {
      ResolveChild(vpath, mountVirtual, rel, names[i]);
    }
  }

  lemma SlashResolves(parent: string, mountVirtual: string)
    ensures ResolveVirtualPath(parent + "/", mountVirtual) == ResolveVirtualPath(parent, mountVirtual)
  {
    NormalizedStay(parent);
  }

  ghost predicate Distinct(names: seq<string>) {
    forall i, j | 0 <= i < j < |names| :: names[i] != names[j]
  }

  /** lstat of one component inside a directory that was opened on the way. */
  function StepTarget(h: Host, k: string): Target {
    if k !in h then TargetAbsent else if h[k].HostDir? then TargetDir else TargetFile
  }

  /** A host lookup that was stopped above k finds nothing at k. */
  lemma StoppedAbsent(h: Host, rel: string, stop: nat, j: nat)
    requires WellFormedHost(h) && stop < j <= |rel| && rel[stop] == '/' && !HostIsDir(h, rel[..stop])
    ensures rel[..j] !in h
  {
    assert rel[..j][..stop] == rel[..stop];
    assert Anc(rel[..stop], rel[..j]);
  }

  lemma PrefixClean(rel: string, j: nat)
    requires CleanKey(rel) && j <= |rel| && (j == |rel| || rel[j] == '/')
    ensures CleanKey(rel[..j]) && (rel != "" ==> rel[..j] != "")
    ensures forall a | Anc(a, rel[..j]) :: Anc(a, rel) && |a| < j
  {
    var k := rel[..j];
    assert k != "" ==> k[|k| - 1] == rel[j - 1];
    assert forall i | 0 <= i < |k| :: k[i] == rel[i];
    forall a | Anc(a, k) ensures Anc(a, rel) { assert rel[..|a|] == k[..|a|]; }
  }

  // ----- mkdir with parents, on plain trees -----

  /** The directories a lookup of rel passes through, and rel itself, up to length j. */
  ghost function Chain(rel: string, j: int): set<string> {
    set i | 0 <= i < j && i <= |rel| && Within(rel, rel[..i]) :: rel[..i]
  }

  /** The tree after creating the missing directories of the chain. */
  ghost function MkdirUpTo(t: Tree, rel: string, j: int, now: real): Tree {
    t + map a | a in Chain(rel, j) && a !in t :: DirNode(now)
  }

  lemma ChainMember(rel: string, j: int, a: string)
    ensures a in Chain(rel, j) <==> |a| < j && Within(rel, a)
  {
    if |a| < j && Within(rel, a) { assert a == rel[..|a|]; }
  }

  lemma MkdirZero(t: Tree, rel: string, now: real)
    ensures MkdirUpTo(t, rel, 0, now) == t
  {
  }

  lemma MkdirLookup(t: Tree, rel: string, j: nat, now: real, a: string)
    ensures |a| >= j || !Within(rel, a) || a in t ==> Lookup(MkdirUpTo(t, rel, j, now), a) == Lookup(t, a)
    ensures |a| < j && Within(rel, a) && a !in t ==> Lookup(MkdirUpTo(t, rel, j, now), a) == Some(DirNode(now))
  {
    ChainMember(rel, j, a);
  }

  lemma SameTree(t: Tree, u: Tree)
    requires forall a :: Lookup(t, a) == Lookup(u, a)
    ensures t == u
  {
    assert forall a :: a in t <==> Lookup(t, a).Some?;
    assert forall a :: a in u <==> Lookup(u, a).Some?;
    assert forall a | a in t :: t[a] == Lookup(t, a).value == Lookup(u, a).value == u[a];
  }

  lemma MkdirStep(t: Tree, rel: string, j: nat, now: real)
    requires j <= |rel|
    ensures MkdirUpTo(t, rel, j + 1, now)
      == if Within(rel, rel[..j]) && rel[..j] !in t then MkdirUpTo(t, rel, j, now)[rel[..j] := DirNode(now)]
         else MkdirUpTo(t, rel, j, now)
  {
    hide MkdirUpTo, Within;
    var u := if Within(rel, rel[..j]) && rel[..j] !in t then MkdirUpTo(t, rel, j, now)[rel[..j] := DirNode(now)]
             else MkdirUpTo(t, rel, j, now);
    forall a ensures Lookup(MkdirUpTo(t, rel, j + 1, now), a) == Lookup(u, a) {
      MkdirLookup(t, rel, j, now, a);
      MkdirLookup(t, rel, j + 1, now, a);
      assert |a| == j && Within(rel, a) ==> a == rel[..j] by { WithinPrefix(rel, a); }
    }
    SameTree(MkdirUpTo(t, rel, j + 1, now), u);
  }

  lemma WithinPrefix(rel: string, a: string)
    ensures Within(rel, a) ==> |a| <= |rel| && a == rel[..|a|]
  {
  }

  /** A path that exists needs no new directory above it. */
  lemma MkdirNothing(t: Tree, rel: string, j: nat, now: real)
    requires Connected(t) && j <= |rel| && Within(rel, rel[..j]) && rel[..j] in t
    ensures MkdirUpTo(t, rel, j, now) == t
  {
    forall a | a in Chain(rel, j) ensures a in t {
      ChainMember(rel, j, a);
      AncComparable(a, rel[..j], rel);
      assert Anc(a, rel[..j]);
      assert HasParents(t, rel[..j]);
    }
  }

  /** Below a missing directory nothing exists. */
  lemma MissingBelow(t: Tree, rel: string, j: nat, a: string)
    requires Connected(t) && j <= |rel| && Within(rel, rel[..j]) && rel[..j] !in t
    requires |a| >= j && Within(rel, a)
    ensures a !in t
  {
    AncComparable(a, rel[..j], rel);
    assert a in t ==> HasParents(t, a);
  }

  ghost predicate FileOnChain(t: Tree, rel: string) {
    exists a | Within(rel, a) :: IsFile(t, a)
  }

  // ----- what mkdir with parents costs -----

  /** The entries after creating the missing directories of the chain. */
  ghost function MkdirEntries(m: Entries, t: Tree, rel: string, j: int, now: real): Entries {
    m + map a | a in Chain(rel, j) && a !in t :: DirEntry(now)
  }

  /** The whole chain does not fit. */
  ghost predicate ChainTooBig(m: Entries, t: Tree, rel: string, now: real, limit: nat) {
    Total(MkdirEntries(m, t, rel, |rel| + 1, now)) > limit
  }

  /** The tree has as much of the chain as fits, from the top. */
  ghost predicate FilledUp(m: Entries, t: Tree, rel: string, now: real, limit: nat, u: Tree) {
    exists j | 0 <= j <= |rel| :: FilledTo(m, t, rel, now, limit, u, j)
  }

  ghost predicate FilledTo(m: Entries, t: Tree, rel: string, now: real, limit: nat, u: Tree, j: nat) {
    && u == MkdirUpTo(t, rel, j, now)
    && Total(MkdirEntries(m, t, rel, j, now)) <= limit < Total(MkdirEntries(m, t, rel, j + 1, now))
  }

  lemma MkdirEntriesZero(m: Entries, t: Tree, rel: string, now: real)
    ensures MkdirEntries(m, t, rel, 0, now) == m
  {
  }

  lemma MkdirEntriesStep(m: Entries, t: Tree, rel: string, j: nat, now: real)
    requires j <= |rel|
    ensures MkdirEntries(m, t, rel, j + 1, now)
      == if Within(rel, rel[..j]) && rel[..j] !in t then MkdirEntries(m, t, rel, j, now)[rel[..j] := DirEntry(now)]
         else MkdirEntries(m, t, rel, j, now)
  {
    hide MkdirEntries, Within;
    var a, b := MkdirEntries(m, t, rel, j, now), MkdirEntries(m, t, rel, j + 1, now);
    var c := if Within(rel, rel[..j]) && rel[..j] !in t then a[rel[..j] := DirEntry(now)] else a;
    forall k ensures (k in b <==> k in c) && (k in b ==> b[k] == c[k]) {
      MkdirEntriesAt(m, t, rel, j, now, k);
      MkdirEntriesAt(m, t, rel, j + 1, now, k);
      WithinPrefix(rel, k);
    }
  }

  lemma MkdirEntriesAt(m: Entries, t: Tree, rel: string, j: nat, now: real, k: string)
    ensures var e, made := MkdirEntries(m, t, rel, j, now), |k| < j && Within(rel, k) && k !in t;
      && (k in e <==> k in m || made)
      && (k in e ==> e[k] == if made then DirEntry(now) else m[k])
  {
    ChainMember(rel, j, k);
  }

  /** What the tree does not show is a tombstone, or one of the directories being made. */
  lemma HiddenEntries(m: Entries, t: Tree, rel: string, j: nat, now: real, k: string)
    requires HidesOnlyTombstones(m, t) && k !in t
    ensures var e := MkdirEntries(m, t, rel, j, now); k in e ==> e[k].Variable() == 0
  {
  }

  ghost predicate HidesOnlyTombstones(m: Entries, t: Tree) {
    forall a | a in m && a !in t :: m[a].Tombstone?
  }

  /** A directory costs no less than the tombstone or the nothing it replaces. */
  lemma {:induction false} MkdirTotalGrows(m: Entries, t: Tree, rel: string, i: nat, now: real)
    requires i <= |rel| + 1 && HidesOnlyTombstones(m, t)
    ensures Total(MkdirEntries(m, t, rel, i, now)) <= Total(MkdirEntries(m, t, rel, |rel| + 1, now))
    decreases |rel| + 1 - i
  {
    hide Total, MkdirEntries, HidesOnlyTombstones, Within;
    if i <= |rel| {
      MkdirTotalGrows(m, t, rel, i + 1, now);
      MkdirEntriesStep(m, t, rel, i, now);
      if rel[..i] !in t {
        HiddenEntries(m, t, rel, i, now, rel[..i]);
        TotalPut(MkdirEntries(m, t, rel, i, now), rel[..i], DirEntry(now));
      }
    }
  }

  // ----- what a listing costs -----

  /** The entries of the overlay that a listing of d looks at, in order. */
  ghost predicate ListedKeys(m: Entries, d: string, keys: seq<string>) {
    Sorted(keys) && forall k :: k in keys <==> k in m && (d == "" || Anc(d, k))
  }

  /** Each child with an entry is charged its name twice, and a visible one its path as well. */
  ghost function EntryListingCost(m: Entries, d: string, vpath: string, keys: seq<string>): nat {
    if keys == [] then 0
    else
      var key, p := keys[|keys| - 1], DirectoryPrefix(d);
      EntryListingCost(m, d, vpath, keys[..|keys| - 1]) +
      if p <= key && key[|p|..] != "" && '/' !in key[|p|..] then
        2 * |key[|p|..]| + LISTING_ENTRY_MEMORY_USAGE
        + (if key in m && !m[key].Tombstone? then |FormatChildPath(vpath, key[|p|..])| + LISTING_ENTRY_MEMORY_USAGE else 0)
      else 0
  }

  ghost function NamesCost(names: seq<string>): nat {
    if names == [] then 0 else NamesCost(names[..|names| - 1]) + |names[|names| - 1]| + LISTING_ENTRY_MEMORY_USAGE
  }

  /** The host's names that no entry claims are charged their paths. */
  ghost function MergeCost(vpath: string, names: seq<string>, seen: set<string>): nat {
    if names == [] then 0
    else
      var last := names[|names| - 1];
      MergeCost(vpath, names[..|names| - 1], seen) +
      if last in seen then 0 else |FormatChildPath(vpath, last)| + LISTING_ENTRY_MEMORY_USAGE
  }

  ghost function SeenNames(m: Entries, d: string): set<string> {
    set k | k in m && DirectoryPrefix(d) <= k && CleanName(k[|DirectoryPrefix(d)|..]) :: k[|DirectoryPrefix(d)|..]
  }

  lemma MergeCostNone(vpath: string, seen: set<string>)
    ensures MergeCost(vpath, [], seen) == 0
  {
  }

  lemma MergeCostStep(vpath: string, names: seq<string>, n: string, seen: set<string>)
    ensures MergeCost(vpath, names + [n], seen) ==
            MergeCost(vpath, names, seen) + if n in seen then 0 else |FormatChildPath(vpath, n)| + LISTING_ENTRY_MEMORY_USAGE
  {
    assert (names + [n])[..|names|] == names;
  }

  /** The entries fit, the host's names fit in half of the rest, and everything fits together. */
  ghost predicate ListingFits(h: Host, m: Entries, d: string, vpath: string, keys: seq<string>, available: nat) {
    var used := EntryListingCost(m, d, vpath, keys);
    && used <= available
    && (d !in m && HostIsDir(h, d) ==>
          && NamesCost(h[d].names) <= (available - used) / 2
          && used + NamesCost(h[d].names) + MergeCost(vpath, h[d].names, SeenNames(m, d)) <= available)
  }

  lemma EntryCostStep(m: Entries, d: string, vpath: string, keys: seq<string>, i: nat)
    requires i < |keys|
    ensures EntryListingCost(m, d, vpath, keys[..i + 1]) ==
            EntryListingCost(m, d, vpath, keys[..i]) + EntryListingCost(m, d, vpath, [keys[i]])
  {
    assert keys[..i + 1][..i] == keys[..i];
    assert [keys[i]][..0] == [];
  }

  lemma {:induction false} EntryCostPrefix(m: Entries, d: string, vpath: string, keys: seq<string>, i: nat)
    requires i <= |keys|
    ensures EntryListingCost(m, d, vpath, keys[..i]) <= EntryListingCost(m, d, vpath, keys)
    decreases |keys| - i
  {
    if i == |keys| {
      assert keys[..i] == keys;
    } else {
      EntryCostPrefix(m, d, vpath, keys, i + 1);
      EntryCostStep(m, d, vpath, keys, i);
    }
  }

  lemma {:induction false} NamesCostPrefix(names: seq<string>, i: nat)
    requires i <= |names|
    ensures NamesCost(names[..i]) <= NamesCost(names)
    decreases |names| - i
  {
    if i == |names| {
      assert names[..i] == names;
    } else {
      NamesCostPrefix(names, i + 1);
      assert names[..i + 1][..i] == names[..i];
    }
  }

  lemma {:induction false} MergeCostPrefix(vpath: string, names: seq<string>, seen: set<string>, i: nat)
    requires i <= |names|
    ensures MergeCost(vpath, names[..i], seen) <= MergeCost(vpath, names, seen)
    decreases |names| - i
  {
    if i == |names| {
      assert names[..i] == names;
    } else {
      MergeCostPrefix(vpath, names, seen, i + 1);
      assert names[..i + 1][..i] == names[..i];
    }
  }

  class Mount {
    const host: Host
    const virtualPath: string
    const memLimit: nat
    const writeLimit: Option<nat>
    const overlay: State
    var writeUsed: nat

    ghost predicate Valid()
      reads this, overlay, overlay.entries.Values
    {
      && WellFormedHost(host)
      && IsNormalizedVirtualPath(virtualPath)
      && memLimit <= EXACT_LIMIT
      && overlay.Valid() && overlay.usage <= memLimit
      && Inv(host, overlay.Model())
    }

    /** The tree the sandbox sees. */
    ghost function Merged(): Tree
      reads overlay`entries, overlay.entries.Values`value
    {
      View(host, overlay.Model())
    }

    /** A new mount shows the host directory. */
    constructor (host: Host, virtualPath: string, memLimit: nat, writeLimit: Option<nat>)
      requires WellFormedHost(host) && IsNormalizedVirtualPath(virtualPath) && memLimit <= EXACT_LIMIT
      ensures Valid() && fresh(overlay) && overlay.entries == map[]
      ensures Merged() == View(host, map[]) && writeUsed == 0
    {
      this.host, this.virtualPath, this.memLimit, this.writeLimit := host, virtualPath, memLimit, writeLimit;
      this.overlay := new State();
      this.writeUsed := 0;
      new;
      InvInitial(host);
    }

    function Resolve(vpath: string): Resolved {
      ResolveVirtualPath(vpath, virtualPath)
    }

    lemma ResolvedClean(vpath: string)
      requires Valid()
      ensures Resolve(vpath).Rel? ==> CleanKey(Resolve(vpath).key)
    {
      hide Inv, WellFormedHost, ResolveVirtualPath;
      ResolveSound(vpath, virtualPath);
      if Resolve(vpath).Rel? { PlainKeyClean(Resolve(vpath).key); }
    }

    /** A bare key whose host path runs through a regular file. */
    ghost predicate Blocked(rel: string)
      reads overlay`entries
    {
      rel !in overlay.entries && HostBlocked(host, rel)
    }

    ghost function MissingError(rel: string): Error
      reads overlay`entries
    {
      if Blocked(rel) then NotADirectory else NotFound
    }

    predicate WithinWriteLimit(n: nat)
      reads this`writeUsed
    {
      writeLimit.Some? ==> SatAdd(writeUsed, n) <= writeLimit.value
    }

    method CommitWriteBytes(n: nat)
      modifies this`writeUsed
      ensures writeLimit.Some? ==> writeUsed == SatAdd(old(writeUsed), n)
      ensures writeLimit.None? ==> writeUsed == old(writeUsed)
      ensures writeLimit.Some? && old(WithinWriteLimit(n)) ==> writeUsed <= writeLimit.value
    {
      if writeLimit.Some? { writeUsed := SatAdd(writeUsed, n); }
    }

    function AvailableMemory(): nat
      requires Valid()
      reads this, overlay, overlay.entries.Values
    {
      memLimit - overlay.usage
    }

    // ----- lookups -----

    method EnsureParentExists(rel: string) returns (ok: bool)
      requires Valid()
      ensures ok <==> HasParents(Merged(), rel)
    {
      hide Inv, Total, WellFormedHost, State.Indexed, View, IsNormalizedVirtualPath;
      var exhausted := false;
      ghost var stop: nat := 0;
      for j := 0 to |rel|
        invariant forall a | Anc(a, rel) && |a| < j :: IsDir(Merged(), a)
        invariant exhausted ==> stop < j && rel[stop] == '/' && !HostIsDir(host, rel[..stop])
      {
        if rel[j] == '/' {
          var current := rel[..j];
          assert Anc(current, rel);
          if exhausted { StoppedAbsent(host, rel, stop, j); }
          var found := if exhausted then TargetAbsent else StepTarget(host, current);
          if !exhausted && found != TargetDir { exhausted, stop := true, j; }
          var e := overlay.Get(current);
          ViewLookup(host, overlay.Model(), current);
          if e.Some? {
            if !e.value.DirEntry? { return false; }
          } else if found != TargetDir {
            return false;
          }
        }
      }
      ok := true;
    }

    method Exists(rel: string) returns (b: bool)
      requires Valid()
      ensures b <==> rel in Merged()
    {
      var e := overlay.Get(rel);
      if e.Some? { assert RefOk(host, e.value); return !e.value.Tombstone?; }
      b := rel in host;
    }

    method IsFileAt(rel: string) returns (b: bool)
      requires Valid()
      ensures b <==> IsFile(Merged(), rel)
    {
      var e := overlay.Get(rel);
      if e.Some? { assert RefOk(host, e.value); return e.value.FileEntry? || e.value.RefEntry?; }
      b := rel in host && host[rel].HostFile?;
    }

    method IsDirAt(rel: string) returns (b: bool)
      requires Valid()
      ensures b <==> IsDir(Merged(), rel)
    {
      var e := overlay.Get(rel);
      if e.Some? { return e.value.DirEntry?; }
      b := HostIsDir(host, rel);
    }

    /** Reading returns the merged content; a file is refused only when it does not fit the free budget. */
    method Read(rel: string) returns (r: Outcome<Bytes>)
      requires Valid()
      ensures
        if IsFile(Merged(), rel) then
          r == (if |Merged()[rel].content| <= AvailableMemory() then Ok(Merged()[rel].content) else Err(MemoryLimitExceeded))
        else if IsDir(Merged(), rel) then r == Err(IsADirectory)
        else r == Err(MissingError(rel))
    {
      var e := overlay.Get(rel);
      ViewLookup(host, overlay.Model(), rel);
      if e.None? {
        r := HostRead(rel, AvailableMemory());
      } else {
        match e.value
        case FileEntry(content, _) =>
          if |content| > AvailableMemory() { return Err(MemoryLimitExceeded); }
          r := Ok(content);
        case RefEntry(relative, _, _) =>
          assert RefOk(host, e.value);
          r := HostRead(relative, AvailableMemory());
        case DirEntry(_) => r := Err(IsADirectory);
        case Tombstone => r := Err(NotFound);
      }
    }

    /** readFileLimited on the fixed host tree. */
    method HostRead(rel: string, available: nat) returns (r: Outcome<Bytes>)
      ensures rel in host && host[rel].HostFile? ==>
        r == (if |host[rel].content| <= available then Ok(host[rel].content) else Err(MemoryLimitExceeded))
      ensures HostIsDir(host, rel) ==> r == Err(IsADirectory)
      ensures rel !in host ==> r == Err(if HostBlocked(host, rel) then NotADirectory else NotFound)
    {
      match Classify(host, rel)
      case TargetDir => r := Err(IsADirectory);
      case TargetAbsent => r := Err(NotFound);
      case TargetBlocked => r := Err(NotADirectory);
      case TargetFile =>
        if |host[rel].content| > available { return Err(MemoryLimitExceeded); }
        r := Ok(host[rel].content);
    }

    method StatAt(rel: string) returns (r: Outcome<Stat>)
      requires Valid()
      ensures
        if rel !in Merged() then r == Err(MissingError(rel))
        else match Merged()[rel]
          case FileNode(content, mtime) => r == Ok(Stat(false, |content|, mtime))
          case DirNode(mtime) => r == Ok(Stat(true, 4096, mtime))
    {
      var e := overlay.Get(rel);
      ViewLookup(host, overlay.Model(), rel);
      if e.None? {
        match Classify(host, rel)
        case TargetDir => r := Ok(Stat(true, 4096, host[rel].mtime));
        case TargetFile => r := Ok(Stat(false, |host[rel].content|, host[rel].mtime));
        case TargetAbsent => r := Err(NotFound);
        case TargetBlocked => r := Err(NotADirectory);
      } else {
        assert RefOk(host, e.value);
        match e.value
        case FileEntry(content, mtime) => r := Ok(Stat(false, |content|, mtime));
        case RefEntry(_, size, mtime) => r := Ok(Stat(false, size, mtime));
        case DirEntry(mtime) => r := Ok(Stat(true, 4096, mtime));
        case Tombstone => r := Err(NotFound);
      }
    }

    // ----- changes of one entry -----

    /** Inserts an entry that keeps the invariant, if it fits the memory limit. */
    method Store(rel: string, e: Entry) returns (ok: bool)
      requires Valid() && Inv(host, overlay.Model()[rel := e])
      modifies overlay
      ensures Valid() && fresh(overlay.entries.Values - old(overlay.entries.Values))
      ensures ok <==> Total(old(overlay.Model())[rel := e]) <= memLimit
      ensures ok ==> overlay.Model() == old(overlay.Model())[rel := e]
      ensures !ok ==> overlay.Model() == old(overlay.Model())
    {
      hide Inv, WellFormedHost, Total;
      var o := new OverlayEntry(e);
      ok := overlay.Insert(rel, o, memLimit);
    }

    method RejectDirectoryTarget(rel: string) returns (e: Option<Error>)
      requires Valid()
      ensures e == if IsDir(Merged(), rel) then Some(IsADirectory)
                   else if Blocked(rel) then Some(NotADirectory) else None
    {
      hide Inv, WellFormedHost, Total;
      var entry := overlay.Get(rel);
      ViewLookup(host, overlay.Model(), rel);
      if Blocked(rel) { BlockedMeansAbsent(rel); }
      if entry.Some? { return if entry.value.DirEntry? then Some(IsADirectory) else None; }
      match Classify(host, rel)
      case TargetDir => e := Some(IsADirectory);
      case TargetBlocked => e := Some(NotADirectory);
      case _ => e := None;
    }

    lemma BlockedMeansAbsent(rel: string)
      requires Valid() && Blocked(rel)
      ensures rel !in host && rel !in Merged()
    {
      hide Inv, Total;
      var i :| 0 <= i < |rel| && rel[i] == '/' && rel[..i] in host && host[rel[..i]].HostFile?;
      StoppedAbsent(host, rel, i, |rel|);
      assert rel[..|rel|] == rel;
    }

    /** Why a file cannot be written at rel, apart from limits. */
    ghost function WriteRefusal(rel: string): Option<Error>
      reads overlay`entries, overlay.entries.Values`value
    {
      if !HasParents(Merged(), rel) then Some(NotFound)
      else if IsDir(Merged(), rel) then Some(IsADirectory)
      else if Blocked(rel) then Some(NotADirectory)
      else None
    }

    lemma FileFits(rel: string, content: Bytes, mtime: real)
      requires Valid() && CleanKey(rel) && WriteRefusal(rel).None?
      ensures Inv(host, overlay.Model()[rel := FileEntry(content, mtime)])
      ensures View(host, overlay.Model()[rel := FileEntry(content, mtime)]) == Merged()[rel := FileNode(content, mtime)]
    {
      hide Total;
      var m := overlay.Model();
      ViewLookup(host, m, rel);
      if rel !in m { NotHostDirChildless(host, rel); }
      InvPut(host, m, rel, FileEntry(content, mtime));
      ViewPut(host, m, rel, FileEntry(content, mtime));
    }

    /**
      Writes a whole file. It succeeds exactly when the path leads through
      visible directories to something that is not one, the key is not blocked
      by a host file, and both limits hold.
    */
    method Write(vpath: string, data: Bytes, result: int, now: real) returns (r: Outcome<int>)
      requires Valid() && |data| <= MAX_UINT64
      modifies this`writeUsed, overlay
      ensures Valid() && fresh(overlay.entries.Values - old(overlay.entries.Values))
      ensures r.Err? ==> overlay.Model() == old(overlay.Model()) && writeUsed == old(writeUsed)
      ensures
        if !old(WithinWriteLimit(|data|)) then r == Err(WriteLimitExceeded)
        else if Resolve(vpath).Rejected? then r == Err(BadPath(Resolve(vpath).error))
        else
          var rel := Resolve(vpath).key;
          if old(WriteRefusal(rel)).Some? then r == Err(old(WriteRefusal(rel)).value)
          else if Total(old(overlay.Model())[rel := FileEntry(data, now)]) > memLimit then r == Err(MemoryLimitExceeded)
          else
            && r == Ok(result)
            && Merged() == old(Merged())[rel := FileNode(data, now)]
            && overlay.Model() == old(overlay.Model())[rel := FileEntry(data, now)]
            && (writeLimit.Some? ==> writeUsed == SatAdd(old(writeUsed), |data|) <= writeLimit.value)
            && (writeLimit.None? ==> writeUsed == old(writeUsed))
    {
      hide Inv, WellFormedHost, Total, ResolveVirtualPath, HasParents, View, HostBlocked, State.Indexed;
      var n := |data|;
      if !WithinWriteLimit(n) { return Err(WriteLimitExceeded); }
      var resolved := Resolve(vpath);
      if resolved.Rejected? { return Err(BadPath(resolved.error)); }
      var rel := resolved.key;
      ResolvedClean(vpath);
      var parents := EnsureParentExists(rel);
      if !parents { return Err(NotFound); }
      var refused := RejectDirectoryTarget(rel);
      if refused.Some? { return Err(refused.value); }
      FileFits(rel, data, now);
      overlay.FileReplacementExact(rel, data, now, n, memLimit);
      if !overlay.CheckFileReplacement(rel, n, memLimit) { return Err(MemoryLimitExceeded); }
      var stored := Store(rel, FileEntry(data, now));
      if !stored { return Err(MemoryLimitExceeded); }
      CommitWriteBytes(n);
      r := Ok(result);
    }

    /** The bytes an append starts from. */
    ghost function ExistingContent(rel: string): Bytes
      reads overlay`entries, overlay.entries.Values`value
    {
      if IsFile(Merged(), rel) then Merged()[rel].content else []
    }

    method ExistingFileLen(rel: string) returns (n: nat)
      requires Valid() && WriteRefusal(rel).None?
      ensures n == |ExistingContent(rel)|
    {
      hide Total;
      var e := overlay.Get(rel);
      ViewLookup(host, overlay.Model(), rel);
      if e.None? { return if rel in host && host[rel].HostFile? then |host[rel].content| else 0; }
      n := 0;
      if e.value.FileEntry? {
        n := |e.value.content|;
      } else if e.value.RefEntry? {
        assert RefOk(host, e.value);
        n := |host[e.value.relative].content|;
      }
    }

    method ExistingFileBytes(rel: string, available: nat) returns (r: Outcome<Bytes>)
      requires Valid() && WriteRefusal(rel).None?
      ensures r == if |ExistingContent(rel)| <= available then Ok(ExistingContent(rel)) else Err(MemoryLimitExceeded)
    {
      hide Total;
      var e := overlay.Get(rel);
      ViewLookup(host, overlay.Model(), rel);
      if e.None? {
        if rel !in host { return Ok([]); }
        r := HostRead(rel, available);
      } else {
        match e.value
        case FileEntry(content, _) =>
          if |content| > available { return Err(MemoryLimitExceeded); }
          r := Ok(content);
        case RefEntry(relative, _, _) => assert RefOk(host, e.value); r := HostRead(relative, available);
        case _ => r := Ok([]);
      }
    }

    ghost predicate IsOverlayFile(rel: string)
      reads overlay`entries, overlay.entries.Values`value
    {
      rel in overlay.entries && overlay.entries[rel].value.FileEntry?
    }

    /** An append to anything but an overlay file copies the old content, which then counts as written. */
    ghost function AppendCharge(rel: string, n: nat): nat
      reads overlay`entries, overlay.entries.Values`value
    {
      if writeLimit.Some? && !IsOverlayFile(rel) then SatAdd(|ExistingContent(rel)|, n) else n
    }

    /** The grown file must fit; a copied one must also fit into what is free before the copy. */
    ghost predicate AppendFits(rel: string, data: Bytes, now: real)
      requires Valid()
      reads this, overlay, overlay.entries.Values
    {
      && Total(overlay.Model()[rel := FileEntry(ExistingContent(rel) + data, now)]) <= memLimit
      && (!IsOverlayFile(rel) ==> |ExistingContent(rel)| + |data| <= AvailableMemory())
    }

    /** Appends to a file, creating it or copying it up from the host when needed. */
    method Append(vpath: string, data: Bytes, now: real) returns (r: Outcome<()>)
      requires Valid() && |data| <= MAX_UINT64
      modifies this`writeUsed, overlay, overlay.entries.Values
      ensures Valid() && fresh(overlay.entries.Values - old(overlay.entries.Values))
      ensures r.Err? ==> overlay.Model() == old(overlay.Model()) && writeUsed == old(writeUsed)
      ensures
        if Resolve(vpath).Rejected? then r == Err(BadPath(Resolve(vpath).error))
        else
          var rel := Resolve(vpath).key;
          if old(WriteRefusal(rel)).Some? then r == Err(old(WriteRefusal(rel)).value)
          else if !old(WithinWriteLimit(AppendCharge(rel, |data|))) then r == Err(WriteLimitExceeded)
          else if !old(AppendFits(rel, data, now)) then r == Err(MemoryLimitExceeded)
          else
            && r == Ok(())
            && Merged() == old(Merged())[rel := FileNode(old(ExistingContent(rel)) + data, now)]
            && (writeLimit.Some? ==> writeUsed == SatAdd(old(writeUsed), old(AppendCharge(rel, |data|))) <= writeLimit.value)
            && (writeLimit.None? ==> writeUsed == old(writeUsed))
    {
      hide Inv, WellFormedHost, Total, ResolveVirtualPath, HasParents, View, HostBlocked, AppendFits, State.Indexed, IsNormalizedVirtualPath, CleanKey;
      var resolved := Resolve(vpath);
      if resolved.Rejected? { return Err(BadPath(resolved.error)); }
      var rel := resolved.key;
      ResolvedClean(vpath);
      var parents := EnsureParentExists(rel);
      if !parents { return Err(NotFound); }
      var refused := RejectDirectoryTarget(rel);
      if refused.Some? { return Err(refused.value); }
      var current := overlay.Get(rel);
      var existingLen := ExistingFileLen(rel);
      var n := |data|;
      var charged := if writeLimit.Some? && !(current.Some? && current.value.FileEntry?) then SatAdd(existingLen, n) else n;
      if !WithinWriteLimit(charged) { return Err(WriteLimitExceeded); }
      r := AppendResolved(rel, data, existingLen, now);
      if r.Err? { return; }
      CommitWriteBytes(charged);
    }

    /** The storing half of an append: in place for an overlay file, by copy otherwise. */
    method AppendResolved(rel: string, data: Bytes, existingLen: nat, now: real) returns (r: Outcome<()>)
      requires Valid() && CleanKey(rel) && WriteRefusal(rel).None? && existingLen == |ExistingContent(rel)|
      modifies overlay, overlay.entries.Values
      ensures Valid() && fresh(overlay.entries.Values - old(overlay.entries.Values))
      ensures r.Err? ==> overlay.Model() == old(overlay.Model())
      ensures r == if old(AppendFits(rel, data, now)) then Ok(()) else Err(MemoryLimitExceeded)
      ensures r.Ok? ==> Merged() == old(Merged())[rel := FileNode(old(ExistingContent(rel)) + data, now)]
    {
      hide Inv, WellFormedHost, Total, View, HasParents, HostBlocked, State.Indexed;
      var n := |data|;
      ghost var content := ExistingContent(rel) + data;
      FileFits(rel, content, now);
      TotalPut(overlay.Model(), rel, FileEntry(content, now));
      ViewLookup(host, overlay.Model(), rel);
      var appended, fits := overlay.AppendFile(rel, data, now, memLimit);
      if !fits { return Err(MemoryLimitExceeded); }
      if !appended {
        var finalLen := SatAdd(existingLen, n);
        overlay.FileReplacementExact(rel, content, now, finalLen, memLimit);
        if !overlay.CheckFileReplacement(rel, finalLen, memLimit) { return Err(MemoryLimitExceeded); }
        var available := AvailableMemory();
        if finalLen > available || n > available { return Err(MemoryLimitExceeded); }
        var existing := ExistingFileBytes(rel, available - n);
        var stored := Store(rel, FileEntry(existing.value + data, now));
        if !stored { return Err(MemoryLimitExceeded); }
      }
      r := Ok(());
    }

    lemma DirFits(rel: string, now: real)
      requires Valid() && CleanKey(rel) && rel != "" && HasParents(Merged(), rel) && rel !in Merged()
      ensures Inv(host, overlay.Model()[rel := DirEntry(now)])
      ensures View(host, overlay.Model()[rel := DirEntry(now)]) == Merged()[rel := DirNode(now)]
    {
      hide Total;
      var m := overlay.Model();
      ViewLookup(host, m, rel);
      if rel !in m { NotHostDirChildless(host, rel); }
      InvPut(host, m, rel, DirEntry(now));
      ViewPut(host, m, rel, DirEntry(now));
    }

    /** One step of mkdir -p: what is there already stays, what is missing becomes a directory. */
    method EnsureDirectory(current: string, found: Target, now: real) returns (e: Option<Error>)
      requires Valid() && CleanKey(current) && current != "" && HasParents(Merged(), current)
      requires found == StepTarget(host, current)
      modifies overlay
      ensures Valid() && fresh(overlay.entries.Values - old(overlay.entries.Values))
      ensures e.Some? || current in old(Merged()) ==> overlay.Model() == old(overlay.Model())
      ensures current in old(Merged()) ==> e == if IsFile(old(Merged()), current) then Some(NotADirectory) else None
      ensures current !in old(Merged()) ==>
        e == if Total(old(overlay.Model())[current := DirEntry(now)]) <= memLimit then None else Some(MemoryLimitExceeded)
      ensures current !in old(Merged()) && e.None? ==>
        && overlay.Model() == old(overlay.Model())[current := DirEntry(now)]
        && Merged() == old(Merged())[current := DirNode(now)]
    {
      hide Total, Shadowed, Connected, HasParents, State.Indexed;
      var entry := overlay.Get(current);
      ViewLookup(host, overlay.Model(), current);
      if entry.Some? {
        assert RefOk(host, entry.value);
        match entry.value
        case FileEntry(_, _) => return Some(NotADirectory);
        case RefEntry(_, _, _) => return Some(NotADirectory);
        case DirEntry(_) => return None;
        case Tombstone =>
      } else if found == TargetDir {
        return None;
      } else if found == TargetFile {
        return Some(NotADirectory);
      }
      DirFits(current, now);
      var stored := Store(current, DirEntry(now));
      e := if stored then None else Some(MemoryLimitExceeded);
    }

    /**
      Creates every missing directory down to rel. A file on the way stops it
      before anything changed. It runs out of memory exactly when the whole chain
      does not fit, and then it has made the longest part of the chain that does.
    */
    method CreateOverlayParents(rel: string, now: real) returns (e: Option<Error>)
      requires Valid() && CleanKey(rel) && rel != ""
      modifies overlay
      ensures Valid() && fresh(overlay.entries.Values - old(overlay.entries.Values))
      ensures e.None? || e == Some(NotADirectory) || e == Some(MemoryLimitExceeded)
      ensures e == Some(NotADirectory) <==> FileOnChain(old(Merged()), rel)
      ensures e == Some(NotADirectory) ==> overlay.Model() == old(overlay.Model())
      ensures e.None? ==> Merged() == MkdirUpTo(old(Merged()), rel, |rel| + 1, now)
      ensures e == Some(MemoryLimitExceeded) <==>
        !FileOnChain(old(Merged()), rel) && ChainTooBig(old(overlay.Model()), old(Merged()), rel, now, memLimit)
      ensures e == Some(MemoryLimitExceeded) ==> FilledUp(old(overlay.Model()), old(Merged()), rel, now, memLimit, Merged())
      ensures e.None? && rel !in old(Merged()) ==> rel in overlay.Model() && overlay.Model()[rel] == DirEntry(now)
    {
      hide Inv, Total, View, State.Indexed, MkdirUpTo, MkdirEntries, ChainTooBig, FilledUp, HidesOnlyTombstones, Connected, HasParents, WellFormedHost, IsNormalizedVirtualPath, CleanKey;
      ghost var t, m := Merged(), overlay.Model();
      MkdirEntriesZero(m, t, rel, now);
      assert HidesOnlyTombstones(m, t) by { OnlyTombstonesHidden(); }
      assert Connected(t) by { ConnectedMerged(); }
      assert MkdirUpTo(t, rel, 0, now) == t by { MkdirZero(t, rel, now); }
      var exhausted := false;
      ghost var stop: nat, made := 0, "";
      for j := 0 to |rel| + 1
        invariant Valid() && fresh(overlay.entries.Values - old(overlay.entries.Values))
        invariant Merged() == MkdirUpTo(t, rel, j, now)
        invariant overlay.Model() == MkdirEntries(m, t, rel, j, now) && Total(overlay.Model()) <= memLimit
        invariant forall a | Within(rel, a) && |a| < j :: IsDir(Merged(), a) && !IsFile(t, a)
        invariant overlay.Model() == old(overlay.Model()) || (made in Merged() && made !in t)
        invariant exhausted && j <= |rel| ==> stop < j && rel[stop] == '/' && !HostIsDir(host, rel[..stop])
        invariant j > |rel| && rel !in t ==> rel in overlay.Model() && overlay.Model()[rel] == DirEntry(now)
      {
        MkdirStep(t, rel, j, now);
        MkdirEntriesStep(m, t, rel, j, now);
        if j == |rel| || rel[j] == '/' {
          var current := rel[..j];
          assert Within(rel, current);
          PrefixClean(rel, j);
          if exhausted { StoppedAbsent(host, rel, stop, j); }
          var found := if exhausted then TargetAbsent else StepTarget(host, current);
          if !exhausted && found != TargetDir { exhausted, stop := true, j; }
          ParentsSoFar(rel, j);
          MkdirLookup(t, rel, j, now, current);
          e := EnsureDirectory(current, found, now);
          if e.Some? {
            if current in t {
              MkdirNothing(t, rel, j, now);
            } else {
              ChainOver(m, t, rel, j, now, memLimit);
              forall a | Within(rel, a) ensures !IsFile(t, a) {
                if |a| >= j { MissingBelow(t, rel, j, a); }
              }
            }
            return;
          }
          if current !in t { made := current; }
        }
      }
      e := None;
      ChainFits(m, t, rel, now, memLimit);
    }

    /** A missing directory of the chain that does not fit condemns the chain. */
    lemma ChainOver(m: Entries, t: Tree, rel: string, j: nat, now: real, limit: nat)
      requires j <= |rel| && HidesOnlyTombstones(m, t)
      requires Total(MkdirEntries(m, t, rel, j, now)) <= limit < Total(MkdirEntries(m, t, rel, j + 1, now))
      ensures ChainTooBig(m, t, rel, now, limit)
      ensures FilledUp(m, t, rel, now, limit, MkdirUpTo(t, rel, j, now))
    {
      hide Total, MkdirEntries, MkdirUpTo, HidesOnlyTombstones;
      MkdirTotalGrows(m, t, rel, j + 1, now);
      assert FilledTo(m, t, rel, now, limit, MkdirUpTo(t, rel, j, now), j);
    }

    lemma OnlyTombstonesHidden()
      requires Valid()
      ensures HidesOnlyTombstones(overlay.Model(), Merged())
    {
      hide Total;
      forall a | a in overlay.Model() && a !in Merged() ensures overlay.Model()[a].Tombstone? {
        assert RefOk(host, overlay.Model()[a]);
      }
    }

    lemma ChainFits(m: Entries, t: Tree, rel: string, now: real, limit: nat)
      requires Total(MkdirEntries(m, t, rel, |rel| + 1, now)) <= limit
      ensures !ChainTooBig(m, t, rel, now, limit)
    {
    }

    lemma ConnectedMerged()
      requires Valid()
      ensures Connected(Merged())
    {
    }

    lemma ParentsSoFar(rel: string, j: nat)
      requires j <= |rel| && CleanKey(rel) && (j == |rel| || rel[j] == '/')
      requires forall a | Within(rel, a) && |a| < j :: IsDir(Merged(), a)
      ensures HasParents(Merged(), rel[..j])
    {
      PrefixClean(rel, j);
    }

    /**
      Creates a directory. Without parents it is one new node; with parents it is
      the whole missing chain. Only a parents-mkdir that runs out of memory can
      fail and still change the tree, and then it has only added directories of
      the chain from the top.
    */
    method Mkdir(rel: string, parents: bool, existOk: bool, now: real) returns (r: Outcome<()>)
      requires Valid() && CleanKey(rel)
      modifies overlay
      ensures Valid() && fresh(overlay.entries.Values - old(overlay.entries.Values))
      ensures r.Err? && !(parents && r.error == MemoryLimitExceeded) ==> overlay.Model() == old(overlay.Model())
      ensures
        var t := old(Merged());
        if rel in t then r == (if IsDir(t, rel) && existOk then Ok(()) else Err(AlreadyExists)) && Merged() == t
        else if old(Blocked(rel)) then r == Err(NotADirectory)
        else if !parents then
          if !HasParents(t, rel) then r == Err(NotFound)
          else if Total(old(overlay.Model())[rel := DirEntry(now)]) > memLimit then r == Err(MemoryLimitExceeded)
          else r == Ok(()) && Merged() == t[rel := DirNode(now)]
        else if FileOnChain(t, rel) then r == Err(NotADirectory)
        else
          if ChainTooBig(old(overlay.Model()), t, rel, now, memLimit)
          then r == Err(MemoryLimitExceeded) && FilledUp(old(overlay.Model()), t, rel, now, memLimit, Merged())
          else r == Ok(()) && Merged() == MkdirUpTo(t, rel, |rel| + 1, now)
    {
      hide ChainTooBig, FilledUp, Total, Shadowed, Connected, HasParents, State.Indexed, View, HostBlocked, WellFormedHost, MkdirUpTo, FileOnChain;
      var entry := overlay.Get(rel);
      ViewLookup(host, overlay.Model(), rel);
      if Blocked(rel) { BlockedMeansAbsent(rel); }
      if entry.Some? {
        assert RefOk(host, entry.value);
        if entry.value.DirEntry? { return if existOk then Ok(()) else Err(AlreadyExists); }
        if !entry.value.Tombstone? { return Err(AlreadyExists); }
      } else {
        match Classify(host, rel)
        case TargetDir => return if existOk then Ok(()) else Err(AlreadyExists);
        case TargetFile => return Err(AlreadyExists);
        case TargetBlocked => return Err(NotADirectory);
        case TargetAbsent =>
      }
      RootVisible();
      if parents {
        var e := CreateOverlayParents(rel, now);
        if e.Some? { return Err(e.value); }
        RestoreSame(rel, now);
      } else {
        var ok := EnsureParentExists(rel);
        if !ok { return Err(NotFound); }
        DirFits(rel, now);
      }
      var stored := Store(rel, DirEntry(now));
      r := if stored then Ok(()) else Err(MemoryLimitExceeded);
    }

    lemma RootVisible()
      requires Valid()
      ensures "" in Merged()
    {
    }

    /** Storing the entry that is already there changes nothing and always fits. */
    lemma RestoreSame(rel: string, now: real)
      requires Valid() && rel in overlay.Model() && overlay.Model()[rel] == DirEntry(now)
      ensures overlay.Model()[rel := DirEntry(now)] == overlay.Model()
      ensures Inv(host, overlay.Model()[rel := DirEntry(now)])
      ensures Total(overlay.Model()[rel := DirEntry(now)]) <= memLimit
    {
    }

    lemma DeleteFits(rel: string)
      requires Valid() && CleanKey(rel) && rel != ""
      requires rel in Merged() && EmptyDir(Merged(), rel)
      ensures Inv(host, overlay.Model()[rel := Tombstone])
      ensures View(host, overlay.Model()[rel := Tombstone]) == Merged() - {rel}
    {
      hide Total;
      var m := overlay.Model();
      forall d | d in host && Anc(rel, d) ensures d in m { ViewLookup(host, m, d); }
      InvDelete(host, m, rel);
      ViewPut(host, m, rel, Tombstone);
    }

    /** Nothing exists below a file. */
    lemma FileHasNothingBelow(rel: string)
      requires Valid() && IsFile(Merged(), rel)
      ensures rel != "" && EmptyDir(Merged(), rel)
    {
      hide Total;
      forall k | k in Merged() ensures !Under(k, rel) { assert HasParents(Merged(), k); }
    }

    method Unlink(rel: string) returns (r: Outcome<()>)
      requires Valid() && CleanKey(rel)
      modifies overlay
      ensures Valid() && fresh(overlay.entries.Values - old(overlay.entries.Values))
      ensures r.Err? ==> overlay.Model() == old(overlay.Model())
      ensures
        var t := old(Merged());
        if IsFile(t, rel) then
          if Total(old(overlay.Model())[rel := Tombstone]) > memLimit then r == Err(MemoryLimitExceeded)
          else r == Ok(()) && Merged() == t - {rel}
        else if IsDir(t, rel) then r == Err(IsADirectory)
        else r == Err(if HasParents(t, rel) then old(MissingError(rel)) else NotFound)
    {
      hide Total, Shadowed, State.Indexed, View, HostBlocked, WellFormedHost, HasParents, EmptyDir;
      var entry := overlay.Get(rel);
      ViewLookup(host, overlay.Model(), rel);
      if Blocked(rel) { BlockedMeansAbsent(rel); }
      if entry.Some? {
        assert RefOk(host, entry.value);
        if entry.value.DirEntry? { return Err(IsADirectory); }
        if entry.value.Tombstone? { return Err(NotFound); }
      } else {
        var ok := EnsureParentExists(rel);
        assert rel in Merged() ==> HasParents(Merged(), rel);
        if !ok { return Err(NotFound); }
        match Classify(host, rel)
        case TargetDir => return Err(IsADirectory);
        case TargetBlocked => return Err(NotADirectory);
        case TargetAbsent => return Err(NotFound);
        case TargetFile =>
      }
      FileHasNothingBelow(rel);
      DeleteFits(rel);
      var stored := Store(rel, Tombstone);
      r := if stored then Ok(()) else Err(MemoryLimitExceeded);
    }

    method OverlayDirectoryHasChildren(rel: string) returns (b: bool)
      requires Valid()
      ensures b <==> exists k | k in overlay.Model() :: Under(k, rel) && !overlay.Model()[k].Tombstone?
    {
      hide Inv, Total, WellFormedHost;
      var found := overlay.PrefixKeys(rel);
      assert forall k :: Under(k, rel) && k in overlay.Model() ==> k in found;
      for i := 0 to |found|
        invariant forall j | 0 <= j < i :: Under(found[j], rel) ==> overlay.Model()[found[j]].Tombstone?
      {
        assert found[i] in found;
        var e := overlay.Get(found[i]);
        if found[i] != rel && !e.value.Tombstone? { return true; }
      }
      b := false;
    }

    method RealDirectoryHasVisibleChildren(rel: string) returns (b: bool)
      requires Valid() && HostIsDir(host, rel)
      ensures b <==> exists n | n in host[rel].names ::
        Child(rel, n) !in overlay.Model() || !overlay.Model()[Child(rel, n)].Tombstone?
    {
      hide Inv, Total, WellFormedHost;
      var names := host[rel].names;
      for i := 0 to |names|
        invariant forall j | 0 <= j < i ::
          Child(rel, names[j]) in overlay.Model() && overlay.Model()[Child(rel, names[j])].Tombstone?
      {
        var child := overlay.Get(Child(rel, names[i]));
        if child.None? || !child.value.Tombstone? { return true; }
      }
      b := false;
    }

    /**
      The scans decide emptiness, although one looks at all depths and the other
      at one level; below an entry the entries alone decide.
    */
    lemma EmptinessByScans(rel: string, inOverlay: bool, inHost: bool)
      requires Valid() && IsDir(Merged(), rel)
      requires inOverlay <==> exists k | k in overlay.Model() :: Under(k, rel) && !overlay.Model()[k].Tombstone?
      requires inHost ==> HostIsDir(host, rel) && exists n | n in host[rel].names ::
        Child(rel, n) !in overlay.Model() || !overlay.Model()[Child(rel, n)].Tombstone?
      requires rel !in overlay.Model() && !inHost ==> forall n | n in host[rel].names :: Child(rel, n) in overlay.Model()
      ensures EmptyDir(Merged(), rel) <==> !inOverlay && !inHost
    {
      hide Total, State.Indexed;
      var m := overlay.Model();
      if inOverlay {
        var k :| k in m && Under(k, rel) && !m[k].Tombstone?;
        assert RefOk(host, m[k]) && k in Merged();
      }
      if inHost {
        var n :| n in host[rel].names && (Child(rel, n) !in m || !m[Child(rel, n)].Tombstone?);
        ChildFacts(rel, n);
        assert Child(rel, n) in m ==> RefOk(host, m[Child(rel, n)]);
        assert Child(rel, n) in Merged();
      }
      if !inOverlay && !inHost {
        forall k | k in Merged() ensures !Under(k, rel) {
          ViewLookup(host, m, k);
          if Under(k, rel) && k !in m {
            assert rel !in m;
            var n := HostChildVisible(host, m, rel, k);
          }
        }
      }
    }

    method Rmdir(rel: string) returns (r: Outcome<()>)
      requires Valid() && CleanKey(rel)
      modifies overlay
      ensures Valid() && fresh(overlay.entries.Values - old(overlay.entries.Values))
      ensures r.Err? ==> overlay.Model() == old(overlay.Model())
      ensures
        var t := old(Merged());
        if rel == "" then r == Err(BadPath(PathEscape))
        else if IsFile(t, rel) then r == Err(NotADirectory)
        else if rel !in t then r == Err(NotFound)
        else if !EmptyDir(t, rel) then r == Err(DirectoryNotEmpty)
        else if Total(old(overlay.Model())[rel := Tombstone]) > memLimit then r == Err(MemoryLimitExceeded)
        else r == Ok(()) && Merged() == t - {rel}
    {
      hide Total, Shadowed, State.Indexed, View, HostBlocked, WellFormedHost, EmptyDir, HasParents;
      if rel == "" { return Err(BadPath(PathEscape)); }
      var entry := overlay.Get(rel);
      ViewLookup(host, overlay.Model(), rel);
      var inHost := false;
      if entry.Some? {
        assert RefOk(host, entry.value);
        if entry.value.Tombstone? { return Err(NotFound); }
        if !entry.value.DirEntry? { return Err(NotADirectory); }
      } else {
        var ok := EnsureParentExists(rel);
        assert rel in Merged() ==> HasParents(Merged(), rel);
        if !ok { return Err(NotFound); }
        if !HostIsDir(host, rel) { return Err(if rel in host then NotADirectory else NotFound); }
        inHost := RealDirectoryHasVisibleChildren(rel);
      }
      var inOverlay := OverlayDirectoryHasChildren(rel);
      EmptinessByScans(rel, inOverlay, inHost);
      if inHost || inOverlay { return Err(DirectoryNotEmpty); }
      DeleteFits(rel);
      var stored := Store(rel, Tombstone);
      r := if stored then Ok(()) else Err(MemoryLimitExceeded);
    }

    // ----- listing -----

    /** The names of everything directly inside rel, each once. */
    ghost predicate Listing(rel: string, names: seq<string>)
      reads overlay`entries, overlay.entries.Values`value
    {
      && Distinct(names)
      && (forall n :: n in names <==> CleanName(n) && Child(rel, n) in Merged())
    }

    /** hostListVisibleDirEntryNames: the names in host order, if they fit the budget. */
    method HostListing(rel: string, available: nat) returns (fits: bool, names: seq<string>)
      requires HostIsDir(host, rel) && available < MAX_UINT64
      ensures fits <==> NamesCost(host[rel].names) <= available
      ensures fits ==> names == host[rel].names
    {
      names := [];
      var usage: nat := 0;
      var all := host[rel].names;
      for i := 0 to |all|
        invariant names == all[..i]
        invariant usage == NamesCost(all[..i]) <= available
      {
        assert all[..i + 1][..i] == all[..i];
        NamesCostPrefix(all, i + 1);
        usage := SatAdd(SatAdd(usage, |all[i]|), LISTING_ENTRY_MEMORY_USAGE);
        if usage > available { return false, []; }
        names := names + [all[i]];
      }
      assert all[..|all|] == all;
      fits := true;
    }

    /** The children that have an entry: all of them are seen, the visible ones are listed. */
    method OverlayListing(rel: string, vpath: string, available: nat)
      returns (fits: bool, usage: nat, seen: set<string>, names: seq<string>, paths: seq<string>, ghost keys: seq<string>)
      requires Valid() && available < MAX_UINT64
      ensures ListedKeys(overlay.Model(), rel, keys)
      ensures fits <==> EntryListingCost(overlay.Model(), rel, vpath, keys) <= available
      ensures fits ==> usage == EntryListingCost(overlay.Model(), rel, vpath, keys)
      ensures fits ==>
        && (forall n :: n in seen <==> CleanName(n) && Child(rel, n) in overlay.Model())
        && (forall n :: n in names <==> n in seen && !overlay.Model()[Child(rel, n)].Tombstone?)
        && Distinct(names) && paths == ChildPaths(vpath, names)
    {
      hide Inv, Total, WellFormedHost, ChildPaths, EntryListingCost, State.Indexed, FormatChildPath, ListedKeys, CleanKey, Sorted, Anc, Child, DirectoryPrefix;
      usage, seen, names, paths := 0, {}, [], [];
      ghost var m := overlay.Model();
      assert paths == ChildPaths(vpath, names) by { NoPaths(vpath); }
      var prefix := DirectoryPrefix(rel);
      var found := overlay.PrefixKeys(rel);
      SortedDistinct(found);
      keys := found;
      ListedBelow(rel, keys);
      NoListingCost(m, rel, vpath);
      for i := 0 to |found|
        invariant forall n :: n in seen <==> CleanName(n) && Child(rel, n) in found[..i]
        invariant forall n :: n in names <==> n in seen && !overlay.Model()[Child(rel, n)].Tombstone?
        invariant Distinct(names) && paths == ChildPaths(vpath, names)
        invariant usage == EntryListingCost(m, rel, vpath, found[..i]) <= available
      {
        var key := found[i];
        EntryCostStep(m, rel, vpath, found, i);
        EntryCostPrefix(m, rel, vpath, found, i + 1);
        assert key in found && prefix <= key;
        var rest := key[|prefix|..];
        assert key == prefix + rest;
        assert found[..i + 1] == found[..i] + [key];
        ChildIs(rel, key);
        OneListingCost(m, rel, vpath, key);
        if rest != "" && '/' !in rest {
          usage := SatAdd(SatAdd(usage, SatMul(|rest|, 2)), LISTING_ENTRY_MEMORY_USAGE);
          if usage > available { fits := false; return; }
          seen := seen + {rest};
          var e := overlay.Get(key);
          if !e.value.Tombstone? {
            var child := FormatChildPath(vpath, rest);
            usage := SatAdd(SatAdd(usage, |child|), LISTING_ENTRY_MEMORY_USAGE);
            if usage > available { fits := false; return; }
            ChildPathsStep(vpath, names, rest);
            names := names + [rest];
            paths := paths + [child];
          }
        }
      }
      assert found[..|found|] == found;
      fits := true;
    }

    /** Adds the host names that no entry has claimed. */
    method MergeHostNames(hostNames: seq<string>, seen: set<string>, vpath: string, spent: nat, available: nat,
                          names0: seq<string>, paths0: seq<string>)
      returns (fits: bool, names: seq<string>, paths: seq<string>)
      requires spent <= available < MAX_UINT64
      requires Distinct(hostNames) && Distinct(names0) && paths0 == ChildPaths(vpath, names0)
      requires forall n | n in names0 :: n in seen
      ensures fits <==> spent + MergeCost(vpath, hostNames, seen) <= available
      ensures fits ==>
        && (forall n :: n in names <==> n in names0 || (n in hostNames && n !in seen))
        && Distinct(names) && paths == ChildPaths(vpath, names)
    {
      hide ChildPaths, MergeCost, FormatChildPath;
      var usage: nat := spent;
      MergeCostNone(vpath, seen);
      names, paths := names0, paths0;
      for i := 0 to |hostNames|
        invariant forall n :: n in names <==> n in names0 || (n in hostNames[..i] && n !in seen)
        invariant Distinct(names) && paths == ChildPaths(vpath, names)
        invariant usage == spent + MergeCost(vpath, hostNames[..i], seen) <= available
      {
        var name := hostNames[i];
        assert hostNames[..i + 1] == hostNames[..i] + [name] && hostNames[..i + 1][..i] == hostNames[..i];
        MergeCostPrefix(vpath, hostNames, seen, i + 1);
        MergeCostStep(vpath, hostNames[..i], name, seen);
        if name !in seen {
          var child := FormatChildPath(vpath, name);
          usage := SatAdd(SatAdd(usage, |child|), LISTING_ENTRY_MEMORY_USAGE);
          if usage > available { return false, names, paths; }
          ChildPathsStep(vpath, names, name);
          names := names + [name];
          paths := paths + [child];
        }
      }
      assert hostNames[..|hostNames|] == hostNames;
      fits := true;
    }

    lemma ChildIs(rel: string, key: string)
      requires DirectoryPrefix(rel) <= key
      ensures forall n :: Child(rel, n) == key <==> n == key[|DirectoryPrefix(rel)|..]
    {
      var prefix := DirectoryPrefix(rel);
      assert key == prefix + key[|prefix|..];
      forall n ensures Child(rel, n) == key <==> n == key[|prefix|..] { SuffixInjective(prefix, n, key[|prefix|..]); }
    }

    lemma ListedBelow(rel: string, keys: seq<string>)
      requires Valid() && Sorted(keys)
      requires if rel == "" then keys == overlay.keys else forall k :: k in keys <==> k in overlay.entries && Anc(rel, k)
      ensures ListedKeys(overlay.Model(), rel, keys)
      ensures forall k | k in keys :: k in overlay.Model() && DirectoryPrefix(rel) <= k
      ensures forall n | CleanName(n) && Child(rel, n) in overlay.Model() :: Child(rel, n) in keys
    {
      hide Inv, Total, WellFormedHost;
      forall n | CleanName(n) && Child(rel, n) in overlay.Model() ensures Child(rel, n) in keys { ChildFacts(rel, n); }
    }

    lemma NoListingCost(m: Entries, rel: string, vpath: string)
      ensures EntryListingCost(m, rel, vpath, []) == 0
    {
    }

    lemma OneListingCost(m: Entries, rel: string, vpath: string, key: string)
      requires DirectoryPrefix(rel) <= key && key in m
      ensures var rest := key[|DirectoryPrefix(rel)|..];
        EntryListingCost(m, rel, vpath, [key]) ==
        (if rest == "" || '/' in rest then 0
         else 2 * |rest| + LISTING_ENTRY_MEMORY_USAGE
              + if m[key].Tombstone? then 0 else |FormatChildPath(vpath, rest)| + LISTING_ENTRY_MEMORY_USAGE)
    {
      assert [key][..0] == [];
    }

    lemma NoPaths(vpath: string)
      ensures ChildPaths(vpath, []) == []
    {
    }

    /**
      Lists a directory. Each visible child appears exactly once, whether an
      entry or the host provides it; a listing is refused only for memory.
    */
    method Iterdir(rel: string, vpath: string) returns (r: Outcome<seq<string>>, ghost names: seq<string>)
      requires Valid()
      ensures rel !in Merged() ==> r == Err(NotFound)
      ensures IsFile(Merged(), rel) ==> r == Err(NotADirectory)
      ensures IsDir(Merged(), rel) ==> r.Ok? || r == Err(MemoryLimitExceeded)
      ensures r.Ok? ==> Listing(rel, names) && r.value == ChildPaths(vpath, names)
      ensures IsDir(Merged(), rel) ==>
        exists keys | ListedKeys(overlay.Model(), rel, keys) ::
          r.Ok? <==> ListingFits(host, overlay.Model(), rel, vpath, keys, AvailableMemory())
    {
      hide EntryListingCost, NamesCost, MergeCost, ListedKeys, Total, State.Indexed, HostBlocked, Connected, HasParents, View, Listing, Shadowed, WellFormedHost, ChildPaths;
      names := [];
      var entry := overlay.Get(rel);
      ViewLookup(host, overlay.Model(), rel);
      if entry.Some? {
        assert RefOk(host, entry.value);
        if entry.value.Tombstone? { return Err(NotFound), []; }
        if !entry.value.DirEntry? { return Err(NotADirectory), []; }
      } else if !HostIsDir(host, rel) {
        return Err(if rel in host then NotADirectory else NotFound), [];
      }
      var available := AvailableMemory();
      ghost var keys;
      var fits, usage, seen, shown, paths;
      fits, usage, seen, shown, paths, keys := OverlayListing(rel, vpath, available);
      if !fits { return Err(MemoryLimitExceeded), []; }
      if entry.None? {
        var listed, hostNames := HostListing(rel, (available - usage) / 2);
        if !listed { return Err(MemoryLimitExceeded), []; }
        NoNamesCost();
        for i := 0 to |hostNames|
          invariant usage == EntryListingCost(overlay.Model(), rel, vpath, keys) + NamesCost(hostNames[..i]) <= available
        {
          assert hostNames[..i + 1][..i] == hostNames[..i];
          NamesCostStep(hostNames, i);
          usage := SatAdd(SatAdd(usage, |hostNames[i]|), LISTING_ENTRY_MEMORY_USAGE);
        }
        assert hostNames[..|hostNames|] == hostNames;
        HostNames(host, rel);
        assert seen == SeenNames(overlay.Model(), rel) by { SeenExactly(rel, seen); }
        fits, shown, paths := MergeHostNames(hostNames, seen, vpath, usage, available, shown, paths);
        if !fits { return Err(MemoryLimitExceeded), []; }
      }
      names := shown;
      ListingComplete(rel, seen, names);
      r := Ok(paths);
    }

    lemma NoNamesCost()
      ensures NamesCost([]) == 0
    {
    }

    lemma NamesCostStep(names: seq<string>, i: nat)
      requires i < |names|
      ensures NamesCost(names[..i + 1]) == NamesCost(names[..i]) + |names[i]| + LISTING_ENTRY_MEMORY_USAGE
      ensures NamesCost(names[..i + 1]) <= NamesCost(names)
    {
      NamesCostPrefix(names, i + 1);
      assert names[..i + 1][..i] == names[..i];
    }

    lemma SeenExactly(rel: string, seen: set<string>)
      requires forall n :: n in seen <==> CleanName(n) && Child(rel, n) in overlay.Model()
      ensures seen == SeenNames(overlay.Model(), rel)
    {
      var m, p := overlay.Model(), DirectoryPrefix(rel);
      forall n ensures n in seen <==> n in SeenNames(m, rel) {
        assert (p + n)[|p|..] == n;
        if n in SeenNames(m, rel) {
          var k :| k in m && p <= k && CleanName(k[|p|..]) && k[|p|..] == n;
          assert k == p + n;
        }
      }
    }

    lemma ListingComplete(rel: string, seen: set<string>, names: seq<string>)
      requires Valid() && IsDir(Merged(), rel)
      requires forall n :: n in seen <==> CleanName(n) && Child(rel, n) in overlay.Model()
      requires Distinct(names)
      requires forall n :: n in names <==>
        || (n in seen && !overlay.Model()[Child(rel, n)].Tombstone?)
        || (rel !in overlay.Model() && n in host[rel].names && n !in seen)
      ensures Listing(rel, names)
    {
      hide Total, State.Indexed, Connected;
      var m := overlay.Model();
      forall n ensures n in names <==> CleanName(n) && Child(rel, n) in Merged() {
        ViewLookup(host, m, Child(rel, n));
        if Child(rel, n) in m {
          assert RefOk(host, m[Child(rel, n)]);
        } else if CleanName(n) && Child(rel, n) in host {
          ChildFacts(rel, n);
          assert rel !in m;
        }
      }
    }


    // ----- rename: reading the real tree -----

    /** One directory of the real tree: its children without entries, charged one by one. */
    method ScanDirectory(d: string, spent: nat, available: nat)
      returns (fits: bool, usage: nat, more: seq<Replacement>, dirs: seq<string>, ghost over: seq<Replacement>)
      requires Valid() && HostIsDir(host, d) && available < MAX_UINT64 && spent < MAX_UINT64
      requires forall n | n in host[d].names :: Child(d, n) in host
      ensures fits ==>
        && more == BareChildren(host, overlay.Model(), d, host[d].names)
        && dirs == DirKeys(more)
        && usage == spent + ScanCharge(more) <= (if more == [] then spent else available)
      ensures !fits ==>
        over != [] && over <= BareChildren(host, overlay.Model(), d, host[d].names) && spent + ScanCharge(over) > available
    {
      hide Inv, Total, WellFormedHost, State.Indexed, ScanCharge, BareChildren, DirKeys, HostEntry;
      usage, more, dirs, over := spent, [], [], [];
      var names := host[d].names;
      ScanNone(host, overlay.Model(), d);
      for i := 0 to |names|
        invariant more == BareChildren(host, overlay.Model(), d, names[..i])
        invariant dirs == DirKeys(more)
        invariant usage == spent + ScanCharge(more) <= if more == [] then spent else available
      {
        var key := Child(d, names[i]);
        ScanStep(host, overlay.Model(), d, names, i, more);
        var entry := overlay.Get(key);
        if entry.None? {
          var cost := if host[key].HostFile? then SatAdd(SatAdd(usage, |key|), |key|)
                      else SatAdd(SatAdd(usage, SatMul(|key|, 2)), |key|);
          usage := SatAdd(cost, REAL_DESCENDANT_MEMORY_USAGE);
          if usage > available {
            over := more + [Replacement(key, HostEntry(host, key))];
            BarePrefix(host, overlay.Model(), d, names, i + 1);
            fits := false;
            return;
          }
          more := more + [Replacement(key, HostEntry(host, key))];
          if host[key].HostDir? { dirs := dirs + [key]; }
        }
      }
      assert names[..|names|] == names;
      fits := true;
    }

    /** Walks the real tree below src and collects every node that no entry hides or replaces. */
    method CollectRealDescendants(src: string, available: nat) returns (fits: bool, found: seq<Replacement>)
      requires Valid() && src != "" && |src| <= KEY_MAX && HostIsDir(host, src) && available < MAX_UINT64
      ensures fits ==>
        && DistinctKeys(found)
        && KeysOf(found) == Bare(host, overlay.Model(), src)
        && (forall r | r in found :: r.key in host && r.entry == HostEntry(host, r.key))
        && ScanCost(found) <= available
      ensures fits <==> !ScanOver(host, overlay.Model(), src, available)
    {
      hide Inv, Total, WellFormedHost, State.Indexed, Bare, KeysOf, IsScan, WalkInv, DistinctKeys, ScanCharge, ScanCost, HostEntry, BareChildren, DirKeys, SomeBare, ScanOver;
      ghost var m := overlay.Model();
      found := [];
      var dirs := [src];
      var usage := SatAdd(|src|, |src| + 1);
      WalkStart(host, m, src);
      while dirs != []
        invariant WalkInv(host, m, src, found, dirs)
        invariant usage == 2 * |src| + 1 + ScanCharge(found) && usage < MAX_UINT64
        invariant found != [] ==> usage <= available
        decreases Bare(host, m, src) - KeysOf(found), |dirs|
      {
        var d := dirs[|dirs| - 1];
        WalkTop(host, m, src, found, dirs);
        ScanIs(host, m, d);
        ghost var all := BareChildren(host, m, d, host[d].names);
        WalkStep(host, m, src, found, dirs, all);
        ghost var over;
        var ok, spent, more, subdirs;
        ok, spent, more, subdirs, over := ScanDirectory(d, usage, available);
        if !ok {
          WalkStopped(host, m, src, found, all, over, dirs[..|dirs| - 1] + DirKeys(all));
          ScanChargeConcat(found, over);
          ScanCondemned(host, m, src, found + over, available);
          return false, [];
        }
        WalkProgress(host, m, src, found, more, dirs[..|dirs| - 1] + subdirs);
        ScanChargeConcat(found, more);
        usage := spent;
        found := found + more;
        dirs := dirs[..|dirs| - 1] + subdirs;
      }
      WalkDone(host, m, src, found);
      ScanCleared(host, m, src, found, available);
      ScanCostCharged(found);
      assert found == [] ==> ScanCost(found) == 0 by { ScanNone(host, m, ""); }
      fits := true;
    }

    /** What the host has below src, if it has a directory there. */
    method CollectBare(src: string, available: nat) returns (fits: bool, found: seq<Replacement>)
      requires Valid() && src != "" && |src| <= KEY_MAX && available < MAX_UINT64
      ensures fits ==>
        && DistinctKeys(found)
        && KeysOf(found) == Bare(host, overlay.Model(), src)
        && (forall r | r in found :: Anc(src, r.key) && r.key in host && r.key !in overlay.Model() && r.entry == HostEntry(host, r.key))
        && ScanCost(found) <= available
      ensures fits <==> !ScanOver(host, overlay.Model(), src, available)
    {
      hide Total, Inv, State.Indexed, HostEntry, ScanOver, Anc;
      if HostIsDir(host, src) {
        fits, found := CollectRealDescendants(src, available);
        assert fits ==> forall r | r in found :: r.key in KeysOf(found) && r.key in Bare(host, overlay.Model(), src);
      } else {
        fits, found := true, [];
        assert Bare(host, overlay.Model(), src) == {} by { NotHostDirChildless(host, src); }
        assert KeysOf(found) == {};
        NothingScanned(host, overlay.Model(), src, available);
      }
    }

    // ----- rename: the plan -----

    /** Planning the directory rename, or the overlay it would leave, takes more memory than there is. */
    ghost predicate DirectoryTooBig(src: string, dst: string)
      requires Valid()
      reads this, overlay, overlay.entries.Values
    {
      || PlanTooBig(host, overlay.Model(), src, dst, AvailableMemory())
      || Total(RenamedEntries(host, overlay.Model(), src, dst)) > memLimit
    }

    ghost predicate RenameTooBig(src: string, dst: string)
      requires Valid() && (src in overlay.Model() || src in host)
      reads this, overlay, overlay.entries.Values
    {
      if IsDir(Merged(), src) then DirectoryTooBig(src, dst)
      else Total(overlay.Model()[src := Tombstone][dst := SourceEntry(host, overlay.Model(), src)]) > memLimit
    }

    /** What the plan of the overlay's own keys would occupy, or nothing if it is over budget. */
    method ChargeEntryPlan(src: string, dst: string, keys: seq<string>) returns (fits: bool, remaining: nat)
      requires Valid() && forall k | k in keys :: Anc(src, k)
      ensures fits <==> PlanCost(keys, src, dst) <= AvailableMemory()
      ensures fits ==> PlanCost(keys, src, dst) + remaining == AvailableMemory()
    {
      hide Inv, Total, WellFormedHost, State.Indexed;
      var planUsage: nat := 0;
      for i := 0 to |keys|
        invariant planUsage == if PlanCost(keys[..i], src, dst) <= MAX_UINT64 then PlanCost(keys[..i], src, dst) else MAX_UINT64
      {
        var key := keys[i];
        assert Anc(src, key) && keys[..i + 1][..i] == keys[..i];
        var suffix := |key| - (|src| + 1);
        planUsage := SatAdd(planUsage, SatMul(|key|, 2));
        planUsage := SatAdd(planUsage, SatAdd(|dst| + 1, suffix));
        planUsage := SatAdd(planUsage, ENTRY_MEMORY_USAGE);
      }
      assert keys[..|keys|] == keys;
      if planUsage > AvailableMemory() { return false, 0; }
      return true, AvailableMemory() - planUsage;
    }

    /** Adds a move for every entry below the source. */
    method PlanEntries(src: string, dst: string, source: Entry, keys: seq<string>) returns (moves: seq<Move>)
      requires Valid() && Sorted(keys)
      requires forall k | k in keys :: k in overlay.Model() && Anc(src, k)
      requires PlanPart(host, overlay.Model(), src, Move("", source))
      ensures PlanShape(src, keys, [], moves)
      ensures forall i | 0 <= i < |moves| :: PlanPart(host, overlay.Model(), src, moves[i])
      ensures BatchCost(Batch(src, dst, moves))
        <= BatchCost(Batch(src, dst, [Move("", source)])) + 2 * PlanCost(keys, src, dst) + Total(overlay.Model())
    {
      hide Inv, Total, WellFormedHost, State.Indexed, PlanPart, Batch, BatchCost, PlanShape, PlanCost, CostOf, ScanCost, HostEntry;
      ghost var m := overlay.Model();
      moves := [Move("", source)];
      PlanNone(m, src, dst, moves);
      for i := 0 to |keys|
        invariant PlanShape(src, keys[..i], [], moves)
        invariant forall j | 0 <= j < |moves| :: PlanPart(host, m, src, moves[j])
        invariant BatchCost(Batch(src, dst, moves))
          <= BatchCost(Batch(src, dst, [Move("", source)])) + 2 * PlanCost(keys[..i], src, dst) + CostOf(m, keys[..i])
      {
        var key := keys[i];
        assert key in keys;
        EntryPart(host, m, src, key);
        EntryMoveCost(m, src, dst, moves, keys, i);
        var e := overlay.Get(key);
        ShapeEntry(src, keys, i, moves, Move(key[|src|..], e.value));
        moves := moves + [Move(key[|src|..], e.value)];
      }
      assert keys[..|keys|] == keys;
      SortedDistinct(keys);
      CostOfWithinTotal(m, keys);
    }

    /** Adds a move for every bare host node below the source. */
    method PlanReal(src: string, dst: string, keys: seq<string>, found: seq<Replacement>, base: seq<Move>) returns (moves: seq<Move>)
      requires Valid() && |dst| <= KEY_MAX
      requires forall r | r in found :: Anc(src, r.key) && r.key in host && r.key !in overlay.Model() && r.entry == HostEntry(host, r.key)
      requires PlanShape(src, keys, [], base)
      requires forall i | 0 <= i < |base| :: PlanPart(host, overlay.Model(), src, base[i])
      ensures PlanShape(src, keys, found, moves)
      ensures forall i | 0 <= i < |moves| :: PlanPart(host, overlay.Model(), src, moves[i])
      ensures BatchCost(Batch(src, dst, moves)) <= BatchCost(Batch(src, dst, base)) + 10 * ScanCost(found)
    {
      hide Inv, Total, WellFormedHost, State.Indexed, PlanPart, Batch, BatchCost, PlanShape, PlanCost, CostOf, ScanCost, HostEntry;
      ghost var m := overlay.Model();
      moves := base;
      assert found[..0] == [] && ScanCost([]) == 0 by { ScanNone(host, m, ""); }
      for i := 0 to |found|
        invariant PlanShape(src, keys, found[..i], moves)
        invariant forall j | 0 <= j < |moves| :: PlanPart(host, m, src, moves[j])
        invariant BatchCost(Batch(src, dst, moves)) <= BatchCost(Batch(src, dst, base)) + 10 * ScanCost(found[..i])
      {
        assert found[i] in found;
        RealPart(host, m, src, found[i].key);
        RealMoveCost(host, src, dst, moves, found, i);
        ShapeReal(src, keys, found, i, moves, Move(found[i].key[|src|..], found[i].entry));
        moves := moves + [Move(found[i].key[|src|..], found[i].entry)];
      }
      assert found[..|found|] == found;
    }

    lemma DirSourceOk(src: string)
      requires Valid() && IsDir(Merged(), src)
      ensures RefOk(host, SourceEntry(host, overlay.Model(), src))
    {
    }

    /** Plans a directory rename: complete, and cheap enough that no counter can saturate. */
    method PlanDirectory(src: string, dst: string, source: Entry) returns (fits: bool, moves: seq<Move>)
      requires Valid() && src != "" && |src| <= KEY_MAX && |dst| <= KEY_MAX
      requires IsDir(Merged(), src) && source == SourceEntry(host, overlay.Model(), src)
      ensures fits ==> FullPlan(host, overlay.Model(), src, moves)
      ensures fits ==> overlay.usage + BatchCost(Batch(src, dst, moves)) < MAX_UINT64
      ensures fits <==> !PlanTooBig(host, overlay.Model(), src, dst, AvailableMemory())
    {
      hide Total, WellFormedHost, State.Indexed, Connected, Shadowed, PlanPart, PlanShape, FullPlan, Batch, BatchCost, PlanCost, ScanCost, ScanOver, Sum, MoveWeight, HostEntry, Inv, View, IsNormalizedVirtualPath, Bare, KeysOf, DistinctKeys, Anc, SourceEntry;
      ghost var m := overlay.Model();
      VisibleSomewhere(host, m, src);
      assert PlanPart(host, m, src, Move("", source)) by { DirSourceOk(src); SourcePart(host, m, src); }
      FirstMoveCost(host, m, src, dst);
      var keys := overlay.PrefixKeys(src);
      PlanCostIsSum(keys, src, dst);
      assert (set k | k in keys) == EntriesBelow(m, src);
      var charged, remaining := ChargeEntryPlan(src, dst, keys);
      if !charged { return false, []; }
      moves := PlanEntries(src, dst, source, keys);
      var found;
      fits, found := CollectBare(src, remaining);
      if !fits { return false, []; }
      moves := PlanReal(src, dst, keys, found, moves);
      PlanComplete(host, m, src, keys, found, moves);
      fits := true;
    }

    // ----- rename: the commit -----

    /** A taken object is in nobody's hands: its owner is the old key, and it carries the planned entry. */
    ghost predicate Loose(src: string, moves: seq<Move>, taken: seq<OverlayEntry?>, i: nat)
      requires |taken| == |moves|
      reads overlay, taken
    {
      forall j | i <= j < |moves| && taken[j] != null ::
        && taken[j] !in overlay.entries.Values
        && taken[j].owner == src + moves[j].suffix && taken[j].value == moves[j].entry
    }

    /** Takes the entry objects of the plan out of the map; their owners still name the old keys. */
    method TakeSources(src: string, moves: seq<Move>) returns (taken: seq<OverlayEntry?>)
      requires overlay.Valid() && forall i, j | 0 <= i < j < |moves| :: moves[i].suffix != moves[j].suffix
      requires forall i | 0 <= i < |moves| && src + moves[i].suffix in overlay.Model() ::
        moves[i].entry == overlay.Model()[src + moves[i].suffix]
      modifies overlay
      ensures overlay.Valid() && overlay.usage <= old(overlay.usage)
      ensures forall k :: k in overlay.entries <==> k in old(overlay.entries) && !(src <= k && Moved(moves, k[|src|..]))
      ensures forall k | k in overlay.entries :: overlay.entries[k] == old(overlay.entries)[k]
      ensures |taken| == |moves| && Loose(src, moves, taken, 0)
      ensures forall o | o in taken && o != null :: o in old(overlay.entries.Values)
    {
      hide Total, Sorted, Moved;
      taken := [];
      MovedNone(moves);
      for i := 0 to |moves|
        invariant overlay.Valid() && overlay.usage <= old(overlay.usage)
        invariant forall k :: k in overlay.entries <==> k in old(overlay.entries) && !(src <= k && Moved(moves[..i], k[|src|..]))
        invariant forall k | k in overlay.entries :: overlay.entries[k] == old(overlay.entries)[k]
        invariant |taken| == i
        invariant forall j | 0 <= j < i ::
          taken[j] == if src + moves[j].suffix in old(overlay.entries) then old(overlay.entries)[src + moves[j].suffix] else null
      {
        var key := src + moves[i].suffix;
        assert key[|src|..] == moves[i].suffix && src <= key;
        NotMovedBefore(moves, i);
        forall k | src <= k ensures Moved(moves[..i + 1], k[|src|..]) <==> Moved(moves[..i], k[|src|..]) || k == key {
          MovedStep(moves, i, k[|src|..]);
          assert k == src + k[|src|..];
        }
        var e := overlay.Remove(key);
        taken := taken + [e];
      }
      assert moves[..|moves|] == moves;
      forall j | 0 <= j < |moves| && taken[j] != null
        ensures taken[j] !in overlay.entries.Values
        ensures taken[j].owner == src + moves[j].suffix && taken[j].value == moves[j].entry
      {
        var key := src + moves[j].suffix;
        assert key[|src|..] == moves[j].suffix && key in old(overlay.Model());
        MovedAt(moves, j);
        assert forall k | k in overlay.entries :: overlay.entries[k].owner == k && k != key;
      }
    }

    /** Inserts a tombstone and the moved entry for every move, in plan order. */
    method InsertMoves(src: string, dst: string, moves: seq<Move>, taken: seq<OverlayEntry?>)
      requires overlay.Valid() && |taken| == |moves| && Loose(src, moves, taken, 0)
      requires forall i, j | 0 <= i < j < |moves| :: moves[i].suffix != moves[j].suffix
      requires overlay.usage + BatchCost(Batch(src, dst, moves)) < MAX_UINT64
      modifies overlay, taken
      ensures overlay.Valid()
      ensures fresh(overlay.entries.Values - old(overlay.entries.Values) - (set o | o in taken))
      ensures overlay.Model() == ApplyBatch(old(overlay.Model()), Batch(src, dst, moves))
    {
      hide Total, Sorted, Batch, BatchCost, ApplyBatch;
      ghost var m := overlay.Model();
      BatchNone(m, src, dst);
      for i := 0 to |moves|
        invariant overlay.Valid() && Loose(src, moves, taken, i)
        invariant fresh(overlay.entries.Values - old(overlay.entries.Values) - (set o | o in taken))
        invariant overlay.Model() == ApplyBatch(m, Batch(src, dst, moves[..i]))
      {
        CommitRoom(m, src, dst, moves, i);
        forall j | i < j < |moves| ensures src + moves[j].suffix != src + moves[i].suffix {
          SuffixInjective(src, moves[i].suffix, moves[j].suffix);
        }
        var grave := new OverlayEntry(Tombstone);
        overlay.InsertUnchecked(src + moves[i].suffix, grave);
        var entry := taken[i];
        if entry == null { entry := new OverlayEntry(moves[i].entry); }
        overlay.InsertUnchecked(dst + moves[i].suffix, entry);
      }
      assert moves[..|moves|] == moves;
    }

    /**
      Commits a checked plan. The map ends up exactly as the projected batch
      says, so the usage that was checked is the usage that results.
    */
    method CommitRename(src: string, dst: string, moves: seq<Move>)
      requires Valid() && CleanKey(src)
      requires PlanOk(host, overlay.Model(), src, moves) && Admissible(Merged(), src, dst)
      requires overlay.usage + BatchCost(Batch(src, dst, moves)) < MAX_UINT64
      requires Total(ApplyBatch(overlay.Model(), Batch(src, dst, moves))) <= memLimit
      modifies overlay, overlay.entries.Values
      ensures Valid() && fresh(overlay.entries.Values - old(overlay.entries.Values))
      ensures overlay.Model() == ApplyBatch(old(overlay.Model()), Batch(src, dst, moves))
    {
      hide Total, Batch, BatchCost, ApplyBatch, WellFormedHost, Inv, View, Admissible, Sorted, PlanPart;
      ghost var m := overlay.Model();
      RenameKeepsInv(host, m, src, dst, moves);
      PlanCarriesEntries(host, m, src, moves);
      var taken := TakeSources(src, moves);
      RemovalIrrelevant(m, overlay.Model(), src, dst, moves);
      InsertMoves(src, dst, moves, taken);
    }

    // ----- rename -----

    /** Why the tree does not allow renaming src to dst, in the order the checks are made. */
    ghost function RenameRefusal(src: string, dst: string): Option<Error>
      reads overlay`entries, overlay.entries.Values`value
    {
      var t := Merged();
      if src == "" || dst == "" then Some(BadPath(PathEscape))
      else if !HasParents(t, dst) || !HasParents(t, src) then Some(NotFound)
      else if src !in t then
        Some(if src in overlay.entries then NotFound else if IsDir(t, dst) then IsADirectory else MissingError(src))
      else if IsFile(t, src) then (if IsDir(t, dst) then Some(IsADirectory) else None)
      else if IsFile(t, dst) then Some(NotADirectory)
      else if dst in t && !EmptyDir(t, dst) then Some(DirectoryNotEmpty)
      else if Anc(src, dst) then Some(InvalidInput)
      else None
    }

    /** rejectRenameOntoNonemptyDir. */
    method OntoNonemptyDir(dst: string) returns (b: bool)
      requires Valid()
      ensures b <==> IsDir(Merged(), dst) && !EmptyDir(Merged(), dst)
    {
      hide Total, State.Indexed, View, WellFormedHost, EmptyDir, Connected, Shadowed;
      var entry := overlay.Get(dst);
      ViewLookup(host, overlay.Model(), dst);
      if entry.Some? && !entry.value.DirEntry? { assert RefOk(host, entry.value); return false; }
      if entry.None? && !HostIsDir(host, dst) { return false; }
      var inOverlay := OverlayDirectoryHasChildren(dst);
      if inOverlay {
        EmptinessByScans(dst, true, exists n | HostIsDir(host, dst) && n in host[dst].names ::
          Child(dst, n) !in overlay.Model() || !overlay.Model()[Child(dst, n)].Tombstone?);
        return true;
      }
      var inHost := false;
      if HostIsDir(host, dst) { inHost := RealDirectoryHasVisibleChildren(dst); }
      EmptinessByScans(dst, inOverlay, inHost);
      b := inHost;
    }

    lemma RefusedNothing(src: string, dst: string)
      requires Valid() && CleanKey(dst) && RenameRefusal(src, dst).None?
      ensures Admissible(Merged(), src, dst)
    {
      hide Total, State.Indexed, Shadowed, View;
      var t := Merged();
      ConnectedMerged();
      forall k | k in t ensures !Anc(dst, k) { assert HasParents(t, k); }
    }

    /** Every check a rename makes before it plans. */
    method CheckRename(src: string, dst: string) returns (e: Option<Error>, srcIsDir: bool)
      requires Valid()
      ensures e == RenameRefusal(src, dst)
      ensures e.None? ==> (srcIsDir <==> IsDir(Merged(), src))
    {
      hide Total, State.Indexed, View, WellFormedHost, EmptyDir, HasParents, Connected, Shadowed, HostBlocked, Anc;
      srcIsDir := false;
      if src == "" || dst == "" { return Some(BadPath(PathEscape)), false; }
      var dstParents := EnsureParentExists(dst);
      if !dstParents { return Some(NotFound), false; }
      var srcParents := EnsureParentExists(src);
      if !srcParents { return Some(NotFound), false; }
      var entry := overlay.Get(src);
      ViewLookup(host, overlay.Model(), src);
      if entry.Some? && entry.value.Tombstone? { return Some(NotFound), false; }
      assert entry.Some? ==> RefOk(host, entry.value);
      srcIsDir := if entry.Some? then entry.value.DirEntry? else HostIsDir(host, src);
      var dstIsDir := IsDirAt(dst);
      var dstIsFile := IsFileAt(dst);
      if dstIsDir && !srcIsDir { return Some(IsADirectory), srcIsDir; }
      if dstIsFile && srcIsDir { return Some(NotADirectory), srcIsDir; }
      if srcIsDir {
        var nonempty := OntoNonemptyDir(dst);
        if nonempty { return Some(DirectoryNotEmpty), true; }
        if Anc(src, dst) { return Some(InvalidInput), true; }
      } else if entry.None? {
        if Blocked(src) { BlockedMeansAbsent(src); }
        match Classify(host, src)
        case TargetAbsent => return Some(NotFound), false;
        case TargetBlocked => return Some(NotADirectory), false;
        case _ =>
      }
      e := None;
    }

    /**
      Renames a file or a directory. It is all or nothing: on success the whole
      visible subtree has moved and nothing else has changed; on any error, the
      memory limit included, the entries are untouched.
    */
    method Rename(srcV: string, dstV: string) returns (r: Outcome<()>)
      requires Valid() && |srcV| <= PATH_MAX && |dstV| <= PATH_MAX
      modifies overlay, overlay.entries.Values
      ensures Valid() && fresh(overlay.entries.Values - old(overlay.entries.Values))
      ensures r.Err? ==> overlay.Model() == old(overlay.Model())
      ensures
        if Resolve(srcV).Rejected? then r == Err(BadPath(Resolve(srcV).error))
        else if Resolve(dstV).Rejected? then r == Err(BadPath(Resolve(dstV).error))
        else
          var src, dst := Resolve(srcV).key, Resolve(dstV).key;
          if old(RenameRefusal(src, dst)).Some? then r == Err(old(RenameRefusal(src, dst)).value)
          else
            && (src in old(overlay.Model()) || src in host)
            && (if old(RenameTooBig(src, dst)) then r == Err(MemoryLimitExceeded)
                else r == Ok(()) && forall k :: Lookup(Merged(), k) == RenamedAt(old(Merged()), src, dst, k))
    {
      hide RenameTooBig, Total, State.Indexed, View, WellFormedHost, RenameRefusal, ResolveVirtualPath, Inv, Admissible, PlanOk, Batch, BatchCost, ApplyBatch, RenamedAt;
      var from, to := Resolve(srcV), Resolve(dstV);
      if from.Rejected? { return Err(BadPath(from.error)); }
      if to.Rejected? { return Err(BadPath(to.error)); }
      var src, dst := from.key, to.key;
      assert CleanKey(src) && CleanKey(dst) && |src| <= KEY_MAX && |dst| <= KEY_MAX by {
        ResolvedClean(srcV);
        ResolvedClean(dstV);
        ResolvedShort(srcV, virtualPath);
        ResolvedShort(dstV, virtualPath);
      }
      var refused, srcIsDir := CheckRename(src, dst);
      if refused.Some? { return Err(refused.value); }
      RefusedNothing(src, dst);
      assert Merged() == old(Merged()) && overlay.Model() == old(overlay.Model());
      r := RenameAdmitted(src, dst, srcIsDir);
    }

    /** Plans, projects and commits an admissible rename. */
    method RenameAdmitted(src: string, dst: string, srcIsDir: bool) returns (r: Outcome<()>)
      requires Valid() && CleanKey(src) && |src| <= KEY_MAX && |dst| <= KEY_MAX
      requires Admissible(Merged(), src, dst) && (srcIsDir <==> IsDir(Merged(), src))
      modifies overlay, overlay.entries.Values
      ensures Valid() && fresh(overlay.entries.Values - old(overlay.entries.Values))
      ensures r == Ok(()) || r == Err(MemoryLimitExceeded)
      ensures r.Err? ==> overlay.Model() == old(overlay.Model())
      ensures r.Ok? ==> forall k :: Lookup(Merged(), k) == RenamedAt(old(Merged()), src, dst, k)
      ensures (src in old(overlay.Model()) || src in host) && (r.Ok? <==> !old(RenameTooBig(src, dst)))
    {
      hide PlanTooBig, Total, State.Indexed, WellFormedHost, Inv, FullPlan, PlanOk, RenamedEntries, Batch, BatchCost, ApplyBatch, RenamedAt, NodeAt, View;
      ghost var m, t := overlay.Model(), Merged();
      ViewLookup(host, m, src);
      assert src in m || src in host by { VisibleSomewhere(host, m, src); }
      var entry := overlay.Get(src);
      var source := if entry.Some? then entry.value else HostEntry(host, src);
      var moves := [Move("", source)];
      if srcIsDir {
        var fits: bool;
        fits, moves := PlanDirectory(src, dst, source);
        if !fits { return Err(MemoryLimitExceeded); }
        FullPlanOk(host, m, src, moves);
        BatchLeaves(host, m, src, dst, moves);
      } else {
        FilePlan(host, m, src);
        FirstMoveCost(host, m, src, dst);
        BatchOne(m, src, dst, moves[0]);
      }
      var ok := overlay.CheckReplacements(Batch(src, dst, moves), memLimit);
      if !ok { return Err(MemoryLimitExceeded); }
      CommitRename(src, dst, moves);
      forall k ensures Lookup(Merged(), k) == RenamedAt(t, src, dst, k) {
        RenameMoves(host, m, src, dst, moves, k);
        ViewLookup(host, overlay.Model(), k);
      }
      r := Ok(());
    }
  }
}
