/**
  The tree an overlay mount presents: the host directory seen through the
  entries, and the invariant that makes exact-key lookups sound.
*/
module MergedTree {
  import opened Prelude
  import opened Keys
  import opened OverlayState

  // ----- plain trees -----

  datatype Node = FileNode(content: Bytes, mtime: real) | DirNode(mtime: real)

  /** A filesystem tree: every existing path with what is there. */
  type Tree = map<string, Node>

  function Lookup(t: Tree, k: string): Option<Node> {
    if k in t then Some(t[k]) else None
  }

  predicate IsDir(t: Tree, k: string) {
    k in t && t[k].DirNode?
  }

  predicate IsFile(t: Tree, k: string) {
    k in t && t[k].FileNode?
  }

  /** Every directory a lookup of k passes through exists. */
  ghost predicate HasParents(t: Tree, k: string) {
    forall a | Anc(a, k) :: IsDir(t, a)
  }

  ghost predicate EmptyDir(t: Tree, d: string) {
    forall k | k in t :: !Under(k, d)
  }

  /** Every existing path hangs below existing directories. */
  ghost predicate Connected(t: Tree) {
    IsDir(t, "") && forall k | k in t :: HasParents(t, k)
  }

  /** What rename(src, dst) puts at k: the subtree moves, whatever was at dst goes, the rest stays. */
  function RenamedAt(t: Tree, src: string, dst: string, k: string): Option<Node> {
    if Within(k, dst) then Lookup(t, src + k[|dst|..])
    else if Within(k, src) then None
    else Lookup(t, k)
  }

  // ----- the host directory -----

  datatype HostNode = HostFile(content: Bytes, mtime: real) | HostDir(names: seq<string>, mtime: real)

  /** A fixed host directory: regular files and directories by mount-relative path. */
  type Host = map<string, HostNode>

  ghost predicate WellFormedHost(h: Host) {
    && "" in h && h[""].HostDir?
    && (forall k | k in h :: CleanKey(k))
    && (forall k, a | k in h && Anc(a, k) :: a in h && h[a].HostDir?)
    && (forall d | d in h && h[d].HostDir? ::
          && (forall i, j | 0 <= i < j < |h[d].names| :: h[d].names[i] != h[d].names[j])
          && (forall n | n in h[d].names :: CleanName(n) && Child(d, n) in h))
    && (forall d, n :: CleanName(n) && Child(d, n) in h && d in h && h[d].HostDir? ==> n in h[d].names)
  }

  function HostNodeAt(h: Host, k: string): Option<Node> {
    if k !in h then None
    else match h[k]
      case HostFile(content, mtime) => Some(FileNode(content, mtime))
      case HostDir(_, mtime) => Some(DirNode(mtime))
  }

  predicate HostIsDir(h: Host, k: string) {
    k in h && h[k].HostDir?
  }

  /** A host lookup of k runs into a regular file on the way: ENOTDIR instead of ENOENT. */
  predicate HostBlocked(h: Host, k: string) {
    exists i | 0 <= i < |k| :: k[i] == '/' && k[..i] in h && h[k[..i]].HostFile?
  }

  datatype Target = TargetDir | TargetFile | TargetAbsent | TargetBlocked

  /** lstat of a whole path (classifyTarget). */
  function Classify(h: Host, k: string): Target {
    if k in h then (if h[k].HostDir? then TargetDir else TargetFile)
    else if HostBlocked(h, k) then TargetBlocked
    else TargetAbsent
  }

  // ----- the merged view -----

  function EntryNode(h: Host, e: Entry): Option<Node> {
    match e
    case FileEntry(content, mtime) => Some(FileNode(content, mtime))
    case RefEntry(relative, _, mtime) =>
      if relative in h && h[relative].HostFile? then Some(FileNode(h[relative].content, mtime)) else None
    case DirEntry(mtime) => Some(DirNode(mtime))
    case Tombstone => None
  }

  /** An exact-key lookup: the entry if there is one, the host otherwise. */
  function NodeAt(h: Host, m: Entries, k: string): Option<Node> {
    if k in m then EntryNode(h, m[k]) else HostNodeAt(h, k)
  }

  ghost function View(h: Host, m: Entries): Tree {
    map k | k in m.Keys + h.Keys && NodeAt(h, m, k).Some? :: NodeAt(h, m, k).value
  }

  lemma ViewLookup(h: Host, m: Entries, k: string)
    ensures Lookup(View(h, m), k) == NodeAt(h, m, k)
  {
  }

  ghost predicate RefOk(h: Host, e: Entry) {
    e.RefEntry? ==>
      e.relative in h && h[e.relative].HostFile?
      && e.size == |h[e.relative].content| && e.mtime == h[e.relative].mtime
  }

  /** A key with an entry has an entry for every host descendant. */
  ghost predicate Shadowed(h: Host, m: Entries) {
    forall k, d | k in m && d in h && Anc(k, d) :: d in m
  }

  ghost predicate Inv(h: Host, m: Entries) {
    && "" !in m
    && (forall k | k in m :: CleanKey(k) && RefOk(h, m[k]))
    && Shadowed(h, m)
    && Connected(View(h, m))
  }

  lemma InvInitial(h: Host)
    requires WellFormedHost(h)
    ensures Inv(h, map[])
  {
    var t := View(h, map[]);
    forall k, a | k in t && Anc(a, k) ensures IsDir(t, a) { assert a in h; }
  }

  /** A deleted or replaced directory is never resurrected: no host node shows through below an entry. */
  lemma NoResurrection(h: Host, m: Entries, k: string, a: string)
    requires Inv(h, m) && Anc(a, k) && a in m
    ensures k in View(h, m) ==> k in m && m[a].DirEntry?
  {
    if k in View(h, m) { assert IsDir(View(h, m), a); }
  }

  /** Below a host directory that is visible, nothing visible means no entry but tombstones and no bare host name. */
  lemma HostChildVisible(h: Host, m: Entries, d: string, k: string) returns (n: string)
    requires WellFormedHost(h) && Inv(h, m)
    requires HostIsDir(h, d) && Under(k, d) && k in h && k !in m
    ensures n in h[d].names && Child(d, n) !in m
  {
    n := FirstComponent(d, k);
    var c := Child(d, n);
    assert c in h;
    if c in m && c != k { assert Anc(c, k); }
  }

  // ----- single replacements -----

  lemma ViewPut(h: Host, m: Entries, k: string, e: Entry)
    ensures EntryNode(h, e).Some? ==> View(h, m[k := e]) == View(h, m)[k := EntryNode(h, e).value]
    ensures EntryNode(h, e).None? ==> View(h, m[k := e]) == View(h, m) - {k}
  {
    var t, u := View(h, m), View(h, m[k := e]);
    forall j ensures j != k ==> Lookup(u, j) == Lookup(t, j) {}
    assert Lookup(u, k) == EntryNode(h, e);
  }

  /** Creating or replacing a node keeps the invariant when the path leads through directories. */
  lemma InvPut(h: Host, m: Entries, k: string, e: Entry)
    requires Inv(h, m) && k != "" && CleanKey(k) && RefOk(h, e) && EntryNode(h, e).Some?
    requires HasParents(View(h, m), k)
    requires k !in m ==> forall d | d in h :: !Anc(k, d)
    requires IsDir(View(h, m), k) ==> e.DirEntry?
    ensures Inv(h, m[k := e])
  {
    var t, u := View(h, m), View(h, m[k := e]);
    ViewPut(h, m, k, e);
    forall j, a | j in u && Anc(a, j) ensures IsDir(u, a) {
      if j == k { assert IsDir(t, a); } else { assert j in t && IsDir(t, a); }
    }
  }

  /** Deleting a node keeps the invariant when nothing visible lies below it. */
  lemma InvDelete(h: Host, m: Entries, k: string)
    requires Inv(h, m) && k != "" && CleanKey(k)
    requires forall j | j in View(h, m) :: !Anc(k, j)
    requires k !in m ==> forall d | d in h && Anc(k, d) :: d in m
    ensures Inv(h, m[k := Tombstone])
  {
    var t, u := View(h, m), View(h, m[k := Tombstone]);
    ViewPut(h, m, k, Tombstone);
    forall j, a | j in u && Anc(a, j) ensures IsDir(u, a) { assert j in t && IsDir(t, a); }
  }

  /** What is not a host directory has nothing below it on the host. */
  lemma NotHostDirChildless(h: Host, k: string)
    requires WellFormedHost(h) && !HostIsDir(h, k)
    ensures forall d | d in h :: !Anc(k, d)
  {
  }
}
