/**
  Virtual POSIX paths: lexical normalisation (internal/value/vpath.go), the
  mount table's routing (internal/mountfs/table.go) and the translation of a
  virtual path to a mount-relative key (internal/mountfs/pathpolicy.go).
*/
module VirtualPath {
  import opened Prelude
  import opened Keys

  // ----- splitting and joining -----

  /** strings.Split(s, "/"). */
  function Split(s: string): (r: seq<string>)
    ensures |r| >= 1
  {
    if s == "" then [""]
    else
      var rest := Split(s[1..]);
      if s[0] == '/' then [""] + rest else [[s[0]] + rest[0]] + rest[1..]
  }

  /** Every segment preceded by a slash. */
  function Render(segs: seq<string>): string {
    if segs == [] then "" else Render(segs[..|segs| - 1]) + "/" + segs[|segs| - 1]
  }

  lemma {:induction false} RenderConcat(a: seq<string>, b: seq<string>)
    ensures Render(a + b) == Render(a) + Render(b)
  {
    if b == [] {
      assert a + b == a;
    } else {
      RenderConcat(a, b[..|b| - 1]);
      assert (a + b)[..|a + b| - 1] == a + b[..|b| - 1];
    }
  }

  lemma {:induction false} SplitSlashFree(s: string)
    ensures forall seg | seg in Split(s) :: '/' !in seg
  {
    if s != "" { SplitSlashFree(s[1..]); }
  }

  lemma RenderHead(segs: seq<string>)
    requires segs != []
    ensures Render(segs) == "/" + segs[0] + Render(segs[1..])
  {
    RenderConcat(segs[..1], segs[1..]);
    assert segs == segs[..1] + segs[1..] && segs[..1] == [segs[0]];
    RenderOne(segs[0]);
  }

  lemma {:induction false} RenderSplit(s: string)
    ensures Render(Split(s)) == "/" + s
  {
    if s == "" {
      RenderOne("");
    } else {
      var rest := Split(s[1..]);
      RenderSplit(s[1..]);
      RenderHead(rest);
      RenderHead(Split(s));
      assert Split(s)[1..] == if s[0] == '/' then rest else rest[1..];
      PrependChar(s, rest[0], Render(rest[1..]));
    }
  }

  lemma PrependChar(s: string, head: string, r: string)
    requires s != "" && "/" + head + r == "/" + s[1..]
    ensures s[0] == '/' ==> "/" + "" + ("/" + head + r) == "/" + s
    ensures "/" + ([s[0]] + head) + r == "/" + s
  {
    assert head + r == ("/" + head + r)[1..] == ("/" + s[1..])[1..] == s[1..];
    assert s == [s[0]] + s[1..];
  }

  lemma RenderOne(seg: string)
    ensures Render([seg]) == "/" + seg
  {
    assert [seg][..0] == [];
  }

  lemma {:induction false} SplitConcat(a: string, b: string)
    ensures Split(a + "/" + b) == Split(a) + Split(b)
  {
    var s := a + "/" + b;
    if a == "" {
      assert s[0] == '/' && s[1..] == b;
    } else {
      assert s[0] == a[0] && s[1..] == a[1..] + "/" + b;
      SplitConcat(a[1..], b);
    }
  }

  lemma {:induction false} SplitSegment(seg: string)
    requires '/' !in seg
    ensures Split(seg) == [seg]
  {
    if seg != "" {
      assert seg == [seg[0]] + seg[1..];
      SplitSegment(seg[1..]);
    }
  }

  lemma {:induction false} SplitRender(segs: seq<string>)
    requires forall s | s in segs :: '/' !in s
    ensures Split(Render(segs)) == [""] + segs
  {
    if segs != [] {
      var init, last := segs[..|segs| - 1], segs[|segs| - 1];
      SplitRender(init);
      SplitConcat(Render(init), last);
      SplitSegment(last);
      assert segs == init + [last];
    }
  }

  // ----- normalisation -----

  predicate Plain(seg: string) {
    seg != "" && seg != "." && seg != ".."
  }

  /** The directory stack a POSIX walk from the root ends with; ".." at the root stays there. */
  function Walk(segs: seq<string>): (stack: seq<string>)
    ensures forall s | s in stack :: s in segs && Plain(s)
  {
    if segs == [] then []
    else
      var below := Walk(segs[..|segs| - 1]);
      var seg := segs[|segs| - 1];
      assert forall s | s in below :: s in segs[..|segs| - 1] && s in segs;
      assert below != [] ==> forall s | s in below[..|below| - 1] :: s in below;
      if seg == "" || seg == "." then below
      else if seg == ".." then (if below == [] then [] else below[..|below| - 1])
      else below + [seg]
  }

  function RenderRoot(stack: seq<string>): string {
    if stack == [] then "/" else Render(stack)
  }

  /** The reference: walk the segments, then print the stack. */
  function Normalized(path: string): string {
    RenderRoot(Walk(Split(path)))
  }

  predicate IsNormalizedVirtualPath(path: string) {
    path == "/" ||
    (|path| > 0 && path[0] == '/' && path[|path| - 1] != '/' &&
     forall seg | seg in Split(path[1..]) :: Plain(seg))
  }

  lemma WalkLeadingEmpty(segs: seq<string>)
    requires forall s | s in segs :: Plain(s)
    ensures Walk([""] + segs) == segs
    decreases |segs|
  {
    var all := [""] + segs;
    if segs == [] {
      assert all[..0] == [];
    } else {
      assert segs[|segs| - 1] in segs && segs == segs[..|segs| - 1] + [segs[|segs| - 1]];
      WalkLeadingEmpty(segs[..|segs| - 1]);
      assert all[..|all| - 1] == [""] + segs[..|segs| - 1];
    }
  }

  /** The fast path: a path that passes the scan is its own normal form. */
  lemma NormalizedFixed(path: string)
    requires IsNormalizedVirtualPath(path)
    ensures Normalized(path) == path
  {
    if path == "/" {
      assert Split("/") == ["", ""] by { assert "/"[1..] == ""; }
      assert ["", ""][..1] == [""] && [""][..0] == [];
      assert Walk([""]) == [] && Walk(["", ""]) == [];
    } else {
      var segs := Split(path[1..]);
      assert Split(path) == [""] + segs;
      WalkLeadingEmpty(segs);
      RenderSplit(path[1..]);
      assert path == "/" + path[1..];
    }
  }

  /** Every normal form passes the scan, is absolute and has only plain segments. */
  lemma NormalizedClean(path: string)
    ensures IsNormalizedVirtualPath(Normalized(path))
    ensures Split(Normalized(path))[0] == ""
    ensures Normalized(path) != "/" ==> forall s | s in Split(Normalized(path))[1..] :: Plain(s)
  {
    var stack := Walk(Split(path));
    SplitSlashFree(path);
    SplitRender(stack);
    var n := Normalized(path);
    if stack != [] {
      RenderHead(stack);
      assert n[0] == '/';
      assert Split(n) == [""] + Split(n[1..]);
      assert Split(n[1..]) == Split(n)[1..] == stack;
      assert n == Render(stack[..|stack| - 1]) + "/" + stack[|stack| - 1];
      assert stack[|stack| - 1] in stack;
    }
  }

  lemma NormalizedIdempotent(path: string)
    ensures Normalized(Normalized(path)) == Normalized(path)
  {
    NormalizedClean(path);
    NormalizedFixed(Normalized(path));
  }

  // ----- what normalisation means -----

  lemma WalkSnoc(segs: seq<string>, seg: string)
    ensures var below := Walk(segs);
      Walk(segs + [seg]) ==
        (if seg == "" || seg == "." then below
         else if seg == ".." then (if below == [] then [] else below[..|below| - 1])
         else below + [seg])
  {
    assert (segs + [seg])[..|segs|] == segs;
  }

  lemma SplitSnoc(path: string, seg: string)
    requires '/' !in seg
    ensures Split(path + "/" + seg) == Split(path) + [seg]
  {
    SplitConcat(path, seg);
    SplitSegment(seg);
  }

  /** The empty path is the root, and a leading slash makes no difference. */
  lemma NormalizedRoot(path: string)
    ensures Normalized("") == "/" && Normalized("/" + path) == Normalized(path)
  {
    assert [""][..0] == [] && Walk([""]) == [];
    SplitConcat("", path);
    assert "" + "/" + path == "/" + path;
    WalkIgnoresRoot(Split(path));
  }

  lemma {:induction false} WalkIgnoresRoot(segs: seq<string>)
    ensures Walk([""] + segs) == Walk(segs)
  {
    if segs == [] {
      assert [""] + segs == [""] && [""][..0] == [];
    } else {
      var init, last := segs[..|segs| - 1], segs[|segs| - 1];
      WalkIgnoresRoot(init);
      WalkSnoc([""] + init, last);
      assert [""] + segs == [""] + init + [last];
    }
  }

  /** An empty or "." segment changes nothing. */
  lemma NormalizedStay(path: string)
    ensures Normalized(path + "/") == Normalized(path) && Normalized(path + "/.") == Normalized(path)
  {
    SplitSnoc(path, "");
    SplitSnoc(path, ".");
    WalkSnoc(Split(path), "");
    WalkSnoc(Split(path), ".");
    assert path + "/" + "" == path + "/" && path + "/" + "." == path + "/.";
  }

  /** Any other segment but ".." names a child. */
  lemma NormalizedChild(path: string, seg: string)
    requires '/' !in seg && seg != "" && seg != "." && seg != ".."
    ensures Normalized(path + "/" + seg) == (if Normalized(path) == "/" then "/" + seg else Normalized(path) + "/" + seg)
  {
    SplitSnoc(path, seg);
    WalkSnoc(Split(path), seg);
    var below := Walk(Split(path));
    assert (below + [seg])[..|below|] == below;
    assert Render(below + [seg]) == Render(below) + "/" + seg;
    RootOnly(path);
    if below == [] { RenderOne(seg); }
  }

  lemma RootOnly(path: string)
    ensures Normalized(path) == "/" <==> Walk(Split(path)) == []
  {
    var stack := Walk(Split(path));
    if stack != [] {
      assert stack[|stack| - 1] in stack;
      assert |Render(stack)| == |Render(stack[..|stack| - 1])| + 1 + |stack[|stack| - 1]|;
    }
  }

  /** ".." undoes a child, and at the root it stays there. */
  lemma NormalizedUp(path: string, seg: string)
    requires '/' !in seg && seg != "" && seg != "." && seg != ".."
    ensures Normalized(path + "/" + seg + "/..") == Normalized(path)
    ensures Normalized(path) == "/" ==> Normalized(path + "/..") == "/"
  {
    SplitSnoc(path, seg);
    SplitSnoc(path + "/" + seg, "..");
    assert path + "/" + seg + "/" + ".." == path + "/" + seg + "/..";
    WalkSnoc(Split(path), seg);
    WalkSnoc(Split(path) + [seg], "..");
    SplitSnoc(path, "..");
    assert path + "/" + ".." == path + "/..";
    WalkSnoc(Split(path), "..");
    RootOnly(path);
  }

  lemma {:induction false} WalkShorter(segs: seq<string>)
    ensures |Render(Walk(segs))| <= |Render(segs)|
  {
    if segs != [] {
      WalkShorter(segs[..|segs| - 1]);
      var below := Walk(segs[..|segs| - 1]);
      assert (below + [segs[|segs| - 1]])[..|below|] == below;
    }
  }

  /** Normalising never lengthens a path by more than the leading slash. */
  lemma NormalizedShort(path: string)
    ensures |Normalized(path)| <= |path| + 1
  {
    WalkShorter(Split(path));
    RenderSplit(path);
  }

  lemma RenderLastSlash(stack: seq<string>)
    requires stack != [] && '/' !in stack[|stack| - 1]
    ensures var at := |Render(stack[..|stack| - 1])|;
            && at < |Render(stack)| && Render(stack)[at] == '/'
            && Render(stack)[..at] == Render(stack[..|stack| - 1])
            && forall i | at < i < |Render(stack)| :: Render(stack)[i] != '/'
  {
  }

  /** strings.LastIndexByte(s, '/'), with 0 for "not found" as the caller uses it. */
  method LastSlash(s: string) returns (i: nat)
    ensures s == "" || '/' !in s ==> i == 0
    ensures '/' in s ==> i < |s| && s[i] == '/' && forall j | i < j < |s| :: s[j] != '/'
  {
    i := |s|;
    while i > 0
      invariant 0 <= i <= |s|
      invariant forall j | i <= j < |s| :: s[j] != '/'
    {
      i := i - 1;
      if s[i] == '/' { return; }
    }
  }

  method NormalizeVirtualPath(path: string) returns (r: string)
    ensures r == Normalized(path)
  {
    if IsNormalizedVirtualPath(path) {
      NormalizedFixed(path);
      return path;
    }
    var segs := Split(path);
    SplitSlashFree(path);
    var out := "";
    for n := 0 to |segs|
      invariant out == Render(Walk(segs[..n]))
    {
      var seg := segs[n];
      ghost var stack := Walk(segs[..n]);
      assert segs[..n + 1][..n] == segs[..n];
      if seg == "" || seg == "." {
      } else if seg == ".." {
        var i := LastSlash(out);
        if stack != [] {
          assert stack[|stack| - 1] in stack;
          RenderLastSlash(stack);
          assert '/' in out;
        }
        out := out[..i];
      } else {
        out := out + "/" + seg;
        assert (stack + [seg])[..|stack|] == stack;
      }
    }
    assert segs[..|segs|] == segs;
    if out == "" {
      ghost var stack := Walk(segs);
      if stack != [] { RenderLastSlash(stack); }
      return "/";
    }
    r := out;
  }

  // ----- mount-relative keys -----

  predicate PathMatchesMount(normalized: string, mountVirtual: string) {
    mountVirtual == "/" || normalized == mountVirtual ||
    (mountVirtual <= normalized && |normalized| > |mountVirtual| && normalized[|mountVirtual|] == '/')
  }

  function StripMountPrefix(normalized: string, mountVirtual: string): Option<string> {
    if mountVirtual == "/" then Some(if "/" <= normalized then normalized[1..] else normalized)
    else if normalized == mountVirtual then Some("")
    else if mountVirtual <= normalized && "/" <= normalized[|mountVirtual|..]
    then Some(normalized[|mountVirtual|..][1..])
    else None
  }

  datatype PathError = NullByte | NoMountPoint | PathEscape

  datatype Resolved = Rel(key: string) | Rejected(error: PathError)

  predicate IsWindowsDrivePrefix(seg: string) {
    |seg| >= 2 && seg[1] == ':' && ('a' <= seg[0] <= 'z' || 'A' <= seg[0] <= 'Z')
  }

  function ResolveVirtualPath(vpath: string, mountVirtual: string): Resolved {
    if '\0' in vpath then Rejected(NullByte)
    else
      var rel := StripMountPrefix(Normalized(vpath), mountVirtual);
      if rel.None? then Rejected(NoMountPoint)
      else if '\\' in rel.value || exists seg | seg in Split(rel.value) :: IsWindowsDrivePrefix(seg)
      then Rejected(PathEscape)
      else Rel(rel.value)
  }

  /** Paths whose segments are all plain, written without a leading slash; the mount root is "". */
  predicate PlainKey(rel: string) {
    rel == "" || forall s | s in Split(rel) :: Plain(s)
  }

  /**
    Resolution against a normalised mount path finds the mount exactly when the
    path matches it, and the key it yields has no empty, "." or ".." segment.
  */
  lemma ResolveSound(vpath: string, mountVirtual: string)
    requires IsNormalizedVirtualPath(mountVirtual)
    ensures var r := ResolveVirtualPath(vpath, mountVirtual);
            && (r.Rel? ==> PlainKey(r.key) && PathMatchesMount(Normalized(vpath), mountVirtual)
                           && Normalized(vpath) == (if r.key == "" then mountVirtual
                                                    else if mountVirtual == "/" then "/" + r.key
                                                    else mountVirtual + "/" + r.key))
            && (r == Rejected(NoMountPoint) ==> !PathMatchesMount(Normalized(vpath), mountVirtual))
  {
    NormalizedClean(vpath);
    StripSound(Normalized(vpath), mountVirtual);
  }

  lemma StripSound(n: string, mountVirtual: string)
    requires IsNormalizedVirtualPath(mountVirtual)
    requires IsNormalizedVirtualPath(n)
    ensures var rel := StripMountPrefix(n, mountVirtual);
            && (rel.Some? <==> PathMatchesMount(n, mountVirtual))
            && (rel.Some? ==> PlainKey(rel.value)
                              && n == (if rel.value == "" then mountVirtual
                                       else if mountVirtual == "/" then "/" + rel.value
                                       else mountVirtual + "/" + rel.value))
  {
    hide PlainKey, Split;
    var rel := StripMountPrefix(n, mountVirtual);
    assert "/" <= n && (|mountVirtual| < |n| ==> n[|mountVirtual|..][0] == n[|mountVirtual|]);
    if rel.Some? { StripPlain(n, mountVirtual, rel.value); }
  }

  lemma StripPlain(n: string, mountVirtual: string, rel: string)
    requires IsNormalizedVirtualPath(mountVirtual) && IsNormalizedVirtualPath(n)
    requires StripMountPrefix(n, mountVirtual) == Some(rel)
    ensures PlainKey(rel)
  {
    if mountVirtual == "/" {
      assert n == "/" + n[1..] && rel == n[1..];
    } else if n != mountVirtual {
      assert n == mountVirtual + "/" + rel;
      SplitConcat(mountVirtual, rel);
      assert Split(n[1..]) == Split(n)[1..] == Split(mountVirtual)[1..] + Split(rel);
      assert forall s | s in Split(rel) :: s in Split(n[1..]);
    }
  }

  // ----- which paths resolve -----

  /** The path of a key below a mount. */
  function Joined(mountVirtual: string, key: string): string {
    if key == "" then mountVirtual else if mountVirtual == "/" then "/" + key else mountVirtual + "/" + key
  }

  /** A backslash, or a segment that starts with a letter and a colon. */
  ghost predicate Foreign(key: string) {
    || (exists i | 0 <= i < |key| :: key[i] == '\\')
    || (exists i | 0 <= i < |key| - 1 :: DriveAt(key, i))
  }

  ghost predicate DriveAt(key: string, i: int)
    requires 0 <= i < |key| - 1
  {
    && (i == 0 || key[i - 1] == '/') && key[i + 1] == ':'
    && ('a' <= key[i] <= 'z' || 'A' <= key[i] <= 'Z')
  }

  lemma {:induction false} DriveSegments(key: string)
    ensures (exists seg | seg in Split(key) :: IsWindowsDrivePrefix(seg)) <==> exists i | 0 <= i < |key| - 1 :: DriveAt(key, i)
  {
    if '/' in key {
      var j :| 0 <= j < |key| && key[j] == '/';
      var a, b := key[..j], key[j + 1..];
      assert key == a + "/" + b;
      SplitConcat(a, b);
      DriveSegments(a);
      DriveSegments(b);
      DriveConcat(a, b);
      assert forall seg :: seg in Split(key) <==> seg in Split(a) || seg in Split(b);
    } else {
      SplitSegment(key);
      assert forall i | 0 <= i < |key| - 1 && DriveAt(key, i) :: i == 0;
      assert |key| >= 2 ==> (DriveAt(key, 0) <==> IsWindowsDrivePrefix(key));
      assert key in [key];
    }
  }

  lemma DriveConcat(a: string, b: string)
    ensures var key := a + "/" + b;
      (exists i | 0 <= i < |key| - 1 :: DriveAt(key, i))
      <==> (exists i | 0 <= i < |a| - 1 :: DriveAt(a, i)) || (exists i | 0 <= i < |b| - 1 :: DriveAt(b, i))
  {
    var key, n := a + "/" + b, |a| + 1;
    forall i | 0 <= i < |a| - 1 ensures DriveAt(a, i) <==> DriveAt(key, i) {}
    forall i | 0 <= i < |b| - 1 ensures DriveAt(b, i) <==> DriveAt(key, n + i) {}
    if i :| 0 <= i < |key| - 1 && DriveAt(key, i) {
      assert i < |a| - 1 || i >= n;
      if i >= n { assert DriveAt(b, i - n); }
    }
  }

  /** A key has one path below a mount, and a path one key. */
  lemma JoinedStrips(mountVirtual: string, key: string)
    requires IsNormalizedVirtualPath(mountVirtual) && PlainKey(key)
    ensures StripMountPrefix(Joined(mountVirtual, key), mountVirtual) == Some(key)
  {
    if key != "" {
      var path := Joined(mountVirtual, key);
      if mountVirtual == "/" {
        assert path[1..] == key;
      } else {
        assert path[|mountVirtual|..] == "/" + key && ("/" + key)[1..] == key;
      }
    }
  }

  /**
    What resolution does with every path. A path that normalises to that of a
    plain key below the mount is refused for a NUL byte in the path, then for a
    foreign key, and otherwise gives that very key; any other path is refused
    for a NUL byte or for lack of a mount.
  */
  lemma ResolveExactly(vpath: string, mountVirtual: string, key: string)
    requires IsNormalizedVirtualPath(mountVirtual) && PlainKey(key) && Normalized(vpath) == Joined(mountVirtual, key)
    ensures ResolveVirtualPath(vpath, mountVirtual) ==
      if exists i | 0 <= i < |vpath| :: vpath[i] == '\0' then Rejected(NullByte)
      else if Foreign(key) then Rejected(PathEscape)
      else Rel(key)
  {
    JoinedStrips(mountVirtual, key);
    DriveSegments(key);
  }

  lemma ResolveElsewhere(vpath: string, mountVirtual: string)
    requires IsNormalizedVirtualPath(mountVirtual) && forall key | PlainKey(key) :: Normalized(vpath) != Joined(mountVirtual, key)
    ensures ResolveVirtualPath(vpath, mountVirtual) ==
      Rejected(if exists i | 0 <= i < |vpath| :: vpath[i] == '\0' then NullByte else NoMountPoint)
  {
    NormalizedClean(vpath);
    StripSound(Normalized(vpath), mountVirtual);
  }

  /** In particular the path of every plain key that is not foreign resolves to it. */
  lemma ResolveJoined(mountVirtual: string, key: string)
    requires IsNormalizedVirtualPath(mountVirtual) && PlainKey(key)
    requires '\0' !in Joined(mountVirtual, key) && !Foreign(key)
    ensures ResolveVirtualPath(Joined(mountVirtual, key), mountVirtual) == Rel(key)
  {
    JoinedNormal(mountVirtual, key);
    ResolveExactly(Joined(mountVirtual, key), mountVirtual, key);
  }

  lemma JoinedNormal(mountVirtual: string, key: string)
    requires IsNormalizedVirtualPath(mountVirtual) && PlainKey(key)
    ensures IsNormalizedVirtualPath(Joined(mountVirtual, key)) && Normalized(Joined(mountVirtual, key)) == Joined(mountVirtual, key)
  {
    var path := Joined(mountVirtual, key);
    if key != "" {
      PlainKeyClean(key);
      if mountVirtual == "/" {
        assert path[1..] == key;
      } else {
        SplitConcat(mountVirtual[1..], key);
        assert path[1..] == mountVirtual[1..] + "/" + key;
        assert forall seg | seg in Split(path[1..]) :: seg in Split(mountVirtual[1..]) || seg in Split(key);
      }
    }
    NormalizedFixed(path);
  }

  /** A path matches a mount exactly when it is the path of a key below it. */
  lemma MatchesJoined(vpath: string, mountVirtual: string)
    requires IsNormalizedVirtualPath(mountVirtual)
    ensures PathMatchesMount(Normalized(vpath), mountVirtual)
      <==> exists key | PlainKey(key) :: Normalized(vpath) == Joined(mountVirtual, key)
  {
    NormalizedClean(vpath);
    StripSound(Normalized(vpath), mountVirtual);
    if key :| PlainKey(key) && Normalized(vpath) == Joined(mountVirtual, key) {
      JoinedStrips(mountVirtual, key);
    }
  }

  /** The path of a child: below a resolved path, a plain name resolves to the child's key unless it is foreign. */
  lemma ResolveChild(vpath: string, mountVirtual: string, key: string, name: string)
    requires IsNormalizedVirtualPath(mountVirtual) && ResolveVirtualPath(vpath, mountVirtual) == Rel(key)
    requires CleanName(name) && name != "." && name != ".." && '\0' !in name
    ensures ResolveVirtualPath(vpath + "/" + name, mountVirtual) == if Foreign(name) then Rejected(PathEscape) else Rel(Child(key, name))
  {
    hide *;
    var path, child := vpath + "/" + name, Child(key, name);
    ResolvedNames(vpath, mountVirtual, key);
    ResolveExactly(vpath, mountVirtual, key);
    PathOfChild(vpath, mountVirtual, key, name);
    ResolveExactly(path, mountVirtual, child);
    ForeignChild(key, name);
    NoNulAdded(vpath, name);
  }

  lemma ResolvedNames(vpath: string, mountVirtual: string, key: string)
    requires IsNormalizedVirtualPath(mountVirtual) && ResolveVirtualPath(vpath, mountVirtual) == Rel(key)
    ensures PlainKey(key) && Normalized(vpath) == Joined(mountVirtual, key)
  {
    ResolveSound(vpath, mountVirtual);
  }

  lemma PathOfChild(vpath: string, mountVirtual: string, key: string, name: string)
    requires IsNormalizedVirtualPath(mountVirtual) && PlainKey(key) && Normalized(vpath) == Joined(mountVirtual, key)
    requires CleanName(name) && name != "." && name != ".."
    ensures PlainKey(Child(key, name)) && Normalized(vpath + "/" + name) == Joined(mountVirtual, Child(key, name))
  {
    hide Normalized, PlainKey, Child;
    NormalizedChild(vpath, name);
    JoinedRoot(mountVirtual, key);
    JoinedChild(mountVirtual, key, name);
    ChildPlain(key, name);
  }

  lemma NoNulAdded(vpath: string, name: string)
    requires '\0' !in name && !exists i | 0 <= i < |vpath| :: vpath[i] == '\0'
    ensures var path := vpath + "/" + name; !exists i | 0 <= i < |path| :: path[i] == '\0'
  {
    var path := vpath + "/" + name;
    forall i | 0 <= i < |path| ensures path[i] != '\0' {
      if i > |vpath| { assert path[i] == name[i - |vpath| - 1]; }
    }
  }

  lemma JoinedRoot(mountVirtual: string, key: string)
    requires IsNormalizedVirtualPath(mountVirtual)
    ensures Joined(mountVirtual, key) == "/" <==> mountVirtual == "/" && key == ""
  {
  }

  lemma JoinedChild(mountVirtual: string, key: string, name: string)
    requires CleanName(name)
    ensures Joined(mountVirtual, Child(key, name)) ==
      if mountVirtual == "/" && key == "" then "/" + name else Joined(mountVirtual, key) + "/" + name
  {
    if key == "" {
      assert Child(key, name) == name;
    } else {
      assert Child(key, name) == key + "/" + name;
      assert "/" + (key + "/" + name) == "/" + key + "/" + name;
      assert mountVirtual + "/" + (key + "/" + name) == mountVirtual + "/" + key + "/" + name;
    }
  }

  lemma ChildPlain(key: string, name: string)
    requires PlainKey(key) && CleanName(name) && name != "." && name != ".."
    ensures PlainKey(Child(key, name))
  {
    SplitSegment(name);
    if key != "" {
      SplitConcat(key, name);
      assert Child(key, name) == key + "/" + name;
    } else {
      assert Child(key, name) == name;
    }
  }

  lemma ForeignChild(key: string, name: string)
    requires !Foreign(key)
    ensures Foreign(Child(key, name)) <==> Foreign(name)
  {
    if key == "" {
      assert Child(key, name) == name;
    } else {
      var child := key + "/" + name;
      assert Child(key, name) == child;
      DriveConcat(key, name);
      assert forall i | 0 <= i < |name| :: child[|key| + 1 + i] == name[i];
      assert forall i | 0 <= i < |key| :: child[i] == key[i];
      if i :| 0 <= i < |child| && child[i] == '\\' {
        assert i > |key| && name[i - |key| - 1] == '\\';
      }
    }
  }

  lemma ResolvedShort(vpath: string, mountVirtual: string)
    ensures ResolveVirtualPath(vpath, mountVirtual).Rel? ==> |ResolveVirtualPath(vpath, mountVirtual).key| <= |vpath| + 1
  {
    NormalizedShort(vpath);
  }

  lemma {:induction false} PlainKeyClean(rel: string)
    requires PlainKey(rel)
    ensures CleanKey(rel)
  {
    if rel != "" {
      forall i | 0 <= i < |rel| && rel[i] == '/'
        ensures 0 < i < |rel| - 1 && rel[i + 1] != '/'
      {
        SplitConcat(rel[..i], rel[i + 1..]);
        assert rel == rel[..i] + "/" + rel[i + 1..];
        assert Split(rel) == Split(rel[..i]) + Split(rel[i + 1..]);
        assert Split(rel[..i])[0] in Split(rel);
        assert Split(rel[i + 1..])[0] in Split(rel);
      }
    }
  }

  // ----- routing -----

  datatype MountPoint = MountPoint(virtualPath: string, spec: nat)

  /** Longest path first; among equal lengths the later spec first. */
  predicate Before(a: MountPoint, b: MountPoint) {
    |a.virtualPath| > |b.virtualPath| || (|a.virtualPath| == |b.virtualPath| && a.spec > b.spec)
  }

  ghost predicate Ordered(mounts: seq<MountPoint>) {
    forall i, j | 0 <= i < j < |mounts| :: Before(mounts[i], mounts[j])
  }

  lemma InsertOrdered(mounts: seq<MountPoint>, m: MountPoint, at: nat)
    requires Ordered(mounts) && at <= |mounts|
    requires forall x | x in mounts :: x.spec < m.spec
    requires forall i | 0 <= i < at :: |mounts[i].virtualPath| > |m.virtualPath|
    requires at < |mounts| ==> |mounts[at].virtualPath| <= |m.virtualPath|
    ensures Ordered(mounts[..at] + [m] + mounts[at..])
  {
    forall j | at <= j < |mounts| ensures Before(m, mounts[j]) {
      assert mounts[j] in mounts;
      assert at < j ==> Before(mounts[at], mounts[j]);
    }
  }

  lemma InsertMultiset(mounts: seq<MountPoint>, m: MountPoint, at: nat)
    requires at <= |mounts|
    ensures multiset(mounts[..at] + [m] + mounts[at..]) == multiset(mounts) + multiset{m}
  {
    assert mounts == mounts[..at] + mounts[at..];
  }

  class Table {
    var mounts: seq<MountPoint>

    ghost predicate Valid()
      reads this
    {
      Ordered(mounts)
    }

    /** NewTable: pushes every spec in order. */
    constructor (paths: seq<string>)
      ensures Valid()
      ensures multiset(mounts) == multiset(seq(|paths|, i requires 0 <= i < |paths| => MountPoint(paths[i], i)))
    {
      mounts := [];
      new;
      ghost var all := seq(|paths|, i requires 0 <= i < |paths| => MountPoint(paths[i], i));
      for n := 0 to |paths|
        invariant Valid()
        invariant forall m | m in mounts :: m.spec < n
        invariant multiset(mounts) == multiset(all[..n])
      {
        Push(MountPoint(paths[n], n));
        assert all[..n + 1] == all[..n] + [all[n]];
      }
      assert all[..|paths|] == all;
    }

    method Push(m: MountPoint)
      requires Valid()
      requires forall x | x in mounts :: x.spec < m.spec
      modifies this
      ensures Valid()
      ensures multiset(mounts) == old(multiset(mounts)) + multiset{m}
      ensures forall x | x in mounts :: x == m || x in old(mounts)
    {
      var at := 0;
      while at < |mounts| && |mounts[at].virtualPath| > |m.virtualPath|
        invariant 0 <= at <= |mounts|
        invariant forall i | 0 <= i < at :: |mounts[i].virtualPath| > |m.virtualPath|
      {
        at := at + 1;
      }
      InsertOrdered(mounts, m, at);
      InsertMultiset(mounts, m, at);
      mounts := mounts[..at] + [m] + mounts[at..];
    }

    /** The first match in the table is the best match of all mounts. */
    method FindMount(vpath: string) returns (found: int)
      requires Valid()
      ensures -1 <= found < |mounts|
      ensures found == -1 <==> forall m | m in mounts :: !PathMatchesMount(Normalized(vpath), m.virtualPath)
      ensures found >= 0 ==>
        && PathMatchesMount(Normalized(vpath), mounts[found].virtualPath)
        && forall m | m in mounts && PathMatchesMount(Normalized(vpath), m.virtualPath) ::
             || m == mounts[found] || |m.virtualPath| < |mounts[found].virtualPath|
             || (|m.virtualPath| == |mounts[found].virtualPath| && m.spec < mounts[found].spec)
    {
      var normalized := NormalizeVirtualPath(vpath);
      for i := 0 to |mounts|
        invariant forall j | 0 <= j < i :: !PathMatchesMount(normalized, mounts[j].virtualPath)
      {
        if PathMatchesMount(normalized, mounts[i].virtualPath) { return i; }
      }
      return -1;
    }
  }

  /** A path routed to a mount is never refused by that mount for lack of a mount point. */
  lemma RoutedResolves(vpath: string, mountVirtual: string)
    requires IsNormalizedVirtualPath(mountVirtual)
    requires PathMatchesMount(Normalized(vpath), mountVirtual)
    ensures ResolveVirtualPath(vpath, mountVirtual) != Rejected(NoMountPoint)
  {
    ResolveSound(vpath, mountVirtual);
  }
}
