/**
  Directory rename: which entries a plan moves, what the batch of replacements
  does to the merged tree, and how many bytes it can cost.
*/
module RenamePlan {
  import opened Prelude
  import opened Keys
  import opened OverlayState
  import opened MergedTree

  /** One moved key: src + suffix becomes a tombstone, dst + suffix gets the entry. */
  datatype Move = Move(suffix: string, entry: Entry)

  ghost predicate Moved(moves: seq<Move>, s: string) {
    exists i | 0 <= i < |moves| :: moves[i].suffix == s
  }

  function Batch(src: string, dst: string, moves: seq<Move>): (b: seq<Replacement>)
    ensures |b| == 2 * |moves|
  {
    if moves == [] then []
    else
      var last := moves[|moves| - 1];
      Batch(src, dst, moves[..|moves| - 1])
        + [Replacement(src + last.suffix, Tombstone), Replacement(dst + last.suffix, last.entry)]
  }

  lemma BatchStep(src: string, dst: string, moves: seq<Move>, m: Entries)
    requires moves != []
    ensures var last := moves[|moves| - 1];
            && ApplyBatch(m, Batch(src, dst, moves))
               == ApplyBatch(m, Batch(src, dst, moves[..|moves| - 1]))[src + last.suffix := Tombstone][dst + last.suffix := last.entry]
            && BatchCost(Batch(src, dst, moves))
               == BatchCost(Batch(src, dst, moves[..|moves| - 1]))
                  + Cost(src + last.suffix, Tombstone) + Cost(dst + last.suffix, last.entry)
  {
    var b, c := Batch(src, dst, moves), Batch(src, dst, moves[..|moves| - 1]);
    ApplyBatchStep(m, b, |b| - 2);
    ApplyBatchStep(m, b, |b| - 1);
    assert b[..|b| - 2] == c && b[..|b| - 2 + 1] == b[..|b| - 1] && b[..|b| - 1 + 1] == b;
  }

  /** Suffixes name their keys: distinct suffixes never collide, and the two subtrees never meet. */
  ghost predicate Disjoint(src: string, dst: string, moves: seq<Move>) {
    && (forall i, j | 0 <= i < j < |moves| :: moves[i].suffix != moves[j].suffix)
    && (src == dst || forall i, j | 0 <= i < |moves| && 0 <= j < |moves| ::
          src + moves[i].suffix != dst + moves[j].suffix)
  }

  lemma SuffixInjective(p: string, s: string, t: string)
    ensures p + s == p + t <==> s == t
  {
    assert (p + s)[|p|..] == s && (p + t)[|p|..] == t;
  }

  ghost predicate Untouched(src: string, dst: string, moves: seq<Move>, k: string) {
    forall i | 0 <= i < |moves| :: k != dst + moves[i].suffix && k != src + moves[i].suffix
  }

  lemma {:induction false} AppliedDst(m: Entries, src: string, dst: string, moves: seq<Move>, i: nat)
    requires Disjoint(src, dst, moves) && i < |moves|
    ensures var r := ApplyBatch(m, Batch(src, dst, moves));
            dst + moves[i].suffix in r && r[dst + moves[i].suffix] == moves[i].entry
    decreases |moves|
  {
    BatchStep(src, dst, moves, m);
    if i < |moves| - 1 {
      AppliedDst(m, src, dst, moves[..|moves| - 1], i);
      SuffixInjective(dst, moves[i].suffix, moves[|moves| - 1].suffix);
    }
  }

  lemma {:induction false} AppliedSrc(m: Entries, src: string, dst: string, moves: seq<Move>, i: nat)
    requires Disjoint(src, dst, moves) && i < |moves| && src != dst
    ensures var r := ApplyBatch(m, Batch(src, dst, moves));
            src + moves[i].suffix in r && r[src + moves[i].suffix] == Tombstone
    decreases |moves|
  {
    BatchStep(src, dst, moves, m);
    if i < |moves| - 1 {
      AppliedSrc(m, src, dst, moves[..|moves| - 1], i);
      SuffixInjective(src, moves[i].suffix, moves[|moves| - 1].suffix);
    }
  }

  lemma {:induction false} AppliedElse(m: Entries, src: string, dst: string, moves: seq<Move>, k: string)
    requires Untouched(src, dst, moves, k)
    ensures var r := ApplyBatch(m, Batch(src, dst, moves));
            (k in r <==> k in m) && (k in m ==> r[k] == m[k])
    decreases |moves|
  {
    if moves != [] {
      BatchStep(src, dst, moves, m);
      AppliedElse(m, src, dst, moves[..|moves| - 1], k);
    }
  }

  // ----- the plan of a rename -----

  /** The entry that stands for a host node: a lazy reference to a file, or a directory. */
  function HostEntry(h: Host, k: string): Entry
    requires k in h
  {
    match h[k]
    case HostFile(content, mtime) => RefEntry(k, |content|, mtime)
    case HostDir(_, mtime) => DirEntry(mtime)
  }

  ghost function SourceEntry(h: Host, m: Entries, src: string): Entry
    requires src in m || src in h
  {
    if src in m then m[src] else HostEntry(h, src)
  }

  /** A planned entry shows, under its new key, what its old key shows now. */
  ghost predicate PlanPart(h: Host, m: Entries, src: string, move: Move) {
    var k := src + move.suffix;
    && Within(k, src) && (k in m || k in h)
    && move.entry == SourceEntry(h, m, k)
    && RefOk(h, move.entry) && EntryNode(h, move.entry) == NodeAt(h, m, k)
  }

  /** The plan carries every visible key of the source, as it looks now, and claims every bare host key. */
  ghost predicate PlanOk(h: Host, m: Entries, src: string, moves: seq<Move>) {
    && moves != [] && moves[0].suffix == ""
    && (forall i, j | 0 <= i < j < |moves| :: moves[i].suffix != moves[j].suffix)
    && (forall i | 0 <= i < |moves| :: PlanPart(h, m, src, moves[i]))
    && (forall k | Within(k, src) && k in View(h, m) :: Moved(moves, k[|src|..]))
    && (forall k | k in h && Anc(src, k) :: k in m || Moved(moves, k[|src|..]))
  }

  // ----- the overlay a directory rename leaves -----

  /** Everything at or below the source that has an entry or a host node: what a directory rename carries. */
  ghost function Carried(h: Host, m: Entries, src: string): set<string> {
    set k | k in m.Keys + h.Keys && Within(k, src)
  }

  ghost function Graves(keys: set<string>): Entries {
    map k | k in keys :: Tombstone
  }

  ghost function Placed(h: Host, m: Entries, src: string, dst: string): Entries {
    map x | x in (set k | k in Carried(h, m, src) :: dst + k[|src|..]) && src + x[|dst|..] in Carried(h, m, src) ::
      SourceEntry(h, m, src + x[|dst|..])
  }

  /** The entries after a directory rename, said without a plan: graves at the source, what it showed at the destination. */
  ghost function RenamedEntries(h: Host, m: Entries, src: string, dst: string): Entries {
    m + Graves(Carried(h, m, src)) + Placed(h, m, src, dst)
  }

  /** A plan that also carries every entry, the tombstones included. */
  ghost predicate FullPlan(h: Host, m: Entries, src: string, moves: seq<Move>) {
    PlanOk(h, m, src, moves) && forall k | k in Carried(h, m, src) :: Moved(moves, k[|src|..])
  }

  lemma PlacedAt(h: Host, m: Entries, src: string, dst: string, k: string)
    ensures k in Placed(h, m, src, dst) <==> dst <= k && src + k[|dst|..] in Carried(h, m, src)
    ensures k in Placed(h, m, src, dst) ==> Placed(h, m, src, dst)[k] == SourceEntry(h, m, src + k[|dst|..])
  {
    if k in Placed(h, m, src, dst) {
      var c :| c in Carried(h, m, src) && k == dst + c[|src|..];
      assert src + k[|dst|..] == c;
    }
    if dst <= k && src + k[|dst|..] in Carried(h, m, src) {
      assert k == dst + (src + k[|dst|..])[|src|..];
    }
  }

  /** Whatever order a full plan lists its moves in, the batch leaves exactly those entries. */
  lemma BatchLeaves(h: Host, m: Entries, src: string, dst: string, moves: seq<Move>)
    requires FullPlan(h, m, src, moves) && Admissible(View(h, m), src, dst)
    ensures ApplyBatch(m, Batch(src, dst, moves)) == RenamedEntries(h, m, src, dst)
  {
    hide View, Admissible, PlanOk, FullPlan, RenamedEntries, ApplyBatch, Batch;
    var r, e := ApplyBatch(m, Batch(src, dst, moves)), RenamedEntries(h, m, src, dst);
    forall k ensures (k in r <==> k in e) && (k in r ==> r[k] == e[k]) {
      BatchLeavesAt(h, m, src, dst, moves, k);
    }
  }

  lemma CarriedListed(h: Host, m: Entries, src: string, dst: string, moves: seq<Move>, k: string)
    requires FullPlan(h, m, src, moves)
    ensures k in Carried(h, m, src) ==> exists i | 0 <= i < |moves| :: k == src + moves[i].suffix
    ensures k in Placed(h, m, src, dst) ==> exists i | 0 <= i < |moves| :: k == dst + moves[i].suffix
  {
    hide PlanOk, Placed;
    PlacedAt(h, m, src, dst, k);
    if k in Carried(h, m, src) {
      var i :| 0 <= i < |moves| && moves[i].suffix == k[|src|..];
      assert k == src + moves[i].suffix;
    }
    if k in Placed(h, m, src, dst) {
      var c := src + k[|dst|..];
      assert c[|src|..] == k[|dst|..];
      var i :| 0 <= i < |moves| && moves[i].suffix == c[|src|..];
      assert k == dst + moves[i].suffix;
    }
  }

  lemma BatchLeavesAt(h: Host, m: Entries, src: string, dst: string, moves: seq<Move>, k: string)
    requires FullPlan(h, m, src, moves) && Admissible(View(h, m), src, dst)
    ensures var r, e := ApplyBatch(m, Batch(src, dst, moves)), RenamedEntries(h, m, src, dst);
      (k in r <==> k in e) && (k in r ==> r[k] == e[k])
  {
    hide View, Admissible, ApplyBatch, Batch, Placed, NodeAt, EntryNode, RefOk, Disjoint;
    PlanDisjoint(h, m, src, dst, moves);
    PlacedAt(h, m, src, dst, k);
    CarriedListed(h, m, src, dst, moves, k);
    if i :| 0 <= i < |moves| && k == dst + moves[i].suffix {
      AppliedDst(m, src, dst, moves, i);
      assert k[|dst|..] == moves[i].suffix && PlanPart(h, m, src, moves[i]);
    } else {
      if i :| 0 <= i < |moves| && k == src + moves[i].suffix {
        assert PlanPart(h, m, src, moves[i]);
        AppliedSrc(m, src, dst, moves, i);
      } else {
        AppliedElse(m, src, dst, moves, k);
      }
    }
  }

  /** The checks a rename makes before it plans. */
  ghost predicate Admissible(t: Tree, src: string, dst: string) {
    && src in t && src != "" && dst != "" && CleanKey(dst)
    && HasParents(t, src) && HasParents(t, dst)
    && !Anc(src, dst)
    && (forall k | k in t :: !Anc(dst, k))
  }

  lemma WithinSuffix(p: string, q: string, s: string)
    ensures Within(p + s, p) <==> s == "" || s[0] == '/'
    ensures Within(p + s, p) <==> Within(q + s, q)
    ensures (p + s)[|p|..] == s && (p + s)[..|p|] == p
  {
    assert s != "" ==> (p + s)[|p|] == s[0] && (q + s)[|q|] == s[0];
    assert (p + s)[..|p|] == p && (q + s)[..|q|] == q;
  }

  lemma PlanDisjoint(h: Host, m: Entries, src: string, dst: string, moves: seq<Move>)
    requires PlanOk(h, m, src, moves) && Admissible(View(h, m), src, dst)
    ensures Disjoint(src, dst, moves)
  {
    if src != dst {
      forall i, j | 0 <= i < |moves| && 0 <= j < |moves| ensures src + moves[i].suffix != dst + moves[j].suffix {
        if src + moves[i].suffix == dst + moves[j].suffix {
          WithinSuffix(src, dst, moves[j].suffix);
          AncComparable(src, dst, src + moves[i].suffix);
        }
      }
    }
  }

  /**
    The subtree moves and nothing else changes: whether its parts came from
    entries, from the host or from both.
  */
  lemma RenameMoves(h: Host, m: Entries, src: string, dst: string, moves: seq<Move>, k: string)
    requires Inv(h, m) && PlanOk(h, m, src, moves) && Admissible(View(h, m), src, dst)
    ensures NodeAt(h, ApplyBatch(m, Batch(src, dst, moves)), k) == RenamedAt(View(h, m), src, dst, k)
  {
    hide Inv, PlanPart, View, Disjoint, Admissible, NodeAt;
    PlanDisjoint(h, m, src, dst, moves);
    ViewLookup(h, m, k);
    if Within(k, dst) {
      var s := k[|dst|..];
      assert k == dst + s;
      if i :| 0 <= i < |moves| && moves[i].suffix == s {
        AppliedDst(m, src, dst, moves, i);
        MovedShows(h, m, src, dst, moves, i);
        ViewLookup(h, m, src + s);
      } else {
        NotPlanned(h, m, src, dst, moves, k);
      }
    } else if i :| 0 <= i < |moves| && k == src + moves[i].suffix {
      assert src != dst by { assert PlanPart(h, m, src, moves[i]); PartWithin(h, m, src, moves[i]); }
      AppliedSrc(m, src, dst, moves, i);
      BuriedShows(h, m, src, dst, moves, i);
    } else {
      NotMovedShows(h, m, src, dst, moves, k);
    }
  }

  lemma PartWithin(h: Host, m: Entries, src: string, move: Move)
    requires PlanPart(h, m, src, move)
    ensures Within(src + move.suffix, src)
  {
  }

  lemma MovedShows(h: Host, m: Entries, src: string, dst: string, moves: seq<Move>, i: nat)
    requires PlanOk(h, m, src, moves) && Disjoint(src, dst, moves) && i < |moves|
    ensures NodeAt(h, ApplyBatch(m, Batch(src, dst, moves)), dst + moves[i].suffix) == NodeAt(h, m, src + moves[i].suffix)
  {
    AppliedDst(m, src, dst, moves, i);
    assert PlanPart(h, m, src, moves[i]);
  }

  lemma BuriedShows(h: Host, m: Entries, src: string, dst: string, moves: seq<Move>, i: nat)
    requires Disjoint(src, dst, moves) && i < |moves| && src != dst && PlanPart(h, m, src, moves[i])
    requires !Within(src + moves[i].suffix, dst)
    ensures NodeAt(h, ApplyBatch(m, Batch(src, dst, moves)), src + moves[i].suffix).None?
    ensures RenamedAt(View(h, m), src, dst, src + moves[i].suffix).None?
  {
    AppliedSrc(m, src, dst, moves, i);
  }

  lemma NotMovedShows(h: Host, m: Entries, src: string, dst: string, moves: seq<Move>, k: string)
    requires PlanOk(h, m, src, moves) && !Within(k, dst)
    requires forall i | 0 <= i < |moves| :: k != src + moves[i].suffix
    ensures NodeAt(h, ApplyBatch(m, Batch(src, dst, moves)), k) == RenamedAt(View(h, m), src, dst, k)
  {
    forall i | 0 <= i < |moves| ensures k != dst + moves[i].suffix {
      PartWithin(h, m, src, moves[i]);
      WithinSuffix(dst, src, moves[i].suffix);
    }
    AppliedElse(m, src, dst, moves, k);
    ViewLookup(h, m, k);
    if Within(k, src) { assert k == src + k[|src|..]; }
  }

  /** A key of the destination that the plan does not fill is absent before and after. */
  lemma NotPlanned(h: Host, m: Entries, src: string, dst: string, moves: seq<Move>, k: string)
    requires Inv(h, m) && PlanOk(h, m, src, moves) && Admissible(View(h, m), src, dst) && Disjoint(src, dst, moves)
    requires Within(k, dst) && !Moved(moves, k[|dst|..])
    ensures NodeAt(h, ApplyBatch(m, Batch(src, dst, moves)), k).None?
    ensures Lookup(View(h, m), src + k[|dst|..]).None?
  {
    hide Inv, View, PlanOk, Admissible, Disjoint;
    ViewLookup(h, m, k);
    NotPlannedUntouched(h, m, src, dst, moves, k);
    AppliedElse(m, src, dst, moves, k);
    NotPlannedAbsent(h, m, src, dst, moves, k);
  }

  lemma NotPlannedAbsent(h: Host, m: Entries, src: string, dst: string, moves: seq<Move>, k: string)
    requires PlanOk(h, m, src, moves) && Admissible(View(h, m), src, dst)
    requires Within(k, dst) && !Moved(moves, k[|dst|..])
    ensures k !in View(h, m) && src + k[|dst|..] !in View(h, m)
  {
    assert k == dst + k[|dst|..];
    WithinSuffix(src, dst, k[|dst|..]);
    assert k != dst by { assert Moved(moves, ""); }
  }

  lemma NotPlannedUntouched(h: Host, m: Entries, src: string, dst: string, moves: seq<Move>, k: string)
    requires PlanOk(h, m, src, moves) && Admissible(View(h, m), src, dst)
    requires Within(k, dst) && !Moved(moves, k[|dst|..])
    ensures Untouched(src, dst, moves, k)
  {
    forall i | 0 <= i < |moves| ensures k != dst + moves[i].suffix && k != src + moves[i].suffix {
      SuffixInjective(dst, k[|dst|..], moves[i].suffix);
      if k == src + moves[i].suffix && src != dst { AncComparable(src, dst, k); }
    }
  }

  /** A rename keeps the invariant: no bare host node reappears under either path. */
  lemma RenameKeepsInv(h: Host, m: Entries, src: string, dst: string, moves: seq<Move>)
    requires WellFormedHost(h) && Inv(h, m) && PlanOk(h, m, src, moves) && Admissible(View(h, m), src, dst)
    requires CleanKey(src)
    ensures Inv(h, ApplyBatch(m, Batch(src, dst, moves)))
  {
    var r := ApplyBatch(m, Batch(src, dst, moves));
    forall k ensures NodeAt(h, r, k) == RenamedAt(View(h, m), src, dst, k) {
      RenameMoves(h, m, src, dst, moves, k);
    }
    forall k | k in r ensures k != "" && CleanKey(k) && RefOk(h, r[k]) { RenameKeyClean(h, m, src, dst, moves, k); }
    forall k, d | k in r && d in h && Anc(k, d) ensures d in r {
      RenameShadowed(h, m, src, dst, moves, k, d);
    }
    RenameConnected(h, m, r, src, dst);
  }

  lemma RenameKeyClean(h: Host, m: Entries, src: string, dst: string, moves: seq<Move>, k: string)
    requires WellFormedHost(h) && Inv(h, m) && PlanOk(h, m, src, moves) && Admissible(View(h, m), src, dst)
    requires CleanKey(src) && k in ApplyBatch(m, Batch(src, dst, moves))
    ensures k != "" && CleanKey(k) && RefOk(h, ApplyBatch(m, Batch(src, dst, moves))[k])
  {
    PlanDisjoint(h, m, src, dst, moves);
    if i :| 0 <= i < |moves| && k == dst + moves[i].suffix {
      AppliedDst(m, src, dst, moves, i);
      RebasedClean(src, dst, moves[i].suffix);
    } else if i :| 0 <= i < |moves| && k == src + moves[i].suffix {
      AppliedSrc(m, src, dst, moves, i);
    } else {
      AppliedElse(m, src, dst, moves, k);
    }
  }

  lemma RebasedClean(src: string, dst: string, s: string)
    requires CleanKey(dst) && dst != "" && CleanKey(src + s) && Within(src + s, src)
    ensures CleanKey(dst + s)
  {
    var x, k := src + s, dst + s;
    assert s != "" ==> x[|x| - 1] == k[|k| - 1];
    assert forall i | 0 <= i < |dst| :: k[i] == dst[i];
    forall j | |dst| < j < |k| && k[j - 1] == '/' ensures k[j] != '/' {
      assert k[j] == x[|src| + j - |dst|] && k[j - 1] == x[|src| + j - |dst| - 1];
    }
  }

  lemma RenameShadowed(h: Host, m: Entries, src: string, dst: string, moves: seq<Move>, k: string, d: string)
    requires WellFormedHost(h) && Inv(h, m) && PlanOk(h, m, src, moves) && Admissible(View(h, m), src, dst)
    requires k in ApplyBatch(m, Batch(src, dst, moves)) && d in h && Anc(k, d)
    ensures d in ApplyBatch(m, Batch(src, dst, moves))
  {
    hide WellFormedHost, EntryNode, RefOk, Connected, HasParents, CleanKey, SourceEntry, Batch, ApplyBatch;
    PlanDisjoint(h, m, src, dst, moves);
    ViewLookup(h, m, d);
    if i :| 0 <= i < |moves| && d == dst + moves[i].suffix {
      AppliedDst(m, src, dst, moves, i);
    } else if i :| 0 <= i < |moves| && d == src + moves[i].suffix {
      AppliedSrc(m, src, dst, moves, i);
    } else {
      AppliedElse(m, src, dst, moves, d);
      if Anc(src, d) {
        assert d == src + d[|src|..];
      } else if i :| 0 <= i < |moves| && k == dst + moves[i].suffix {
        WithinSuffix(dst, src, moves[i].suffix);
        WithinTransitive(dst, k, d);
      } else if i :| 0 <= i < |moves| && k == src + moves[i].suffix {
        WithinTransitive(src, k, d);
      } else {
        AppliedElse(m, src, dst, moves, k);
      }
    }
  }

  lemma WithinTransitive(a: string, b: string, c: string)
    requires Within(b, a) && Anc(b, c)
    ensures Anc(a, c)
  {
    if a != b { AncTransitive(a, b, c); }
  }

  lemma RenameConnected(h: Host, m: Entries, r: Entries, src: string, dst: string)
    requires Inv(h, m) && Admissible(View(h, m), src, dst)
    requires forall k :: NodeAt(h, r, k) == RenamedAt(View(h, m), src, dst, k)
    ensures Connected(View(h, r))
  {
    var t, u := View(h, m), View(h, r);
    assert NodeAt(h, r, "") == RenamedAt(t, src, dst, "");
    ViewLookup(h, r, "");
    forall k, a | k in u && Anc(a, k) ensures IsDir(u, a) {
      ViewLookup(h, r, k);
      ViewLookup(h, r, a);
      assert Lookup(u, k) == RenamedAt(t, src, dst, k);
      assert Lookup(u, a) == RenamedAt(t, src, dst, a);
      if Within(k, dst) {
        AncComparable(a, dst, k);
        if Within(a, dst) {
          MovedAncestor(src, dst, a, k);
          assert IsDir(t, src + a[|dst|..]);
        } else {
          assert Anc(a, dst) && IsDir(t, a);
          if Within(a, src) { WithinTransitive(src, a, dst); }
        }
      } else {
        assert IsDir(t, a);
        if Within(a, dst) { WithinTransitive(dst, a, k); }
        if Within(a, src) { WithinTransitive(src, a, k); }
      }
    }
  }

  lemma MovedAncestor(src: string, dst: string, a: string, k: string)
    requires Within(a, dst) && Within(k, dst) && Anc(a, k)
    ensures Anc(src + a[|dst|..], src + k[|dst|..])
  {
    var x, y := src + a[|dst|..], src + k[|dst|..];
    assert k[..|a|][..|dst|] == k[..|dst|];
    assert y[..|x|] == x by {
      assert forall i | |src| <= i < |x| :: y[i] == k[|dst| + i - |src|] == k[..|a|][|dst| + i - |src|] == x[i];
    }
    assert y[|x|] == k[|a|];
  }

  // ----- planning -----

  /** The host keys below d that have no entry of their own. */
  ghost function Bare(h: Host, m: Entries, d: string): set<string> {
    set k | k in h && Anc(d, k) && k !in m
  }

  ghost function KeysOf(found: seq<Replacement>): set<string> {
    set i | 0 <= i < |found| :: found[i].key
  }

  ghost predicate DistinctKeys(found: seq<Replacement>) {
    forall i, j | 0 <= i < j < |found| :: found[i].key != found[j].key
  }

  /** What a descendant costs the plan, as far as every kind of node is charged. */
  ghost function ScanCost(found: seq<Replacement>): nat {
    if found == [] then 0
    else ScanCost(found[..|found| - 1]) + REAL_DESCENDANT_MEMORY_USAGE + 2 * |found[|found| - 1].key|
  }

  /** What the descendants are charged: a directory's key three times, a file's twice. */
  ghost function ScanCharge(found: seq<Replacement>): nat {
    if found == [] then 0
    else
      var last := found[|found| - 1];
      ScanCharge(found[..|found| - 1]) + REAL_DESCENDANT_MEMORY_USAGE + (if last.entry.DirEntry? then 3 else 2) * |last.key|
  }

  lemma {:induction false} ScanChargeConcat(a: seq<Replacement>, b: seq<Replacement>)
    ensures ScanCharge(a + b) == ScanCharge(a) + ScanCharge(b)
  {
    if b == [] {
      assert a + b == a;
    } else {
      ScanChargeConcat(a, b[..|b| - 1]);
      assert (a + b)[..|a + b| - 1] == a + b[..|b| - 1];
    }
  }

  lemma {:induction false} ScanCostCharged(found: seq<Replacement>)
    ensures ScanCost(found) <= ScanCharge(found)
  {
    if found != [] {
      ScanCostCharged(found[..|found| - 1]);
    }
  }

  /** Some of the bare host nodes below src, each once. */
  ghost predicate SomeBare(h: Host, m: Entries, src: string, found: seq<Replacement>) {
    DistinctKeys(found) && forall r | r in found :: r.key in Bare(h, m, src) && r.entry == HostEntry(h, r.key)
  }

  // ----- walking the real tree -----

  /** The children of one directory that have no entry, in host order. */
  ghost function BareChildren(h: Host, m: Entries, d: string, names: seq<string>): seq<Replacement>
    requires forall n | n in names :: Child(d, n) in h
  {
    if names == [] then []
    else
      var init := BareChildren(h, m, d, names[..|names| - 1]);
      var k := Child(d, names[|names| - 1]);
      if k in m then init else init + [Replacement(k, HostEntry(h, k))]
  }

  ghost function DirKeys(found: seq<Replacement>): seq<string> {
    if found == [] then []
    else
      var init, last := DirKeys(found[..|found| - 1]), found[|found| - 1];
      if last.entry.DirEntry? then init + [last.key] else init
  }

  lemma {:induction false} BareChildrenFacts(h: Host, m: Entries, d: string, names: seq<string>)
    requires forall n | n in names :: Child(d, n) in h
    requires forall i, j | 0 <= i < j < |names| :: names[i] != names[j]
    ensures var found := BareChildren(h, m, d, names);
            && DistinctKeys(found)
            && (forall r | r in found :: r.key in h && r.key !in m && r.entry == HostEntry(h, r.key)
                                         && exists n | n in names :: r.key == Child(d, n))
            && (forall n | n in names && Child(d, n) !in m ::
                  Replacement(Child(d, n), HostEntry(h, Child(d, n))) in found)
  {
    if names != [] {
      var init, last := names[..|names| - 1], names[|names| - 1];
      BareChildrenFacts(h, m, d, init);
      forall r | r in BareChildren(h, m, d, init) ensures r.key != Child(d, last) {
        var n :| n in init && r.key == Child(d, n);
        SuffixInjective(DirectoryPrefix(d), n, last);
      }
      assert forall n | n in names :: n in init || n == last;
    }
  }

  lemma {:induction false} DirKeysFacts(found: seq<Replacement>)
    requires DistinctKeys(found)
    ensures forall k :: k in DirKeys(found) <==> exists r | r in found :: r.key == k && r.entry.DirEntry?
    ensures forall i, j | 0 <= i < j < |DirKeys(found)| :: DirKeys(found)[i] != DirKeys(found)[j]
  {
    if found != [] {
      var init, last := found[..|found| - 1], found[|found| - 1];
      DirKeysFacts(init);
      assert forall r | r in found :: r in init || r == last;
      assert forall r | r in init :: r.key != last.key by {
        forall r | r in init ensures r.key != last.key {
          var i :| 0 <= i < |init| && init[i] == r;
          assert found[i] == r;
        }
      }
      assert last.key !in DirKeys(init);
    }
  }

  /** Progress of the walk: what it has found, and the directories it still has to open. */
  ghost predicate WalkInv(h: Host, m: Entries, src: string, found: seq<Replacement>, dirs: seq<string>) {
    && DistinctKeys(found)
    && (forall r | r in found :: r.key in Bare(h, m, src) && r.entry == HostEntry(h, r.key))
    && (forall d | d in dirs :: HostIsDir(h, d) && Within(d, src))
    && (forall i, j | 0 <= i < |dirs| && 0 <= j < |dirs| && i != j :: !Within(dirs[i], dirs[j]))
    && (forall r, d | r in found && d in dirs :: !Anc(d, r.key))
    && (forall k | k in Bare(h, m, src) :: k in KeysOf(found) || exists d | d in dirs :: Anc(d, k))
  }

  /** A child is nested in nothing that its directory is not nested in. */
  lemma ChildNotNested(d: string, n: string, y: string)
    requires CleanName(n) && d != "" && !Within(d, y) && !Within(y, d)
    ensures !Within(Child(d, n), y) && !Within(y, Child(d, n))
  {
    ChildFacts(d, n);
    if Anc(Child(d, n), y) { AncTransitive(d, Child(d, n), y); }
  }

  lemma SiblingsNotNested(d: string, n: string, o: string)
    requires CleanName(n) && CleanName(o)
    ensures !Anc(Child(d, n), Child(d, o))
  {
    ChildFacts(d, n);
    ChildFacts(d, o);
  }

  ghost predicate HostNamesOk(h: Host, d: string) {
    && HostIsDir(h, d)
    && (forall i, j | 0 <= i < j < |h[d].names| :: h[d].names[i] != h[d].names[j])
    && (forall n | n in h[d].names :: CleanName(n) && Child(d, n) in h)
  }

  lemma HostNames(h: Host, d: string)
    requires WellFormedHost(h) && HostIsDir(h, d)
    ensures HostNamesOk(h, d)
  {
  }

  /** more lists exactly the bare children of d. */
  ghost predicate IsScan(h: Host, m: Entries, d: string, more: seq<Replacement>) {
    && HostNamesOk(h, d)
    && DistinctKeys(more)
    && (forall r | r in more :: r.key in h && r.key !in m && r.entry == HostEntry(h, r.key)
                                && exists n | n in h[d].names :: r.key == Child(d, n))
    && (forall n | n in h[d].names && Child(d, n) !in m ::
          Replacement(Child(d, n), HostEntry(h, Child(d, n))) in more)
  }

  lemma ScanKey(h: Host, m: Entries, d: string, more: seq<Replacement>, r: Replacement) returns (n: string)
    requires IsScan(h, m, d, more) && r in more
    ensures n in h[d].names && CleanName(n) && r.key == Child(d, n) && Under(r.key, d)
  {
    n :| n in h[d].names && r.key == Child(d, n);
    ChildFacts(d, n);
  }

  lemma WalkFound(h: Host, m: Entries, src: string, found: seq<Replacement>, dirs: seq<string>, d: string, more: seq<Replacement>)
    requires WalkInv(h, m, src, found, dirs) && IsScan(h, m, d, more) && d in dirs && src != "" && d != ""
    ensures DistinctKeys(found + more)
    ensures forall r | r in found + more :: r.key in Bare(h, m, src) && r.entry == HostEntry(h, r.key)
    ensures more == [] || KeysOf(found + more) > KeysOf(found)
  {
    var all := found + more;
    forall r | r in more ensures r.key in Bare(h, m, src) && r.key !in KeysOf(found) {
      var n := ScanKey(h, m, d, more, r);
      WithinTransitive(src, d, r.key);
      forall i | 0 <= i < |found| ensures found[i].key != r.key { assert found[i] in found; }
    }
    forall i, j | 0 <= i < j < |all| ensures all[i].key != all[j].key {
      if i < |found| <= j { assert all[j] in more && all[i].key in KeysOf(found); }
    }
    forall k | k in KeysOf(found) ensures k in KeysOf(all) {
      var i :| 0 <= i < |found| && found[i].key == k;
      assert all[i].key == k;
    }
    if more != [] {
      assert more[0] in more && all[|found|].key == more[0].key;
    }
  }

  lemma WalkPending(h: Host, m: Entries, src: string, found: seq<Replacement>, dirs: seq<string>, more: seq<Replacement>)
    requires dirs != [] && WalkInv(h, m, src, found, dirs) && src != ""
    requires IsScan(h, m, dirs[|dirs| - 1], more)
    ensures var d, rest := dirs[|dirs| - 1], dirs[..|dirs| - 1];
            && (forall x | x in rest + DirKeys(more) :: HostIsDir(h, x) && Within(x, src))
            && (forall i, j | 0 <= i < |rest + DirKeys(more)| && 0 <= j < |rest + DirKeys(more)| && i != j ::
                  !Within((rest + DirKeys(more))[i], (rest + DirKeys(more))[j]))
  {
    var d, rest := dirs[|dirs| - 1], dirs[..|dirs| - 1];
    DirKeysFacts(more);
    var all := rest + DirKeys(more);
    forall x | x in DirKeys(more) ensures HostIsDir(h, x) && Within(x, src) && forall y | y in rest :: !Within(x, y) && !Within(y, x) {
      var r :| r in more && r.key == x && r.entry.DirEntry?;
      var n := ScanKey(h, m, d, more, r);
      assert d in dirs;
      WithinTransitive(src, d, x);
      forall y | y in rest ensures !Within(x, y) && !Within(y, x) {
        var i :| 0 <= i < |rest| && rest[i] == y;
        assert dirs[i] == y;
        ChildNotNested(d, n, y);
      }
    }
    forall x, y | x in DirKeys(more) && y in DirKeys(more) ensures !Anc(x, y) {
      var r :| r in more && r.key == x;
      var q :| q in more && q.key == y;
      var n := ScanKey(h, m, d, more, r);
      var o := ScanKey(h, m, d, more, q);
      SiblingsNotNested(d, n, o);
    }
    forall i, j | 0 <= i < |all| && 0 <= j < |all| && i != j ensures !Within(all[i], all[j]) {
      if i < |rest| && j < |rest| {
        assert dirs[i] == all[i] && dirs[j] == all[j];
      } else if i < |rest| {
        assert all[i] in rest && all[j] in DirKeys(more);
      } else if j < |rest| {
        assert all[j] in rest && all[i] in DirKeys(more);
      } else {
        assert all[i] == DirKeys(more)[i - |rest|] && all[j] == DirKeys(more)[j - |rest|];
      }
    }
  }

  lemma WalkApart(h: Host, m: Entries, src: string, found: seq<Replacement>, dirs: seq<string>, more: seq<Replacement>)
    requires dirs != [] && WalkInv(h, m, src, found, dirs) && src != ""
    requires IsScan(h, m, dirs[|dirs| - 1], more)
    ensures forall r, x | r in found + more && x in dirs[..|dirs| - 1] + DirKeys(more) :: !Anc(x, r.key)
  {
    var d, rest := dirs[|dirs| - 1], dirs[..|dirs| - 1];
    DirKeysFacts(more);
    forall r, x | r in found + more && x in rest + DirKeys(more) ensures !Anc(x, r.key) {
      if r in more {
        var n := ScanKey(h, m, d, more, r);
        if x in rest {
          var i :| 0 <= i < |rest| && rest[i] == x;
          assert dirs[i] == x;
          ChildNotNested(d, n, x);
        } else {
          var q :| q in more && q.key == x;
          var o := ScanKey(h, m, d, more, q);
          SiblingsNotNested(d, o, n);
        }
      } else if x in rest {
        assert x in dirs;
      } else {
        var q :| q in more && q.key == x;
        var o := ScanKey(h, m, d, more, q);
        assert d in dirs;
        if Anc(x, r.key) { WithinTransitive(d, x, r.key); }
      }
    }
  }

  lemma WalkCovers(h: Host, m: Entries, src: string, found: seq<Replacement>, dirs: seq<string>, more: seq<Replacement>, k: string)
    requires WellFormedHost(h) && Inv(h, m)
    requires dirs != [] && WalkInv(h, m, src, found, dirs) && src != ""
    requires IsScan(h, m, dirs[|dirs| - 1], more) && k in Bare(h, m, src)
    ensures k in KeysOf(found + more) || exists x | x in dirs[..|dirs| - 1] + DirKeys(more) :: Anc(x, k)
  {
    var d, rest, all := dirs[|dirs| - 1], dirs[..|dirs| - 1], found + more;
    if i :| 0 <= i < |found| && found[i].key == k {
      assert all[i].key == k;
    } else {
      var y :| y in dirs && Anc(y, k);
      if y != d {
        assert y in rest;
      } else {
        DirKeysFacts(more);
        var n := FirstComponent(d, k);
        var c := Child(d, n);
        assert c in h && c !in m;
        var r := Replacement(c, HostEntry(h, c));
        assert r in more;
        var i :| 0 <= i < |more| && more[i] == r;
        assert all[|found| + i].key == c;
        if c != k { assert c in DirKeys(more); }
      }
    }
  }

  /** Opening one pending directory keeps the walk on course. */
  lemma WalkStep(h: Host, m: Entries, src: string, found: seq<Replacement>, dirs: seq<string>, more: seq<Replacement>)
    requires WellFormedHost(h) && Inv(h, m) && src != "" && dirs != []
    requires WalkInv(h, m, src, found, dirs) && IsScan(h, m, dirs[|dirs| - 1], more)
    ensures WalkInv(h, m, src, found + more, dirs[..|dirs| - 1] + DirKeys(more))
    ensures more == [] || KeysOf(found + more) > KeysOf(found)
  {
    hide Inv, WellFormedHost, IsScan;
    var d := dirs[|dirs| - 1];
    assert d in dirs && d != "";
    WalkFound(h, m, src, found, dirs, d, more);
    WalkPending(h, m, src, found, dirs, more);
    WalkApart(h, m, src, found, dirs, more);
    forall k | k in Bare(h, m, src)
      ensures k in KeysOf(found + more) || exists x | x in dirs[..|dirs| - 1] + DirKeys(more) :: Anc(x, k)
    {
      WalkCovers(h, m, src, found, dirs, more, k);
    }
  }

  lemma WalkTop(h: Host, m: Entries, src: string, found: seq<Replacement>, dirs: seq<string>)
    requires WellFormedHost(h) && dirs != [] && WalkInv(h, m, src, found, dirs)
    ensures var d := dirs[|dirs| - 1]; HostIsDir(h, d) && forall n | n in h[d].names :: Child(d, n) in h
  {
    assert dirs[|dirs| - 1] in dirs;
  }

  lemma ScanIs(h: Host, m: Entries, d: string)
    requires WellFormedHost(h) && HostIsDir(h, d)
    requires forall n | n in h[d].names :: Child(d, n) in h
    ensures IsScan(h, m, d, BareChildren(h, m, d, h[d].names))
  {
    HostNames(h, d);
    BareChildrenFacts(h, m, d, h[d].names);
  }

  lemma {:induction false} BarePrefix(h: Host, m: Entries, d: string, names: seq<string>, i: nat)
    requires i <= |names| && forall n | n in names :: Child(d, n) in h
    ensures BareChildren(h, m, d, names[..i]) <= BareChildren(h, m, d, names)
  {
    if i == |names| {
      assert names[..i] == names;
    } else {
      BarePrefix(h, m, d, names[..|names| - 1], i);
      assert names[..|names| - 1][..i] == names[..i];
    }
  }

  /** A walk that stopped inside a directory had found only bare nodes, each once. */
  lemma WalkStopped(h: Host, m: Entries, src: string, found: seq<Replacement>, more: seq<Replacement>, over: seq<Replacement>, dirs: seq<string>)
    requires WalkInv(h, m, src, found + more, dirs) && over <= more
    ensures SomeBare(h, m, src, found + over)
  {
    var all, some := found + more, found + over;
    assert some <= all;
    forall r | r in some ensures r in all {
      var i :| 0 <= i < |some| && some[i] == r;
      assert all[i] == r;
    }
  }

  lemma WalkDone(h: Host, m: Entries, src: string, found: seq<Replacement>)
    requires WalkInv(h, m, src, found, [])
    ensures KeysOf(found) == Bare(h, m, src) && DistinctKeys(found)
    ensures forall r | r in found :: r.key in h && r.entry == HostEntry(h, r.key)
  {
    forall k | k in KeysOf(found) ensures k in Bare(h, m, src) {
      var i :| 0 <= i < |found| && found[i].key == k;
      assert found[i] in found;
    }
  }

  lemma WalkStart(h: Host, m: Entries, src: string)
    requires HostIsDir(h, src)
    ensures WalkInv(h, m, src, [], [src]) && ScanCharge([]) == 0
  {
    assert src in [src];
  }

  lemma WalkProgress(h: Host, m: Entries, src: string, found: seq<Replacement>, more: seq<Replacement>, dirs: seq<string>)
    requires WalkInv(h, m, src, found + more, dirs)
    requires more == [] || KeysOf(found + more) > KeysOf(found)
    ensures more != [] ==> Bare(h, m, src) - KeysOf(found + more) < Bare(h, m, src) - KeysOf(found)
    ensures more == [] ==> found + more == found && DirKeys(more) == []
  {
    forall k | k in KeysOf(found + more) ensures k in Bare(h, m, src) {
      var i :| 0 <= i < |found + more| && (found + more)[i].key == k;
      assert (found + more)[i] in found + more;
    }
    if more != [] {
      var k :| k in KeysOf(found + more) && k !in KeysOf(found);
    }
  }

  // ----- assembling the plan -----

  lemma EntryPart(h: Host, m: Entries, src: string, k: string)
    requires Inv(h, m) && k in m && Anc(src, k)
    ensures PlanPart(h, m, src, Move(k[|src|..], m[k]))
    ensures src + k[|src|..] == k && k[|src|..] != ""
  {
    assert src + k[|src|..] == k;
  }

  lemma RealPart(h: Host, m: Entries, src: string, k: string)
    requires k in h && k !in m && Anc(src, k)
    ensures PlanPart(h, m, src, Move(k[|src|..], HostEntry(h, k)))
    ensures src + k[|src|..] == k && k[|src|..] != ""
  {
    assert src + k[|src|..] == k;
  }

  /** A plan lists the source, then the entries below it, then the bare host nodes below it. */
  ghost predicate PlanShape(src: string, keys: seq<string>, found: seq<Replacement>, moves: seq<Move>) {
    && |moves| == 1 + |keys| + |found| && moves[0].suffix == ""
    && (forall i | 0 <= i < |keys| :: src + moves[1 + i].suffix == keys[i] && moves[1 + i].suffix != "")
    && (forall i | 0 <= i < |found| ::
          src + moves[1 + |keys| + i].suffix == found[i].key && moves[1 + |keys| + i].suffix != "")
  }

  lemma PlanDistinct(m: Entries, src: string, keys: seq<string>, found: seq<Replacement>, moves: seq<Move>)
    requires PlanShape(src, keys, found, moves) && Sorted(keys) && DistinctKeys(found)
    requires forall i | 0 <= i < |keys| :: keys[i] in m
    requires forall i | 0 <= i < |found| :: found[i].key !in m
    ensures forall i, j | 0 <= i < j < |moves| :: moves[i].suffix != moves[j].suffix
  {
    SortedDistinct(keys);
    forall i, j | 0 <= i < j < |moves| ensures moves[i].suffix != moves[j].suffix {
      if i == 0 {
        assert j <= |keys| ==> src + moves[1 + (j - 1)].suffix == keys[j - 1];
        assert j > |keys| ==> src + moves[1 + |keys| + (j - 1 - |keys|)].suffix == found[j - 1 - |keys|].key;
      } else if j <= |keys| {
        assert src + moves[1 + (i - 1)].suffix == keys[i - 1] && src + moves[1 + (j - 1)].suffix == keys[j - 1];
      } else {
        var q := j - 1 - |keys|;
        assert src + moves[1 + |keys| + q].suffix == found[q].key;
        if i <= |keys| {
          assert src + moves[1 + (i - 1)].suffix == keys[i - 1];
        } else {
          assert src + moves[1 + |keys| + (i - 1 - |keys|)].suffix == found[i - 1 - |keys|].key;
        }
      }
    }
  }

  lemma PlanCovers(h: Host, m: Entries, src: string, keys: seq<string>, found: seq<Replacement>, moves: seq<Move>, k: string)
    requires PlanShape(src, keys, found, moves)
    requires forall k :: k in keys <==> k in m && Anc(src, k)
    requires KeysOf(found) == Bare(h, m, src)
    requires Within(k, src) && (k in m || k in h)
    ensures Moved(moves, k[|src|..])
  {
    if k == src {
      assert moves[0].suffix == k[|src|..];
    } else if k in m {
      var i :| 0 <= i < |keys| && keys[i] == k;
      assert (src + moves[1 + i].suffix)[|src|..] == moves[1 + i].suffix;
    } else {
      assert k in KeysOf(found);
      var i :| 0 <= i < |found| && found[i].key == k;
      assert (src + moves[1 + |keys| + i].suffix)[|src|..] == moves[1 + |keys| + i].suffix;
    }
  }

  /** The entries below the source plus the bare host nodes below it are a complete plan. */
  lemma PlanComplete(h: Host, m: Entries, src: string, keys: seq<string>, found: seq<Replacement>, moves: seq<Move>)
    requires PlanShape(src, keys, found, moves) && Sorted(keys) && DistinctKeys(found)
    requires forall k :: k in keys <==> k in m && Anc(src, k)
    requires KeysOf(found) == Bare(h, m, src)
    requires forall i | 0 <= i < |moves| :: PlanPart(h, m, src, moves[i])
    ensures FullPlan(h, m, src, moves)
  {
    hide PlanPart, NodeAt, PlanShape;
    assert forall i | 0 <= i < |found| :: found[i].key !in m by {
      forall i | 0 <= i < |found| ensures found[i].key !in m { assert found[i].key in KeysOf(found); }
    }
    PlanDistinct(m, src, keys, found, moves);
    forall k | Within(k, src) && (k in m || k in h) ensures Moved(moves, k[|src|..]) {
      PlanCovers(h, m, src, keys, found, moves, k);
    }
    assert moves[0].suffix == "" by { PlanFirst(src, keys, found, moves); }
  }

  lemma PlanFirst(src: string, keys: seq<string>, found: seq<Replacement>, moves: seq<Move>)
    requires PlanShape(src, keys, found, moves)
    ensures moves != [] && moves[0].suffix == ""
  {
  }

  lemma SourcePart(h: Host, m: Entries, src: string)
    requires (src in m || src in h) && RefOk(h, SourceEntry(h, m, src))
    ensures PlanPart(h, m, src, Move("", SourceEntry(h, m, src)))
  {
    assert src + "" == src;
  }

  lemma FilePlan(h: Host, m: Entries, src: string)
    requires WellFormedHost(h) && Inv(h, m) && IsFile(View(h, m), src)
    ensures RefOk(h, SourceEntry(h, m, src))
    ensures PlanOk(h, m, src, [Move("", SourceEntry(h, m, src))])
  {
    var t := View(h, m);
    var moves := [Move("", SourceEntry(h, m, src))];
    SourcePart(h, m, src);
    assert PlanPart(h, m, src, moves[0]);
    forall k | Within(k, src) && k in t ensures Moved(moves, k[|src|..]) {
      assert HasParents(t, k);
      assert moves[0].suffix == k[|src|..];
    }
  }

  // ----- what a plan can cost -----

  /** The keys of the entries below src. */
  ghost function EntriesBelow(m: Entries, src: string): set<string> {
    set k | k in m && Anc(src, k)
  }

  /** What the plan is charged for moving one entry. */
  ghost function MoveWeight(src: string, dst: string): string -> nat {
    k => 2 * |k| + |dst| + (if |k| > |src| then |k| - |src| else 0) + ENTRY_MEMORY_USAGE
  }

  /** What the walk is charged for one bare host node: a directory's key three times, a file's twice. */
  ghost function NodeWeight(h: Host): string -> nat {
    k => REAL_DESCENDANT_MEMORY_USAGE + (if HostIsDir(h, k) then 3 else 2) * |k|
  }

  lemma {:induction false} PlanCostIsSum(keys: seq<string>, src: string, dst: string)
    requires Sorted(keys) && forall k | k in keys :: Anc(src, k)
    ensures PlanCost(keys, src, dst) == Sum((set k | k in keys), MoveWeight(src, dst))
  {
    if keys != [] {
      var init, last := keys[..|keys| - 1], keys[|keys| - 1];
      SortedInit(keys);
      PlanCostIsSum(init, src, dst);
      SumRemove((set k | k in keys), last, MoveWeight(src, dst));
      assert (set k | k in keys) - {last} == (set k | k in init);
    }
  }

  lemma {:induction false} ScanChargeIsSum(h: Host, found: seq<Replacement>)
    requires DistinctKeys(found) && forall r | r in found :: r.key in h && r.entry == HostEntry(h, r.key)
    ensures ScanCharge(found) == Sum(KeysOf(found), NodeWeight(h))
  {
    if found != [] {
      var init, last := found[..|found| - 1], found[|found| - 1];
      ScanChargeIsSum(h, init);
      assert found[|found| - 1].key in KeysOf(found);
      SumRemove(KeysOf(found), last.key, NodeWeight(h));
      KeysOfInit(found);
    }
  }

  lemma KeysOfInit(found: seq<Replacement>)
    requires DistinctKeys(found) && found != []
    ensures KeysOf(found) - {found[|found| - 1].key} == KeysOf(found[..|found| - 1])
  {
    var init, last := found[..|found| - 1], found[|found| - 1];
    forall k | k in KeysOf(found) && k != last.key ensures k in KeysOf(init) {
      var i :| 0 <= i < |found| && found[i].key == k;
      assert init[i].key == k;
    }
    forall k | k in KeysOf(init) ensures k in KeysOf(found) && k != last.key {
      var i :| 0 <= i < |init| && init[i].key == k;
      assert found[i].key == k;
    }
  }

  /** The bare nodes below src, with the paths that start the walk, cost more than is available. */
  ghost predicate ScanOver(h: Host, m: Entries, src: string, available: int) {
    Bare(h, m, src) != {} && 2 * |src| + 1 + Sum(Bare(h, m, src), NodeWeight(h)) > available
  }

  /** A partial scan that is over the limit condemns the whole. */
  lemma ScanCondemned(h: Host, m: Entries, src: string, found: seq<Replacement>, available: int)
    requires SomeBare(h, m, src, found) && found != [] && 2 * |src| + 1 + ScanCharge(found) > available
    ensures ScanOver(h, m, src, available)
  {
    assert found[0] in found;
    forall k | k in KeysOf(found) ensures k in Bare(h, m, src) {
      var i :| 0 <= i < |found| && found[i].key == k;
      assert found[i] in found;
    }
    ScanChargeIsSum(h, found);
    SumSubset(KeysOf(found), Bare(h, m, src), NodeWeight(h));
  }

  /** A complete scan that fits leaves nothing over. */
  lemma ScanCleared(h: Host, m: Entries, src: string, found: seq<Replacement>, available: int)
    requires DistinctKeys(found) && KeysOf(found) == Bare(h, m, src)
    requires forall r | r in found :: r.key in h && r.entry == HostEntry(h, r.key)
    requires found == [] || 2 * |src| + 1 + ScanCharge(found) <= available
    ensures !ScanOver(h, m, src, available)
  {
    ScanChargeIsSum(h, found);
    assert found == [] ==> KeysOf(found) == {};
  }

  lemma NothingScanned(h: Host, m: Entries, src: string, available: int)
    requires Bare(h, m, src) == {}
    ensures !ScanOver(h, m, src, available)
  {
  }

  lemma FullPlanOk(h: Host, m: Entries, src: string, moves: seq<Move>)
    requires FullPlan(h, m, src, moves)
    ensures PlanOk(h, m, src, moves)
  {
  }

  /** The plan of a directory rename, entries first and then the bare host nodes, does not fit in memory. */
  ghost predicate PlanTooBig(h: Host, m: Entries, src: string, dst: string, available: nat) {
    var planned := Sum(EntriesBelow(m, src), MoveWeight(src, dst));
    planned > available || ScanOver(h, m, src, available - planned)
  }

  /** planUsage without saturation. */
  ghost function PlanCost(keys: seq<string>, src: string, dst: string): nat
    requires forall k | k in keys :: Anc(src, k)
  {
    if keys == [] then 0
    else
      var k := keys[|keys| - 1];
      assert Anc(src, k);
      PlanCost(keys[..|keys| - 1], src, dst) + 2 * |k| + |dst| + (|k| - |src|) + ENTRY_MEMORY_USAGE
  }

  /** Paths are at most this long once they are normalised. */
  const KEY_MAX: nat := 4097

  lemma MoveCost(src: string, dst: string, moves: seq<Move>, last: Move)
    ensures BatchCost(Batch(src, dst, [])) == 0
    ensures BatchCost(Batch(src, dst, moves + [last]))
      == BatchCost(Batch(src, dst, moves)) + Cost(src + last.suffix, Tombstone) + Cost(dst + last.suffix, last.entry)
  {
    var all := moves + [last];
    BatchStep(src, dst, all, map[]);
    assert all[..|all| - 1] == moves;
  }

  lemma FirstMoveCost(h: Host, m: Entries, src: string, dst: string)
    requires (src in m || src in h) && |src| <= KEY_MAX && |dst| <= KEY_MAX
    ensures BatchCost(Batch(src, dst, [Move("", SourceEntry(h, m, src))])) <= Total(m) + 4 * KEY_MAX
  {
    hide Total, Batch, BatchCost;
    var first := Move("", SourceEntry(h, m, src));
    MoveCost(src, dst, [], first);
    assert [] + [first] == [first];
    assert src + "" == src && dst + "" == dst;
    if src in m { TotalRemove(m, src); }
  }

  /** Moving an entry costs at most twice its share of the plan, on top of what it costs already. */
  lemma EntryMoveCost(m: Entries, src: string, dst: string, moves: seq<Move>, keys: seq<string>, i: nat)
    requires i < |keys| && Anc(src, keys[i]) && forall k | k in keys :: k in m && Anc(src, k)
    ensures BatchCost(Batch(src, dst, moves + [Move(keys[i][|src|..], m[keys[i]])])) - BatchCost(Batch(src, dst, moves))
      <= 2 * (PlanCost(keys[..i + 1], src, dst) - PlanCost(keys[..i], src, dst)) + CostOf(m, keys[..i + 1]) - CostOf(m, keys[..i])
  {
    hide Batch, BatchCost;
    var k := keys[i];
    MoveCost(src, dst, moves, Move(k[|src|..], m[k]));
    assert keys[..i + 1][..i] == keys[..i];
    assert src + k[|src|..] == k;
  }

  lemma RealMoveCost(h: Host, src: string, dst: string, moves: seq<Move>, found: seq<Replacement>, i: nat)
    requires i < |found| && |dst| <= KEY_MAX
    requires Anc(src, found[i].key) && found[i].key in h && found[i].entry == HostEntry(h, found[i].key)
    ensures BatchCost(Batch(src, dst, moves + [Move(found[i].key[|src|..], found[i].entry)])) - BatchCost(Batch(src, dst, moves))
      <= 10 * (ScanCost(found[..i + 1]) - ScanCost(found[..i]))
  {
    hide Batch, BatchCost;
    var k := found[i].key;
    MoveCost(src, dst, moves, Move(k[|src|..], found[i].entry));
    assert found[..i + 1][..i] == found[..i];
    assert src + k[|src|..] == k;
  }

  // ----- committing the plan -----

  lemma {:induction false} BatchKeys(src: string, dst: string, moves: seq<Move>, i: nat)
    requires i < |moves|
    ensures Batch(src, dst, moves)[2 * i].key == src + moves[i].suffix
  {
    if i < |moves| - 1 { BatchKeys(src, dst, moves[..|moves| - 1], i); }
  }

  /** Dropping source keys first makes no difference: the batch writes them all. */
  lemma RemovalIrrelevant(m: Entries, n: Entries, src: string, dst: string, moves: seq<Move>)
    requires forall k :: Moved(moves, k) || ((src + k in m <==> src + k in n) && (src + k in m ==> m[src + k] == n[src + k]))
    requires forall k :: src <= k || ((k in m <==> k in n) && (k in m ==> m[k] == n[k]))
    ensures ApplyBatch(m, Batch(src, dst, moves)) == ApplyBatch(n, Batch(src, dst, moves))
  {
    var batch := Batch(src, dst, moves);
    forall k ensures var x, y := ApplyBatch(m, batch), ApplyBatch(n, batch); (k in x <==> k in y) && (k in x ==> x[k] == y[k]) {
      if src <= k {
        assert k == src + k[|src|..];
        if Moved(moves, k[|src|..]) {
          var i :| 0 <= i < |moves| && moves[i].suffix == k[|src|..];
          BatchKeys(src, dst, moves, i);
          assert batch[2 * i].key == k;
        }
      }
      ApplyBatchCovers(m, n, batch, k);
    }
  }

  lemma {:induction false} BatchPrefixCost(src: string, dst: string, moves: seq<Move>, i: nat)
    requires i <= |moves|
    ensures BatchCost(Batch(src, dst, moves[..i])) <= BatchCost(Batch(src, dst, moves))
    decreases |moves| - i
  {
    hide Batch, BatchCost;
    if i < |moves| {
      assert moves[..i + 1] == moves[..i] + [moves[i]];
      MoveCost(src, dst, moves[..i], moves[i]);
      BatchPrefixCost(src, dst, moves, i + 1);
    } else {
      assert moves[..i] == moves;
    }
  }

  /** Each insertion of the commit stays below the counter's range. */
  lemma CommitRoom(m: Entries, src: string, dst: string, moves: seq<Move>, i: nat)
    requires i < |moves| && Total(m) + BatchCost(Batch(src, dst, moves)) < MAX_UINT64
    ensures var before := ApplyBatch(m, Batch(src, dst, moves[..i]));
            && Total(before[src + moves[i].suffix := Tombstone]) < MAX_UINT64
            && Total(before[src + moves[i].suffix := Tombstone][dst + moves[i].suffix := moves[i].entry]) < MAX_UINT64
            && ApplyBatch(m, Batch(src, dst, moves[..i + 1]))
               == before[src + moves[i].suffix := Tombstone][dst + moves[i].suffix := moves[i].entry]
  {
    hide Total, Batch, BatchCost, ApplyBatch;
    var before := ApplyBatch(m, Batch(src, dst, moves[..i]));
    var mid := before[src + moves[i].suffix := Tombstone];
    assert moves[..i + 1] == moves[..i] + [moves[i]] && moves[..i + 1][..i] == moves[..i];
    BatchStep(src, dst, moves[..i + 1], m);
    MoveCost(src, dst, moves[..i], moves[i]);
    BatchPrefixCost(src, dst, moves, i + 1);
    TotalApplyBound(m, Batch(src, dst, moves[..i]));
    TotalPut(before, src + moves[i].suffix, Tombstone);
    TotalPut(mid, dst + moves[i].suffix, moves[i].entry);
  }

  lemma BatchNone(m: Entries, src: string, dst: string)
    ensures ApplyBatch(m, Batch(src, dst, [])) == m
  {
  }

  lemma BatchOne(m: Entries, src: string, dst: string, move: Move)
    requires move.suffix == ""
    ensures ApplyBatch(m, Batch(src, dst, [move])) == m[src := Tombstone][dst := move.entry]
  {
    BatchStep(src, dst, [move], m);
    assert [move][..0] == [] && src + "" == src && dst + "" == dst;
  }

  lemma VisibleSomewhere(h: Host, m: Entries, k: string)
    requires k in View(h, m)
    ensures k in m || k in h
  {
  }

  lemma PlanCarriesEntries(h: Host, m: Entries, src: string, moves: seq<Move>)
    requires PlanOk(h, m, src, moves)
    ensures forall i | 0 <= i < |moves| && src + moves[i].suffix in m :: moves[i].entry == m[src + moves[i].suffix]
  {
    forall i | 0 <= i < |moves| && src + moves[i].suffix in m ensures moves[i].entry == m[src + moves[i].suffix] {
      assert PlanPart(h, m, src, moves[i]);
    }
  }

  lemma ShapeEntry(src: string, keys: seq<string>, i: nat, moves: seq<Move>, move: Move)
    requires i < |keys| && PlanShape(src, keys[..i], [], moves)
    requires src + move.suffix == keys[i] && move.suffix != ""
    ensures PlanShape(src, keys[..i + 1], [], moves + [move])
  {
  }

  lemma ShapeReal(src: string, keys: seq<string>, found: seq<Replacement>, i: nat, moves: seq<Move>, move: Move)
    requires i < |found| && PlanShape(src, keys, found[..i], moves)
    requires src + move.suffix == found[i].key && move.suffix != ""
    ensures PlanShape(src, keys, found[..i + 1], moves + [move])
  {
    var all := moves + [move];
    assert forall j | 0 <= j < i :: found[..i + 1][j] == found[..i][j];
    assert forall j | 0 <= j < |moves| :: all[j] == moves[j];
  }

  lemma ScanStep(h: Host, m: Entries, d: string, names: seq<string>, i: nat, more: seq<Replacement>)
    requires i < |names| && (forall n | n in names :: Child(d, n) in h)
    requires Child(d, names[i]) in h && more == BareChildren(h, m, d, names[..i])
    ensures var k := Child(d, names[i]);
            var next := more + [Replacement(k, HostEntry(h, k))];
            && BareChildren(h, m, d, names[..i + 1]) == (if k in m then more else next)
            && DirKeys(next) == (if h[k].HostDir? then DirKeys(more) + [k] else DirKeys(more))
            && ScanCharge(next) == ScanCharge(more) + REAL_DESCENDANT_MEMORY_USAGE + (if h[k].HostDir? then 3 else 2) * |k|
  {
    assert names[..i + 1][..i] == names[..i];
    var k := Child(d, names[i]);
    assert (more + [Replacement(k, HostEntry(h, k))])[..|more|] == more;
  }

  lemma NotMovedBefore(moves: seq<Move>, i: nat)
    requires i < |moves| && forall a, b | 0 <= a < b < |moves| :: moves[a].suffix != moves[b].suffix
    ensures !Moved(moves[..i], moves[i].suffix)
  {
  }

  lemma MovedStep(moves: seq<Move>, i: nat, s: string)
    requires i < |moves|
    ensures Moved(moves[..i + 1], s) <==> Moved(moves[..i], s) || s == moves[i].suffix
  {
    if Moved(moves[..i], s) {
      var j :| 0 <= j < i && moves[..i][j].suffix == s;
      assert moves[..i + 1][j].suffix == s;
    }
    assert moves[..i + 1][i] == moves[i];
  }

  lemma MovedNone(moves: seq<Move>)
    ensures forall s :: !Moved(moves[..0], s)
  {
  }

  lemma MovedAt(moves: seq<Move>, i: nat)
    requires i < |moves|
    ensures Moved(moves, moves[i].suffix)
  {
  }

  lemma ScanNone(h: Host, m: Entries, d: string)
    ensures BareChildren(h, m, d, []) == [] && DirKeys([]) == [] && ScanCost([]) == 0 && ScanCharge([]) == 0
  {
  }

  lemma PlanNone(m: Entries, src: string, dst: string, moves: seq<Move>)
    requires |moves| == 1 && moves[0].suffix == ""
    ensures PlanShape(src, [], [], moves) && PlanCost([], src, dst) == 0 && CostOf(m, []) == 0
  {
  }
}
