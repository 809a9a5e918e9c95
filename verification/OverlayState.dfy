/**
  The in-memory layer of an overlay mount (internal/mountfs/overlay_state.go):
  a map of entries, a sorted index of its keys and a running byte count.
*/
module OverlayState {
  import opened Prelude
  import opened Keys

  const ENTRY_MEMORY_USAGE: nat := 256
  const OVERLAY_ENTRY_SIZE: nat := 48
  const REAL_DESCENDANT_MEMORY_USAGE: nat := 512

  datatype Entry =
    | FileEntry(content: Bytes, mtime: real)
    | RefEntry(relative: string, size: int, mtime: real)
    | DirEntry(mtime: real)
    | Tombstone
  {
    function Variable(): nat {
      match this
      case FileEntry(content, _) => |content|
      case RefEntry(relative, _, _) => |relative|
      case _ => 0
    }
  }

  type Entries = map<string, Entry>

  // ----- cost of entries -----

  function BaseEntryUsage(key: string): nat {
    SatAdd(SatAdd(ENTRY_MEMORY_USAGE, |key|), OVERLAY_ENTRY_SIZE)
  }

  function EntryUsage(key: string, e: Entry): nat {
    SatAdd(BaseEntryUsage(key), e.Variable())
  }

  /** What EntryUsage stands for when no addition saturates. */
  function Cost(key: string, e: Entry): nat {
    ENTRY_MEMORY_USAGE + |key| + OVERLAY_ENTRY_SIZE + e.Variable()
  }

  /** The exact number of bytes a map of entries is charged for. */
  ghost function Total(m: Entries): nat
    decreases |m|
  {
    if m == map[] then 0 else
      var k :| k in m;
      Cost(k, m[k]) + Total(m - {k})
  }

  lemma {:induction false} TotalRemove(m: Entries, k: string)
    requires k in m
    ensures Total(m) == Cost(k, m[k]) + Total(m - {k})
    decreases |m|
  {
    var c :| c in m && Total(m) == Cost(c, m[c]) + Total(m - {c});
    if c != k {
      TotalRemove(m - {c}, k);
      TotalRemove(m - {k}, c);
      assert m - {c} - {k} == m - {k} - {c};
    }
  }

  lemma TotalPut(m: Entries, k: string, e: Entry)
    ensures Total(m[k := e]) == Total(m - {k}) + Cost(k, e)
    ensures k in m ==> Total(m) == Total(m - {k}) + Cost(k, m[k])
    ensures k !in m ==> Total(m) == Total(m - {k})
  {
    TotalRemove(m[k := e], k);
    assert m[k := e] - {k} == m - {k};
    if k in m { TotalRemove(m, k); } else { assert m - {k} == m; }
  }

  /** What an entry adds to the total: 304 bytes, its key, and the content it holds or the path it refers to. */
  lemma EntryCharges(m: Entries, k: string, content: Bytes, relative: string, size: int, mtime: real)
    requires k !in m
    ensures Total(m[k := FileEntry(content, mtime)]) == Total(m) + 304 + |k| + |content|
    ensures Total(m[k := RefEntry(relative, size, mtime)]) == Total(m) + 304 + |k| + |relative|
    ensures Total(m[k := DirEntry(mtime)]) == Total(m) + 304 + |k|
    ensures Total(m[k := Tombstone]) == Total(m) + 304 + |k|
  {
    TotalPut(m, k, FileEntry(content, mtime));
    TotalPut(m, k, RefEntry(relative, size, mtime));
    TotalPut(m, k, DirEntry(mtime));
    TotalPut(m, k, Tombstone);
  }

  /** Distinct keys of a map cost no more together than the whole map. */
  ghost function CostOf(m: Entries, keys: seq<string>): nat
    requires forall k | k in keys :: k in m
  {
    if keys == [] then 0 else CostOf(m, keys[..|keys| - 1]) + Cost(keys[|keys| - 1], m[keys[|keys| - 1]])
  }

  lemma {:induction false} CostOfWithinTotal(m: Entries, keys: seq<string>)
    requires forall k | k in keys :: k in m
    requires forall i, j | 0 <= i < j < |keys| :: keys[i] != keys[j]
    ensures CostOf(m, keys) <= Total(m)
    decreases |keys|
  {
    if keys != [] {
      var init, last := keys[..|keys| - 1], keys[|keys| - 1];
      CostOfWithinTotal(m - {last}, init);
      CostOfSubmap(m, m - {last}, init);
      TotalRemove(m, last);
    }
  }

  lemma {:induction false} CostOfSubmap(m: Entries, n: Entries, keys: seq<string>)
    requires forall k | k in keys :: k in m && k in n && m[k] == n[k]
    ensures CostOf(m, keys) == CostOf(n, keys)
  {
    if keys != [] { CostOfSubmap(m, n, keys[..|keys| - 1]); }
  }

  // ----- batches of replacements -----

  datatype Replacement = Replacement(key: string, entry: Entry)

  ghost function ApplyBatch(m: Entries, batch: seq<Replacement>): Entries {
    if batch == [] then m
    else ApplyBatch(m, batch[..|batch| - 1])[batch[|batch| - 1].key := batch[|batch| - 1].entry]
  }

  ghost function BatchCost(batch: seq<Replacement>): nat {
    if batch == [] then 0
    else BatchCost(batch[..|batch| - 1]) + Cost(batch[|batch| - 1].key, batch[|batch| - 1].entry)
  }

  lemma ApplyBatchStep(m: Entries, batch: seq<Replacement>, i: nat)
    requires i < |batch|
    ensures ApplyBatch(m, batch[..i + 1]) == ApplyBatch(m, batch[..i])[batch[i].key := batch[i].entry]
    ensures BatchCost(batch[..i + 1]) == BatchCost(batch[..i]) + Cost(batch[i].key, batch[i].entry)
  {
    assert batch[..i + 1][..i] == batch[..i];
  }

  lemma {:induction false} BatchCostMonotone(batch: seq<Replacement>, i: nat)
    requires i <= |batch|
    ensures BatchCost(batch[..i]) <= BatchCost(batch)
    decreases |batch| - i
  {
    if i < |batch| {
      ApplyBatchStep(map[], batch, i);
      BatchCostMonotone(batch, i + 1);
    } else {
      assert batch[..i] == batch;
    }
  }

  lemma {:induction false} TotalApplyBound(m: Entries, batch: seq<Replacement>)
    ensures Total(ApplyBatch(m, batch)) <= Total(m) + BatchCost(batch)
  {
    hide Total;
    if batch != [] {
      var init, r := batch[..|batch| - 1], batch[|batch| - 1];
      TotalApplyBound(m, init);
      TotalPut(ApplyBatch(m, init), r.key, r.entry);
    }
  }

  /** Two maps that differ only in keys the batch replaces end up the same. */
  lemma {:induction false} ApplyBatchCovers(m: Entries, n: Entries, batch: seq<Replacement>, k: string)
    requires ((k in m <==> k in n) && (k in m ==> m[k] == n[k])) || exists i | 0 <= i < |batch| :: batch[i].key == k
    ensures var x, y := ApplyBatch(m, batch), ApplyBatch(n, batch);
            (k in x <==> k in y) && (k in x ==> x[k] == y[k])
  {
    if batch != [] && batch[|batch| - 1].key != k {
      if i :| 0 <= i < |batch| && batch[i].key == k { assert batch[..|batch| - 1][i].key == k; }
      ApplyBatchCovers(m, n, batch[..|batch| - 1], k);
    }
  }

  ghost function UsageOf(m: Entries, k: string): nat {
    if k in m then Cost(k, m[k]) else 0
  }

  lemma UsageWithinTotal(m: Entries, k: string)
    ensures UsageOf(m, k) <= Total(m)
  {
    if k in m { TotalRemove(m, k); }
  }

  lemma ProjectionStep(m: Entries, r: Replacement, before: nat)
    requires before == UsageOf(m, r.key)
    requires Total(m) + Cost(r.key, r.entry) <= MAX_UINT64
    ensures EntryUsage(r.key, r.entry) == Cost(r.key, r.entry)
    ensures Total(m[r.key := r.entry]) <= Total(m) + Cost(r.key, r.entry)
    ensures SatAdd(SatSub(Total(m), before), EntryUsage(r.key, r.entry)) == Total(m[r.key := r.entry])
  {
    TotalPut(m, r.key, r.entry);
  }

  /**
    An entry object: the map holds references, and an append grows one in place.
    While it is stored, its owner is the one key that refers to it.
  */
  class OverlayEntry {
    var value: Entry
    ghost var owner: string

    constructor (e: Entry)
      ensures value == e
    {
      value := e;
    }
  }

  class State {
    var entries: map<string, OverlayEntry>
    var keys: seq<string>
    var usage: nat

    ghost function Model(): Entries
      reads this`entries, entries.Values`value
    {
      map k | k in entries :: entries[k].value
    }

    /** The index lists exactly the map's keys in strict byte order, and no entry object sits under two keys. */
    ghost predicate Indexed()
      reads this`entries, this`keys, entries.Values`owner
    {
      && Sorted(keys)
      && (forall k :: k in keys <==> k in entries)
      && (forall k | k in entries :: entries[k].owner == k)
    }

    lemma NoEntryShared(j: string, k: string)
      requires Indexed() && j in entries && k in entries && j != k
      ensures entries[j] != entries[k]
    {
    }

    ghost predicate Valid()
      reads this, entries.Values
    {
      && Indexed()
      && usage == Total(Model())
      && usage < MAX_UINT64
    }

    constructor ()
      ensures Valid() && Model() == map[] && entries == map[]
    {
      entries, keys, usage := map[], [], 0;
      new;
      assert Model() == map[];
    }

    /** A copy of the entry stored under key. */
    function Get(key: string): (e: Option<Entry>)
      reads this`entries, entries.Values`value
      ensures e == if key in Model() then Some(Model()[key]) else None
    {
      if key in entries then Some(entries[key].value) else None
    }

    method Put(key: string, e: OverlayEntry)
      requires Indexed()
      requires e !in entries.Values
      modifies this`entries, this`keys, e`owner
      ensures Indexed()
      ensures entries == old(entries)[key := e]
    {
      if key !in entries {
        var i := SearchStrings(keys, key);
        SortedInsert(keys, key, i);
        keys := keys[..i] + [key] + keys[i..];
      }
      e.owner := key;
      entries := entries[key := e];
    }

    /** The inverse of Put: drops a stored key from the map and from the index. */
    method Drop(key: string)
      requires Indexed() && key in entries
      modifies this`entries, this`keys
      ensures Indexed()
      ensures entries == old(entries) - {key}
    {
      var i := SearchStrings(keys, key);
      SearchFindsMember(keys, key, i);
      SortedRemove(keys, i);
      entries := entries - {key};
      keys := keys[..i] + keys[i + 1..];
    }

    method Remove(key: string) returns (e: OverlayEntry?)
      requires Valid()
      modifies this
      ensures Valid()
      ensures entries == old(entries) - {key} && usage <= old(usage)
      ensures key in old(entries) ==> e == old(entries)[key]
      ensures key !in old(entries) ==> e == null
    {
      hide Total;
      if key !in entries { assert entries - {key} == entries; return null; }
      e := entries[key];
      ghost var rest := Model() - {key};
      TotalRemove(Model(), key);
      usage := SatSub(usage, EntryUsage(key, e.value));
      assert usage == Total(rest);
      Drop(key);
      assert Model() == rest;
    }

    function ProjectedUsage(key: string, e: Entry): (n: nat)
      requires Valid()
      reads this, entries.Values
      ensures n == if Total(Model()[key := e]) <= MAX_UINT64 then Total(Model()[key := e]) else MAX_UINT64
    {
      TotalPut(Model(), key, e);
      var before := if key in entries then EntryUsage(key, entries[key].value) else 0;
      SatAdd(SatSub(usage, before), EntryUsage(key, e))
    }

    method Insert(key: string, e: OverlayEntry, limit: nat) returns (ok: bool)
      requires Valid() && limit < MAX_UINT64
      requires e !in entries.Values
      modifies this, e`owner
      ensures Valid()
      ensures ok <==> Total(old(Model())[key := e.value]) <= limit
      ensures ok ==> entries == old(entries)[key := e] && Model() == old(Model())[key := e.value] && usage <= limit
      ensures !ok ==> entries == old(entries) && usage == old(usage)
    {
      hide Total;
      var projected := ProjectedUsage(key, e.value);
      if projected > limit { return false; }
      Put(key, e);
      usage := projected;
      assert Model() == old(Model())[key := e.value];
      ok := true;
    }

    method InsertUnchecked(key: string, e: OverlayEntry)
      requires Valid()
      requires e !in entries.Values
      requires Total(Model()[key := e.value]) < MAX_UINT64
      modifies this, e`owner
      ensures Valid()
      ensures entries == old(entries)[key := e] && Model() == old(Model())[key := e.value]
    {
      hide Total;
      ghost var m := Model()[key := e.value];
      var projected := ProjectedUsage(key, e.value);
      assert projected == Total(m) < MAX_UINT64;
      Put(key, e);
      assert Model() == m;
      usage := projected;
      assert Model() == old(Model())[key := e.value];
    }

    /** Grows a file entry in place; every other entry object keeps its value. */
    method AppendFile(key: string, data: Bytes, mtime: real, limit: nat) returns (appended: bool, ok: bool)
      requires Valid() && limit < MAX_UINT64
      modifies this`usage, entries.Values`value
      ensures Valid() && entries == old(entries)
      ensures appended ==> ok
      ensures var isFile := key in old(Model()) && old(Model())[key].FileEntry?;
              && (!isFile ==> ok && !appended)
              && (isFile ==> (appended <==> ok) && (ok <==> old(usage) + |data| <= limit))
      ensures appended ==>
        && Model() == old(Model())[key := FileEntry(old(Model())[key].content + data, mtime)]
        && usage <= limit
      ensures !appended ==> Model() == old(Model()) && usage == old(usage)
    {
      hide Total;
      if key !in entries || !entries[key].value.FileEntry? { return false, true; }
      var projected := SatAdd(usage, |data|);
      if projected > limit { return false, false; }
      var e := entries[key];
      var grown := FileEntry(e.value.content + data, mtime);
      TotalPut(Model(), key, grown);
      e.value := grown;
      usage := projected;
      assert Model() == old(Model())[key := grown];
      return true, true;
    }

    predicate CheckFileReplacement(key: string, contentLen: nat, limit: nat)
      requires Valid()
      reads this, entries.Values
    {
      var before := if key in entries then EntryUsage(key, entries[key].value) else 0;
      SatAdd(SatSub(usage, before), SatAdd(BaseEntryUsage(key), contentLen)) <= limit
    }

    /** The check on a length alone is the check the insertion will make on the content. */
    lemma FileReplacementExact(key: string, content: Bytes, mtime: real, contentLen: nat, limit: nat)
      requires Valid() && limit < MAX_UINT64
      requires contentLen == if |content| <= MAX_UINT64 then |content| else MAX_UINT64
      ensures CheckFileReplacement(key, contentLen, limit) <==> Total(Model()[key := FileEntry(content, mtime)]) <= limit
    {
      hide Total;
      TotalPut(Model(), key, FileEntry(content, mtime));
    }

    /**
      Projects a batch as one update. A key may occur several times: the usage
      charged for it is replaced each time, so the projection is the exact total
      of the map after every replacement in order.
    */
    method CheckReplacements(batch: seq<Replacement>, limit: nat) returns (ok: bool)
      requires Valid() && limit < MAX_UINT64
      requires usage + BatchCost(batch) <= MAX_UINT64
      ensures ok <==> Total(ApplyBatch(Model(), batch)) <= limit
    {
      hide Total;
      ghost var m0 := Model();
      var projected := usage;
      var replaced: map<string, nat> := map[];
      for n := 0 to |batch|
        invariant projected == Total(ApplyBatch(m0, batch[..n])) <= usage + BatchCost(batch[..n])
        invariant forall k | k in replaced :: UsageOf(ApplyBatch(m0, batch[..n]), k) == replaced[k]
        invariant forall k | k !in replaced :: UsageOf(ApplyBatch(m0, batch[..n]), k) == UsageOf(m0, k)
      {
        ghost var m := ApplyBatch(m0, batch[..n]);
        var r := batch[n];
        UsageWithinTotal(m0, r.key);
        var before := if r.key in replaced then replaced[r.key]
                      else if r.key in entries then EntryUsage(r.key, entries[r.key].value) else 0;
        var next := EntryUsage(r.key, r.entry);
        ApplyBatchStep(m0, batch, n);
        BatchCostMonotone(batch, n + 1);
        ProjectionStep(m, r, before);
        projected := SatAdd(SatSub(projected, before), next);
        replaced := replaced[r.key := next];
      }
      assert batch[..|batch|] == batch;
      ok := projected <= limit;
    }

    /** The keys strictly below a directory, in order. */
    method PrefixKeys(d: string) returns (found: seq<string>)
      requires Valid()
      ensures Sorted(found)
      ensures d == "" ==> found == keys
      ensures d != "" ==> forall k :: k in found <==> k in entries && Anc(d, k)
    {
      if d == "" { return keys; }
      var start := SearchStrings(keys, d + "/");
      var end := SearchStrings(keys, d + "0");
      if end < start {
        PrefixOrder(d, keys[end]);
        RangeEndsOrdered(d, keys[end]);
      }
      found := keys[start..end];
      forall k ensures k in found <==> k in entries && Anc(d, k) {
        PrefixOrder(d, k);
        if k in entries && Anc(d, k) {
          var i :| 0 <= i < |keys| && keys[i] == k;
          assert start <= i < end;
          assert found[i - start] == k;
        }
      }
    }
  }

  lemma {:induction false} RangeEndsOrdered(p: string, k: string)
    requires Less(k, p + "/")
    ensures Less(k, p + "0")
  {
    if p != "" {
      assert (p + "/")[1..] == p[1..] + "/" && (p + "0")[1..] == p[1..] + "0";
      if k != "" && k[0] == p[0] { RangeEndsOrdered(p[1..], k[1..]); }
    } else {
      assert p + "/" == "/" && p + "0" == "0";
    }
  }
}
