/** The bounded in-memory copy of the index, kept in step with every change. */
module Projection {
  import opened Records
  import opened ProjectionTable
  import opened ProjectionEviction
  import opened EvictionOrder
  import FilenameIndex
  import FoldClassification
  import NamePool
  import SortedLists
  import opened Words

  const PER_ENTRY_REMOVAL_THRESHOLD := 256
  const DEFAULT_MAXIMUM := 500 * 1024 * 1024
  datatype Policy = Policy(maximumBytes: nat, enforcing: bool, bulkScan: bool)

  /** How often the storage changed, and the footprint before and after the latest eviction. */
  datatype Memory = Memory(changes: nat, before: nat, after: nat)

  const MAX_ENFORCEMENT_PASSES := 8
  const FIT_CHECK_INTERVAL := 4096

  /** Four fifths, rounded up. */
  function LowWatermark(maximumBytes: nat): (low: nat)
    ensures 4 * maximumBytes <= 5 * low < 4 * maximumBytes + 5
  {
    maximumBytes - maximumBytes / 5
  }

  /** Rows only ever leave, unchanged, and only rows of marked volumes do. */
  ghost predicate Shrunk(before: map<EntryKey, Row>, after: map<EntryKey, Row>, marked: set<Volume>) {
    && (forall k :: k in after ==> k in before && after[k] == before[k])
    && (forall k :: k in before && k !in after ==> k.volume in marked)
  }

  lemma ShrunkTwice(a: map<EntryKey, Row>, b: map<EntryKey, Row>, c: map<EntryKey, Row>, some: set<Volume>,
                    more: set<Volume>)
    requires Shrunk(a, b, some) && Shrunk(b, c, more) && some <= more
    ensures Shrunk(a, c, more) && (|b| < |a| || |c| < |b| ==> |c| < |a|)
  {
    FewerRows(a, b);
    FewerRows(b, c);
  }

  /** Rows only left, unchanged, and their volumes are marked. */
  lemma DepartedShrunk(d: Departed)
    ensures Shrunk(d.before, d.after, d.evicted) && d.marked <= d.evicted
    ensures d.extents != [] ==> |d.after| < |d.before|
  {
    DepartedParts(d);
    forall k | k in d.before && k !in d.after ensures k.volume in d.evicted {
      assert k in Gone(d);
    }
    Subset(d.after.Keys, d.before.Keys);
  }

  /** Exactly the rows of one volume left; it is marked if there were any. */
  ghost predicate Vacated(before: map<EntryKey, Row>, after: map<EntryKey, Row>, volume: Volume, marked: set<Volume>,
                          evicted: set<Volume>)
  {
    forall s: Seal :: Broken(s) ==>
      && (forall k :: k in after <==> k in before && k.volume != volume)
      && Shrunk(before, after, {volume})
      && evicted == marked + (if exists k :: k in before && k.volume == volume then {volume} else {})
  }

  lemma VacatedBy(view: map<EntryKey, Row>, keys: set<EntryKey>, volume: Volume, marked: set<Volume>)
    requires forall k :: k in keys <==> k in view && k.volume == volume
    ensures keys == {} <==> !exists k :: k in view && k.volume == volume
    ensures Vacated(view, view - keys, volume, marked, if keys == {} then marked else marked + {volume})
  {
    assert keys != {} ==> exists k :: k in keys && k in view && k.volume == volume;
  }

  lemma VacatedParts(before: map<EntryKey, Row>, after: map<EntryKey, Row>, volume: Volume, marked: set<Volume>,
                     evicted: set<Volume>)
    requires Vacated(before, after, volume, marked, evicted)
    ensures forall k :: k in after <==> k in before && k.volume != volume
    ensures Shrunk(before, after, {volume})
    ensures evicted == marked + if exists k :: k in before && k.volume == volume then {volume} else {}
  {
    assert Broken(Seal);
  }

  /** A few evictions of branches, and then of whole volumes. */
  ghost predicate BranchesFirst(extents: seq<Extent>) {
    && (forall i, j :: 0 <= i < j < |extents| && extents[j] == Branch ==> extents[i] == Branch)
    && (forall i :: 8 <= i < |extents| ==> extents[i] == WholeVolume)
  }

  ghost predicate AllBranches(extents: seq<Extent>) {
    forall i :: 0 <= i < |extents| ==> extents[i] == Branch
  }

  lemma AnotherBranch(extents: seq<Extent>)
    requires AllBranches(extents)
    ensures AllBranches(extents + [Branch])
  {
  }

  lemma VictimVolumeGone(rows: map<EntryKey, Row>, left: map<EntryKey, Row>, victim: EntryKey, marked: set<Volume>,
                         evicted: set<Volume>)
    requires victim in rows && Vacated(rows, left, victim.volume, marked, evicted)
    ensures evicted == marked + {victim.volume} && victim !in left
    ensures |left| < |rows|
    ensures exists k :: k in rows && k.volume == victim.volume
  {
    VacatedParts(rows, left, victim.volume, marked, evicted);
    Left(rows, left, victim);
  }

  lemma FewerRows(a: map<EntryKey, Row>, b: map<EntryKey, Row>)
    requires forall k :: k in b ==> k in a
    ensures |b| <= |a|
  {
    Subset(b.Keys, a.Keys);
  }

  lemma {:induction false} Subset(a: set<EntryKey>, b: set<EntryKey>)
    requires a <= b
    ensures |a| <= |b| && (a != b ==> |a| < |b|)
  {
    assert b == a + (b - a);
  }

  lemma Without(view: map<EntryKey, Row>, keys: seq<EntryKey>, volume: Volume)
    requires forall k :: k in keys ==> k.volume == volume
    ensures Shrunk(view, view - Elements(keys), {volume})
    ensures (exists k :: k in keys && k in view) ==> |view - Elements(keys)| < |view|
  {
    var left := view - Elements(keys);
    Subset(left.Keys, view.Keys);
  }

  lemma SubtreeGone(m: Sound, victim: EntryKey, keys: seq<EntryKey>)
    requires victim in m.t.ids && IsSubtree(m.t, victim, keys)
    ensures IsBranch(m.view, victim, Elements(keys)) && forall k :: k in Elements(keys) ==> k.volume == victim.volume
    ensures var left := m.view - Elements(keys); |left| < |m.view| && victim !in left
  {
    SubtreeIsBranch(m, victim, keys);
    Identities(m);
    SubtreeStaysOnVolume(m, victim, keys, |keys|);
    assert keys[..|keys|] == keys;
    Without(m.view, keys, victim.volume);
  }

  function Reversed(keys: seq<EntryKey>): (r: seq<EntryKey>)
    ensures |r| == |keys| && Elements(r) == Elements(keys)
  {
    if keys == [] then []
    else
      var r := Reversed(keys[1..]) + [keys[0]];
      assert keys == [keys[0]] + keys[1..];
      assert forall k :: k in r <==> k in Elements(Reversed(keys[1..])) || k == keys[0];
      r
  }

  /** `image.view` gives the rows held; `estimates` is whatever footprint the allocator makes of them,
      one number after each change of the storage. */
  class Projection {
    const names: NamePool.Pool
    const index: FilenameIndex.Index
    const estimates: nat -> nat
    var table: Table
    var access: Access
    var denseOrder: bool
    var evicted: set<Volume>
    var policy: Policy
    var memory: Memory
    ghost var image: Sound
    ghost var dated: Dated

    ghost predicate Valid()
      reads this, names, index
    {
      Kept() && dated.t == table && dated.access == access
    }

    ghost predicate Kept()
      reads this, names, index
    {
      && names.Valid() && index.Valid()
      && image.t == table && image.texts == names.texts && image.live == index.rows
      && |access.times| == |table.entries|
      && (denseOrder ==> table.free == [])
    }

    function Estimate(): nat
      reads this
    {
      estimates(memory.changes)
    }

    /** The footprint never passes the watermark. */
    ghost predicate Roomy()
      reads this
    {
      forall n: nat :: estimates(n) <= LowWatermark(policy.maximumBytes)
    }

    /** Any further change of the storage brings the footprint to the target. */
    ghost predicate Fits(target: nat, changes: nat)
    {
      forall n: nat :: n > changes ==> estimates(n) <= target
    }

    constructor (hash: Name -> nat, mayFold: Unit -> bool, estimates: nat -> nat)
      ensures Valid() && image.view.Keys == {} && evicted == {} && fresh(names) && fresh(index)
      ensures policy == Policy(DEFAULT_MAXIMUM, true, false) && this.estimates == estimates && memory.changes == 0
      ensures table.ids.Keys == {} && table.free == [] && |table.entries| == 0
    {
      this.estimates := estimates;
      names := new NamePool.Pool(hash);
      index := new FilenameIndex.Index(mayFold);
      table, access, denseOrder, evicted := EMPTY, Access([], 0), false, {};
      policy, memory, image := Policy(DEFAULT_MAXIMUM, true, false), Memory(0, 0, 0), Image(EMPTY, [], map[], map[]);
      dated := Dating(EMPTY, Access([], 0), map[]);
    }

    /** `outOfMemory` only ever costs the accelerator. */
    method Upsert(key: EntryKey, row: Row, outOfMemory: bool)
      requires Valid()
      modifies this, names, index
      ensures Valid() && image.view == old(image.view)[key := row]
      ensures evicted == old(evicted) && policy == old(policy)
      ensures index.valid <==> old(index.valid) && !outOfMemory
      ensures key in table.ids && LayoutOf(table) == Place(old(LayoutOf(table)), key)
      ensures memory.changes == old(memory.changes) + 1 && UsedLast(old(dated.ages), dated.ages, key)
    {
      if key in table.ids {
        UpdateSlot(key, row, outOfMemory);
      } else {
        NewSlot(key, row, outOfMemory);
      }
      memory := memory.(changes := memory.changes + 1);
    }

    method Put(t: Table, used: Access, dense: bool, ghost m: Sound, ghost d: Dated)
      modifies `table, `access, `denseOrder, `image, `dated
      ensures table == t && access == used && denseOrder == dense && image == m && dated == d
    {
      table, access, denseOrder, image, dated := t, used, dense, m, d;
    }

    method UpdateSlot(key: EntryKey, row: Row, outOfMemory: bool)
      requires Valid() && key in table.ids
      modifies this, names, index
      ensures Valid() && UsedLast(old(dated.ages), dated.ages, key)
      ensures image.view == old(image.view)[key := row]
      ensures evicted == old(evicted) && policy == old(policy)
      ensures index.valid <==> old(index.valid) && !outOfMemory
      ensures LayoutOf(table) == old(LayoutOf(table)) && memory == old(memory)
    {
      var i := table.ids[key];
      Found(image, key);
      var oldName := names.Get(table.entries[i].nameId);
      var nameId := names.Intern(row.name);
      ghost var grown := MoreTexts(image, names.texts);
      index.Remove(i, oldName, false);
      var t, m := ReplaceEntry(table, Entry(key, row.parent, nameId, row.facts), grown);
      ghost var d := DateUsedAgain(grown, m, dated, key);
      Put(t, Touch(access, i), denseOrder, m, d);
      index.Add(i, row.name, outOfMemory);
      assert index.rows == image.live;
    }

    method NewSlot(key: EntryKey, row: Row, outOfMemory: bool)
      requires Valid() && key !in table.ids
      modifies this, names, index
      ensures Valid() && UsedLast(old(dated.ages), dated.ages, key)
      ensures image.view == old(image.view)[key := row]
      ensures evicted == old(evicted) && policy == old(policy)
      ensures index.valid <==> old(index.valid) && !outOfMemory
      ensures key in table.ids && LayoutOf(table) == Place(old(LayoutOf(table)), key) && memory == old(memory)
    {
      var nameId := names.Intern(row.name);
      ghost var grown := MoreTexts(image, names.texts);
      var t, i, m := InsertEntry(table, Entry(key, row.parent, nameId, row.facts), grown);
      ghost var d := DateUsed(grown, m, dated, key, ClearSlot(access, i));
      Put(t, Touch(ClearSlot(access, i), i), false, m, d);
      index.Add(i, row.name, outOfMemory);
    }

    method UpsertPartial(key: EntryKey, row: Row, fields: set<Field>, outOfMemory: bool)
      requires Valid()
      modifies this, names, index
      ensures Valid()
      ensures image.view == old(image.view)[key := Merge(if key in old(image.view) then old(image.view)[key] else BLANK, row, fields)]
      ensures evicted == old(evicted) && policy == old(policy)
      ensures index.valid <==> old(index.valid) && !outOfMemory
      ensures key in table.ids && LayoutOf(table) == Place(old(LayoutOf(table)), key)
      ensures memory.changes == old(memory.changes) + 1 && UsedLast(old(dated.ages), dated.ages, key)
    {
      if fields == ALL_FIELDS {
        Upsert(key, row, outOfMemory);
        return;
      }
      var base := BLANK;
      Found(image, key);
      if key in table.ids {
        var i := table.ids[key];
        base := Row(table.entries[i].parent, names.Get(table.entries[i].nameId), table.entries[i].facts);
        dated := DateUsedAgain(image, image, dated, key);
        access := Touch(access, i);
      }
      ghost var ages := dated.ages;
      Upsert(key, Merge(base, row, fields), outOfMemory);
      if old(key in table.ids) {
        UsedTwice(old(dated.ages), ages, dated.ages, key);
      }
    }

    method Remove(key: EntryKey, outOfMemory: bool)
      requires Valid()
      modifies this, index
      ensures Valid() && image.view == old(image.view) - {key}
      ensures LayoutOf(table) == Release(old(LayoutOf(table)), key) && table.entries == old(table.entries)
      ensures evicted == old(evicted) && policy == old(policy)
      ensures index.valid ==> old(index.valid)
      ensures !outOfMemory && old(index.valid) ==> index.valid
      ensures dated.ages == old(dated.ages) - {key} && old(memory.changes) <= memory.changes <= old(memory.changes) + 1
    {
      Found(image, key);
      if key !in table.ids {
        DateAbsent(image, dated, key);
        return;
      }
      var i := table.ids[key];
      ghost var m := image;
      index.Remove(i, names.Get(table.entries[i].nameId), outOfMemory);
      table, image := DropEntry(table, key, image);
      denseOrder, access, memory := false, ClearSlot(access, i), memory.(changes := memory.changes + 1);
      dated := DateDropped(m, dated, key, table);
    }
  
    method RemoveKeys(keys: seq<EntryKey>, outOfMemory: bool)
      requires Valid()
      modifies this, index
      ensures Valid() && image.view == old(image.view) - Elements(keys)
      ensures table.ids == old(table.ids) - Elements(keys)
      ensures evicted == old(evicted) && policy == old(policy)
      ensures index.valid ==> old(index.valid)
      ensures !outOfMemory && old(index.valid) ==> index.valid
      ensures dated.ages == old(dated.ages) - Elements(keys) && old(memory.changes) <= memory.changes
    {
      for n := 0 to |keys|
        invariant Valid() && image.view == old(image.view) - Elements(keys[..n])
        invariant dated.ages == old(dated.ages) - Elements(keys[..n]) && old(memory.changes) <= memory.changes
        invariant table.ids == old(table.ids) - Elements(keys[..n])
        invariant evicted == old(evicted) && policy == old(policy)
        invariant index.valid ==> old(index.valid)
        invariant !outOfMemory && old(index.valid) ==> index.valid
      {
        assert keys[..n + 1] == keys[..n] + [keys[n]];
        Remove(keys[n], outOfMemory);
      }
      assert keys[..|keys|] == keys;
    }

    /** The victim and all below it go.  A large subtree is only struck from the identities: the
        compaction that every caller runs next rebuilds the rest. */
    method EvictSubtree(root: EntryKey, outOfMemory: bool) returns (ghost keys: seq<EntryKey>, ghost left: Legible)
      requires Valid() && root in table.ids
      modifies this, index
      ensures names.Valid() && index.Valid() && |access.times| == |table.entries|
      ensures left.t == table && left.texts == names.texts && dated.t == table && dated.access == access
      ensures IsSubtree(old(table), root, keys) && left.view == old(image.view) - Elements(keys)
      ensures evicted == old(evicted) + {root.volume} && policy == old(policy)
      ensures dated.ages == old(dated.ages) - Elements(keys) && old(memory.changes) <= memory.changes
    {
      var order := CollectSubtree(table, root);
      keys := order;
      if |order| > PER_ENTRY_REMOVAL_THRESHOLD {
        left := Erased(image, Elements(order));
        dated := DateErased(dated, Elements(order));
        index.Invalidate(map[]);
        table := table.(ids := table.ids - Elements(order));
        denseOrder := false;
      } else {
        RemoveKeys(Reversed(order), outOfMemory);
        left := Erased(image, {});
        assert table.ids - {} == table.ids && image.view - {} == image.view;
      }
      evicted := evicted + {root.volume};
    }

    /** Copies the rows still known by identity into fresh storage, in the order they come. */
    method CompactStorage(ghost left: Legible)
      requires names.Valid() && index.Valid() && |access.times| == |table.entries|
      requires left.t == table && left.texts == names.texts && dated.t == table && dated.access == access
      modifies this, names, index
      ensures Valid() && image.view == left.view && !index.valid
      ensures denseOrder && table.free == []
      ensures evicted == old(evicted) && policy == old(policy)
      ensures memory.before == old(memory.before) && memory.after == old(memory.after)
      ensures dated.ages == old(dated.ages) && memory.changes == old(memory.changes) + 1
    {
      SameIdentities(left);
      var order := Enumerate(table.ids.Keys);
      var pool := new NamePool.Pool(names.hash);
      DatesOf(dated);
      var u, times, m := Repack(table, access.times, names, order, pool, left, access.clock);
      dated := DateCopied(dated, u, times);
      PartWhole(left.view, order);
      Adopt(u, times, pool, m);
    }

    method Adopt(u: Table, times: seq<nat>, pool: NamePool.Pool, ghost m: Sound)
      requires names.Valid() && index.Valid() && pool.Valid() && pool != names && pool.hash == names.hash
      requires m.t == u && m.texts == pool.texts && |times| == |u.entries| && u.free == []
      requires dated.t == u && dated.access == access.(times := times)
      modifies this, names, index
      ensures Valid() && image == m && table == u && denseOrder && !index.valid && dated == old(dated)
      ensures evicted == old(evicted) && policy == old(policy)
      ensures memory == old(memory).(changes := old(memory.changes) + 1)
    {
      names.MoveFrom(pool);
      index.Invalidate(m.live);
      table, access, image, denseOrder := u, access.(times := times), m, true;
      memory := memory.(changes := memory.changes + 1);
    }
  
    /** All rows of one volume go. */
    method EvictVolume(volume: Volume) returns (ghost gone: set<EntryKey>)
      requires Valid()
      modifies this, names, index
      ensures Valid() && policy == old(policy) && memory.before == old(memory.before) && memory.after == old(memory.after)
      ensures Vacated(old(image.view), image.view, volume, old(evicted), evicted)
      ensures if exists k :: k in old(image.view) && k.volume == volume then table.free == []
              else table == old(table) && image == old(image)
      ensures forall k :: k in gone <==> k in old(image.view) && k.volume == volume
      ensures image.view == old(image.view) - gone && dated.ages == old(dated.ages) - gone
    {
      var keys := set k | k in table.ids && k.volume == volume;
      ghost var left := Erased(image, keys);
      Identities(image);
      VacatedBy(image.view, keys, volume, evicted);
      gone := keys;
      if keys == {} {
        assert image.view - keys == image.view && dated.ages - keys == dated.ages;
        return;
      }
      index.Invalidate(map[]);
      dated := DateErased(dated, keys);
      table := table.(ids := table.ids - keys);
      evicted := evicted + {volume};
      CompactStorage(left);
    }

    method Victim() returns (victim: Option<EntryKey>)
      requires Valid()
      ensures victim.None? <==> image.view == map[]
      ensures victim.Some? ==> victim.value in table.ids && victim.value in image.view
      ensures victim.Some? ==> GoesFirst(image.view, dated.ages, victim.value)
    {
      Identities(image);
      var order := Enumerate(table.ids.Keys);
      victim := LeastRecentlyUsedEntry(table, access.times, order);
      if victim.Some? {
        VictimGoesFirst(image, access.times, victim.value);
        DatesOf(dated);
      }
    }

    /** `d` led from its state before to the present one; if anything left, the slots are dense. */
    ghost predicate Ends(d: Departed)
      reads this
    {
      && d.after == image.view && d.left == dated.ages && d.evicted == evicted
      && (d.extents != [] ==> table.free == [])
    }

    /** One subtree goes and the rest is compacted; recorded as an eviction. */
    method EvictOnce(victim: EntryKey, outOfMemory: bool) returns (ghost gone: set<EntryKey>)
      requires Valid() && victim in table.ids
      modifies this, names, index
      ensures Valid() && policy == old(policy)
      ensures evicted == old(evicted) + {victim.volume} && table.free == []
      ensures IsBranch(old(image.view), victim, gone) && forall k :: k in gone ==> k.volume == victim.volume
      ensures image.view == old(image.view) - gone && dated.ages == old(dated.ages) - gone
      ensures |image.view| < |old(image.view)| && victim !in image.view
      ensures memory.before == old(Estimate()) && memory.after == Estimate() && memory.changes > old(memory.changes)
    {
      var before := Estimate();
      ghost var left;
      gone, left := EvictBranch(victim, outOfMemory);
      CompactStorage(left);
      RecordEviction(before);
    }

    method RecordEviction(before: nat)
      requires Valid()
      modifies this`memory
      ensures Valid() && memory == old(memory).(before := before, after := Estimate()) && Estimate() == old(Estimate())
    {
      memory := memory.(before := before, after := Estimate());
    }

    method EvictBranch(root: EntryKey, outOfMemory: bool) returns (ghost gone: set<EntryKey>, ghost left: Legible)
      requires Valid() && root in table.ids
      modifies this, index
      ensures names.Valid() && index.Valid() && |access.times| == |table.entries|
      ensures left.t == table && left.texts == names.texts && dated.t == table && dated.access == access
      ensures IsBranch(old(image.view), root, gone) && forall k :: k in gone ==> k.volume == root.volume
      ensures left.view == old(image.view) - gone && dated.ages == old(dated.ages) - gone
      ensures |left.view| < |old(image.view)| && root !in left.view
      ensures evicted == old(evicted) + {root.volume} && policy == old(policy) && old(memory.changes) <= memory.changes
    {
      ghost var m := image;
      ghost var keys;
      keys, left := EvictSubtree(root, outOfMemory);
      gone := Elements(keys);
      SubtreeGone(m, root, keys);
    }

    method EvictVictimVolume(victim: EntryKey) returns (ghost gone: set<EntryKey>)
      requires Valid() && victim in image.view
      modifies this, names, index
      ensures Valid() && policy == old(policy)
      ensures evicted == old(evicted) + {victim.volume} && table.free == []
      ensures Takes(old(image.view), victim, gone, WholeVolume) && victim !in image.view
      ensures image.view == old(image.view) - gone && dated.ages == old(dated.ages) - gone
      ensures |image.view| < |old(image.view)|
      ensures memory.before == old(Estimate()) && memory.after == Estimate()
    {
      ghost var rows := image.view;
      var before := Estimate();
      ghost var marked := evicted;
      gone := EvictVolume(victim.volume);
      VictimVolumeGone(rows, image.view, victim, marked, evicted);
      memory := memory.(before := before, after := Estimate());
    }

    /** One pass: the least recently used victim goes with all below it, and nothing else. */
    method EnforceMemoryLimitOnceTo(target: nat) returns (did: bool, ghost victim: EntryKey, ghost gone: set<EntryKey>)
      requires Valid()
      modifies this, names, index
      ensures Valid() && policy == old(policy) && old(evicted) <= evicted
      ensures did <==> old(policy.enforcing && Estimate() > target && image.view != map[])
      ensures !did ==> image == old(image) && evicted == old(evicted) && memory == old(memory) && table == old(table)
      ensures !did ==> dated == old(dated)
      ensures did ==> (
                && GoesFirst(old(image.view), old(dated.ages), victim) && IsBranch(old(image.view), victim, gone)
                && (forall k :: k in gone ==> k.volume == victim.volume)
                && image.view == old(image.view) - gone && dated.ages == old(dated.ages) - gone
                && victim !in image.view
                && evicted == old(evicted) + {victim.volume} && table.free == [])
      ensures did ==> |image.view| < |old(image.view)| && memory.before == old(Estimate()) && memory.after == Estimate()
      ensures Shrunk(old(image.view), image.view, evicted)
    {
      victim, gone := EntryKey(Volume(0), 0), {};
      if !policy.enforcing || Estimate() <= target {
        return false, victim, gone;
      }
      var found := Victim();
      if found.None? {
        return false, victim, gone;
      }
      victim := found.value;
      gone := EvictOnce(found.value, false);
      did := true;
    }

    /** One more subtree goes, of the row whose turn it is. */
    method EvictAnother(victim: EntryKey, ghost d: Departed) returns (ghost e: Departed)
      requires Valid() && victim in table.ids && GoesFirst(image.view, dated.ages, victim) && Ends(d)
      modifies this, names, index
      ensures Valid() && policy == old(policy) && |image.view| < |old(image.view)| && Ends(e)
      ensures e == d.(after := e.after, left := e.left, evicted := e.evicted, extents := e.extents)
      ensures |e.extents| == |d.extents| + 1 && (AllBranches(d.extents) ==> AllBranches(e.extents))
      ensures memory.before == old(Estimate()) && memory.after == Estimate() && memory.changes > old(memory.changes)
    {
      ghost var gone := EvictOnce(victim, false);
      e := LeavesNext(d, victim, gone, Branch);
    }

    /** Down to a target, one subtree after another, until nothing is left to evict. */
    method EnforceMemoryLimitTo(target: nat) returns (evictedAny: bool, ghost d: Departed)
      requires Valid()
      modifies this, names, index
      ensures Valid() && policy == old(policy) && Ends(d) && AllBranches(d.extents)
      ensures d.before == old(image.view) && d.ages == old(dated.ages) && d.marked == old(evicted)
      ensures evictedAny <==> d.extents != []
      ensures !evictedAny ==> image.view == old(image.view) && evicted == old(evicted) && table == old(table)
      ensures policy.enforcing ==> Estimate() <= target || image.view == map[]
      ensures evictedAny <==> old(policy.enforcing && Estimate() > target && image.view != map[])
      ensures Fits(target, old(memory.changes)) ==> |d.extents| <= 1
    {
      evictedAny := false;
      d := NobodyLeft(image.view, dated.ages, evicted);
      if !policy.enforcing {
        return;
      }
      while Estimate() > target
        invariant Valid() && policy == old(policy) && Ends(d) && AllBranches(d.extents)
        invariant d.before == old(image.view) && d.ages == old(dated.ages) && d.marked == old(evicted)
        invariant evictedAny <==> d.extents != []
        invariant !evictedAny ==> image.view == old(image.view) && evicted == old(evicted) && table == old(table)
        invariant if evictedAny then old(Estimate() > target && image.view != map[]) else memory == old(memory)
        invariant evictedAny ==> memory.changes > old(memory.changes)
        invariant Fits(target, old(memory.changes)) ==> |d.extents| <= 1
        decreases |image.view|
      {
        var victim := Victim();
        if victim.None? {
          break;
        }
        d := EvictAnother(victim.value, d);
        evictedAny := true;
        if Estimate() >= memory.before && table.ids == map[] {
          Identities(image);
          break;
        }
      }
    }

    /** A few subtrees first; if that is not enough, whole volumes until under the watermark, until
        nothing is left, or until an eviction frees nothing. */
    method EnforceMemoryLimit() returns (evictedAny: bool, ghost d: Departed)
      requires Valid()
      modifies this, names, index
      ensures Valid() && policy == old(policy) && Ends(d) && BranchesFirst(d.extents)
      ensures d.before == old(image.view) && d.ages == old(dated.ages) && d.marked == old(evicted)
      ensures evictedAny <==> d.extents != []
      ensures !evictedAny ==> image.view == old(image.view) && evicted == old(evicted)
      ensures !evictedAny ==> table == old(table) && memory == old(memory)
      ensures policy.enforcing ==> (
                || Estimate() <= LowWatermark(policy.maximumBytes)
                || image.view == map[]
                || (evictedAny && memory.after >= memory.before))
      ensures evictedAny <==>
              old(policy.enforcing && Estimate() > LowWatermark(policy.maximumBytes) && image.view != map[])
    {
      evictedAny := false;
      if !policy.enforcing {
        d := NobodyLeft(image.view, dated.ages, evicted);
        return;
      }
      var target := LowWatermark(policy.maximumBytes);
      evictedAny, d := EvictSubtrees(target);
      while Estimate() > target
        invariant Valid() && policy == old(policy) && Ends(d) && BranchesFirst(d.extents)
        invariant d.before == old(image.view) && d.ages == old(dated.ages) && d.marked == old(evicted)
        invariant evictedAny <==> d.extents != []
        invariant !evictedAny ==> image.view == old(image.view) && evicted == old(evicted) && table == old(table)
        invariant if evictedAny then old(Estimate() > target && image.view != map[]) else memory == old(memory)
        decreases |image.view|
      {
        var victim := Victim();
        if victim.None? {
          break;
        }
        d := EvictAnotherVolume(victim.value, d);
        evictedAny := true;
        if memory.after >= memory.before {
          break;
        }
      }
    }

    method EvictAnotherVolume(victim: EntryKey, ghost d: Departed) returns (ghost e: Departed)
      requires Valid() && victim in image.view && GoesFirst(image.view, dated.ages, victim) && Ends(d)
      requires BranchesFirst(d.extents)
      modifies this, names, index
      ensures Valid() && policy == old(policy) && |image.view| < |old(image.view)| && Ends(e)
      ensures e == d.(after := e.after, left := e.left, evicted := e.evicted, extents := e.extents) && e.extents != []
      ensures BranchesFirst(e.extents) && memory.before == old(Estimate()) && memory.after == Estimate()
    {
      ghost var gone := EvictVictimVolume(victim);
      e := LeavesNext(d, victim, gone, WholeVolume);
    }

    method EvictSubtrees(target: nat) returns (evictedAny: bool, ghost d: Departed)
      requires Valid() && policy.enforcing
      modifies this, names, index
      ensures Valid() && policy == old(policy) && Ends(d) && BranchesFirst(d.extents)
      ensures d.before == old(image.view) && d.ages == old(dated.ages) && d.marked == old(evicted)
      ensures evictedAny <==> d.extents != []
      ensures !evictedAny ==> image.view == old(image.view) && evicted == old(evicted) && table == old(table)
      ensures if evictedAny then old(Estimate() > target && image.view != map[]) else memory == old(memory)
    {
      evictedAny := false;
      d := NobodyLeft(image.view, dated.ages, evicted);
      for pass := 0 to MAX_ENFORCEMENT_PASSES
        invariant Valid() && policy == old(policy) && Ends(d) && AllBranches(d.extents) && |d.extents| <= pass
        invariant d.before == old(image.view) && d.ages == old(dated.ages) && d.marked == old(evicted)
        invariant evictedAny <==> d.extents != []
        invariant !evictedAny ==> image.view == old(image.view) && evicted == old(evicted) && table == old(table)
        invariant if evictedAny then old(Estimate() > target && image.view != map[]) else memory == old(memory)
      {
        if Estimate() <= target {
          break;
        }
        var before := Estimate();
        var did, victim, gone := EnforceMemoryLimitOnceTo(target);
        if !did {
          break;
        }
        AnotherBranch(d.extents);
        d := LeavesNext(d, victim, gone, Branch);
        evictedAny := true;
        if Estimate() >= before {
          break;
        }
      }
    }

    method RebuildFilenameIndex(outOfMemory: bool)
      requires Valid()
      modifies index
      ensures Valid() && (index.valid <==> !outOfMemory)
    {
      var slots, live := LiveNames();
      index.Rebuild(slots, live, outOfMemory);
    }

    /** The names of the live rows, by slot. */
    method LiveNames() returns (slots: seq<nat>, live: map<nat, Name>)
      requires Valid()
      ensures FilenameIndex.Enumerates(slots, live) && live == image.live
    {
      var order := Enumerate(table.ids.Keys);
      AllSlots(image, order);
      Identities(image);
      slots := SlotsIn(table, order);
      live := map i | i in slots :: names.Get(table.entries[i].nameId);
      LiveText(image, live);
    }

    /** Larger batches drop the accelerator and build it again once, if it is to be kept. */
    method RemoveBatch(keys: seq<EntryKey>, keepIndex: bool, outOfMemory: bool)
      requires Valid()
      modifies this, index
      ensures Valid() && image.view == old(image.view) - Elements(keys)
      ensures table.ids == old(table.ids) - Elements(keys)
      ensures evicted == old(evicted) && policy == old(policy)
      ensures index.valid ==> old(index.valid) && (keys == [] || keepIndex)
      ensures old(index.valid) && keepIndex && !outOfMemory ==> index.valid
    {
      if keys == [] {
        assert image.view - Elements(keys) == image.view && table.ids - Elements(keys) == table.ids;
        return;
      }
      var wasValid := index.valid;
      var bulk := |keys| > PER_ENTRY_REMOVAL_THRESHOLD;
      if bulk && wasValid {
        index.Invalidate(index.rows);
      }
      RemoveKeys(keys, outOfMemory);
      if bulk && wasValid && keepIndex {
        RebuildFilenameIndex(outOfMemory);
      }
      if !keepIndex {
        index.Invalidate(index.rows);
      }
    }

    method RemoveVolume(volume: Volume, keepIndex: bool)
      requires Valid()
      modifies this, index
      ensures Valid() && evicted == old(evicted) && policy == old(policy)
      ensures forall k :: k in image.view <==> k in old(image.view) && k.volume != volume
      ensures Shrunk(old(image.view), image.view, {volume})
      ensures forall k :: k in table.ids ==> k in old(table.ids) && table.ids[k] == old(table.ids)[k]
    {
      var doomed := set k | k in table.ids && k.volume == volume;
      Identities(image);
      var keys := Enumerate(doomed);
      RemoveBatch(keys, keepIndex, false);
    }

    /** Gives the rows the order in which they are visited, unless there are holes. */
    method CompactEntriesForIterationOrder()
      requires Valid() && !index.valid
      modifies this, index
      ensures Valid() && !index.valid && image.view == old(image.view)
      ensures evicted == old(evicted) && policy == old(policy) && dated.ages == old(dated.ages)
      ensures old(table.free) == [] && old(table.entries) != [] ==> denseOrder
    {
      if table.free != [] || table.entries == [] {
        return;
      }
      var order := Enumerate(table.ids.Keys);
      ghost var n := RenumberedImage(image, order);
      var slots := SlotsIn(table, order);
      var times := RenumberTimes(access.times, slots);
      ghost var d := RenumberedDate(image, n, dated, order);
      Put(Renumber(table, slots), access.(times := times), true, n, d);
      index.Relabel(n.live);
    }
  
    /** Visits the rows for a scan: slot by slot when the order is dense, by identity otherwise. */
    method EntryCursor() returns (visited: seq<EntryKey>)
      requires Valid()
      ensures Enumerates(visited, image.view.Keys)
    {
      Identities(image);
      if denseOrder {
        var entries := table.entries;
        visited := seq(|entries|, i requires 0 <= i < |entries| => entries[i].key);
        DenseIsExact(image, visited);
      } else {
        visited := Enumerate(table.ids.Keys);
      }
    }

    /** Candidate slots for a folded ASCII needle: every row the host's comparison would match is
        among them. */
    method FilenameCandidates(needle: Name, cap: nat, outOfMemory: bool, ghost host: (Unit, Unit) -> bool)
      returns (r: Option<seq<nat>>)
      requires Valid() && FilenameIndex.FoldedAscii(needle)
      requires FilenameIndex.AsciiCaseInsensitive(host) && FoldClassification.Covers(index.mayFold, host)
      ensures r.Some? ==> SortedLists.Sorted(r.value) && (cap == 0 || |r.value| <= cap)
      ensures r.Some? ==> forall k :: k in image.view && FilenameIndex.HostContains(host, image.view[k].name, needle) ==>
                k in table.ids && table.ids[k] in r.value
      ensures r.Some? ==> forall row: nat :: row in r.value <==>
                row in index.rows && FilenameIndex.Likely(index.rows[row], needle, index.mayFold)
      ensures index.valid && |needle| >= 3 && cap == 0 && !outOfMemory ==> r.Some?
    {
      r := index.Candidates(needle, cap, outOfMemory);
      if |needle| >= 3 {
        FilenameIndex.HasWindow(needle);
      }
      if r.Some? {
        forall k | k in image.view && FilenameIndex.HostContains(host, image.view[k].name, needle)
          ensures k in table.ids && table.ids[k] in r.value
        {
          Found(image, k);
          FilenameIndex.MatchIsCandidate(
            host, index.mayFold, index.rows, index.postings, index.exceptional, needle, table.ids[k]);
        }
      }
    }

    /** A bulk scan does without the accelerator and without enforcement; its end brings both back. */
    method SetBulkScanActive(active: bool, outOfMemory: bool)
      requires Valid()
      modifies this, index
      ensures Valid() && image.view == old(image.view) && evicted == old(evicted)
      ensures policy == Policy(old(policy.maximumBytes), !active, active)
      ensures index.valid <==> !active && !outOfMemory
    {
      policy := policy.(enforcing := !active, bulkScan := active);
      if active {
        index.Invalidate(index.rows);
      } else {
        RebuildFilenameIndex(outOfMemory);
      }
    }

    /** A new limit is enforced at once, even during a bulk scan. */
    method SetMaximumMemoryBytes(maximumBytes: nat) returns (ghost d: Departed)
      requires Valid()
      modifies this, names, index
      ensures Valid() && Ends(d) && AllBranches(d.extents)
      ensures d.before == old(image.view) && d.ages == old(dated.ages) && d.marked == old(evicted)
      ensures d.extents != [] <==> old(Estimate()) > policy.maximumBytes && old(image.view) != map[]
      ensures Fits(policy.maximumBytes, old(memory.changes)) ==> |d.extents| <= 1
      ensures policy == old(policy).(maximumBytes := if maximumBytes == 0 then DEFAULT_MAXIMUM else maximumBytes)
      ensures Estimate() <= policy.maximumBytes || image.view == map[]
      ensures old(Estimate()) <= policy.maximumBytes || old(image.view) == map[] ==>
                image.view == old(image.view) && evicted == old(evicted) && table == old(table)
    {
      var wasEnforcing := policy.enforcing;
      policy := policy.(
        maximumBytes := if maximumBytes == 0 then DEFAULT_MAXIMUM else maximumBytes, enforcing := true);
      var any;
      any, d := EnforceMemoryLimitTo(policy.maximumBytes);
      policy := policy.(enforcing := wasEnforcing);
    }

    /** Removes what is held of a volume. */
    method ClearVolume(volume: Volume)
      requires Valid()
      modifies this, names, index
      ensures Valid() && image.view == OtherVolumes(old(image.view), volume)
      ensures evicted == old(evicted) && policy == old(policy)
    {
      Identities(image);
      var present := exists k :: k in table.ids && k.volume == volume;
      if present || volume in evicted {
        RemoveVolume(volume, false);
        ghost var left := Erased(image, {});
        assert table.ids - {} == table.ids && image.view - {} == image.view;
        CompactStorage(left);
      }
    }

    /** Stores the rows that arrive; gives up when the read fails or the watermark is passed. */
    method StreamIn(stream: seq<(EntryKey, Row)>, failsAt: Option<nat>) returns (fits: bool)
      requires Valid() && !index.valid
      modifies this, names, index
      ensures Valid() && !index.valid && evicted == old(evicted) && policy == old(policy)
      ensures fits ==> (failsAt.None? || failsAt.value >= |stream|) && image.view == Overlay(old(image.view), stream)
      ensures Roomy() && failsAt.None? ==> fits
      ensures exists n :: 0 <= n <= |stream| && image.view == Overlay(old(image.view), stream[..n])
    {
      var low := LowWatermark(policy.maximumBytes);
      for n := 0 to |stream|
        invariant Valid() && !index.valid && evicted == old(evicted) && policy == old(policy)
        invariant image.view == Overlay(old(image.view), stream[..n])
        invariant failsAt.Some? ==> n <= failsAt.value
      {
        if failsAt == Some(n) {
          return false;
        }
        assert stream[..n + 1][..n] == stream[..n];
        Upsert(stream[n].0, stream[n].1, false);
        if (n + 1) % FIT_CHECK_INTERVAL == 0 && Estimate() > low {
          assert image.view == Overlay(old(image.view), stream[..n + 1]);
          return false;
        }
      }
      assert stream[..|stream|] == stream;
      fits := Estimate() <= low;
    }

    /** A prefix of a volume is not left to look like all of it. */
    method Abandon(volume: Volume, wasEnforcing: bool)
      requires Valid()
      modifies this, names, index
      ensures Valid() && policy == old(policy).(enforcing := wasEnforcing) && old(evicted) + {volume} <= evicted
      ensures Shrunk(OtherVolumes(old(image.view), volume), image.view, evicted)
    {
      ClearVolume(volume);
      evicted, policy := evicted + {volume}, policy.(enforcing := wasEnforcing);
      var any, d := EnforceMemoryLimit();
      DepartedShrunk(d);
    }

    /** Puts the rows in order after a load, releases slack, and enforces the limit again. */
    method Settle(wasEnforcing: bool, outOfMemory: bool)
      requires Valid() && !index.valid
      modifies this, names, index
      ensures Valid() && policy == old(policy).(enforcing := wasEnforcing) && old(evicted) <= evicted
      ensures Shrunk(old(image.view), image.view, evicted)
      ensures Roomy() ==> image.view == old(image.view) && evicted == old(evicted)
    {
      CompactEntriesForIterationOrder();
      if !policy.bulkScan {
        RebuildFilenameIndex(outOfMemory);
      }
      policy, memory := policy.(enforcing := wasEnforcing), memory.(changes := memory.changes + 1);
      var any, d := EnforceMemoryLimit();
      DepartedShrunk(d);
    }

    /** Streams a volume in from the durable store, unless it does not fit or the read fails. */
    method RebuildVolumeFromStore(volume: Volume, stream: seq<(EntryKey, Row)>, failsAt: Option<nat>, outOfMemory: bool)
      returns (resident: bool)
      requires Valid() && OfVolume(stream, volume)
      modifies this, names, index
      ensures Valid() && policy == old(policy) && old(evicted) - {volume} <= evicted
      ensures resident <==> volume !in evicted
      ensures Shrunk(Overlay(OtherVolumes(old(image.view), volume), stream), image.view, evicted)
      ensures resident ==> failsAt.None? || failsAt.value >= |stream|
      ensures Roomy() && failsAt.None? ==>
                evicted == old(evicted) - {volume} && image.view == Overlay(OtherVolumes(old(image.view), volume), stream)
    {
      ghost var others := OtherVolumes(image.view, volume);
      var wasEnforcing := policy.enforcing;
      policy := policy.(enforcing := false);
      ClearVolume(volume);
      evicted, denseOrder := evicted - {volume}, false;
      index.Invalidate(index.rows);
      var fits := StreamIn(stream, failsAt);
      if !fits {
        ghost var n :| 0 <= n <= |stream| && image.view == Overlay(others, stream[..n]);
        OverlayOutside(others, stream, n, volume);
        ghost var marked := evicted + {volume};
        Abandon(volume, wasEnforcing);
        ShrunkTwice(Overlay(others, stream), OtherVolumes(Overlay(others, stream[..n]), volume), image.view, marked, evicted);
        return false;
      }
      Settle(wasEnforcing, outOfMemory);
      return volume !in evicted;
    }
  }

  lemma DenseIsExact(m: Sound, visited: seq<EntryKey>)
    requires m.t.free == [] && |visited| == |m.t.entries|
    requires forall i :: 0 <= i < |visited| ==> visited[i] == m.t.entries[i].key
    ensures Enumerates(visited, m.view.Keys)
  {
    assert Broken(Seal);
    forall i: nat | i < |visited| ensures visited[i] in m.t.ids && m.t.ids[visited[i]] == i {
      assert i !in m.t.free;
      assert Live(m.t, i);
    }
    forall k | k in m.t.ids ensures k in visited {
      assert visited[m.t.ids[k]] == k;
    }
  }

  ghost predicate OfVolume(stream: seq<(EntryKey, Row)>, volume: Volume) {
    forall n :: 0 <= n < |stream| ==> stream[n].0.volume == volume
  }

  ghost function OtherVolumes(view: map<EntryKey, Row>, volume: Volume): map<EntryKey, Row> {
    map k | k in view && k.volume != volume :: view[k]
  }

  /** The rows with the stream's rows stored over them, one after the other. */
  ghost function Overlay(view: map<EntryKey, Row>, stream: seq<(EntryKey, Row)>): map<EntryKey, Row> {
    if stream == [] then view
    else Overlay(view, stream[..|stream| - 1])[stream[|stream| - 1].0 := stream[|stream| - 1].1]
  }

  /** Loading part of a volume and dropping the volume again leaves the other volumes. */
  lemma OverlayOutside(others: map<EntryKey, Row>, stream: seq<(EntryKey, Row)>, n: nat, volume: Volume)
    requires n <= |stream| && OfVolume(stream, volume)
    ensures Shrunk(Overlay(others, stream), OtherVolumes(Overlay(others, stream[..n]), volume), {volume})
  {
    OverlayKeeps(others, stream, volume);
    OverlayKeeps(others, stream[..n], volume);
  }

  lemma {:induction false} OverlayKeeps(view: map<EntryKey, Row>, stream: seq<(EntryKey, Row)>, volume: Volume)
    requires OfVolume(stream, volume)
    ensures OtherVolumes(Overlay(view, stream), volume) == OtherVolumes(view, volume)
  {
    if stream != [] {
      OverlayKeeps(view, stream[..|stream| - 1], volume);
    }
  }

  function RenumberTimes(times: seq<nat>, slots: seq<nat>): (r: seq<nat>)
    ensures |r| == |slots|
  {
    seq(|slots|, n requires 0 <= n < |slots| => if slots[n] < |times| then times[slots[n]] else 0)
  }

  lemma RenumberedDate(m: Sound, n: Sound, d: Dated, order: seq<EntryKey>) returns (e: Dated)
    requires d.t == m.t && |d.access.times| == |m.t.entries| && Enumerates(order, m.t.ids.Keys) && m.t.free == []
    requires forall j :: 0 <= j < |order| ==> order[j] in m.t.ids
    requires Renumberable(m.t, SlotsIn(m.t, order)) && n.t == Renumber(m.t, SlotsIn(m.t, order))
    ensures e == Dating(n.t, d.access.(times := RenumberTimes(d.access.times, SlotsIn(m.t, order))), d.ages)
  {
    var slots := SlotsIn(m.t, order);
    var times := RenumberTimes(d.access.times, slots);
    RenumberedSlots(m, order);
    DateRenumbered(m, d, order, slots, n.t, times);
    e := DateCopied(d, n.t, times);
  }

  lemma LiveText(m: Sound, live: map<nat, Name>)
    requires forall i: nat :: i in live <==> i in m.live
    requires forall i :: i in live && i < |m.t.entries| ==> live[i] == Text(m.texts, m.t.entries[i].nameId)
    ensures live == m.live
  {
    assert Broken(Seal);
  }

  lemma Left(before: map<EntryKey, Row>, after: map<EntryKey, Row>, key: EntryKey)
    requires key in before && key !in after && forall k :: k in after ==> k in before
    ensures |after| < |before|
  {
    Subset(after.Keys, before.Keys);
  }

  method CopyRow(t: Table, names: NamePool.Pool, key: EntryKey, u: Table, pool: NamePool.Pool, ghost left: Legible,
                 ghost m: Sound)
    returns (v: Table, ghost n: Sound)
    requires names.Valid() && pool.Valid() && pool != names && left.t == t && left.texts == names.texts
    requires m.t == u && m.texts == pool.texts && key in left.view && key !in m.view && u.free == []
    modifies pool
    ensures pool.Valid() && n.t == v && n.texts == pool.texts && n.view == m.view[key := left.view[key]]
    ensures key in t.ids && t.ids[key] < |t.entries| && key !in u.ids
    ensures v.free == [] && |v.entries| == |u.entries| + 1 && LayoutOf(v) == Place(LayoutOf(u), key)
  {
    FoundRemnant(left, key);
    Found(m, key);
    var e := t.entries[t.ids[key]];
    var nameId := pool.Intern(names.Get(e.nameId));
    var j: nat;
    ghost var grown := MoreTexts(m, pool.texts);
    v, j, n := InsertEntry(u, e.(nameId := nameId), grown);
  }

  method Repack(
    t: Table, times: seq<nat>, names: NamePool.Pool, order: seq<EntryKey>, pool: NamePool.Pool, ghost left: Legible,
    ghost clock: nat)
    returns (u: Table, kept: seq<nat>, ghost m: Sound)
    requires names.Valid() && pool.Valid() && pool.texts == [] && pool != names
    requires left.t == t && left.texts == names.texts && |times| == |t.entries|
    requires Enumerates(order, left.view.Keys) && NoneLater(times, clock)
    modifies pool
    ensures pool.Valid() && m.t == u && m.texts == pool.texts
    ensures m.view == Part(left.view, order[..|order|])
    ensures u.free == [] && |u.entries| == |kept| && AgesOf(u, kept) == AgesOf(t, times) && NoneLater(kept, clock)
  {
    u, kept, m := EMPTY, [], Image(EMPTY, [], map[], map[]);
    for k := 0 to |order|
      invariant pool.Valid() && m.t == u && m.texts == pool.texts
      invariant m.view == Part(left.view, order[..k])
      invariant u.free == [] && |u.entries| == |kept|
      invariant AgesCopied(t, times, order[..k], u, kept) && NoneLater(kept, clock)
    {
      var key := order[k];
      PartGrows(left.view, order, k);
      ghost var before := u;
      u, m := CopyRow(t, names, key, u, pool, left, m);
      CopyAge(t, times, order, k, before, kept, u);
      kept := kept + [times[t.ids[key]]];
    }
    SameIdentities(left);
    AllAgesCopied(t, times, order, u, kept);
  }

  /** The rows copied so far have kept their ages. */
  ghost predicate AgesCopied(t: Table, times: seq<nat>, done: seq<EntryKey>, u: Table, kept: seq<nat>) {
    && (forall k :: k in u.ids <==> k in done)
    && (forall k :: k in done ==> AgeCopied(t, times, u, kept, k))
  }

  predicate AgeCopied(t: Table, times: seq<nat>, u: Table, kept: seq<nat>, k: EntryKey) {
    && k in t.ids && t.ids[k] < |times| && k in u.ids && u.ids[k] < |kept|
    && kept[u.ids[k]] == times[t.ids[k]]
  }

  lemma CopyAge(t: Table, times: seq<nat>, order: seq<EntryKey>, k: nat, before: Table, kept: seq<nat>, u: Table)
    requires k < |order| && AgesCopied(t, times, order[..k], before, kept)
    requires order[k] in t.ids && t.ids[order[k]] < |times| && order[k] !in before.ids
    requires before.free == [] && |before.entries| == |kept| && LayoutOf(u) == Place(LayoutOf(before), order[k])
    ensures AgesCopied(t, times, order[..k + 1], u, kept + [times[t.ids[order[k]]]])
  {
    assert order[..k + 1] == order[..k] + [order[k]];
    forall o | o in order[..k] ensures AgeCopied(t, times, u, kept + [times[t.ids[order[k]]]], o) {
      assert AgeCopied(t, times, before, kept, o);
    }
  }

  lemma AllAgesCopied(t: Table, times: seq<nat>, order: seq<EntryKey>, u: Table, kept: seq<nat>)
    requires Enumerates(order, t.ids.Keys) && AgesCopied(t, times, order[..|order|], u, kept)
    ensures AgesOf(u, kept) == AgesOf(t, times)
  {
    assert order[..|order|] == order;
    forall k | k in t.ids ensures AgeCopied(t, times, u, kept, k) {
    }
  }
}
