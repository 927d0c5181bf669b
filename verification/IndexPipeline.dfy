/**
  The pipeline that feeds the durable store and the rows in memory: every batch is committed before
  it is applied, and every visible change is announced to searches.
 */
module IndexPipeline {
  import opened BatchEffect
  import opened DurableStore
  import opened EvictionOrder
  import opened HotAgreement
  import opened ProjectionEviction
  import opened ProjectionTable
  import opened Records
  import opened Visibility
  import opened Words
  import P = Projection

  const REMOVAL_CHUNK := 5000

  ghost predicate OnVolume(changes: seq<Change>, volume: Volume) {
    forall n :: 0 <= n < |changes| ==> changes[n].key.volume == volume
  }

  ghost predicate AllCarryZero(changes: seq<Change>) {
    forall n :: 0 <= n < |changes| ==> ChangeCarriesZero(changes[n])
  }

  /** Slots outside one volume are where they were. */
  ghost predicate SlotsKept(a: map<EntryKey, nat>, b: map<EntryKey, nat>, volume: Volume) {
    forall k: EntryKey :: k.volume != volume ==> SameSlot(a, b, k)
  }

  ghost predicate SameSlot(a: map<EntryKey, nat>, b: map<EntryKey, nat>, k: EntryKey) {
    (k in a <==> k in b) && (k in a && k in b ==> a[k] == b[k])
  }

  ghost predicate RowsKept(a: Rows, b: Rows, volume: Volume) {
    forall k: EntryKey :: k.volume != volume ==> SameRow(a, b, k)
  }

  function PlaceOne(l: Layout, c: Change): Layout {
    match c
    case Upsert(key, _, _) => Place(l, key)
    case Remove(key) => Release(l, key)
  }

  /** Where a batch puts its rows: decided by the slots in use, the free ones and the batch alone. */
  function PlaceAll(l: Layout, changes: seq<Change>): Layout {
    if changes == [] then l else PlaceOne(PlaceAll(l, changes[..|changes| - 1]), changes[|changes| - 1])
  }

  /** Where the rows are, what they say, and how often the storage has changed at most. */
  ghost predicate Holds(hot: P.Projection, l: Layout, view: Rows, changes: nat)
    reads hot
  {
    LayoutOf(hot.table) == l && hot.image.view == view && hot.memory.changes <= changes
  }

  method ApplyOneToMemory(hot: P.Projection, c: Change)
    requires hot.Valid()
    modifies hot, hot.names, hot.index
    ensures hot.Valid() && hot.image.view == ApplyHot(old(hot.image.view), c)
    ensures hot.evicted == old(hot.evicted) && hot.policy == old(hot.policy)
    ensures LayoutOf(hot.table) == PlaceOne(old(LayoutOf(hot.table)), c) && hot.memory.changes <= old(hot.memory.changes) + 1
  {
    match c {
      case Upsert(key, row, fields) =>
        hot.UpsertPartial(key, row, fields, false);
      case Remove(key) =>
        hot.Remove(key, false);
    }
  }

  /** Applies committed changes to the rows in memory, one by one. */
  method ApplyToMemory(hot: P.Projection, changes: seq<Change>)
    requires hot.Valid()
    modifies hot, hot.names, hot.index
    ensures hot.Valid() && hot.evicted == old(hot.evicted) && hot.policy == old(hot.policy)
    ensures Holds(hot, PlaceAll(old(LayoutOf(hot.table)), changes), ApplyHotAll(old(hot.image.view), changes),
                  old(hot.memory.changes) + |changes|)
  {
    for n := 0 to |changes|
      invariant hot.Valid() && hot.image.view == ApplyHotAll(old(hot.image.view), changes[..n])
      invariant hot.evicted == old(hot.evicted) && hot.policy == old(hot.policy)
      invariant LayoutOf(hot.table) == PlaceAll(old(LayoutOf(hot.table)), changes[..n])
      invariant hot.memory.changes <= old(hot.memory.changes) + n
    {
      assert changes[..n + 1][..n] == changes[..n];
      ApplyOneToMemory(hot, changes[n]);
    }
    assert changes[..|changes|] == changes;
  }

  lemma {:induction false} PlacesStayOnVolume(l: Layout, changes: seq<Change>, volume: Volume)
    requires OnVolume(changes, volume)
    ensures SlotsKept(l.ids, PlaceAll(l, changes).ids, volume)
  {
    if changes != [] {
      var most := changes[..|changes| - 1];
      PlacesStayOnVolume(l, most, volume);
      forall k: EntryKey | k.volume != volume ensures SameSlot(l.ids, PlaceAll(l, changes).ids, k) {
        assert SameSlot(l.ids, PlaceAll(l, most).ids, k);
      }
    }
  }

  lemma {:induction false} ChangesStayOnVolume(hot: Rows, changes: seq<Change>, volume: Volume)
    requires OnVolume(changes, volume)
    ensures RowsKept(hot, ApplyHotAll(hot, changes), volume)
  {
    if changes != [] {
      var most := changes[..|changes| - 1];
      ChangesStayOnVolume(hot, most, volume);
      forall k: EntryKey | k.volume != volume ensures SameRow(hot, ApplyHotAll(hot, changes), k) {
        assert SameRow(hot, ApplyHotAll(hot, most), k);
      }
    }
  }

  /** The batch leaves every row of the volume in memory what and where it is. */
  ghost predicate Unmoved(view: Rows, l: Layout, changes: seq<Change>, volume: Volume) {
    forall k: EntryKey :: k.volume == volume ==>
      SameRow(view, ApplyHotAll(view, changes), k) && SameSlot(l.ids, PlaceAll(l, changes).ids, k)
  }

  /** Whether a batch that is applied but not announced leaves searches as they were, told from the
      state before and the batch. */
  ghost predicate Harmless(s: Shared, view: Rows, l: Layout, changes: seq<Change>, volume: Volume) {
    volume !in Searchable(s) || volume in s.cold || Unmoved(view, l, changes, volume)
  }

  lemma HarmlessIff(s: Shared, t: Shared, view: Rows, l: Layout, changes: seq<Change>, volume: Volume)
    requires Bounded(s.epochs) && Confined(s, t, volume) && t.epochs == s.epochs
    requires s.hot == Held(l.ids, view) && t.hot == Held(PlaceAll(l, changes).ids, ApplyHotAll(view, changes))
    ensures Evolves(s, t) <==> Harmless(s, view, l, changes, volume)
  {
    UnannouncedRowsIff(s, t, volume);
    forall k: EntryKey
      ensures SameHot(s, t, k) <==>
              SameRow(view, ApplyHotAll(view, changes), k) && SameSlot(l.ids, PlaceAll(l, changes).ids, k)
    {
    }
  }

  /** Nothing outside one volume changed for searches. */
  lemma HotConfined(ids: map<EntryKey, nat>, view: Rows, ids': map<EntryKey, nat>, view': Rows, volume: Volume,
                    s: Shared, t: Shared)
    requires SlotsKept(ids, ids', volume) && RowsKept(view, view', volume)
    requires s.hot == Held(ids, view) && t.hot == Held(ids', view')
    requires t.cold == s.cold && t.volumes == s.volumes && t.hidden == s.hidden
    ensures Confined(s, t, volume)
  {
    forall k: EntryKey | k.volume != volume ensures SameHot(s, t, k) {
      assert SameSlot(ids, ids', k) && SameRow(view, view', k);
    }
  }

  lemma ConfinedTwice(s: Shared, t: Shared, u: Shared, volume: Volume)
    requires Confined(s, t, volume) && Confined(t, u, volume)
    ensures Confined(s, u, volume)
  {
    forall k: EntryKey | k.volume != volume ensures SameHot(s, u, k) {
      assert SameHot(s, t, k) && SameHot(t, u, k);
    }
  }

  /** Whether a transaction goes through, given the step at which the store fails. */
  predicate Commits(changes: seq<Change>, fault: Option<nat>) {
    changes == [] || fault.None? || fault.value > |changes|
  }

  function Removals(keys: seq<EntryKey>): (r: seq<Change>)
    ensures |r| == |keys| && forall n :: 0 <= n < |keys| ==> r[n] == Remove(keys[n])
  {
    seq(|keys|, n requires 0 <= n < |keys| => Remove(keys[n]))
  }

  lemma {:induction false} RemovalsRemove(rows: Rows, keys: seq<EntryKey>)
    ensures ApplyAll(rows, Removals(keys)) == rows - Elements(keys)
  {
    if keys != [] {
      var most, last := keys[..|keys| - 1], keys[|keys| - 1];
      assert keys == most + [last];
      RemovalsRemove(rows, most);
      assert Removals(keys)[..|keys| - 1] == Removals(most);
      assert rows - Elements(most) - {last} == rows - Elements(keys);
    }
  }

  /** Upserted files the volume's rules leave out. */
  function Excluded(changes: seq<Change>, included: FileId -> bool): (keys: seq<EntryKey>) {
    if changes == [] then []
    else
      var rest, last := Excluded(changes[..|changes| - 1], included), changes[|changes| - 1];
      if last.Upsert? && !included(last.key.id) then rest + [last.key] else rest
  }

  lemma {:induction false} ExcludedOnVolume(changes: seq<Change>, included: FileId -> bool, volume: Volume)
    requires OnVolume(changes, volume)
    ensures forall k :: k in Excluded(changes, included) ==> k.volume == volume
  {
    if changes != [] {
      ExcludedOnVolume(changes[..|changes| - 1], included, volume);
    }
  }

  /** Upserted files a running reconciliation pass has thereby seen. */
  function Observed(changes: seq<Change>, included: FileId -> bool): set<FileId> {
    set n | 0 <= n < |changes| && changes[n].Upsert? && included(changes[n].key.id) :: changes[n].key.id
  }

  lemma {:induction false} ExcludedAre(changes: seq<Change>, included: FileId -> bool, k: EntryKey)
    ensures k in Elements(Excluded(changes, included)) <==> RuledOut(changes, included, k)
  {
    if changes != [] {
      var most, last := changes[..|changes| - 1], changes[|changes| - 1];
      ExcludedAre(most, included, k);
      if RuledOut(changes, included, k) && !(last.Upsert? && last.key == k) {
        var n :| 0 <= n < |changes| && changes[n].Upsert? && changes[n].key == k;
        assert most[n] == changes[n];
      }
      if RuledOut(most, included, k) {
        var n :| 0 <= n < |most| && most[n].Upsert? && most[n].key == k;
        assert changes[n] == most[n];
      }
    }
  }

  /** What the store holds after a batch, pruned or not, is what the batch means. */
  lemma BatchReflects(rows: Rows, changes: seq<Change>, included: FileId -> bool)
    ensures Reflects(rows, ApplyAll(rows, changes) - Elements(Excluded(changes, included)), changes, included)
    ensures Reflects(rows, ApplyAll(rows, changes), changes, WithoutRules)
  {
    forall k ensures k in Elements(Excluded(changes, included)) <==> RuledOut(changes, included, k) {
      ExcludedAre(changes, included, k);
    }
    PrunedReflects(rows, changes, included, Elements(Excluded(changes, included)));
    UnprunedReflects(rows, changes);
  }

  lemma WatchedNotes(passes: map<Volume, set<FileId>>, volume: Volume, changes: seq<Change>, included: FileId -> bool)
    ensures Notes(passes, Watched(passes, volume, changes, included), volume, Sightings(changes, included))
  {
    forall id ensures id in Observed(changes, included) <==> id in Sightings(changes, included) {
    }
  }

  lemma ListedAreSighted(volume: Volume, records: seq<(FileId, Row)>, included: FileId -> bool)
    ensures Sightings(FullChanges(volume, records), included) == Recorded(records, included)
  {
    var changes := FullChanges(volume, records);
    assert forall n :: 0 <= n < |records| ==> changes[n].Upsert? && changes[n].key.id == records[n].0;
    forall id ensures id in Sightings(changes, included) <==> id in Recorded(records, included) {
      if id in Recorded(records, included) {
        var n :| 0 <= n < |records| && records[n].0 == id;
        assert changes[n].key.id == id;
      }
    }
  }

  lemma {:induction false} FullBatch(rows: Rows, volume: Volume, records: seq<(FileId, Row)>, k: EntryKey)
    requires forall n :: 0 <= n < |records| ==> CarriesZero(records[n].1)
    ensures ScannedAt(rows, ApplyAll(rows, FullChanges(volume, records)), volume, records, WithoutRules, k)
  {
    if records != [] {
      var most, last := records[..|records| - 1], records[|records| - 1];
      FullBatch(rows, volume, most, k);
      var changes := FullChanges(volume, records);
      assert changes[..|records| - 1] == FullChanges(volume, most);
      assert changes[|records| - 1] == Upsert(EntryKey(volume, last.0), last.1, ALL_FIELDS);
      LastRecordOf(records, k.id);
    }
  }

  lemma LastRecordOf(records: seq<(FileId, Row)>, id: FileId)
    requires records != []
    ensures var most, end := records[..|records| - 1], |records| - 1;
            if records[end].0 == id then LastRecord(records, end, id) && forall n :: LastRecord(records, n, id) ==> n == end
            else (exists n :: LastRecord(records, n, id)) <==> (exists n :: LastRecord(most, n, id))
    ensures records[|records| - 1].0 != id ==>
              forall n :: LastRecord(records, n, id) ==> LastRecord(records[..|records| - 1], n, id)
  {
    var most := records[..|records| - 1];
    assert forall m :: 0 <= m < |most| ==> most[m] == records[m];
    if records[|records| - 1].0 != id {
      forall n ensures LastRecord(records, n, id) <==> LastRecord(most, n, id) {
      }
    }
  }

  /** A full batch, pruned, leaves what its records and the rules say. */
  lemma FullBatchScans(rows: Rows, volume: Volume, records: seq<(FileId, Row)>, included: FileId -> bool)
    requires forall n :: 0 <= n < |records| ==> CarriesZero(records[n].1)
    ensures var changes := FullChanges(volume, records);
            && Scanned(rows, ApplyAll(rows, changes) - Elements(Excluded(changes, included)), volume, records, included)
            && Scanned(rows, ApplyAll(rows, changes), volume, records, WithoutRules)
  {
    var changes := FullChanges(volume, records);
    forall k: EntryKey
      ensures ScannedAt(rows, ApplyAll(rows, changes) - Elements(Excluded(changes, included)), volume, records, included, k)
      ensures ScannedAt(rows, ApplyAll(rows, changes), volume, records, WithoutRules, k)
    {
      FullBatch(rows, volume, records, k);
      ExcludedAre(changes, included, k);
      ListedIsUpserted(volume, records, k);
    }
  }

  lemma {:induction false} ListedIsUpserted(volume: Volume, records: seq<(FileId, Row)>, k: EntryKey)
    ensures (k.volume == volume && exists n :: LastRecord(records, n, k.id)) <==>
            exists n :: 0 <= n < |records| && FullChanges(volume, records)[n].key == k
  {
    if records != [] {
      var most, end := records[..|records| - 1], |records| - 1;
      ListedIsUpserted(volume, most, k);
      LastRecordOf(records, k.id);
      assert FullChanges(volume, records)[..end] == FullChanges(volume, most);
      assert FullChanges(volume, records)[end].key == EntryKey(volume, records[end].0);
      if n :| 0 <= n < |most| && FullChanges(volume, most)[n].key == k {
        assert FullChanges(volume, records)[n].key == k;
      }
    }
  }

  class Pipeline {
    const store: Store
    const hot: P.Projection
    var passes: map<Volume, set<FileId>>
    var hidden: set<Volume>
    var epochs: Epochs

    ghost predicate Valid()
      reads this, store, hot, hot.names, hot.index
    {
      && store.Valid() && hot.Valid() && Bounded(epochs)
      && Agree(hot.image.view, store.tables.view, hot.evicted)
    }

    /** What searches see of the pipeline. */
    ghost function Seen(): Shared
      reads this, store, hot
    {
      Shared(Held(hot.table.ids, hot.image.view), hot.evicted, store.tables.view, store.db.volumes.Keys, hidden, epochs)
    }

    constructor (hash: Name -> nat, mayFold: Unit -> bool, estimates: nat -> nat)
      ensures Valid() && passes == map[] && hidden == {} && epochs == START && hot.evicted == {}
      ensures store.db.volumes.Keys == {} && store.tables.view.Keys == {} && hot.image.view.Keys == {}
      ensures hot.table.ids.Keys == {} && hot.table.free == [] && |hot.table.entries| == 0
      ensures hot.policy == P.Policy(P.DEFAULT_MAXIMUM, true, false) && hot.estimates == estimates && hot.memory.changes == 0
      ensures fresh(store) && fresh(hot) && fresh(hot.names) && fresh(hot.index)
    {
      store := new Store(mayFold);
      hot := new P.Projection(hash, mayFold, estimates);
      passes, hidden, epochs := map[], {}, START;
    }

    /** Durable first; memory only after the commit. */
    method CommitAndApply(volume: Volume, changes: seq<Change>, fault: Option<nat>) returns (ok: bool)
      requires Valid() && OnVolume(changes, volume) && AllCarryZero(changes)
      modifies store, hot, hot.names, hot.index
      ensures Valid() && ok == Commits(changes, fault) && store.db.volumes == old(store.db.volumes)
      ensures store.tables.view == if ok then ApplyAll(old(store.tables.view), changes) else old(store.tables.view)
      ensures Confined(old(Seen()), Seen(), volume)
      ensures !ok || changes == [] ==> Seen() == old(Seen())
      ensures hot.policy == old(hot.policy)
      ensures ok ==> Holds(hot, PlaceAll(old(LayoutOf(hot.table)), changes), ApplyHotAll(old(hot.image.view), changes),
                           old(hot.memory.changes) + |changes|)
      ensures ok ==> (
                Evolves(old(Seen()), Seen()) <==>
                Harmless(old(Seen()), old(hot.image.view), old(LayoutOf(hot.table)), changes, volume))
    {
      ghost var s, ids, view, l := Seen(), hot.table.ids, hot.image.view, LayoutOf(hot.table);
      SameKeys(hot.image);
      PlacesStayOnVolume(LayoutOf(hot.table), changes, volume);
      StoredRowsAreNormal(store.tables);
      ChangesKeepAgreement(view, store.tables.view, hot.evicted, changes);
      ok := store.ApplyBatch(changes, fault);
      if ok {
        ApplyToMemory(hot, changes);
        ChangesStayOnVolume(view, changes, volume);
        HotConfined(ids, view, hot.table.ids, hot.image.view, volume, s, Seen());
        SameKeys(hot.image);
        HarmlessIff(s, Seen(), view, l, changes, volume);
      }
    }

    /** Takes rows out of the store and then, in bulk, out of memory. */
    method Prune(volume: Volume, keys: seq<EntryKey>, fault: Option<nat>) returns (ok: bool)
      requires Valid() && forall k :: k in keys ==> k.volume == volume
      modifies store, hot, hot.names, hot.index
      ensures Valid() && ok == Commits(Removals(keys), fault) && store.db.volumes == old(store.db.volumes)
      ensures store.tables.view == if ok then old(store.tables.view) - Elements(keys) else old(store.tables.view)
      ensures Confined(old(Seen()), Seen(), volume) && hot.policy == old(hot.policy)
      ensures !ok ==> Seen() == old(Seen()) && hot.table == old(hot.table) && hot.memory == old(hot.memory)
    {
      ghost var s, ids, view := Seen(), hot.table.ids, hot.image.view;
      RemovalsRemove(store.tables.view, keys);
      RemovalKeepsAgreement(view, store.tables.view, hot.evicted, Elements(keys));
      ok := store.ApplyBatch(Removals(keys), fault);
      if ok {
        hot.RemoveBatch(keys, true, false);
        RemovedOnVolume(ids, view, keys, volume);
        HotConfined(ids, view, hot.table.ids, hot.image.view, volume, s, Seen());
      }
    }

    /** Memory pressure may evict anything; that is announced as a change of structure. */
    method Enforce()
      requires Valid()
      modifies this, hot, hot.names, hot.index
      ensures Valid() && passes == old(passes) && hidden == old(hidden)
      ensures Later(old(epochs), epochs)
      ensures Seen() == old(Seen()) || epochs.dependency > old(epochs.dependency)
      ensures hot.policy == old(hot.policy)
      ensures hot.Roomy() ==> Seen() == old(Seen()) && hot.table == old(hot.table) && hot.memory == old(hot.memory)
    {
      ghost var view, cold := hot.image.view, hot.evicted;
      var evictedAny, d := hot.EnforceMemoryLimit();
      DepartedAgrees(d, store.tables.view);
      if evictedAny {
        epochs := AdvanceResidency(epochs);
      }
    }

    /** One journal batch.  `included` gives the verdict of the volume's rules once the rows are in
        memory; `fault` and `pruneFault` are the steps at which the store fails. */
    method ApplyUsnBatchChanges(
      volume: Volume, changes: seq<Change>, included: FileId -> bool, fault: Option<nat>, pruneFault: Option<nat>)
      returns (ok: bool)
      requires Valid() && OnVolume(changes, volume) && AllCarryZero(changes)
      modifies this, store, hot, hot.names, hot.index
      ensures Valid() && hidden == old(hidden) && store.db.volumes == old(store.db.volumes)
      ensures ok <==> Commits(changes, fault) && Commits(Removals(Excluded(changes, included)), pruneFault)
      ensures ok ==> store.tables.view == ApplyAll(old(store.tables.view), changes) - Elements(Excluded(changes, included))
      ensures !Commits(changes, fault) ==> Seen() == old(Seen()) && passes == old(passes)
      ensures Commits(changes, fault) && !ok ==> store.tables.view == ApplyAll(old(store.tables.view), changes)
      ensures ok ==> Reflects(old(store.tables.view), store.tables.view, changes, included)
      ensures Commits(changes, fault) && !ok ==> Reflects(old(store.tables.view), store.tables.view, changes, WithoutRules)
      ensures Commits(changes, fault) ==> Notes(old(passes), passes, volume, Sightings(changes, included))
      ensures ok ==> Evolves(old(Seen()), Seen())
      ensures Commits(changes, fault) && !ok ==> (
                Evolves(old(Seen()), Seen()) <==>
                epochs.dependency > old(epochs.dependency)
                || Harmless(old(Seen()), old(hot.image.view), old(LayoutOf(hot.table)), changes, volume))
      ensures Commits(changes, fault) && !ok && hot.Roomy() ==> epochs == old(epochs)
      ensures Commits(changes, fault) && hot.Roomy() && (!ok || Excluded(changes, included) == []) ==>
                Holds(hot, PlaceAll(old(LayoutOf(hot.table)), changes), ApplyHotAll(old(hot.image.view), changes),
                      old(hot.memory.changes) + |changes|)
      ensures hot.policy == old(hot.policy) && (hot.Roomy() ==> hot.evicted == old(hot.evicted))
    {
      ghost var s := Seen();
      BatchReflects(store.tables.view, changes, included);
      ok := CommitAndApply(volume, changes, fault);
      if !ok {
        return;
      }
      WatchedNotes(passes, volume, changes, included);
      passes := Watched(passes, volume, changes, included);
      ExcludedOnVolume(changes, included, volume);
      ok := PruneAndAnnounce(volume, Excluded(changes, included), pruneFault, changes != [], s);
    }

    /** What follows a batch that is committed and in memory: the files the rules leave out go again,
        and the change is announced. */
    method PruneAndAnnounce(volume: Volume, excluded: seq<EntryKey>, pruneFault: Option<nat>, changed: bool,
                            ghost s: Shared)
      returns (ok: bool)
      requires Valid() && s.epochs == epochs && Confined(s, Seen(), volume)
      requires (forall k :: k in excluded ==> k.volume == volume) && (!changed ==> excluded == [] && Seen().hot == s.hot)
      modifies this, store, hot, hot.names, hot.index
      ensures Valid() && passes == old(passes) && hidden == old(hidden) && hot.policy == old(hot.policy)
      ensures ok == Commits(Removals(excluded), pruneFault) && store.db.volumes == old(store.db.volumes)
      ensures store.tables.view == if ok then old(store.tables.view) - Elements(excluded) else old(store.tables.view)
      ensures if ok then Evolves(s, Seen())
              else (Evolves(s, Seen()) <==> epochs.dependency > old(epochs.dependency) || Evolves(s, old(Seen())))
      ensures hot.Roomy() ==> hot.evicted == old(hot.evicted) && (!ok ==> epochs == old(epochs))
      ensures hot.Roomy() && (!ok || excluded == []) ==>
                hot.table == old(hot.table) && hot.image.view == old(hot.image.view) && hot.memory == old(hot.memory)
    {
      ghost var t := Seen();
      ok := true;
      if excluded != [] {
        ok := Prune(volume, excluded, pruneFault);
        if !ok {
          LeaveUnpruned(s);
          return;
        }
        ConfinedTwice(s, t, Seen(), volume);
      } else {
        assert store.tables.view - Elements(excluded) == store.tables.view;
      }
      Announce(volume, changed, s, Seen());
    }

    /** After a failed pruning only memory pressure is announced. */
    method LeaveUnpruned(ghost s: Shared)
      requires Valid() && s.epochs == epochs
      modifies this, hot, hot.names, hot.index
      ensures Valid() && passes == old(passes) && hidden == old(hidden) && hot.policy == old(hot.policy)
      ensures Evolves(s, Seen()) <==> epochs.dependency > old(epochs.dependency) || Evolves(s, old(Seen()))
      ensures hot.Roomy() ==> hot.evicted == old(hot.evicted) && epochs == old(epochs)
      ensures hot.Roomy() ==>
                hot.table == old(hot.table) && hot.image.view == old(hot.image.view) && hot.memory == old(hot.memory)
    {
      ghost var t := Seen();
      Enforce();
      if Seen() != t {
        StructureAnnounced(s, Seen());
      }
    }

    /** A full scan batch is a batch of changes that carry every field. */
    method ApplyMftBatchChanges(
      volume: Volume, records: seq<(FileId, Row)>, included: FileId -> bool, fault: Option<nat>, pruneFault: Option<nat>)
      returns (ok: bool)
      requires Valid() && forall n :: 0 <= n < |records| ==> CarriesZero(records[n].1)
      modifies this, store, hot, hot.names, hot.index
      ensures Valid() && hidden == old(hidden) && store.db.volumes == old(store.db.volumes)
      ensures ok <==> (
                && Commits(FullChanges(volume, records), fault)
                && Commits(Removals(Excluded(FullChanges(volume, records), included)), pruneFault))
      ensures ok ==> (
                store.tables.view == ApplyAll(old(store.tables.view), FullChanges(volume, records))
                                     - Elements(Excluded(FullChanges(volume, records), included)))
      ensures !Commits(FullChanges(volume, records), fault) ==> Seen() == old(Seen()) && passes == old(passes)
      ensures Commits(FullChanges(volume, records), fault) && !ok ==>
                store.tables.view == ApplyAll(old(store.tables.view), FullChanges(volume, records))
      ensures ok ==> Scanned(old(store.tables.view), store.tables.view, volume, records, included)
      ensures Commits(FullChanges(volume, records), fault) && !ok ==>
                Scanned(old(store.tables.view), store.tables.view, volume, records, WithoutRules)
      ensures Commits(FullChanges(volume, records), fault) ==> Notes(old(passes), passes, volume, Recorded(records, included))
      ensures ok ==> Evolves(old(Seen()), Seen())
      ensures Commits(FullChanges(volume, records), fault) && !ok ==> (
                Evolves(old(Seen()), Seen()) <==>
                epochs.dependency > old(epochs.dependency)
                || Harmless(old(Seen()), old(hot.image.view), old(LayoutOf(hot.table)), FullChanges(volume, records), volume))
      ensures Commits(FullChanges(volume, records), fault) && !ok && hot.Roomy() ==> epochs == old(epochs)
      ensures hot.policy == old(hot.policy) && (hot.Roomy() ==> hot.evicted == old(hot.evicted))
    {
      FullBatchScans(store.tables.view, volume, records, included);
      ListedAreSighted(volume, records, included);
      ok := ApplyUsnBatchChanges(volume, FullChanges(volume, records), included, fault, pruneFault);
    }

    /** Enforcement and the announcement that end every successful change to a volume's rows. */
    method Announce(volume: Volume, changed: bool, ghost s: Shared, ghost u: Shared)
      requires Valid() && u == Seen() && Confined(s, u, volume) && s.epochs == epochs
      requires !changed ==> u.hot == s.hot
      modifies this, hot, hot.names, hot.index
      ensures Valid() && passes == old(passes) && hidden == old(hidden)
      ensures Evolves(s, Seen())
      ensures hot.policy == old(hot.policy)
      ensures hot.Roomy() ==>
                && hot.evicted == old(hot.evicted) && hot.table == old(hot.table)
                && hot.image.view == old(hot.image.view) && hot.memory == old(hot.memory)
    {
      Enforce();
      ghost var e := epochs;
      if changed {
        AdvanceIsLater(epochs, volume, false, false);
        epochs := Advance(epochs, volume, false, false);
        LaterTransitive(s.epochs, e, epochs);
      }
      Announced(s, u, Seen(), volume, changed);
    }

    method BeginReconciliationPass(volume: Volume)
      requires Valid()
      modifies this
      ensures Valid() && Seen() == old(Seen()) && passes == old(passes)[volume := {}]
    {
      passes := passes[volume := {}];
    }

    method AbortReconciliationPass(volume: Volume)
      requires Valid()
      modifies this
      ensures Valid() && Seen() == old(Seen()) && passes == old(passes) - {volume}
    {
      passes := passes - {volume};
    }

    /** Commits the removals chunk by chunk and then takes the committed ones out of memory. */
    method RemoveInChunks(volume: Volume, removals: seq<EntryKey>, chunkFault: Option<nat>) returns (done: nat)
      requires Valid() && forall k :: k in removals ==> k.volume == volume
      modifies store, hot, hot.names, hot.index
      ensures Valid() && done <= |removals| && (chunkFault.None? ==> done == |removals|)
      ensures store.tables.view == old(store.tables.view) - Elements(removals[..done])
      ensures Confined(old(Seen()), Seen(), volume) && (done == 0 ==> Seen().hot == old(Seen().hot))
      ensures hot.evicted == old(hot.evicted) && hot.image.view == old(hot.image.view) - Elements(removals[..done])
      ensures done % REMOVAL_CHUNK == 0 || done == |removals|
    {
      ghost var s, ids, view := Seen(), hot.table.ids, hot.image.view;
      done := CommitChunks(store, removals, chunkFault);
      var gone := removals[..done];
      assert forall k :: k in gone ==> k in removals;
      RemovalKeepsAgreement(view, old(store.tables.view), hot.evicted, Elements(gone));
      hot.RemoveBatch(gone, true, false);
      RemovedOnVolume(ids, view, gone, volume);
      HotConfined(ids, view, hot.table.ids, hot.image.view, volume, s, Seen());
      assert done == 0 ==> ids - Elements(gone) == ids && view - Elements(gone) == view;
    }

    /** Removes what the pass did not see or the rules leave out, chunk by chunk.  A chunk that fails
        ends it with the chunks before committed on both sides and the pass still owed. */
    method FinishReconciliationPass(volume: Volume, included: FileId -> bool, listingFails: bool,
                                    chunkFault: Option<nat>)
      returns (ghost committed: set<EntryKey>)
      requires Valid()
      modifies this, store, hot, hot.names, hot.index
      ensures Valid() && hidden == old(hidden) && Evolves(old(Seen()), Seen()) && hot.evicted == old(hot.evicted)
      ensures store.tables.view == old(store.tables.view) - committed
      ensures volume !in old(passes) || listingFails ==> committed == {} && passes == old(passes)
      ensures hot.image.view == old(hot.image.view) - committed
      ensures volume in old(passes) && !listingFails ==> (
                var stale := Stale(old(store.tables.view), volume, old(passes)[volume], included);
                && committed <= stale && (chunkFault.None? ==> committed == stale)
                && (|committed| % REMOVAL_CHUNK == 0 || committed == stale)
                && (forall k :: k in old(store.tables.view) && Spares(volume, old(passes)[volume], included, k) ==>
                      k in store.tables.view)
                && (chunkFault.None? ==> forall k :: k in store.tables.view <==>
                      k in old(store.tables.view) && Spares(volume, old(passes)[volume], included, k))
                && passes == if committed == stale then old(passes) - {volume} else old(passes))
    {
      ghost var s := Seen();
      committed := {};
      if volume !in passes || listingFails {
        assert store.tables.view - {} == store.tables.view && hot.image.view - {} == hot.image.view;
        EvolvesReflexive(s);
        return;
      }
      var removals := StaleList(store.db, volume, passes[volume], included, store.tables);
      var done := RemoveInChunks(volume, removals, chunkFault);
      GoneSoFar(removals, done, volume);
      committed := Elements(removals[..done]);
      assert Elements(removals) == Stale(old(store.tables.view), volume, passes[volume], included);
      FinishLeavesSeen(old(store.tables.view), volume, passes[volume], included, committed);
      if done == |removals| {
        passes := passes - {volume};
      }
      AnnounceRemoval(volume, done > 0, s);
    }

    /** A pass whose finish broke off and is finished later leaves, on both sides, what one finish would
        have left. */
    method FinishAfterFailure(volume: Volume, included: FileId -> bool, chunkFault: Option<nat>)
      requires Valid() && volume in passes
      modifies this, store, hot, hot.names, hot.index
      ensures Valid() && passes == old(passes) - {volume} && hot.evicted == old(hot.evicted)
      ensures var stale := Stale(old(store.tables.view), volume, old(passes)[volume], included);
              store.tables.view == old(store.tables.view) - stale && hot.image.view == old(hot.image.view) - stale
    {
      ghost var rows, view, seen := store.tables.view, hot.image.view, passes[volume];
      ghost var stale := Stale(rows, volume, seen, included);
      ghost var first := FinishReconciliationPass(volume, included, false, chunkFault);
      if volume in passes {
        FinishIsRestartable(rows, volume, seen, included, first);
        ghost var second := FinishReconciliationPass(volume, included, false, None);
        assert first + second == stale;
        assert view - first - second == view - stale;
      }
    }

    method AnnounceRemoval(volume: Volume, any: bool, ghost s: Shared)
      requires Valid() && Confined(s, Seen(), volume) && s.epochs == epochs && (any || s.hot == Seen().hot)
      modifies this
      ensures Valid() && passes == old(passes) && hidden == old(hidden) && Evolves(s, Seen())
    {
      if any {
        epochs := Advance(epochs, volume, false, false);
        AdvanceIsLater(s.epochs, volume, false, false);
        RowsAnnounced(s, Seen(), volume);
      } else {
        NothingGone(s, Seen());
      }
    }

    /** A forgotten volume is gone from the store first, then from memory. */
    method ForgetVolume(volume: Volume, fault: bool) returns (ok: bool)
      requires Valid()
      modifies this, store, hot, hot.names, hot.index
      ensures Valid() && hidden == old(hidden) && Evolves(old(Seen()), Seen())
      ensures ok <==> !fault && volume in old(store.db.volumes) && !old(store.db.volumes)[volume]
      ensures !ok ==> Seen() == old(Seen()) && passes == old(passes)
      ensures hot.evicted == old(hot.evicted)
      ensures ok ==> forall k :: k in hot.image.view <==> k in old(hot.image.view) && k.volume != volume
      ensures ok ==> passes == old(passes) - {volume}
      ensures ok ==> forall k :: k in store.tables.view <==> k in old(store.tables.view) && k.volume != volume
    {
      ghost var s, view, rows := Seen(), hot.image.view, store.tables.view;
      ok := store.ForgetVolume(volume, fault);
      if !ok {
        EvolvesReflexive(s);
        return;
      }
      passes := passes - {volume};
      hot.RemoveVolume(volume, true);
      ForgottenAgrees(view, hot.image.view, rows, store.tables.view, hot.evicted, volume);
      AdvanceIsLater(epochs, volume, true, true);
      epochs := Advance(epochs, volume, true, true);
      StructureAnnounced(s, Seen());
    }

    /** New settings of a volume, which may change whether searches look at it; equal ones are not announced. */
    method SetVolumeHidden(volume: Volume, conceal: bool, equal: bool)
      requires Valid() && (equal ==> (conceal <==> volume in hidden))
      modifies this
      ensures Valid() && passes == old(passes) && Evolves(old(Seen()), Seen())
      ensures hidden == if conceal then old(hidden) + {volume} else old(hidden) - {volume}
      ensures equal ==> epochs == old(epochs)
    {
      ghost var s := Seen();
      if equal {
        assert hidden == if conceal then hidden + {volume} else hidden - {volume};
        EvolvesReflexive(s);
        return;
      }
      AdvanceIsLater(epochs, volume, true, true);
      hidden, epochs := if conceal then hidden + {volume} else hidden - {volume}, Advance(epochs, volume, true, true);
      StructureAnnounced(s, Seen());
    }

    /** Registers a volume; a new one is announced as a change of the set searched. */
    method ResolveVolume(volume: Volume)
      requires Valid()
      modifies this, store
      ensures Valid() && passes == old(passes) && hidden == old(hidden) && Evolves(old(Seen()), Seen())
      ensures volume in store.db.volumes && store.tables.view == old(store.tables.view)
      ensures volume !in old(store.db.volumes) ==> store.db.volumes == old(store.db.volumes)[volume := true]
      ensures volume in old(store.db.volumes) ==> store.db.volumes == old(store.db.volumes) && epochs == old(epochs)
    {
      ghost var s := Seen();
      var created := store.GetOrCreateVolume(volume);
      if created {
        AdvanceIsLater(epochs, volume, true, true);
        epochs := Advance(epochs, volume, true, true);
        StructureAnnounced(s, Seen());
      } else {
        EvolvesReflexive(s);
      }
    }

    /** Changes the availability of a known volume; only a change is announced. */
    method SetVolumeAvailable(volume: Volume, available: bool) returns (ok: bool)
      requires Valid()
      modifies this, store
      ensures Valid() && passes == old(passes) && hidden == old(hidden) && Evolves(old(Seen()), Seen())
      ensures store.tables.view == old(store.tables.view) && (ok <==> volume in old(store.db.volumes))
      ensures store.db.volumes == if ok then old(store.db.volumes)[volume := available] else old(store.db.volumes)
      ensures epochs == old(epochs) <==> !ok || old(store.db.volumes)[volume] == available
    {
      ghost var s := Seen();
      var changed;
      ok, changed := store.SetVolumeAvailable(volume, available);
      assert ok ==> store.db.volumes.Keys == s.volumes;
      if changed {
        AdvanceIsLater(epochs, volume, true, true);
        epochs := Advance(epochs, volume, true, true);
        StructureAnnounced(s, Seen());
      } else {
        EvolvesReflexive(s);
      }
    }

    /** Puts a volume out of memory.  All slots are renumbered, but only this volume is announced, and
        only if it was not cold already: searches that look elsewhere may not notice. */
    method UnloadVolume(volume: Volume)
      requires Valid()
      modifies this, hot, hot.names, hot.index
      ensures Valid() && passes == old(passes) && hidden == old(hidden)
      ensures Unloads(old(Seen()), Seen(), volume, hot.table.ids)
    {
      ghost var s, view := Seen(), hot.image.view;
      var flipped := EvictFromMemory(volume);
      if flipped {
        AnnounceRows(volume);
      }
      UnloadIsTrim(s, Seen(), view, hot.image, volume);
    }

    /** Evicts the volume and tells whether that turned it cold. */
    method EvictFromMemory(volume: Volume) returns (flipped: bool)
      requires Valid()
      modifies hot, hot.names, hot.index
      ensures Valid() && flipped == (volume in hot.evicted && volume !in old(hot.evicted))
      ensures old(hot.table.ids.Keys) == old(hot.image.view.Keys)
      ensures P.Vacated(old(hot.image.view), hot.image.view, volume, old(hot.evicted), hot.evicted)
      ensures if exists k :: k in old(hot.image.view) && k.volume == volume then hot.table.free == []
              else Seen() == old(Seen())
    {
      ghost var view, cold := hot.image.view, hot.evicted;
      SameKeys(hot.image);
      var wasEvicted := volume in hot.evicted;
      ghost var _ := hot.EvictVolume(volume);
      EvictedVolumeAgrees(view, hot.image.view, store.tables.view, cold, hot.evicted, volume);
      P.VacatedParts(view, hot.image.view, volume, cold, hot.evicted);
      flipped := !wasEvicted && volume in hot.evicted;
    }

    /** A change to one volume's rows is announced by its data epoch. */
    method AnnounceRows(volume: Volume)
      requires Valid()
      modifies this`epochs
      ensures Valid() && epochs == Advance(old(epochs), volume, false, false)
    {
      AdvanceIsLater(epochs, volume, false, false);
      epochs := Advance(epochs, volume, false, false);
    }

    /** Brings a cold volume back, if it is known, can be read and fits; announced as a change of
        structure either way. */
    method ReloadVolume(volume: Volume, failsAt: Option<nat>, outOfMemory: bool) returns (resident: bool)
      requires Valid()
      modifies this, hot, hot.names, hot.index
      ensures Valid() && passes == old(passes) && hidden == old(hidden) && Evolves(old(Seen()), Seen())
      ensures resident <==> volume !in hot.evicted
      ensures hot.policy == old(hot.policy)
      ensures hot.Roomy() && failsAt.None? && volume in store.db.volumes ==> hot.evicted == old(hot.evicted) - {volume}
    {
      ghost var s, view, cold := Seen(), hot.image.view, hot.evicted;
      if volume !in hot.evicted {
        EvolvesReflexive(s);
        return true;
      }
      if volume !in store.db.volumes {
        epochs := AdvanceResidency(epochs);
        StructureAnnounced(s, Seen());
        return false;
      }
      var stream := store.ForEachEntry(volume);
      resident := hot.RebuildVolumeFromStore(volume, stream, failsAt, outOfMemory);
      AgreeMore(view, store.tables.view, cold, volume);
      ReloadAgrees(view, hot.image.view, store.tables.view, cold, hot.evicted, volume, stream);
      epochs := AdvanceResidency(epochs);
      StructureAnnounced(s, Seen());
    }

    /** A new memory budget is enforced at once; the volumes it turns cold are announced.  `d` tells which
        rows leave: one branch after the other, each of the row that goes first then. */
    method SetProjectionMemoryBudget(maximumBytes: nat) returns (ghost d: Departed)
      requires Valid()
      modifies this, hot, hot.names, hot.index
      ensures Valid() && passes == old(passes) && hidden == old(hidden) && P.AllBranches(d.extents)
      ensures d.before == old(hot.image.view) && d.ages == old(hot.dated.ages)
      ensures hot.policy.maximumBytes == if maximumBytes == 0 then P.DEFAULT_MAXIMUM else maximumBytes
      ensures d.extents != [] <==> old(hot.Estimate()) > hot.policy.maximumBytes && old(hot.image.view) != map[]
      ensures if d.extents != [] then Trims(old(Seen()), Seen(), Gone(d), hot.table.ids) else Seen() == old(Seen())
      ensures hot.Fits(hot.policy.maximumBytes, old(hot.memory.changes)) ==> |d.extents| <= 1
      ensures hot.Estimate() <= hot.policy.maximumBytes || hot.image.view == map[]
    {
      ghost var s := Seen();
      var flipped;
      flipped, d := ShrinkMemory(maximumBytes);
      AnnounceCold(flipped);
      if d.extents != [] {
        DepartureIsTrim(s, Seen(), d, hot.image, flipped);
      }
    }

    /** Each of these volumes is announced by its data epoch. */
    method AnnounceCold(volumes: set<Volume>)
      requires Valid()
      modifies this`epochs
      ensures Valid() && Advanced(old(epochs), epochs, volumes) && (volumes == {} ==> epochs == old(epochs))
    {
      epochs := AdvanceEach(epochs, volumes);
    }

    /** Enforces the budget and tells which known volumes turned cold. */
    method ShrinkMemory(maximumBytes: nat) returns (flipped: set<Volume>, ghost d: Departed)
      requires Valid()
      modifies hot, hot.names, hot.index
      ensures Valid() && Flips(flipped, old(hot.evicted), hot.evicted, store.db.volumes.Keys)
      ensures hot.Ends(d) && P.AllBranches(d.extents) && old(hot.table.ids.Keys) == d.before.Keys
      ensures d.before == old(hot.image.view) && d.ages == old(hot.dated.ages) && d.marked == old(hot.evicted)
      ensures hot.policy.maximumBytes == if maximumBytes == 0 then P.DEFAULT_MAXIMUM else maximumBytes
      ensures d.extents != [] <==> old(hot.Estimate()) > hot.policy.maximumBytes && old(hot.image.view) != map[]
      ensures d.extents == [] ==> Seen() == old(Seen()) && flipped == {}
      ensures hot.Fits(hot.policy.maximumBytes, old(hot.memory.changes)) ==> |d.extents| <= 1
      ensures hot.Estimate() <= hot.policy.maximumBytes || hot.image.view == map[]
    {
      SameKeys(hot.image);
      var before := hot.evicted;
      d := hot.SetMaximumMemoryBytes(maximumBytes);
      DepartedAgrees(d, store.tables.view);
      flipped := (hot.evicted - before) * store.db.volumes.Keys;
    }

    /** Streams the next volume in from the store; those not yet rebuilt may hold anything. */
    method RebuildOne(volumes: seq<Volume>, n: nat, failsAt: Option<nat>) returns (resident: bool)
      requires store.Valid() && hot.Valid() && n < |volumes|
      requires forall i, j :: 0 <= i < j < |volumes| ==> volumes[i] != volumes[j]
      requires Agree(hot.image.view, store.tables.view, hot.evicted + VolumesOf(volumes[n..]))
      modifies hot, hot.names, hot.index
      ensures hot.Valid() && hot.policy == old(hot.policy) && (resident <==> volumes[n] !in hot.evicted)
      ensures Agree(hot.image.view, store.tables.view, hot.evicted + VolumesOf(volumes[n + 1..]))
      ensures hot.Roomy() && failsAt.None? ==> hot.evicted == old(hot.evicted) - {volumes[n]}
    {
      var stream := store.ForEachEntry(volumes[n]);
      ghost var view, cold := hot.image.view, hot.evicted;
      resident := hot.RebuildVolumeFromStore(volumes[n], stream, failsAt, false);
      RebuiltAgrees(view, hot.image.view, store.tables.view, cold, hot.evicted, volumes, n, stream);
    }

    /** After a volume was rebuilt, what its rules leave out goes from the store and then from memory. */
    method PruneRebuilt(volume: Volume, rules: Rules, ghost later: set<Volume>) returns (ok: bool)
      requires store.Valid() && hot.Valid() && Agree(hot.image.view, store.tables.view, hot.evicted + later)
      modifies store, hot, hot.names, hot.index
      ensures store.Valid() && hot.Valid() && Agree(hot.image.view, store.tables.view, hot.evicted + later)
      ensures hot.evicted == old(hot.evicted) && hot.policy == old(hot.policy) && store.db.volumes == old(store.db.volumes)
      ensures store.tables.view == if ok then old(store.tables.view) - LeftOut(old(store.tables.view), volume, rules)
                                   else old(store.tables.view)
      ensures rules.Clean(volume) ==> ok
    {
      if !rules.configured(volume) {
        assert store.tables.view - LeftOut(store.tables.view, volume, rules) == store.tables.view;
        return true;
      }
      if rules.readFails(volume) {
        return false;
      }
      var keys := LeftOutList(store.db, volume, rules, store.tables);
      if keys == [] {
        assert store.tables.view - LeftOut(store.tables.view, volume, rules) == store.tables.view;
        return true;
      }
      ghost var view := hot.image.view;
      assert Elements(keys) == LeftOut(store.tables.view, volume, rules);
      RemovalsRemove(store.tables.view, keys);
      RemovalKeepsAgreement(view, store.tables.view, hot.evicted + later, Elements(keys));
      ok := store.ApplyBatch(Removals(keys), rules.faults(volume));
      if ok {
        hot.RemoveBatch(keys, true, false);
      }
    }

    /** The startup rebuild: whatever memory held before, every volume that ends up resident agrees with the
        store, and all do if they can be read and fit.  Exactly the rows the rules leave out of the volumes
        reported as rebuilt go from the store; a volume whose pruning fails is not reported. */
    method RebuildAll(volumes: seq<Volume>, failsAt: Volume -> Option<nat>, rules: Rules) returns (rebuilt: set<Volume>)
      requires store.Valid() && hot.Valid() && Bounded(epochs)
      requires forall i, j :: 0 <= i < j < |volumes| ==> volumes[i] != volumes[j]
      requires forall k :: k in store.tables.view || k in hot.image.view ==> k.volume in volumes
      modifies this, store, hot, hot.names, hot.index
      ensures Valid() && passes == old(passes) && hidden == old(hidden) && hot.policy == old(hot.policy)
      ensures store.tables.view == old(store.tables.view) - AllLeftOut(old(store.tables.view), rebuilt, rules)
      ensures forall k :: k in store.tables.view <==> (
                && k in old(store.tables.view)
                && (k.volume in rebuilt && rules.configured(k.volume) ==> rules.included(k.volume, k.id)))
      ensures rebuilt <= VolumesOf(volumes) && Advanced(old(epochs), epochs, rebuilt)
      ensures hot.Roomy() && (forall v :: v in volumes ==> failsAt(v).None? && rules.Clean(v)) ==>
                rebuilt == VolumesOf(volumes) && hot.evicted == old(hot.evicted) - VolumesOf(volumes)
    {
      rebuilt := RebuildVolumes(volumes, failsAt, rules);
      epochs := AdvanceEach(epochs, rebuilt);
    }

    method RebuildVolumes(volumes: seq<Volume>, failsAt: Volume -> Option<nat>,
                          rules: Rules) returns (rebuilt: set<Volume>)
      requires store.Valid() && hot.Valid()
      requires forall i, j :: 0 <= i < j < |volumes| ==> volumes[i] != volumes[j]
      requires forall k :: k in store.tables.view || k in hot.image.view ==> k.volume in volumes
      modifies store, hot, hot.names, hot.index
      ensures store.Valid() && hot.Valid() && hot.policy == old(hot.policy)
      ensures Agree(hot.image.view, store.tables.view, hot.evicted)
      ensures store.tables.view == old(store.tables.view) - AllLeftOut(old(store.tables.view), rebuilt, rules)
      ensures rebuilt <= VolumesOf(volumes)
      ensures hot.Roomy() && (forall v :: v in volumes ==> failsAt(v).None? && rules.Clean(v)) ==>
                rebuilt == VolumesOf(volumes) && hot.evicted == old(hot.evicted) - VolumesOf(volumes)
    {
      rebuilt := {};
      assert VolumesOf(volumes[..0]) == {} && store.tables.view - AllLeftOut(store.tables.view, {}, rules) == store.tables.view;
      for n := 0 to |volumes|
        invariant store.Valid() && hot.Valid() && hot.policy == old(hot.policy)
        invariant Agree(hot.image.view, store.tables.view, hot.evicted + VolumesOf(volumes[n..]))
        invariant store.tables.view == old(store.tables.view) - AllLeftOut(old(store.tables.view), rebuilt, rules)
        invariant rebuilt <= VolumesOf(volumes[..n])
        invariant hot.Roomy() && (forall v :: v in volumes ==> failsAt(v).None? && rules.Clean(v)) ==>
                    rebuilt == VolumesOf(volumes[..n]) && hot.evicted == old(hot.evicted) - VolumesOf(volumes[..n])
      {
        LeftOutMore(old(store.tables.view), rebuilt, volumes, n, rules);
        var ok := RebuildAndPrune(volumes, n, failsAt(volumes[n]), rules);
        if ok {
          rebuilt := rebuilt + {volumes[n]};
        }
      }
      assert hot.evicted + VolumesOf(volumes[|volumes|..]) == hot.evicted && volumes[..|volumes|] == volumes;
    }

    method RebuildAndPrune(volumes: seq<Volume>, n: nat, failsAt: Option<nat>, rules: Rules) returns (ok: bool)
      requires store.Valid() && hot.Valid() && n < |volumes|
      requires forall i, j :: 0 <= i < j < |volumes| ==> volumes[i] != volumes[j]
      requires Agree(hot.image.view, store.tables.view, hot.evicted + VolumesOf(volumes[n..]))
      modifies store, hot, hot.names, hot.index
      ensures store.Valid() && hot.Valid() && hot.policy == old(hot.policy)
      ensures Agree(hot.image.view, store.tables.view, hot.evicted + VolumesOf(volumes[n + 1..]))
      ensures hot.Roomy() && failsAt.None? ==> hot.evicted == old(hot.evicted) - {volumes[n]}
      ensures (ok ==> volumes[n] !in hot.evicted) && (hot.Roomy() && failsAt.None? && rules.Clean(volumes[n]) ==> ok)
      ensures store.tables.view == if ok then old(store.tables.view) - LeftOut(old(store.tables.view), volumes[n], rules)
                                   else old(store.tables.view)
    {
      ok := RebuildOne(volumes, n, failsAt);
      if ok {
        ok := PruneRebuilt(volumes[n], rules, VolumesOf(volumes[n + 1..]));
      }
    }
  }

  /** The rules of the volumes that have any, and where reading and pruning them fails. */
  datatype Rules = Rules(
    configured: Volume -> bool, included: (Volume, FileId) -> bool, readFails: Volume -> bool, faults: Volume -> Option<nat>)
  {
    predicate Clean(volume: Volume) {
      !configured(volume) || (!readFails(volume) && faults(volume).None?)
    }
  }

  function LeftOut(rows: Rows, volume: Volume, rules: Rules): set<EntryKey> {
    set k | k in rows && k.volume == volume && rules.configured(volume) && !rules.included(volume, k.id)
  }

  function AllLeftOut(rows: Rows, volumes: set<Volume>, rules: Rules): set<EntryKey> {
    set k | k in rows && k.volume in volumes && rules.configured(k.volume) && !rules.included(k.volume, k.id)
  }

  method LeftOutList(d: Database, volume: Volume, rules: Rules, ghost t: Consistent) returns (keys: seq<EntryKey>)
    requires t.d == d
    ensures Enumerates(keys, LeftOut(t.view, volume, rules))
  {
    Opened(t);
    var excluded := set k | k in d.rows && k.volume == volume && rules.configured(volume) && !rules.included(volume, k.id);
    assert excluded == LeftOut(t.view, volume, rules);
    keys := Enumerate(excluded);
  }

  /** One more volume's left-out rows go; those before it are of other volumes. */
  lemma LeftOutMore(rows: Rows, rebuilt: set<Volume>, volumes: seq<Volume>, n: nat, rules: Rules)
    requires n < |volumes| && rebuilt <= VolumesOf(volumes[..n])
    requires forall i, j :: 0 <= i < j < |volumes| ==> volumes[i] != volumes[j]
    ensures var left := rows - AllLeftOut(rows, rebuilt, rules);
            left - LeftOut(left, volumes[n], rules) == rows - AllLeftOut(rows, rebuilt + {volumes[n]}, rules)
    ensures VolumesOf(volumes[..n + 1]) == VolumesOf(volumes[..n]) + {volumes[n]}
  {
    assert volumes[n] !in volumes[..n] && volumes[..n + 1] == volumes[..n] + [volumes[n]];
  }

  ghost function VolumesOf(volumes: seq<Volume>): set<Volume> {
    set v | v in volumes
  }

  lemma RebuiltAgrees(hot: Rows, left: Rows, durable: Rows, cold: set<Volume>, colder: set<Volume>,
                      volumes: seq<Volume>, n: nat, stream: seq<(EntryKey, Row)>)
    requires n < |volumes| && forall i, j :: 0 <= i < j < |volumes| ==> volumes[i] != volumes[j]
    requires Agree(hot, durable, cold + VolumesOf(volumes[n..])) && Streams(stream, durable, volumes[n])
    requires P.Shrunk(P.Overlay(P.OtherVolumes(hot, volumes[n]), stream), left, colder) && cold - {volumes[n]} <= colder
    ensures Agree(left, durable, colder + VolumesOf(volumes[n + 1..]))
  {
    var volume, later := volumes[n], VolumesOf(volumes[n + 1..]);
    assert volumes[n..] == [volume] + volumes[n + 1..];
    assert VolumesOf(volumes[n..]) == {volume} + later;
    ReloadAgrees(hot, left, durable, cold + later, colder + later, volume, stream);
  }

  lemma ForgottenAgrees(hot: Rows, left: Rows, durable: Rows, rest: Rows, cold: set<Volume>, volume: Volume)
    requires Agree(hot, durable, cold) && P.Shrunk(hot, left, {volume})
    requires forall k :: k in left <==> k in hot && k.volume != volume
    requires rest == map k | k in durable && k.volume != volume :: durable[k]
    ensures Agree(left, rest, cold)
  {
    forall k: EntryKey | k.volume !in cold ensures SameRow(left, rest, k) {
      assert SameRow(hot, durable, k);
    }
  }

  lemma EvictedVolumeAgrees(hot: Rows, left: Rows, durable: Rows, cold: set<Volume>, colder: set<Volume>,
                            volume: Volume)
    requires Agree(hot, durable, cold) && P.Vacated(hot, left, volume, cold, colder)
    ensures Agree(left, durable, colder)
  {
    P.VacatedParts(hot, left, volume, cold, colder);
    forall k: EntryKey | k.volume !in colder ensures SameRow(left, durable, k) {
      assert SameRow(hot, durable, k);
    }
  }

  lemma AgreeMore(hot: Rows, durable: Rows, cold: set<Volume>, volume: Volume)
    requires Agree(hot, durable, cold)
    ensures Agree(hot, durable, cold + {volume})
  {
    forall k: EntryKey | k.volume !in cold + {volume} ensures SameRow(hot, durable, k) {
    }
  }

  /** The known volumes that turned cold. */
  ghost predicate Flips(flipped: set<Volume>, cold: set<Volume>, colder: set<Volume>, known: set<Volume>) {
    forall v :: v in flipped <==> v in colder && v !in cold && v in known
  }

  /** Exactly the data epochs of these volumes advanced. */
  ghost predicate Advanced(e: Epochs, f: Epochs, volumes: set<Volume>) {
    && Later(e, f) && f.dependency == e.dependency && f.config == e.config
    && forall v :: if v in volumes then At(f.data, v) > At(e.data, v) else At(f.data, v) == At(e.data, v)
  }

  method AdvanceEach(e: Epochs, volumes: set<Volume>) returns (f: Epochs)
    requires Bounded(e)
    ensures Advanced(e, f, volumes) && Bounded(f) && (volumes == {} ==> f == e)
  {
    f := e;
    var rest := volumes;
    while rest != {}
      invariant Later(e, f) && f.dependency == e.dependency && f.config == e.config && rest <= volumes
      invariant volumes == {} ==> f == e
      invariant forall v :: if v in volumes - rest then At(f.data, v) > At(e.data, v) else At(f.data, v) == At(e.data, v)
      decreases |rest|
    {
      var v :| v in rest;
      AdvanceIsLater(f, v, false, false);
      LaterTransitive(e, f, Advance(f, v, false, false));
      f := Advance(f, v, false, false);
      rest := rest - {v};
    }
  }

  function RowsIn(s: Shared, volume: Volume): set<EntryKey> {
    set k | k in s.hot.slots && k.volume == volume
  }

  /** From `s` to `t` the rows `gone` left memory, the others were numbered anew, and the volumes that
      turned cold for searches were announced. */
  ghost predicate IsTrim(s: Shared, t: Shared, gone: set<EntryKey>, slots: map<EntryKey, nat>) {
    && gone <= s.hot.slots.Keys && Numbers(slots, Staying(s, gone)) && AnnouncesFlips(s, gone, t.epochs)
    && t == Trimmed(s, gone, slots, t.epochs)
  }

  /** The same, sealed. */
  ghost predicate Trims(s: Shared, t: Shared, gone: set<EntryKey>, slots: map<EntryKey, nat>) {
    forall q: ProjectionTable.Seal :: ProjectionTable.Broken(q) ==> IsTrim(s, t, gone, slots)
  }

  lemma TrimParts(s: Shared, t: Shared, gone: set<EntryKey>, slots: map<EntryKey, nat>)
    requires Trims(s, t, gone, slots)
    ensures IsTrim(s, t, gone, slots)
  {
    assert ProjectionTable.Broken(ProjectionTable.Seal);
  }

  ghost predicate Dense(ids: map<EntryKey, nat>) {
    && (forall k :: k in ids ==> ids[k] < |ids|)
    && (forall a, b :: a in ids && b in ids && ids[a] == ids[b] ==> a == b)
  }

  lemma TrimShape(s: Shared, t: Shared, view: Rows, left: Rows, ids: map<EntryKey, nat>, gone: set<EntryKey>)
    requires s.hot.slots.Keys == view.Keys && s.hot.rows == view
    requires gone <= view.Keys && left == view - gone
    requires ids.Keys == left.Keys && Dense(ids) && t.hot == Held(ids, left)
    requires t == s.(hot := t.hot, cold := s.cold + VolumesIn(gone), epochs := t.epochs) && AnnouncesFlips(s, gone, t.epochs)
    ensures IsTrim(s, t, gone, ids)
  {
    assert Staying(s, gone) == left.Keys;
    assert |ids| == |ids.Keys|;
  }

  /** Unloading a volume: nothing if it has no row in memory, else its rows leave. */
  ghost predicate Unloads(s: Shared, t: Shared, volume: Volume, slots: map<EntryKey, nat>) {
    if RowsIn(s, volume) == {} then t == s else IsTrim(s, t, RowsIn(s, volume), slots)
  }

  /** A smaller budget: branches leave one after the other, each of the row that goes first then. */
  ghost predicate Shrinks(s: Shared, t: Shared, slots: map<EntryKey, nat>, ages: Ages) {
    exists gone, extents ::
      extents != [] && P.AllBranches(extents) && Evictions(s.hot.rows, ages, gone, extents) && IsTrim(s, t, gone, slots)
  }

  lemma UnloadIsTrim(s: Shared, t: Shared, view: Rows, m: Sound, volume: Volume)
    requires Bounded(s.epochs) && s.hot.slots.Keys == view.Keys && s.hot.rows == view
    requires P.Vacated(view, m.view, volume, s.cold, t.cold) && t.hot == Held(m.t.ids, m.view)
    requires t == s.(hot := t.hot, cold := t.cold, epochs := t.epochs)
    requires if exists k :: k in view && k.volume == volume then m.t.free == [] else t.hot == s.hot
    requires t.epochs == if volume in t.cold && volume !in s.cold then Advance(s.epochs, volume, false, false) else s.epochs
    ensures Bounded(t.epochs) && Unloads(s, t, volume, m.t.ids)
  {
    var gone := RowsIn(s, volume);
    AdvanceIsLater(s.epochs, volume, false, false);
    VacatedRows(s, view, m.view, volume, t.cold);
    if gone != {} {
      DenseSlots(m);
      assert AnnouncesFlips(s, gone, t.epochs);
      TrimShape(s, t, view, m.view, m.t.ids, gone);
    }
  }

  lemma VacatedRows(s: Shared, view: Rows, left: Rows, volume: Volume, cold: set<Volume>)
    requires s.hot.slots.Keys == view.Keys && P.Vacated(view, left, volume, s.cold, cold)
    ensures left == view - RowsIn(s, volume)
    ensures RowsIn(s, volume) != {} <==> exists k :: k in view && k.volume == volume
    ensures cold == s.cold + VolumesIn(RowsIn(s, volume)) && VolumesIn(RowsIn(s, volume)) <= {volume}
    ensures RowsIn(s, volume) != {} ==> VolumesIn(RowsIn(s, volume)) == {volume}
  {
    P.VacatedParts(view, left, volume, s.cold, cold);
    var gone := RowsIn(s, volume);
    assert forall k :: k in gone <==> k in view && k.volume == volume;
    if k :| k in gone {
      assert k.volume in VolumesIn(gone);
    }
  }

  lemma DepartedAgrees(d: Departed, durable: Rows)
    requires Agree(d.before, durable, d.marked)
    ensures Agree(d.after, durable, d.evicted)
  {
    P.DepartedShrunk(d);
    EvictionKeepsAgreement(d.before, d.after, durable, d.marked, d.evicted);
  }

  lemma DepartureIsTrim(s: Shared, t: Shared, d: Departed, m: Sound, flipped: set<Volume>)
    requires s.hot.slots.Keys == d.before.Keys && s.hot.rows == d.before
    requires d.marked == s.cold && d.evicted == t.cold && d.after == m.view && m.t.free == [] && t.hot == Held(m.t.ids, m.view)
    requires t == s.(hot := t.hot, cold := t.cold, epochs := t.epochs)
    requires Flips(flipped, s.cold, t.cold, s.volumes) && Advanced(s.epochs, t.epochs, flipped)
    ensures Trims(s, t, Gone(d), m.t.ids)
  {
    DepartedParts(d);
    DenseSlots(m);
    TrimShape(s, t, d.before, m.view, m.t.ids, Gone(d));
  }

  /** What the budget method does is such a shrinking. */
  lemma BudgetShrinks(s: Shared, t: Shared, d: Departed, slots: map<EntryKey, nat>)
    requires s.hot.rows == d.before && d.extents != [] && P.AllBranches(d.extents) && Trims(s, t, Gone(d), slots)
    ensures Shrinks(s, t, slots, d.ages)
  {
    DepartedParts(d);
    TrimParts(s, t, Gone(d), slots);
  }

  /** Whether unloading a volume can mislead a search, told from the state before: it cannot, in any
      order of compaction, exactly if the volume has no row in memory, or searches read it there, or no
      order can move a row they read. */
  lemma UnloadMisleadsIff(s: Shared, volume: Volume)
    requires Bounded(s.epochs)
    ensures (forall t, slots :: Unloads(s, t, volume, slots) ==> Evolves(s, t))
            <==> RowsIn(s, volume) == {} || TrimSafe(s, RowsIn(s, volume))
  {
    var gone := RowsIn(s, volume);
    if gone == {} {
      EvolvesReflexive(s);
    } else if TrimSafe(s, gone) {
      forall t, slots | Unloads(s, t, volume, slots) ensures Evolves(s, t) {
        TrimKeepsSearches(s, t, gone, slots);
      }
    } else {
      var epochs := if volume in s.cold then s.epochs else Advance(s.epochs, volume, false, false);
      assert VolumesIn(gone) == {volume};
      AdvanceIsLater(s.epochs, volume, false, false);
      assert AnnouncesFlips(s, gone, epochs);
      TrimSafeIff(s, gone, epochs);
      var slots :| Numbers(slots, Staying(s, gone)) && !Evolves(s, Trimmed(s, gone, slots, epochs));
      assert Unloads(s, Trimmed(s, gone, slots, epochs), volume, slots);
    }
  }

  /** Whichever row goes first, its branch is one whose leaving searches can tell or need not. */
  ghost predicate BudgetSafe(s: Shared, ages: Ages) {
    forall v, taken :: GoesFirst(s.hot.rows, ages, v) && IsBranch(s.hot.rows, v, taken) ==> TrimSafe(s, taken)
  }

  /** The same for a budget that evicts, told from the rows and when each was last used: however many
      branches leave and however the rest is compacted, no search is misled exactly if the first branch
      to leave is safe. */
  lemma BudgetMisleadsIff(s: Shared, ages: Ages)
    requires Bounded(s.epochs) && s.hot.slots.Keys == s.hot.rows.Keys
    ensures (forall t, slots :: Shrinks(s, t, slots, ages) ==> Evolves(s, t)) <==> BudgetSafe(s, ages)
  {
    if BudgetSafe(s, ages) {
      forall t, slots | Shrinks(s, t, slots, ages) ensures Evolves(s, t) {
        SafeBudgetEvolves(s, t, slots, ages);
      }
    } else {
      var v, taken :| GoesFirst(s.hot.rows, ages, v) && IsBranch(s.hot.rows, v, taken) && !TrimSafe(s, taken);
      var t, slots := UnsafeBranch(s, taken);
      OneEviction(s.hot.rows, ages, v, taken, Branch);
      assert P.AllBranches([Branch]);
      assert Shrinks(s, t, slots, ages);
    }
  }

  lemma UnsafeBranch(s: Shared, taken: set<EntryKey>) returns (t: Shared, slots: map<EntryKey, nat>)
    requires Bounded(s.epochs) && taken <= s.hot.slots.Keys && !TrimSafe(s, taken)
    ensures IsTrim(s, t, taken, slots) && !Evolves(s, t)
  {
    QuietFlips(s, taken);
    TrimSafeIff(s, taken, s.epochs);
    slots :| Numbers(slots, Staying(s, taken)) && !Evolves(s, Trimmed(s, taken, slots, s.epochs));
    t := Trimmed(s, taken, slots, s.epochs);
  }

  lemma SafeBudgetEvolves(s: Shared, t: Shared, slots: map<EntryKey, nat>, ages: Ages)
    requires BudgetSafe(s, ages) && Shrinks(s, t, slots, ages)
    ensures Evolves(s, t)
  {
    var gone, extents :| extents != [] && P.AllBranches(extents) && Evictions(s.hot.rows, ages, gone, extents)
      && IsTrim(s, t, gone, slots);
    var v, taken := FirstEviction(s.hot.rows, ages, gone, extents);
    TrimSafeMore(s, taken, gone);
    TrimKeepsSearches(s, t, gone, slots);
  }

  /** If no row searches read leaves, there is nothing to announce to them. */
  lemma QuietFlips(s: Shared, gone: set<EntryKey>)
    requires Bounded(s.epochs) && !TrimSafe(s, gone)
    ensures AnnouncesFlips(s, gone, s.epochs)
  {
    forall v | v in Searchable(s) ensures !(v in VolumesIn(gone) && v !in s.cold) {
      if k :| k in gone && k.volume == v && v !in s.cold {
        assert Hot(s, k);
      }
    }
  }

  lemma TrimKeepsSearches(s: Shared, t: Shared, gone: set<EntryKey>, slots: map<EntryKey, nat>)
    requires IsTrim(s, t, gone, slots)
    ensures TrimSafe(s, gone) ==> Evolves(s, t)
  {
    TrimSafeIff(s, gone, t.epochs);
  }

  /** What finishing a pass would remove: rows it has not seen, and rows the rules leave out. */
  function Stale(rows: Rows, volume: Volume, seen: set<FileId>, included: FileId -> bool): set<EntryKey> {
    set k | k in rows && k.volume == volume && (k.id !in seen || !included(k.id))
  }

  method StaleList(d: Database, volume: Volume, seen: set<FileId>, included: FileId -> bool, ghost t: Consistent)
    returns (removals: seq<EntryKey>)
    requires t.d == d
    ensures Enumerates(removals, Stale(t.view, volume, seen, included))
  {
    Opened(t);
    var stale := set k | k in d.rows && k.volume == volume && (k.id !in seen || !included(k.id));
    assert stale == Stale(t.view, volume, seen, included);
    removals := Enumerate(stale);
  }

  lemma GoneSoFar(removals: seq<EntryKey>, done: nat, volume: Volume)
    requires done <= |removals| && forall i, j :: 0 <= i < j < |removals| ==> removals[i] != removals[j]
    requires forall k :: k in removals ==> k.volume == volume
    ensures forall k :: k in removals[..done] ==> k.volume == volume
    ensures Elements(removals[..done]) <= Elements(removals)
    ensures Elements(removals[..done]) == Elements(removals) <==> done == |removals|
    ensures |Elements(removals[..done])| == done
  {
    CountOf(removals[..done]);
    if done < |removals| {
      assert removals[done] in Elements(removals) && removals[done] !in Elements(removals[..done]);
    } else {
      assert removals[..done] == removals;
    }
  }

  lemma {:induction false} CountOf(keys: seq<EntryKey>)
    requires forall i, j :: 0 <= i < j < |keys| ==> keys[i] != keys[j]
    ensures |Elements(keys)| == |keys|
  {
    if keys != [] {
      var most, last := keys[..|keys| - 1], keys[|keys| - 1];
      assert keys == most + [last];
      CountOf(most);
      assert Elements(keys) == Elements(most) + {last} && last !in Elements(most);
    } else {
      assert Elements(keys) == {};
    }
  }

  lemma NothingGone(s: Shared, t: Shared)
    requires Bounded(s.epochs) && t.epochs == s.epochs
    requires t.hot == s.hot && t.cold == s.cold && t.volumes == s.volumes && t.hidden == s.hidden
    ensures Evolves(s, t)
  {
    assert forall k: EntryKey :: SameHot(s, t, k);
  }

  /** Each chunk is its own transaction; the first failing one ends the run. */
  method CommitChunks(store: Store, removals: seq<EntryKey>, chunkFault: Option<nat>) returns (done: nat)
    requires store.Valid()
    modifies store
    ensures store.Valid() && store.db.volumes == old(store.db.volumes)
    ensures done <= |removals| && (chunkFault.None? ==> done == |removals|)
    ensures done % REMOVAL_CHUNK == 0 || done == |removals|
    ensures store.tables.view == old(store.tables.view) - Elements(removals[..done])
  {
    done := 0;
    var chunk := 0;
    assert store.tables.view - Elements(removals[..0]) == store.tables.view;
    while done < |removals|
      invariant store.Valid() && store.db.volumes == old(store.db.volumes)
      invariant done <= |removals| && (done % REMOVAL_CHUNK == 0 || done == |removals|)
      invariant store.tables.view == old(store.tables.view) - Elements(removals[..done])
    {
      var end := if done + REMOVAL_CHUNK < |removals| then done + REMOVAL_CHUNK else |removals|;
      ghost var rows := store.tables.view;
      RemovalsRemove(rows, removals[done..end]);
      var ok := store.ApplyBatch(Removals(removals[done..end]), if chunkFault == Some(chunk) then Some(0) else None);
      if !ok {
        return;
      }
      ChunkGone(old(store.tables.view), removals, done, end);
      done, chunk := end, chunk + 1;
    }
  }

  lemma ChunkGone(rows: Rows, removals: seq<EntryKey>, begin: nat, end: nat)
    requires begin <= end <= |removals|
    ensures rows - Elements(removals[..begin]) - Elements(removals[begin..end]) == rows - Elements(removals[..end])
  {
    assert removals[..end] == removals[..begin] + removals[begin..end];
  }

  /** Finishing again after any committed part leaves the rows an uninterrupted finish leaves. */
  lemma FinishIsRestartable(rows: Rows, volume: Volume, seen: set<FileId>, included: FileId -> bool,
                            committed: set<EntryKey>)
    requires committed <= Stale(rows, volume, seen, included)
    ensures Stale(rows - committed, volume, seen, included) == Stale(rows, volume, seen, included) - committed
    ensures (rows - committed) - Stale(rows - committed, volume, seen, included) == rows - Stale(rows, volume, seen, included)
  {
  }

  /** A finish spares this row: it is of another volume, or was seen and the rules include it. */
  predicate Spares(volume: Volume, seen: set<FileId>, included: FileId -> bool, k: EntryKey) {
    k.volume == volume ==> k.id in seen && included(k.id)
  }

  /** Whatever part of a finish is committed, what it spares stays; an uninterrupted one leaves nothing else. */
  lemma FinishLeavesSeen(rows: Rows, volume: Volume, seen: set<FileId>, included: FileId -> bool, committed: set<EntryKey>)
    requires committed <= Stale(rows, volume, seen, included)
    ensures forall k :: k in rows && Spares(volume, seen, included, k) ==> k in rows - committed
    ensures committed == Stale(rows, volume, seen, included) ==>
              forall k :: k in rows - committed <==> k in rows && Spares(volume, seen, included, k)
  {
  }

  lemma Announced(s: Shared, u: Shared, t: Shared, volume: Volume, changed: bool)
    requires Bounded(s.epochs) && Confined(s, u, volume) && u.epochs == s.epochs && Later(s.epochs, t.epochs)
    requires !changed ==> u.hot == s.hot
    requires t.epochs.dependency > s.epochs.dependency || (
               t == u.(epochs := if changed then Advance(s.epochs, volume, false, false) else s.epochs))
    ensures Evolves(s, t)
  {
    if t.epochs.dependency > s.epochs.dependency {
      StructureAnnounced(s, t);
    } else if changed {
      RowsAnnounced(s, t, volume);
    } else {
      assert forall k: EntryKey :: SameHot(s, t, k);
    }
  }

  function Watched(passes: map<Volume, set<FileId>>, volume: Volume, changes: seq<Change>, included: FileId -> bool)
    : map<Volume, set<FileId>>
  {
    if volume in passes then passes[volume := passes[volume] + Observed(changes, included)] else passes
  }

  function FullChanges(volume: Volume, records: seq<(FileId, Row)>): (changes: seq<Change>)
    ensures OnVolume(changes, volume)
    ensures (forall n :: 0 <= n < |records| ==> CarriesZero(records[n].1)) ==> AllCarryZero(changes)
  {
    seq(|records|, n requires 0 <= n < |records| => Upsert(EntryKey(volume, records[n].0), records[n].1, ALL_FIELDS))
  }

  lemma SameKeys(m: Sound)
    ensures m.t.ids.Keys == m.view.Keys
  {
    forall k ensures k in m.t.ids <==> k in m.view {
      Found(m, k);
    }
  }

  lemma RemovedOnVolume(ids: map<EntryKey, nat>, view: Rows, keys: seq<EntryKey>, volume: Volume)
    requires forall k :: k in keys ==> k.volume == volume
    ensures SlotsKept(ids, ids - Elements(keys), volume) && RowsKept(view, view - Elements(keys), volume)
  {
  }

  // ---- three changes that go unnoticed, on a real pipeline ----

  const SOME_FILE := Row(0, [0x61], Facts(0, 0, true, 0, 0, 0, 0))
  const SOME_FOLDER := Row(0, [0x62], Facts(0, 0, true, 0, 0, 0, ATTRIBUTE_DIRECTORY))

  lemma OneChange(c: Change, included: FileId -> bool, rows: Rows, l: Layout)
    requires c.Upsert? && c.fields == ALL_FIELDS
    ensures ApplyHot(rows, c) == rows[c.key := c.row]
    ensures Excluded([c], included) == if included(c.key.id) then [] else [c.key]
    ensures ApplyHotAll(rows, [c]) == ApplyHot(rows, c) && ApplyAll(rows, [c]) == ApplyChange(rows, c)
    ensures PlaceAll(l, [c]) == Place(l, c.key)
  {
    assert [c][..0] == [];
  }

  /** On any pipeline with room: a batch whose only file is new and left out by the rules, and whose
      pruning fails.  The row is in the store and in memory, and no epoch shows it. */
  method FailedPruneGoesUnnoticed(p: Pipeline, key: EntryKey, included: FileId -> bool)
    requires p.Valid() && p.hot.Roomy() && !included(key.id)
    requires Hot(p.Seen(), key) && key !in p.hot.image.view
    modifies p, p.store, p.hot, p.hot.names, p.hot.index
    ensures p.Valid() && p.epochs == old(p.epochs) && key in p.store.tables.view
    ensures !Evolves(old(p.Seen()), p.Seen())
  {
    var changes := [Upsert(key, SOME_FILE, ALL_FIELDS)];
    OneChange(changes[0], included, p.hot.image.view, LayoutOf(p.hot.table));
    OneChange(changes[0], included, p.store.tables.view, LayoutOf(p.hot.table));
    assert !SameRow(p.hot.image.view, ApplyHotAll(p.hot.image.view, changes), key);
    var _ := p.ApplyUsnBatchChanges(key.volume, changes, included, None, Some(0));
  }

  /** Such a pipeline: a volume was registered and has no rows yet. */
  method FreshVolume(volume: Volume, hash: Name -> nat, mayFold: Unit -> bool,
                     estimates: nat -> nat) returns (p: Pipeline)
    requires forall n: nat :: estimates(n) <= P.LowWatermark(P.DEFAULT_MAXIMUM)
    ensures fresh(p) && fresh(p.store) && fresh(p.hot) && fresh(p.hot.names) && fresh(p.hot.index)
    ensures p.Valid() && p.hot.Roomy() && volume in Searchable(p.Seen()) && p.hot.evicted == {} && p.hidden == {}
    ensures p.hot.image.view.Keys == {} && LayoutOf(p.hot.table).ids.Keys == {}
    ensures LayoutOf(p.hot.table).free == [] && LayoutOf(p.hot.table).count == 0
    ensures p.hot.memory.changes == 0 && p.hot.estimates == estimates
  {
    p := new Pipeline(hash, mayFold, estimates);
    p.ResolveVolume(volume);
  }

  /** On any pipeline: unloading a volume that searches do not read while the only other row is one they
      do, and not in the first slot.  The row moves, and the epochs searches compare do not show it. */
  method UnloadGoesUnnoticed(p: Pipeline, volume: Volume, key: EntryKey)
    requires p.Valid() && !Hot(p.Seen(), EntryKey(volume, key.id)) && RowsIn(p.Seen(), volume) != {}
    requires Hot(p.Seen(), key) && Staying(p.Seen(), RowsIn(p.Seen(), volume)) == {key} && p.hot.table.ids[key] != 0
    modifies p, p.hot, p.hot.names, p.hot.index
    ensures p.Valid() && SameEpochs(old(p.epochs), p.epochs, Searchable(p.Seen()))
    ensures !Evolves(old(p.Seen()), p.Seen())
  {
    ghost var s := p.Seen();
    p.UnloadVolume(volume);
    UnloadMoves(s, p.Seen(), volume, key, p.hot.table.ids);
  }

  lemma UnloadMoves(s: Shared, t: Shared, volume: Volume, key: EntryKey, slots: map<EntryKey, nat>)
    requires Unloads(s, t, volume, slots) && RowsIn(s, volume) != {} && !Hot(s, EntryKey(volume, key.id))
    requires Hot(s, key) && Staying(s, RowsIn(s, volume)) == {key} && s.hot.slots[key] != 0
    ensures SameEpochs(s.epochs, t.epochs, Searchable(t)) && !Evolves(s, t)
  {
    TrimMoves(s, t, RowsIn(s, volume), key, slots);
  }

  /** The only row that stays moves to the first slot, and searches are told nothing. */
  lemma TrimMoves(s: Shared, t: Shared, gone: set<EntryKey>, key: EntryKey, slots: map<EntryKey, nat>)
    requires IsTrim(s, t, gone, slots) && forall k :: k in gone ==> !Hot(s, k)
    requires Hot(s, key) && Staying(s, gone) == {key} && s.hot.slots[key] != 0
    ensures SameEpochs(s.epochs, t.epochs, Searchable(t)) && !Evolves(s, t)
  {
    TrimmedIff(s, gone, slots, t.epochs);
    forall v | v in Searchable(s) ensures At(t.epochs.data, v) == At(s.epochs.data, v) {
      assert At(s.epochs.data, v) <= At(t.epochs.data, v);
      if k :| k in gone && k.volume == v && v !in s.cold {
        assert Hot(s, k);
      }
    }
    assert slots[key] == 0;
  }

  /** On any pipeline that holds a folder searches do not read and, not in the first slot, a file they do:
      a budget that one eviction meets.  The folder goes, the file moves, and no epoch searches compare
      shows it. */
  method BudgetGoesUnnoticed(p: Pipeline, folder: EntryKey, key: EntryKey)
    requires p.Valid() && p.hot.image.view.Keys == {folder, key} && p.hot.table.ids.Keys == {folder, key}
    requires Hot(p.Seen(), key) && !Hot(p.Seen(), folder) && p.hot.table.ids[key] != 0
    requires KindOf(folder, p.hot.image.view[folder]) < KindOf(key, p.hot.image.view[key])
    requires !LiesIn(p.hot.image.view, key, folder)
    requires p.hot.Estimate() > 1 && p.hot.Fits(p.hot.Estimate() - 1, p.hot.memory.changes)
    modifies p, p.hot, p.hot.names, p.hot.index
    ensures p.Valid() && SameEpochs(old(p.epochs), p.epochs, Searchable(p.Seen()))
    ensures !Evolves(old(p.Seen()), p.Seen())
  {
    ghost var s := p.Seen();
    ghost var d := p.SetProjectionMemoryBudget(p.hot.Estimate() - 1);
    FolderLeaves(s, p.Seen(), d, folder, key, p.hot.table.ids);
  }

  lemma FolderLeaves(s: Shared, t: Shared, d: Departed, folder: EntryKey, key: EntryKey, slots: map<EntryKey, nat>)
    requires Trims(s, t, Gone(d), slots) && d.before.Keys == {folder, key} && s.hot.slots.Keys == {folder, key}
    requires KindOf(folder, d.before[folder]) < KindOf(key, d.before[key]) && !LiesIn(d.before, key, folder)
    requires |d.extents| == 1 && P.AllBranches(d.extents)
    requires Hot(s, key) && !Hot(s, folder) && s.hot.slots[key] != 0
    ensures SameEpochs(s.epochs, t.epochs, Searchable(t)) && !Evolves(s, t)
  {
    OnlyFolderLeaves(d, folder, key);
    TrimParts(s, t, Gone(d), slots);
    assert folder != key;
    assert Staying(s, Gone(d)) == {key};
    TrimMoves(s, t, Gone(d), key, slots);
  }

  lemma OnlyFolderLeaves(d: Departed, folder: EntryKey, key: EntryKey)
    requires d.before.Keys == {folder, key} && KindOf(folder, d.before[folder]) < KindOf(key, d.before[key])
    requires !LiesIn(d.before, key, folder) && |d.extents| == 1 && P.AllBranches(d.extents)
    ensures Gone(d) == {folder}
  {
    DepartedParts(d);
    var v, taken := FirstEviction(d.before, d.ages, Gone(d), d.extents);
    assert NoLater(d.before, d.ages, v, folder);
    assert ClosedBelow(d.before, {folder});
  }

  /** The footprint falls with every change of the storage, at first. */
  function Easing(n: nat): nat {
    if n < 100 then 200 - n else 100
  }

  /** Such a pipeline: a folder of a volume that is then hidden, and behind it a file of another volume. */
  method FolderAndFile(hash: Name -> nat, mayFold: Unit -> bool) returns (p: Pipeline)
    ensures fresh(p) && fresh(p.hot) && fresh(p.hot.names) && fresh(p.hot.index) && p.Valid()
    ensures var folder, key := EntryKey(Volume(2), 7), EntryKey(Volume(1), 7);
            && p.hot.image.view == map[folder := SOME_FOLDER, key := SOME_FILE]
            && p.hot.table.ids == map[folder := 0, key := 1] && Hot(p.Seen(), key) && !Hot(p.Seen(), folder)
    ensures p.hot.Estimate() > 1 && p.hot.Fits(p.hot.Estimate() - 1, p.hot.memory.changes)
  {
    p := TwoVolumes(SOME_FOLDER, hash, mayFold, Easing, _ => true);
  }

  /** On a new pipeline, from start to end. */
  method SmallBudgetGoesUnnoticed(hash: Name -> nat, mayFold: Unit -> bool) returns (p: Pipeline, ghost before: Shared)
    ensures fresh(p) && p.Valid() && SameEpochs(before.epochs, p.epochs, Searchable(p.Seen())) && !Evolves(before, p.Seen())
  {
    p := FolderAndFile(hash, mayFold);
    before := p.Seen();
    BudgetGoesUnnoticed(p, EntryKey(Volume(2), 7), EntryKey(Volume(1), 7));
  }

  /** One row of a volume that is then hidden, and behind it a file of another volume. */
  method TwoVolumes(row: Row, hash: Name -> nat, mayFold: Unit -> bool, estimates: nat -> nat, included: FileId -> bool)
    returns (p: Pipeline)
    requires (forall n: nat :: estimates(n) <= P.LowWatermark(P.DEFAULT_MAXIMUM)) && included(7) && CarriesZero(row)
    ensures fresh(p) && fresh(p.store) && fresh(p.hot) && fresh(p.hot.names) && fresh(p.hot.index)
    ensures p.Valid() && Hot(p.Seen(), EntryKey(Volume(1), 7)) && p.hidden == {Volume(2)}
    ensures p.hot.table.ids == map[EntryKey(Volume(2), 7) := 0, EntryKey(Volume(1), 7) := 1]
    ensures p.hot.image.view == map[EntryKey(Volume(2), 7) := row, EntryKey(Volume(1), 7) := SOME_FILE]
    ensures p.hot.memory.changes <= 2 && p.hot.estimates == estimates
  {
    p := FreshVolume(Volume(2), hash, mayFold, estimates);
    TwoPlaces(LayoutOf(p.hot.table), p.hot.image.view, EntryKey(Volume(2), 7), row, EntryKey(Volume(1), 7), SOME_FILE);
    TwoRows(p, EntryKey(Volume(2), 7), row, EntryKey(Volume(1), 7), SOME_FILE, included);
    Conceal(p, Volume(2), EntryKey(Volume(1), 7));
  }

  method Conceal(p: Pipeline, volume: Volume, key: EntryKey)
    requires p.Valid() && key.volume in p.store.db.volumes && key.volume !in p.hot.evicted
    requires p.hidden == {} && volume != key.volume
    modifies p
    ensures p.Valid() && Hot(p.Seen(), key) && p.hidden == {volume}
  {
    p.SetVolumeHidden(volume, true, false);
  }

  lemma TwoPlaces(l: Layout, view: Rows, first: EntryKey, a: Row, second: EntryKey, b: Row)
    requires l.ids.Keys == {} && l.free == [] && l.count == 0 && first != second && view.Keys == {}
    ensures Place(Place(l, first), second).ids == map[first := 0, second := 1]
    ensures view[first := a][second := b] == map[first := a, second := b]
  {
  }

  method TwoRows(p: Pipeline, first: EntryKey, a: Row, second: EntryKey, b: Row, included: FileId -> bool)
    requires p.Valid() && p.hot.Roomy() && included(first.id) && included(second.id) && CarriesZero(a) && CarriesZero(b)
    modifies p, p.store, p.hot, p.hot.names, p.hot.index
    ensures p.Valid() && p.hidden == old(p.hidden) && p.hot.evicted == old(p.hot.evicted)
    ensures Holds(p.hot, Place(Place(old(LayoutOf(p.hot.table)), first), second), old(p.hot.image.view)[first := a][second := b],
                  old(p.hot.memory.changes) + 2)
    ensures second.volume in p.store.db.volumes
  {
    OneMoreRow(p, first, a, included);
    OneMoreRow(p, second, b, included);
  }

  /** Registers the volume and adds one row. */
  method OneMoreRow(p: Pipeline, key: EntryKey, row: Row, included: FileId -> bool)
    requires p.Valid() && p.hot.Roomy() && included(key.id) && CarriesZero(row)
    modifies p, p.store, p.hot, p.hot.names, p.hot.index
    ensures p.Valid() && p.hot.Roomy() && p.hidden == old(p.hidden) && p.hot.evicted == old(p.hot.evicted)
    ensures Holds(p.hot, Place(old(LayoutOf(p.hot.table)), key), old(p.hot.image.view)[key := row],
                  old(p.hot.memory.changes) + 1)
    ensures key.volume in p.store.db.volumes
  {
    p.ResolveVolume(key.volume);
    var changes := [Upsert(key, row, ALL_FIELDS)];
    OneChange(changes[0], included, p.hot.image.view, LayoutOf(p.hot.table));
    var _ := p.ApplyUsnBatchChanges(key.volume, changes, included, None, None);
  }
}
