/**
  The pipeline, the projection and the store provide what a search relies on: every state is good,
  the cursor and the accelerator reach every match in memory, and both scan routes every match on
  disk.
 */
module SearchRoutes {
  import opened CandidateScan
  import opened DurableStore
  import opened HotAgreement
  import opened IndexPipeline
  import opened ProjectionTable
  import opened ReadPlane
  import opened Records
  import opened SortedLists
  import opened Visibility
  import opened Words
  import FilenameIndex
  import FolderPath
  import ProjectionEviction

  lemma SlotsAreDistinct(m: Sound)
    ensures forall a, b :: a in m.t.ids && b in m.t.ids && m.t.ids[a] == m.t.ids[b] ==> a == b
    ensures m.view.Keys == m.t.ids.Keys
  {
    assert ProjectionTable.Broken(ProjectionTable.Seal);
  }

  /** Every state the pipeline keeps valid is a good state for searches. */
  lemma PipelineIsGood(m: Sound, durable: Rows, cold: set<Volume>, s: Shared)
    requires Agree(m.view, durable, cold) && Bounded(s.epochs)
    requires s.hot == Held(m.t.ids, m.view) && s.durable == durable && s.cold == cold
    ensures Good(s)
  {
    SlotsAreDistinct(m);
  }

  /** The cursor visits every slot in use. */
  lemma CursorCovers(s: Shared, order: seq<EntryKey>, plan: seq<nat>, matches: Matcher)
    requires OneSlotEach(s.hot.slots) && Enumerates(order, s.hot.slots.Keys)
    requires |plan| == |order| && forall n :: 0 <= n < |plan| ==> order[n] in s.hot.slots && plan[n] == s.hot.slots[order[n]]
    ensures Covers(plan, s, matches)
  {
    forall k | k in s.hot.slots ensures s.hot.slots[k] in plan {
      var n :| 0 <= n < |order| && order[n] == k;
      assert plan[n] == s.hot.slots[k];
    }
  }

  /** The accelerator's candidates reach every row whose name the host would match. */
  lemma AcceleratorCovers(m: Sound, s: Shared, plan: seq<nat>, matches: Matcher, host: (Unit, Unit) -> bool,
                          needle: Name)
    requires s.hot == Held(m.t.ids, m.view) && Sorted(plan)
    requires forall k :: k in m.view && FilenameIndex.HostContains(host, m.view[k].name, needle) ==>
               k in m.t.ids && m.t.ids[k] in plan
    requires forall k :: k in m.view && matches(k, m.view[k]) ==> FilenameIndex.HostContains(host, m.view[k].name, needle)
    ensures Covers(plan, s, matches)
  {
    forall k | InMemory(s, k) && matches(k, s.hot.rows[k]) ensures s.hot.slots[k] in plan {
      assert k in m.view;
    }
  }

  /** A scan of the snapshot that ends without stop or error delivers every match of the volume. */
  lemma ScanDelivers(t: Consistent, s: Shared, volume: Volume, rows: seq<EntryKey>, matches: Matcher,
                     host: (Unit, Unit) -> bool, needle: seq<Byte>)
    requires s.durable == t.view
    requires forall i, j :: 0 <= i < j < |rows| ==> rows[i] != rows[j]
    requires forall k :: k in rows ==> k in t.d.rows && k.volume == volume
    requires Complete(host, t.d, volume, needle, rows)
    requires forall k :: k in t.view && matches(k, t.view[k]) ==> FilenameIndex.HostContains(host, t.view[k].name, needle)
    ensures Delivers(rows, s, volume, matches)
  {
    Opened(t);
    forall k | k in s.durable && k.volume == volume && matches(k, s.durable[k]) ensures k in rows {
      assert CanonicalMatch(host, t.d, needle, k);
    }
  }

  // ---- folders ----

  /** The files of one volume. */
  function TreeOf(rows: Rows, volume: Volume): FolderPath.Tree {
    map k | k in rows && k.volume == volume :: k.id := rows[k]
  }

  /** On every valid pipeline, for every volume wholly in memory and without empty names: both ways to
      name a file's folder fail or both give the same. */
  lemma FoldersAgree(p: Pipeline, volume: Volume, prefix: Name, id: FileId, bound: nat, alike: (Name, Name) -> bool)
    requires p.Valid() && volume !in p.hot.evicted && FolderPath.Reflexive(alike)
    requires forall k :: k in p.store.tables.view && k.volume == volume ==> p.store.tables.view[k].name != []
    ensures FolderPath.HotResult(TreeOf(p.hot.image.view, volume), prefix, id, bound, alike)
         == FolderPath.DurableResult(TreeOf(p.store.tables.view, volume), prefix, id, bound)
  {
    var hot, durable := TreeOf(p.hot.image.view, volume), TreeOf(p.store.tables.view, volume);
    forall i: FileId ensures i in hot <==> i in durable
      ensures i in hot && i in durable ==> hot[i] == durable[i]
    {
      assert SameRow(p.hot.image.view, p.store.tables.view, EntryKey(volume, i));
      assert i in hot <==> EntryKey(volume, i) in p.hot.image.view;
      assert i in durable <==> EntryKey(volume, i) in p.store.tables.view;
    }
    assert hot == durable;
    FolderPath.BothWaysAgree(durable, prefix, id, bound, alike);
  }

  // ---- a search that is misled ----

  /** The rows in the order the cursor visits them, and their slots. */
  datatype Tour = Tour(s: Shared, order: seq<EntryKey>, plan: seq<nat>)

  ghost predicate VisitsAll(c: Tour) {
    && Good(c.s) && Enumerates(c.order, c.s.hot.rows.Keys) && |c.plan| == |c.order|
    && forall n :: 0 <= n < |c.plan| ==> c.order[n] in c.s.hot.slots && c.plan[n] == c.s.hot.slots[c.order[n]]
  }

  ghost predicate Sealed(c: Tour) {
    forall s: ProjectionTable.Seal :: ProjectionTable.Broken(s) ==> VisitsAll(c)
  }

  type CursorTour = c: Tour | Sealed(c)
    ghost witness Tour(Shared(Held(map[], map[]), {}, map[], {}, {}, START), [], [])

  method CursorPlan(p: Pipeline) returns (order: seq<EntryKey>, plan: seq<nat>, ghost c: CursorTour)
    requires p.Valid()
    ensures c == Tour(p.Seen(), order, plan) && |order| == |p.hot.image.view|
    ensures order != [] ==> order[0] in p.hot.image.view && order[|order| - 1] in p.hot.image.view
    ensures p.hot.table.ids.Keys == p.hot.image.view.Keys
  {
    SlotsAreDistinct(p.hot.image);
    PipelineIsGood(p.hot.image, p.store.tables.view, p.hot.evicted, p.Seen());
    order := p.hot.EntryCursor();
    assert forall n :: 0 <= n < |order| ==> order[n] in order;
    plan := ProjectionTable.SlotsIn(p.hot.table, order);
    AllListed(order, p.hot.image.view);
    c := Tour(p.Seen(), order, plan);
  }

  lemma TourCovers(c: CursorTour)
    ensures VisitsAll(c) && Covers(c.plan, c.s, Everything)
  {
    assert ProjectionTable.Broken(ProjectionTable.Seal);
    CursorCovers(c.s, c.order, c.plan, Everything);
  }

  lemma AllListed(order: seq<EntryKey>, view: Rows)
    requires Enumerates(order, view.Keys)
    ensures |order| == |view|
  {
    CountOf(order);
    assert ProjectionEviction.Elements(order) == view.Keys;
  }

  /** All rows are of this volume, have names and differ from `row`. */
  ghost predicate AllOf(view: Rows, volume: Volume, row: Row) {
    forall k :: k in view ==> k.volume == volume && Listable(k, view[k]) && view[k] != row
  }

  /** A search that follows this plan is misled if the state changes between its first two sections. */
  ghost predicate Misleads(s: Shared, t: Shared, plan: seq<nat>) {
    Covers(plan, s, Everything) && AllPlaced(Turned(s, t)) && IsMisled(Turned(s, t), plan)
  }

  /** On any pipeline with room whose rows, more than one chunk of them, are all of one volume that
      searches read: a batch rewrites the first and the last row of the cursor's plan, both left out by the
      rules now, and its pruning fails.  If it comes between the first two sections of a search, the search
      completes with an answer that is the query at no moment. */
  method MisledSearch(p: Pipeline, volume: Volume, row: Row) returns (ghost s: Shared, plan: seq<nat>)
    requires p.Valid() && p.hot.Roomy() && Hot(p.Seen(), EntryKey(volume, 0)) && |p.hot.image.view| > HOT_CHUNK
    requires AllOf(p.hot.image.view, volume, row)
    requires row.name != [] && CarriesZero(row)
    modifies p, p.store, p.hot, p.hot.names, p.hot.index
    ensures p.Valid() && s == old(p.Seen()) && Misleads(s, p.Seen(), plan)
  {
    s := p.Seen();
    var order;
    ghost var c;
    order, plan, c := CursorPlan(p);
    RewriteUnpruned(p, order[0], order[|order| - 1], row);
    RewriteMisleads(c, p.Seen(), volume, row);
  }

  lemma AllCaptured(s: Shared, order: seq<EntryKey>, plan: seq<nat>)
    requires Placed(s) && |plan| == |order| && Enumerates(order, s.hot.rows.Keys)
    requires forall n :: 0 <= n < |plan| ==> order[n] in s.hot.slots && plan[n] == s.hot.slots[order[n]]
    requires forall k :: k in s.hot.rows ==> Hot(s, k) && Listable(k, s.hot.rows[k])
    ensures forall n :: 0 <= n < |plan| ==> Captures(s, s, plan[n])
  {
    forall n | 0 <= n < |plan| ensures Captures(s, s, plan[n]) {
      assert order[n] in order;
      VisitReads(s, s, order[n]);
    }
  }

  /** Two known files get this row; the rules leave both out, and taking them out again fails. */
  method RewriteUnpruned(p: Pipeline, a: EntryKey, b: EntryKey, row: Row)
    requires p.Valid() && p.hot.Roomy() && a in p.hot.image.view && b in p.hot.image.view && a.volume == b.volume
    requires p.hot.table.ids.Keys == p.hot.image.view.Keys && CarriesZero(row)
    modifies p, p.store, p.hot, p.hot.names, p.hot.index
    ensures p.Valid() && Good(p.Seen())
    ensures p.Seen() == old(p.Seen()).(
              hot := Held(old(p.hot.table.ids), old(p.hot.image.view)[a := row][b := row]), durable := p.store.tables.view)
  {
    var changes := [Upsert(a, row, ALL_FIELDS), Upsert(b, row, ALL_FIELDS)];
    TwoRewrites(changes, p.hot.image.view, LayoutOf(p.hot.table));
    var _ := p.ApplyUsnBatchChanges(a.volume, changes, _ => false, None, Some(0));
    PipelineIsGood(p.hot.image, p.store.tables.view, p.hot.evicted, p.Seen());
  }

  lemma TwoRewrites(changes: seq<Change>, view: Rows, l: Layout)
    requires |changes| == 2 && changes[0].Upsert? && changes[1].Upsert?
    requires changes[0].fields == ALL_FIELDS && changes[1].fields == ALL_FIELDS
    requires changes[0].key in l.ids && changes[1].key in l.ids
    ensures ApplyHotAll(view, changes) == view[changes[0].key := changes[0].row][changes[1].key := changes[1].row]
    ensures PlaceAll(l, changes) == l && Excluded(changes, _ => false) == [changes[0].key, changes[1].key]
  {
    var c, d := changes[0], changes[1];
    assert changes[..1] == [c] && [c][..0] == [];
    OneChange(c, _ => false, view, l);
    assert [c.key] + [d.key] == [c.key, d.key];
  }

  lemma RewriteMisleads(c: CursorTour, t: Shared, volume: Volume, row: Row)
    requires Good(t) && AllOf(c.s.hot.rows, volume, row) && Hot(c.s, EntryKey(volume, 0)) && row.name != []
    requires |c.order| > HOT_CHUNK
    requires t == c.s.(hot := Held(c.s.hot.slots, c.s.hot.rows[c.order[0] := row][c.order[|c.order| - 1] := row]),
                       durable := t.durable)
    ensures Misleads(c.s, t, c.plan)
  {
    TourCovers(c);
    RewriteRead(c, t, volume, row);
  }

  lemma RewriteRead(c: Tour, t: Shared, volume: Volume, row: Row)
    requires VisitsAll(c) && Good(t) && AllOf(c.s.hot.rows, volume, row) && Hot(c.s, EntryKey(volume, 0)) && row.name != []
    requires |c.order| > HOT_CHUNK
    requires t == c.s.(hot := Held(c.s.hot.slots, c.s.hot.rows[c.order[0] := row][c.order[|c.order| - 1] := row]),
                       durable := t.durable)
    ensures AllPlaced(Turned(c.s, t)) && IsMisled(Turned(c.s, t), c.plan)
  {
    var s, order, plan := c.s, c.order, c.plan;
    var a, b := order[0], order[|order| - 1];
    assert a in order && b in order;
    AllCaptured(s, order, plan);
    assert SameRow(t.hot.rows, t.durable, a) && SameRow(s.hot.rows, s.durable, b);
    ChangeMisleads(s, t, plan, a, b);
  }

  /** Such a pipeline: one file more than a chunk. */
  method ManyFiles(volume: Volume, hash: Name -> nat, mayFold: Unit -> bool) returns (p: Pipeline)
    ensures fresh(p) && fresh(p.store) && fresh(p.hot) && fresh(p.hot.names) && fresh(p.hot.index)
    ensures p.Valid() && p.hot.Roomy() && Hot(p.Seen(), EntryKey(volume, 0)) && |p.hot.image.view| == HOT_CHUNK + 1
    ensures forall k :: k in p.hot.image.view ==> k.volume == volume && k.id > 0 && p.hot.image.view[k] == SOME_FILE
  {
    p := FreshVolume(volume, hash, mayFold, _ => 0);
    for n := 0 to HOT_CHUNK + 1
      invariant fresh(p) && fresh(p.store) && fresh(p.hot) && fresh(p.hot.names) && fresh(p.hot.index)
      invariant p.Valid() && p.hot.Roomy() && p.hidden == {} && p.hot.evicted == {}
      invariant volume in p.store.db.volumes && |p.hot.image.view| == n
      invariant forall k :: k in p.hot.image.view ==> k.volume == volume && 0 < k.id <= n && p.hot.image.view[k] == SOME_FILE
    {
      OneMoreRow(p, EntryKey(volume, n + 1), SOME_FILE, _ => true);
    }
  }

  /** From a new pipeline to the misled search. */
  method SearchIsMisled(hash: Name -> nat, mayFold: Unit -> bool) returns (p: Pipeline, ghost s: Shared, plan: seq<nat>)
    ensures fresh(p) && p.Valid() && Misleads(s, p.Seen(), plan)
  {
    p := ManyFiles(Volume(1), hash, mayFold);
    s, plan := MisledSearch(p, Volume(1), SOME_FILE.(name := [0x63]));
  }
}
