/** Which rows leave memory, told from the rows themselves and from when each was last used. */
module EvictionOrder {
  import opened ProjectionEviction
  import opened ProjectionTable
  import opened Records

  type Ages = map<EntryKey, nat>

  /** When each row was last used. */
  function AgesOf(t: Table, times: seq<nat>): Ages {
    map k | k in t.ids && t.ids[k] < |times| :: times[t.ids[k]]
  }

  const CLOCK_END := 0xFFFF_FFFF_FFFF_FFFF

  /** When each slot was last used, by a clock that every use advances. */
  datatype Access = Access(times: seq<nat>, clock: nat)

  /** Timestamps restart when the clock runs out. */
  function Touch(a: Access, i: nat): (r: Access)
    ensures |r.times| == |a.times|
    ensures i < |a.times| ==> r.times[i] == r.clock && forall j :: 0 <= j < |a.times| && j != i ==> r.times[j] <= a.times[j]
  {
    if i >= |a.times| then a
    else if a.clock == CLOCK_END then Access(seq(|a.times|, _ => 0)[i := 1], 1)
    else Access(a.times[i := a.clock + 1], a.clock + 1)
  }

  function ClearSlot(a: Access, i: nat): (r: Access)
    ensures |r.times| == if i < |a.times| then |a.times| else |a.times| + 1
  {
    a.(times := if i < |a.times| then a.times[i := 0] else a.times + [0])
  }

  ghost predicate NoneLater(times: seq<nat>, clock: nat) {
    forall j :: 0 <= j < |times| ==> times[j] <= clock
  }

  /** A table with its access times and the ages they mean. */
  datatype Dating = Dating(t: Table, access: Access, ages: Ages)

  ghost predicate InDate(d: Dating) {
    forall s: Seal :: Broken(s) ==> d.ages == AgesOf(d.t, d.access.times) && NoneLater(d.access.times, d.access.clock)
  }

  type Dated = d: Dating | InDate(d)
    ghost witness Dating(EMPTY, Access([], 0), map[])

  lemma DatesOf(d: Dated)
    ensures d.ages == AgesOf(d.t, d.access.times) && NoneLater(d.access.times, d.access.clock)
  {
    assert Broken(Seal);
  }

  /** The row was used after all others, which are as old as they were, or all of age zero if the clock
      had run out. */
  ghost predicate UsedLast(before: Ages, after: Ages, key: EntryKey) {
    forall s: Seal :: Broken(s) ==> IsUsedLast(before, after, key)
  }

  ghost predicate IsUsedLast(before: Ages, after: Ages, key: EntryKey) {
    && key in after && (forall k :: k != key ==> (k in after <==> k in before))
    && (forall k :: k in after && k != key ==> after[k] < after[key])
    && ((forall k :: k in after && k != key ==> k in before && after[k] == before[k])
        || (forall k :: k in after && k != key ==> after[k] == 0))
  }

  lemma UsedLastParts(before: Ages, after: Ages, key: EntryKey)
    requires UsedLast(before, after, key)
    ensures IsUsedLast(before, after, key)
  {
    assert Broken(Seal);
  }

  lemma UsedTwice(a: Ages, b: Ages, c: Ages, key: EntryKey)
    requires UsedLast(a, b, key) && UsedLast(b, c, key)
    ensures UsedLast(a, c, key)
  {
    UsedLastParts(a, b, key);
    UsedLastParts(b, c, key);
  }

  lemma TouchedAges(t: Table, a: Access, u: Table, cleared: Access, key: EntryKey)
    requires NoneLater(a.times, a.clock) && key in u.ids && u.ids == t.ids[key := u.ids[key]]
    requires cleared == a || cleared == ClearSlot(a, u.ids[key])
    requires u.ids[key] <= |a.times| && u.ids[key] < |cleared.times|
    requires forall k :: k in t.ids && k != key ==> t.ids[k] != u.ids[key] && t.ids[k] < |a.times|
    ensures var b := Touch(cleared, u.ids[key]);
            NoneLater(b.times, b.clock) && IsUsedLast(AgesOf(t, a.times), AgesOf(u, b.times), key)
  {
  }

  /** The row, new or not, is used. */
  lemma DateUsed(m: Sound, n: Sound, d: Dated, key: EntryKey, cleared: Access) returns (e: Dated)
    requires d.t == m.t && |d.access.times| == |m.t.entries| && key in n.t.ids && n.t.ids == m.t.ids[key := n.t.ids[key]]
    requires cleared == d.access || cleared == ClearSlot(d.access, n.t.ids[key])
    requires n.t.ids[key] <= |d.access.times| && n.t.ids[key] < |cleared.times|
    ensures e == Dating(n.t, Touch(cleared, n.t.ids[key]), e.ages) && UsedLast(d.ages, e.ages, key)
  {
    DatesOf(d);
    var access := Touch(cleared, n.t.ids[key]);
    RowIsEntry(n, key);
    forall k | k in m.t.ids && k != key ensures m.t.ids[k] != n.t.ids[key] && m.t.ids[k] < |d.access.times| {
      RowIsEntry(m, k);
      RowIsEntry(n, k);
    }
    TouchedAges(d.t, d.access, n.t, cleared, key);
    e := Dating(n.t, access, AgesOf(n.t, access.times));
  }

  /** A row that is there is used. */
  lemma DateUsedAgain(m: Sound, n: Sound, d: Dated, key: EntryKey) returns (e: Dated)
    requires d.t == m.t && |d.access.times| == |m.t.entries| && key in n.t.ids && n.t.ids == m.t.ids
    ensures e == Dating(n.t, Touch(d.access, n.t.ids[key]), e.ages) && UsedLast(d.ages, e.ages, key)
  {
    RowIsEntry(m, key);
    assert m.t.ids == m.t.ids[key := n.t.ids[key]];
    e := DateUsed(m, n, d, key, d.access);
  }

  /** A new order of the slots changes no age. */
  lemma DateRenumbered(m: Sound, d: Dated, order: seq<EntryKey>, slots: seq<nat>, u: Table, times: seq<nat>)
    requires d.t == m.t && |d.access.times| == |m.t.entries| && Enumerates(order, m.t.ids.Keys)
    requires |slots| == |order| == |times| && TakesTurns(m.t, u, slots)
    requires forall n :: 0 <= n < |slots| ==> times[n] == if slots[n] < |d.access.times| then d.access.times[slots[n]] else 0
    ensures AgesOf(u, times) == AgesOf(d.t, d.access.times) && NoneLater(times, d.access.clock)
  {
    DatesOf(d);
    forall k | k in m.t.ids ensures m.t.ids[k] < |d.access.times| && times[u.ids[k]] == d.access.times[m.t.ids[k]] {
      RowIsEntry(m, k);
    }
  }

  /** Copied with their ages. */
  lemma DateCopied(d: Dated, u: Table, times: seq<nat>) returns (e: Dated)
    requires AgesOf(u, times) == AgesOf(d.t, d.access.times) && NoneLater(times, d.access.clock)
    ensures e == Dating(u, d.access.(times := times), d.ages)
  {
    DatesOf(d);
    e := Dating(u, d.access.(times := times), d.ages);
  }

  /** The rows leave, the others keep their ages. */
  lemma DateErased(d: Dated, keys: set<EntryKey>) returns (e: Dated)
    ensures e == Dating(d.t.(ids := d.t.ids - keys), d.access, d.ages - keys)
  {
    DatesOf(d);
    e := Dating(d.t.(ids := d.t.ids - keys), d.access, d.ages - keys);
  }

  /** The same when the freed slot is cleared. */
  lemma DateDropped(m: Sound, d: Dated, key: EntryKey, u: Table) returns (e: Dated)
    requires d.t == m.t && key in m.t.ids && |d.access.times| == |m.t.entries| && u.ids == m.t.ids - {key}
    ensures m.t.ids[key] < |d.access.times| && e == Dating(u, ClearSlot(d.access, m.t.ids[key]), d.ages - {key})
  {
    DatesOf(d);
    RowIsEntry(m, key);
    forall k | k in m.t.ids && k != key ensures m.t.ids[k] != m.t.ids[key] {
      RowIsEntry(m, k);
    }
    e := Dating(u, ClearSlot(d.access, m.t.ids[key]), d.ages - {key});
  }

  lemma DateAbsent(m: Sound, d: Dated, key: EntryKey)
    requires d.t == m.t && key !in m.t.ids
    ensures d.ages - {key} == d.ages
  {
    DatesOf(d);
  }

  /** Directories go first, then files; a volume's root goes last. */
  function KindOf(k: EntryKey, row: Row): nat {
    if row.parent == k.id then 2 else if IsDirectory(row.facts) then 0 else 1
  }

  predicate NoLater(view: map<EntryKey, Row>, ages: Ages, a: EntryKey, b: EntryKey) {
    && a in view && b in view && a in ages && b in ages
    && var x, y := KindOf(a, view[a]), KindOf(b, view[b]);
       x < y || (x == y && ages[a] <= ages[b])
  }

  /** No row is of a kind that goes earlier, or of the same kind and older. */
  ghost predicate GoesFirst(view: map<EntryKey, Row>, ages: Ages, v: EntryKey) {
    v in view && forall k :: k in view ==> NoLater(view, ages, v, k)
  }

  /** While `v` goes `k` may stay: a root goes only when there are roots alone, a file only when there is no
      directory but roots, and of one kind the oldest goes. */
  predicate MayStay(view: map<EntryKey, Row>, ages: Ages, v: EntryKey, k: EntryKey)
    requires v in view && k in view && v in ages && k in ages
  {
    var root, directory := view[k].parent == k.id, view[k].facts.attributes / 0x10 % 2 == 1;
    if view[v].parent == v.id then root && ages[v] <= ages[k]
    else if view[v].facts.attributes / 0x10 % 2 == 0 then !root ==> !directory && ages[v] <= ages[k]
    else !root && directory ==> ages[v] <= ages[k]
  }

  lemma GoesFirstIff(view: map<EntryKey, Row>, ages: Ages, v: EntryKey)
    requires v in view && view.Keys <= ages.Keys
    ensures GoesFirst(view, ages, v) <==> forall k :: k in view ==> MayStay(view, ages, v, k)
  {
    forall k | k in view ensures NoLater(view, ages, v, k) <==> MayStay(view, ages, v, k) {
    }
  }

  /** `k` lies directly in the directory `p`. */
  predicate LiesIn(view: map<EntryKey, Row>, k: EntryKey, p: EntryKey) {
    && k in view && p in view && IsDirectory(view[p].facts)
    && view[k].parent != k.id && EntryKey(k.volume, view[k].parent) == p
  }

  ghost predicate ClosedBelow(view: map<EntryKey, Row>, keys: set<EntryKey>) {
    forall p, k :: p in keys && LiesIn(view, k, p) ==> k in keys
  }

  /** The root and all that lies below it, and nothing else. */
  ghost predicate IsBranch(view: map<EntryKey, Row>, root: EntryKey, branch: set<EntryKey>) {
    && root in branch && branch <= view.Keys && ClosedBelow(view, branch)
    && (forall keys: set<EntryKey> :: root in keys && ClosedBelow(view, keys) ==> branch <= keys)
  }

  /** How much one eviction takes: the victim's branch, or all of its volume. */
  datatype Extent = Branch | WholeVolume

  ghost predicate Takes(view: map<EntryKey, Row>, v: EntryKey, taken: set<EntryKey>, extent: Extent) {
    match extent
    case Branch => IsBranch(view, v, taken)
    case WholeVolume => forall k :: k in taken <==> k in view && k.volume == v.volume
  }

  ghost predicate NextEviction(view: map<EntryKey, Row>, ages: Ages, before: set<EntryKey>, gone: set<EntryKey>,
                               v: EntryKey, extent: Extent)
  {
    before <= gone && GoesFirst(view - before, ages, v) && Takes(view - before, v, gone - before, extent)
  }

  /** The rows `gone` are those that leave in one eviction after the other, each of the row that goes
      first then. */
  ghost predicate Evictions(view: map<EntryKey, Row>, ages: Ages, gone: set<EntryKey>, extents: seq<Extent>) {
    if extents == [] then gone == {}
    else
      var n := |extents| - 1;
      exists before, v ::
        NextEviction(view, ages, before, gone, v, extents[n]) && Evictions(view, ages, before, extents[..n])
  }

  lemma EvictOneMore(view: map<EntryKey, Row>, ages: Ages, gone: set<EntryKey>, extents: seq<Extent>, v: EntryKey,
                     taken: set<EntryKey>, extent: Extent)
    requires Evictions(view, ages, gone, extents)
    requires GoesFirst(view - gone, ages, v) && Takes(view - gone, v, taken, extent)
    ensures Evictions(view, ages, gone + taken, extents + [extent])
  {
    assert forall k :: k in taken ==> k in view - gone;
    assert gone + taken - gone == taken;
    var more := extents + [extent];
    assert more[..|extents|] == extents;
    assert NextEviction(view, ages, gone, gone + taken, v, more[|extents|]) && Evictions(view, ages, gone, more[..|extents|]);
  }

  /** Whatever follows, the first victim and what it takes have left. */
  lemma {:induction false} FirstEviction(view: map<EntryKey, Row>, ages: Ages, gone: set<EntryKey>,
                                         extents: seq<Extent>)
    returns (v: EntryKey, taken: set<EntryKey>)
    requires Evictions(view, ages, gone, extents) && extents != []
    ensures GoesFirst(view, ages, v) && Takes(view, v, taken, extents[0]) && taken <= gone
    ensures |extents| == 1 ==> taken == gone
    decreases |extents|
  {
    var n := |extents| - 1;
    var before, w :| NextEviction(view, ages, before, gone, w, extents[n]) && Evictions(view, ages, before, extents[..n]);
    if n == 0 {
      assert view - before == view && gone - before == gone;
      v, taken := w, gone;
    } else {
      v, taken := FirstEviction(view, ages, before, extents[..n]);
    }
  }

  lemma OneEviction(view: map<EntryKey, Row>, ages: Ages, v: EntryKey, taken: set<EntryKey>, extent: Extent)
    requires GoesFirst(view, ages, v) && Takes(view, v, taken, extent)
    ensures Evictions(view, ages, taken, [extent])
  {
    assert view - {} == view && {} + taken == taken && [] + [extent] == [extent];
    assert Evictions(view, ages, {}, []);
    EvictOneMore(view, ages, {}, [], v, taken, extent);
  }

  // ---- the table's victim and subtree are those of its rows ----

  lemma RowIsEntry(m: Sound, k: EntryKey)
    requires k in m.t.ids
    ensures k in m.view && m.t.ids[k] < |m.t.entries|
    ensures var e := m.t.entries[m.t.ids[k]]; e.key == k && m.view[k].parent == e.parent && m.view[k].facts == e.facts
  {
    assert Broken(Seal);
  }

  lemma VictimGoesFirst(m: Sound, times: seq<nat>, v: EntryKey)
    requires Addressable(m.t, times) && v in m.t.ids && forall k :: k in m.t.ids ==> NotBefore(m.t, times, v, k)
    ensures GoesFirst(m.view, AgesOf(m.t, times), v)
  {
    Identities(m);
    RowIsEntry(m, v);
    forall k | k in m.view ensures NoLater(m.view, AgesOf(m.t, times), v, k) {
      RowIsEntry(m, k);
      assert NotBefore(m.t, times, v, k);
    }
  }

  lemma ChildLiesIn(m: Sound, k: EntryKey, p: EntryKey)
    ensures HoldsDirectory(m.t, p) && k in ChildKeys(m.t, p) <==> LiesIn(m.view, k, p)
  {
    if HoldsDirectory(m.t, p) && k in ChildKeys(m.t, p) {
      ChildIsLive(m, k, p);
      RowIsEntry(m, k);
      RowIsEntry(m, p);
    }
    if LiesIn(m.view, k, p) {
      Identities(m);
      RowIsEntry(m, k);
      RowIsEntry(m, p);
      LiveIsChild(m, k, p);
    }
  }

  lemma ChildIsLive(m: Sound, k: EntryKey, p: EntryKey)
    requires k in ChildKeys(m.t, p)
    ensures k in m.t.ids && IsChild(m.t, p, m.t.ids[k])
  {
    assert Broken(Seal);
    var slots := ChildrenOf(m.t.children, p);
    var j :| 0 <= j < |slots| && slots[j] < |m.t.entries| && m.t.entries[slots[j]].key == k;
    assert slots[j] in slots;
    assert Listed(m.t.children, p, slots[j]);
    assert IsChild(m.t, p, slots[j]);
  }

  lemma LiveIsChild(m: Sound, k: EntryKey, p: EntryKey)
    requires k in m.t.ids && m.t.ids[k] < |m.t.entries| && IsChild(m.t, p, m.t.ids[k])
    ensures k in ChildKeys(m.t, p)
  {
    assert Broken(Seal);
    var i := m.t.ids[k];
    assert Listed(m.t.children, p, i);
    var slots := ChildrenOf(m.t.children, p);
    var j :| 0 <= j < |slots| && slots[j] == i;
    assert m.t.entries[slots[j]].key in ChildKeys(m.t, p);
  }

  lemma {:induction false} SubtreeWithin(m: Sound, root: EntryKey, order: seq<EntryKey>, keys: set<EntryKey>, n: nat)
    requires Chained(m.t, root, order) && root in keys && ClosedBelow(m.view, keys) && n <= |order|
    ensures forall k :: k in order[..n] ==> k in keys
  {
    if n > 0 {
      SubtreeWithin(m, root, order, keys, n - 1);
      NextWithin(m, root, order, keys, n - 1);
      OneMoreWithin(order, keys, n);
    }
  }

  lemma OneMoreWithin(order: seq<EntryKey>, keys: set<EntryKey>, n: nat)
    requires 0 < n <= |order| && order[n - 1] in keys && forall k :: k in order[..n - 1] ==> k in keys
    ensures forall k :: k in order[..n] ==> k in keys
  {
    assert order[..n] == order[..n - 1] + [order[n - 1]];
  }

  lemma NextWithin(m: Sound, root: EntryKey, order: seq<EntryKey>, keys: set<EntryKey>, n: nat)
    requires Chained(m.t, root, order) && root in keys && ClosedBelow(m.view, keys) && n < |order|
    requires forall k :: k in order[..n] ==> k in keys
    ensures order[n] in keys
  {
    assert HangsBelow(m.t, root, order, n);
    if order[n] != root {
      var p :| p in order[..n] && HoldsDirectory(m.t, p) && order[n] in ChildKeys(m.t, p);
      ChildLiesIn(m, order[n], p);
    }
  }

  /** The subtree that was collected is the branch. */
  lemma SubtreeIsBranch(m: Sound, root: EntryKey, order: seq<EntryKey>)
    requires IsSubtree(m.t, root, order)
    ensures IsBranch(m.view, root, Elements(order))
  {
    var branch := Elements(order);
    Identities(m);
    forall k | k in branch ensures k in m.view {
      var j :| 0 <= j < |order| && order[j] == k;
      assert HangsBelow(m.t, root, order, j);
    }
    forall p, k | p in branch && LiesIn(m.view, k, p) ensures k in branch {
      ChildLiesIn(m, k, p);
    }
    forall keys: set<EntryKey> | root in keys && ClosedBelow(m.view, keys) ensures branch <= keys {
      SubtreeWithin(m, root, order, keys, |order|);
      assert order[..|order|] == order;
    }
  }

  // ---- runs of evictions ----

  /** Rows, their ages and the marked volumes before and after, and the evictions between. */
  datatype Departure = Departure(
    before: map<EntryKey, Row>, ages: Ages, marked: set<Volume>,
    after: map<EntryKey, Row>, left: Ages, evicted: set<Volume>, extents: seq<Extent>)

  function Gone(d: Departure): set<EntryKey> {
    d.before.Keys - d.after.Keys
  }

  /** Exactly the rows of these evictions left, the others are unchanged, and their volumes are marked. */
  ghost predicate InTurn(d: Departure) {
    forall s: Seal :: Broken(s) ==>
      && d.after == d.before - Gone(d) && d.left == d.ages - Gone(d)
      && d.evicted == d.marked + VolumesIn(Gone(d))
      && Evictions(d.before, d.ages, Gone(d), d.extents)
  }

  type Departed = d: Departure | InTurn(d)
    ghost witness Departure(map[], map[], {}, map[], map[], {}, [])

  lemma NobodyLeft(view: map<EntryKey, Row>, ages: Ages, marked: set<Volume>) returns (d: Departed)
    ensures d == Departure(view, ages, marked, view, ages, marked, [])
  {
    d := Departure(view, ages, marked, view, ages, marked, []);
    assert Gone(d) == {} && view - {} == view && ages - {} == ages;
  }

  lemma DepartedParts(d: Departed)
    ensures d.after == d.before - Gone(d) && d.left == d.ages - Gone(d)
    ensures d.evicted == d.marked + VolumesIn(Gone(d))
    ensures Evictions(d.before, d.ages, Gone(d), d.extents)
    ensures d.extents != [] ==> Gone(d) != {}
  {
    assert Broken(Seal);
    if d.extents != [] {
      var v, taken := FirstEviction(d.before, d.ages, Gone(d), d.extents);
      assert v in taken;
    }
  }

  lemma FirstOfAges(view: map<EntryKey, Row>, ages: Ages, gone: set<EntryKey>, v: EntryKey)
    requires GoesFirst(view, ages - gone, v)
    ensures GoesFirst(view, ages, v)
  {
    forall k | k in view ensures NoLater(view, ages, v, k) {
      assert NoLater(view, ages - gone, v, k);
    }
  }

  lemma TakenVolumes(view: map<EntryKey, Row>, v: EntryKey, taken: set<EntryKey>, extent: Extent)
    requires v in view && Takes(view, v, taken, extent) && forall k :: k in taken ==> k.volume == v.volume
    ensures VolumesIn(taken) == {v.volume}
  {
    assert v in taken;
  }

  lemma LeavesNext(d: Departed, v: EntryKey, taken: set<EntryKey>, extent: Extent) returns (e: Departed)
    requires GoesFirst(d.after, d.left, v) && Takes(d.after, v, taken, extent)
    requires forall k :: k in taken ==> k.volume == v.volume
    ensures e == d.(after := d.after - taken, left := d.left - taken, evicted := d.evicted + {v.volume},
                    extents := d.extents + [extent])
  {
    DepartedParts(d);
    var gone := Gone(d);
    FirstOfAges(d.after, d.ages, gone, v);
    EvictOneMore(d.before, d.ages, gone, d.extents, v, taken, extent);
    TakenVolumes(d.after, v, taken, extent);
    GoneWith(d.before, d.after, d.ages, d.left, gone, taken);
    AllInTurn(d.before, d.ages, d.marked, d.after - taken, d.left - taken, d.evicted + {v.volume}, d.extents + [extent],
              gone + taken);
    e := d.(after := d.after - taken, left := d.left - taken, evicted := d.evicted + {v.volume},
            extents := d.extents + [extent]);
  }

  lemma GoneWith(before: map<EntryKey, Row>, after: map<EntryKey, Row>, ages: Ages, left: Ages, gone: set<EntryKey>,
                 taken: set<EntryKey>)
    requires after == before - gone && left == ages - gone
    ensures after - taken == before - (gone + taken) && left - taken == ages - (gone + taken)
    ensures VolumesIn(gone + taken) == VolumesIn(gone) + VolumesIn(taken)
  {
  }

  lemma AllInTurn(before: map<EntryKey, Row>, ages: Ages, marked: set<Volume>, after: map<EntryKey, Row>, left: Ages,
                  evicted: set<Volume>, extents: seq<Extent>, gone: set<EntryKey>)
    requires gone <= before.Keys && after == before - gone && left == ages - gone
    requires evicted == marked + VolumesIn(gone) && Evictions(before, ages, gone, extents)
    ensures InTurn(Departure(before, ages, marked, after, left, evicted, extents))
  {
    assert Gone(Departure(before, ages, marked, after, left, evicted, extents)) == gone;
  }
}
