/**
  What an indexed search depends on, the epochs by which writers announce changes to it, and what a
  writer must keep so that an unchanged epoch means an unchanged view.
 */
module Visibility {
  import opened Records
  import opened DurableStore

  /** Counters drawn from one clock; a volume never announced counts as zero. */
  datatype Epochs = Epochs(data: map<Volume, nat>, config: map<Volume, nat>, dependency: nat, clock: nat)

  const START := Epochs(map[], map[], 0, 0)

  function At(m: map<Volume, nat>, v: Volume): nat {
    if v in m then m[v] else 0
  }

  ghost predicate Bounded(e: Epochs) {
    forall v :: At(e.data, v) <= e.clock && At(e.config, v) <= e.clock
  }

  function Advance(e: Epochs, v: Volume, configuration: bool, dependencySet: bool): Epochs {
    Epochs(
      e.data[v := e.clock + 1],
      if configuration then e.config[v := e.clock + 1] else e.config,
      if dependencySet then e.dependency + 1 else e.dependency,
      e.clock + 1)
  }

  /** Time only moves forward. */
  ghost predicate Later(e: Epochs, f: Epochs) {
    && Bounded(f) && e.dependency <= f.dependency && e.clock <= f.clock
    && forall v :: At(e.data, v) <= At(f.data, v) && At(e.config, v) <= At(f.config, v)
  }

  lemma AdvanceIsLater(e: Epochs, v: Volume, configuration: bool, dependencySet: bool)
    requires Bounded(e)
    ensures Later(e, Advance(e, v, configuration, dependencySet))
    ensures At(Advance(e, v, configuration, dependencySet).data, v) > At(e.data, v)
    ensures configuration ==> At(Advance(e, v, configuration, dependencySet).config, v) > At(e.config, v)
  {
    var f := Advance(e, v, configuration, dependencySet);
    forall u ensures At(f.data, u) <= f.clock && At(f.config, u) <= f.clock
      ensures At(e.data, u) <= At(f.data, u) && At(e.config, u) <= At(f.config, u)
    {
      assert At(e.data, u) <= e.clock && At(e.config, u) <= e.clock;
    }
  }

  /** A structural change is announced for every volume that has an epoch, and for the set of them. */
  method AdvanceResidency(e: Epochs) returns (f: Epochs)
    requires Bounded(e)
    ensures Later(e, f) && f.dependency > e.dependency && f.config == e.config
    ensures forall v :: v in e.data ==> At(f.data, v) > At(e.data, v)
  {
    f := e;
    var rest := e.data.Keys;
    while rest != {}
      invariant Later(e, f) && f.dependency == e.dependency && f.config == e.config
      invariant forall v :: v in e.data && v !in rest ==> At(f.data, v) > At(e.data, v)
      decreases |rest|
    {
      var v :| v in rest;
      AdvanceIsLater(f, v, false, false);
      f := Advance(f, v, false, false);
      rest := rest - {v};
    }
    f := f.(dependency := f.dependency + 1, clock := f.clock + 1);
    assert forall v :: At(f.data, v) < f.clock && At(f.config, v) < f.clock;
  }

  // ---- what a search can see ----

  /** The rows in memory and the slot of each. */
  datatype Held = Held(slots: map<EntryKey, nat>, rows: Rows)

  /** What is in memory, the volumes not (wholly) in memory, the durable rows, the volumes
      and those hidden from searches, and the epochs. */
  datatype Shared = Shared(
    hot: Held, cold: set<Volume>, durable: Rows,
    volumes: set<Volume>, hidden: set<Volume>, epochs: Epochs)

  function Searchable(s: Shared): set<Volume> {
    s.volumes - s.hidden
  }

  ghost predicate SameHot(s: Shared, t: Shared, k: EntryKey) {
    && (k in s.hot.slots <==> k in t.hot.slots)
    && (k in s.hot.slots && k in t.hot.slots ==> s.hot.slots[k] == t.hot.slots[k])
    && (k in s.hot.rows <==> k in t.hot.rows)
    && (k in s.hot.rows && k in t.hot.rows ==> s.hot.rows[k] == t.hot.rows[k])
  }

  /** A search reads this row in memory: its volume is searchable and wholly there. */
  predicate Hot(s: Shared, k: EntryKey) {
    k.volume in Searchable(s) && k.volume !in s.cold
  }

  /** A search that captured `s` could not tell `t` from it. */
  ghost predicate Alike(s: Shared, t: Shared) {
    && Searchable(t) == Searchable(s)
    && (forall v :: v in Searchable(s) ==> (v in s.cold <==> v in t.cold))
    && (forall k: EntryKey :: Hot(s, k) ==> SameHot(s, t, k))
  }

  /** What a search over all locations compares. */
  predicate SameEpochs(e: Epochs, f: Epochs, within: set<Volume>) {
    e.dependency == f.dependency
    && forall v :: v in within ==> At(e.data, v) == At(f.data, v) && At(e.config, v) == At(f.config, v)
  }

  /** What the fallback compares, which reads only its own snapshot. */
  predicate SameSettings(e: Epochs, f: Epochs, within: set<Volume>) {
    e.dependency == f.dependency && forall v :: v in within ==> At(e.config, v) == At(f.config, v)
  }

  /** No visible change without a change of epoch, and no other set of volumes under the same settings. */
  ghost predicate Evolves(s: Shared, t: Shared) {
    && Later(s.epochs, t.epochs)
    && (SameEpochs(s.epochs, t.epochs, Searchable(s)) ==> Alike(s, t))
    && (SameSettings(s.epochs, t.epochs, Searchable(s)) ==> Searchable(t) == Searchable(s))
  }

  lemma EvolvesReflexive(s: Shared)
    requires Bounded(s.epochs)
    ensures Evolves(s, s)
  {
  }

  lemma EvolvesTransitive(s: Shared, t: Shared, u: Shared)
    requires Evolves(s, t) && Evolves(t, u)
    ensures Evolves(s, u)
  {
    var within := Searchable(s);
    LaterTransitive(s.epochs, t.epochs, u.epochs);
    if SameEpochs(s.epochs, u.epochs, within) {
      forall v | v in within
        ensures At(s.epochs.data, v) == At(t.epochs.data, v) && At(s.epochs.config, v) == At(t.epochs.config, v)
      {
        assert At(s.epochs.data, v) <= At(t.epochs.data, v) <= At(u.epochs.data, v);
        assert At(s.epochs.config, v) <= At(t.epochs.config, v) <= At(u.epochs.config, v);
      }
      assert SameEpochs(s.epochs, t.epochs, within);
      forall k: EntryKey | Hot(s, k) ensures SameHot(s, u, k) {
        assert Hot(t, k) && SameHot(s, t, k) && SameHot(t, u, k);
      }
    }
    if SameSettings(s.epochs, u.epochs, within) {
      forall v | v in within ensures At(s.epochs.config, v) == At(t.epochs.config, v) == At(u.epochs.config, v) {
        assert At(s.epochs.config, v) <= At(t.epochs.config, v) <= At(u.epochs.config, v);
      }
      assert SameSettings(s.epochs, t.epochs, within);
    }
  }

  lemma LaterTransitive(e: Epochs, f: Epochs, g: Epochs)
    requires Later(e, f) && Later(f, g)
    ensures Later(e, g)
  {
    forall v ensures At(e.data, v) <= At(g.data, v) && At(e.config, v) <= At(g.config, v) {
      assert At(e.data, v) <= At(f.data, v) <= At(g.data, v);
    }
  }

  // ---- how writers announce ----

  /** Only rows of one volume changed. */
  ghost predicate Confined(s: Shared, t: Shared, volume: Volume) {
    && t.cold == s.cold && t.volumes == s.volumes && t.hidden == s.hidden
    && (forall k: EntryKey :: k.volume != volume ==> SameHot(s, t, k))
  }

  /** A change to one volume's rows is announced by that volume's data epoch. */
  lemma RowsAnnounced(s: Shared, t: Shared, volume: Volume)
    requires Bounded(s.epochs) && Confined(s, t, volume) && t.epochs == Advance(s.epochs, volume, false, false)
    ensures Evolves(s, t)
  {
    AdvanceIsLater(s.epochs, volume, false, false);
  }

  /** A change to the slots, the residency or the set of volumes is announced by the dependency epoch. */
  lemma StructureAnnounced(s: Shared, t: Shared)
    requires Later(s.epochs, t.epochs) && t.epochs.dependency > s.epochs.dependency
    ensures Evolves(s, t)
  {
  }

  /** A change to one volume's rows that is not announced is harmless exactly if searches do not read
      that volume in memory, or each of its rows is what and where it was. */
  lemma UnannouncedRowsIff(s: Shared, t: Shared, volume: Volume)
    requires Bounded(s.epochs) && Confined(s, t, volume) && t.epochs == s.epochs
    ensures Evolves(s, t) <==>
            volume !in Searchable(s) || volume in s.cold || forall k: EntryKey :: k.volume == volume ==> SameHot(s, t, k)
  {
    if volume in Searchable(s) && volume !in s.cold {
      forall k: EntryKey | k.volume == volume ensures Hot(s, k) { }
    }
  }

  // ---- rows leave memory and the rest is numbered anew ----

  /** The rows that stay get the slots from zero on, in whatever order. */
  ghost predicate Numbers(slots: map<EntryKey, nat>, keys: set<EntryKey>) {
    && slots.Keys == keys
    && (forall k :: k in keys ==> slots[k] < |keys|)
    && (forall a, b :: a in keys && b in keys && slots[a] == slots[b] ==> a == b)
  }

  function Staying(s: Shared, gone: set<EntryKey>): set<EntryKey> {
    s.hot.slots.Keys - gone
  }

  /** The rows `gone` leave, their volumes turn cold, and `epochs` are the ones after. */
  function Trimmed(s: Shared, gone: set<EntryKey>, slots: map<EntryKey, nat>, epochs: Epochs): Shared
  {
    s.(hot := Held(slots, s.hot.rows - gone), cold := s.cold + VolumesIn(gone), epochs := epochs)
  }

  /** Exactly the volumes searches read in memory and that turn cold are announced to them. */
  ghost predicate AnnouncesFlips(s: Shared, gone: set<EntryKey>, epochs: Epochs) {
    && Later(s.epochs, epochs) && epochs.dependency == s.epochs.dependency && epochs.config == s.epochs.config
    && forall v :: v in Searchable(s) ==> (
         At(epochs.data, v) > At(s.epochs.data, v) <==> v in VolumesIn(gone) && v !in s.cold)
  }

  /** After the trim a search can be misled unless a row it reads has left, which is announced, or
      every row it reads kept its slot. */
  lemma TrimmedIff(s: Shared, gone: set<EntryKey>, slots: map<EntryKey, nat>, epochs: Epochs)
    requires gone <= s.hot.slots.Keys && slots.Keys == Staying(s, gone) && AnnouncesFlips(s, gone, epochs)
    ensures Evolves(s, Trimmed(s, gone, slots, epochs)) <==>
            (exists k :: k in gone && Hot(s, k)) || forall k :: k in slots && Hot(s, k) ==> slots[k] == s.hot.slots[k]
  {
    var t := Trimmed(s, gone, slots, epochs);
    if k :| k in gone && Hot(s, k) {
      assert k.volume in VolumesIn(gone);
      assert At(epochs.data, k.volume) > At(s.epochs.data, k.volume);
    } else {
      forall v | v in Searchable(s) ensures At(epochs.data, v) == At(s.epochs.data, v) && (v in s.cold <==> v in t.cold) {
        assert v in VolumesIn(gone) ==> v in s.cold;
        assert At(s.epochs.data, v) <= At(epochs.data, v);
      }
      assert SameEpochs(s.epochs, t.epochs, Searchable(s));
      if forall k :: k in slots && Hot(s, k) ==> slots[k] == s.hot.slots[k] {
        forall k: EntryKey | Hot(s, k) ensures SameHot(s, t, k) {
          assert k !in gone && (k in s.hot.slots ==> k in slots);
        }
      } else {
        var k :| k in slots && Hot(s, k) && slots[k] != s.hot.slots[k];
        assert k !in gone && !SameHot(s, t, k);
      }
    }
  }

  /** No order of the rows that stay can move a row that searches read. */
  ghost predicate Steady(s: Shared, gone: set<EntryKey>) {
    || (forall k :: k in Staying(s, gone) ==> !Hot(s, k))
    || (|Staying(s, gone)| == 1 && forall k :: k in Staying(s, gone) ==> s.hot.slots[k] == 0)
  }

  ghost predicate TrimSafe(s: Shared, gone: set<EntryKey>) {
    (exists k :: k in gone && Hot(s, k)) || Steady(s, gone)
  }

  lemma {:induction false} NumberAll(keys: set<EntryKey>) returns (slots: map<EntryKey, nat>)
    ensures Numbers(slots, keys)
    decreases |keys|
  {
    if keys == {} {
      slots := map[];
    } else {
      var k :| k in keys;
      var most := NumberAll(keys - {k});
      slots := most[k := |keys| - 1];
      assert slots.Keys == keys;
    }
  }

  lemma SwapNumbers(slots: map<EntryKey, nat>, keys: set<EntryKey>, a: EntryKey, b: EntryKey)
    requires Numbers(slots, keys) && a in keys && b in keys && a != b
    ensures Numbers(slots[a := slots[b]][b := slots[a]], keys)
  {
    var swapped := slots[a := slots[b]][b := slots[a]];
    assert swapped.Keys == keys;
    forall k, o | k in keys && o in keys && swapped[k] == swapped[o] ensures k == o {
      assert slots[if k == a then b else if k == b then a else k] == slots[if o == a then b else if o == b then a else o];
    }
  }

  /** Among two or more rows any one can be given another slot. */
  lemma NumberElsewhere(keys: set<EntryKey>, k: EntryKey, slot: nat) returns (slots: map<EntryKey, nat>)
    requires k in keys && (|keys| == 1 ==> slot != 0)
    ensures Numbers(slots, keys) && slots[k] != slot
  {
    slots := NumberAll(keys);
    if slots[k] == slot {
      var others := keys - {k};
      assert |others| == |keys| - 1;
      var o :| o in others;
      SwapNumbers(slots, keys, k, o);
      slots := slots[k := slots[o]][o := slots[k]];
    }
  }

  /** The exact condition over the order in which the storage is compacted: no order misleads a search
      if and only if a row it reads leaves, or no order can move one. */
  lemma TrimSafeIff(s: Shared, gone: set<EntryKey>, epochs: Epochs)
    requires gone <= s.hot.slots.Keys && AnnouncesFlips(s, gone, epochs)
    ensures (forall slots :: Numbers(slots, Staying(s, gone)) ==> Evolves(s, Trimmed(s, gone, slots, epochs)))
            <==> TrimSafe(s, gone)
  {
    var keys := Staying(s, gone);
    if TrimSafe(s, gone) {
      forall slots | Numbers(slots, keys) ensures Evolves(s, Trimmed(s, gone, slots, epochs)) {
        TrimmedIff(s, gone, slots, epochs);
        forall k | k in keys && Hot(s, k) && Steady(s, gone) ensures slots[k] == s.hot.slots[k] { }
      }
    } else {
      var k :| k in keys && Hot(s, k) && (|keys| == 1 ==> s.hot.slots[k] != 0) by { Movable(s, gone); }
      var slots := NumberElsewhere(keys, k, s.hot.slots[k]);
      TrimmedIff(s, gone, slots, epochs);
    }
  }

  lemma Movable(s: Shared, gone: set<EntryKey>)
    requires !Steady(s, gone)
    ensures exists k :: k in Staying(s, gone) && Hot(s, k) && (|Staying(s, gone)| == 1 ==> s.hot.slots[k] != 0)
  {
    var keys := Staying(s, gone);
    var k :| k in keys && Hot(s, k);
    if |keys| == 1 {
      var o :| o in keys && s.hot.slots[o] != 0;
      OnlyOne(keys, k, o);
    }
  }

  lemma OnlyOne(keys: set<EntryKey>, a: EntryKey, b: EntryKey)
    requires |keys| == 1 && a in keys && b in keys
    ensures a == b
  {
    var rest := keys - {a};
    assert |rest| == 0;
    assert b == a || b in rest;
  }

  /** If more rows leave, searches are no worse off. */
  lemma TrimSafeMore(s: Shared, some: set<EntryKey>, more: set<EntryKey>)
    requires TrimSafe(s, some) && some <= more
    ensures TrimSafe(s, more)
  {
    if !exists k :: k in some && Hot(s, k) {
      var a, b := Staying(s, some), Staying(s, more);
      assert b <= a;
      if |a| == 1 && b != {} {
        var k :| k in b;
        forall o | o in a ensures o == k {
          OnlyOne(a, o, k);
        }
        assert a == b;
      }
    }
  }
}
