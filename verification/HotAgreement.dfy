/** When the rows in memory say the same as the durable rows. */
module HotAgreement {
  import opened DurableStore
  import opened Projection
  import opened Records

  ghost predicate SameRow(hot: Rows, durable: Rows, k: EntryKey) {
    (k in hot <==> k in durable) && (k in hot && k in durable ==> hot[k] == durable[k])
  }

  /** Every volume not marked cold is in memory exactly as in the store. */
  ghost predicate Agree(hot: Rows, durable: Rows, cold: set<Volume>) {
    forall k: EntryKey :: k.volume !in cold ==> SameRow(hot, durable, k)
  }

  /** An unknown allocated size carries zero. */
  predicate CarriesZero(row: Row) {
    row.facts.allocatedKnown || row.facts.allocatedSize == 0
  }

  predicate ChangeCarriesZero(c: Change) {
    c.Upsert? && AllocatedField in c.fields ==> CarriesZero(c.row)
  }

  /** What a change does to the rows in memory: nothing is normalised there. */
  function ApplyHot(hot: Rows, c: Change): Rows {
    match c
    case Upsert(key, row, fields) => hot[key := Merge(Known(hot, key), row, fields)]
    case Remove(key) => hot - {key}
  }

  function ApplyHotAll(hot: Rows, changes: seq<Change>): Rows {
    if changes == [] then hot
    else ApplyHot(ApplyHotAll(hot, changes[..|changes| - 1]), changes[|changes| - 1])
  }

  ghost predicate AllNormal(rows: Rows) {
    forall k :: k in rows ==> CarriesZero(rows[k])
  }

  lemma StoredRowsAreNormal(t: Consistent)
    ensures AllNormal(t.view)
  {
    Opened(t);
  }

  /** One change leaves the two sides alike exactly if an unknown allocated size comes as zero. */
  lemma ChangeAgreesIff(hot: Rows, durable: Rows, c: Change)
    requires SameRow(hot, durable, c.key) && AllNormal(durable)
    ensures SameRow(ApplyHot(hot, c), ApplyChange(durable, c), c.key) <==> ChangeCarriesZero(c)
  {
    if c.Upsert? {
      var merged := Merge(Known(hot, c.key), c.row, c.fields);
      assert Known(hot, c.key) == Known(durable, c.key);
      assert CarriesZero(Known(durable, c.key));
      assert merged == Normal(merged) <==> CarriesZero(merged);
    }
  }

  lemma ChangeKeepsAgreement(hot: Rows, durable: Rows, cold: set<Volume>, c: Change)
    requires Agree(hot, durable, cold) && AllNormal(durable) && ChangeCarriesZero(c)
    ensures Agree(ApplyHot(hot, c), ApplyChange(durable, c), cold) && AllNormal(ApplyChange(durable, c))
  {
    if c.key.volume !in cold {
      ChangeAgreesIff(hot, durable, c);
    }
    forall k: EntryKey | k.volume !in cold ensures SameRow(ApplyHot(hot, c), ApplyChange(durable, c), k) {
      assert SameRow(hot, durable, k);
    }
  }

  lemma {:induction false} ChangesKeepAgreement(hot: Rows, durable: Rows, cold: set<Volume>, changes: seq<Change>)
    requires Agree(hot, durable, cold) && AllNormal(durable)
    requires forall n :: 0 <= n < |changes| ==> ChangeCarriesZero(changes[n])
    ensures Agree(ApplyHotAll(hot, changes), ApplyAll(durable, changes), cold) && AllNormal(ApplyAll(durable, changes))
  {
    if changes != [] {
      var most := changes[..|changes| - 1];
      ChangesKeepAgreement(hot, durable, cold, most);
      ChangeKeepsAgreement(ApplyHotAll(hot, most), ApplyAll(durable, most), cold, changes[|changes| - 1]);
    }
  }

  /** Eviction keeps agreement: what leaves memory is marked. */
  lemma EvictionKeepsAgreement(hot: Rows, left: Rows, durable: Rows, cold: set<Volume>, colder: set<Volume>)
    requires Agree(hot, durable, cold) && Shrunk(hot, left, colder) && cold <= colder
    ensures Agree(left, durable, colder)
  {
    forall k: EntryKey | k.volume !in colder ensures SameRow(left, durable, k) {
      assert SameRow(hot, durable, k);
    }
  }

  /** Removing the same rows on both sides keeps agreement. */
  lemma RemovalKeepsAgreement(hot: Rows, durable: Rows, cold: set<Volume>, keys: set<EntryKey>)
    requires Agree(hot, durable, cold)
    ensures Agree(hot - keys, durable - keys, cold)
  {
    forall k: EntryKey | k.volume !in cold ensures SameRow(hot - keys, durable - keys, k) {
      assert SameRow(hot, durable, k);
    }
  }

  lemma {:induction false} OverlayHas(view: Rows, stream: seq<(EntryKey, Row)>, n: nat)
    requires n < |stream| && forall i, j :: 0 <= i < j < |stream| ==> stream[i].0 != stream[j].0
    ensures stream[n].0 in Overlay(view, stream) && Overlay(view, stream)[stream[n].0] == stream[n].1
  {
    if n < |stream| - 1 {
      OverlayHas(view, stream[..|stream| - 1], n);
    }
  }

  lemma {:induction false} OverlayOnly(view: Rows, stream: seq<(EntryKey, Row)>, k: EntryKey)
    requires forall n :: 0 <= n < |stream| ==> stream[n].0 != k
    ensures SameRow(Overlay(view, stream), view, k)
  {
    if stream != [] {
      OverlayOnly(view, stream[..|stream| - 1], k);
    }
  }

  /** Streaming a volume in again makes that volume agree, whatever was in memory before. */
  lemma ReloadAgrees(hot: Rows, left: Rows, durable: Rows, cold: set<Volume>, colder: set<Volume>,
                     volume: Volume, stream: seq<(EntryKey, Row)>)
    requires Agree(hot, durable, cold + {volume}) && Streams(stream, durable, volume)
    requires Shrunk(Overlay(OtherVolumes(hot, volume), stream), left, colder) && cold - {volume} <= colder
    ensures Agree(left, durable, colder)
  {
    var loaded := Overlay(OtherVolumes(hot, volume), stream);
    forall k: EntryKey | k.volume !in colder ensures SameRow(left, durable, k) {
      assert SameRow(loaded, durable, k) by {
        if k.volume == volume {
          Reloaded(hot, durable, volume, stream, k);
        } else {
          OverlayOnly(OtherVolumes(hot, volume), stream, k);
          assert SameRow(hot, durable, k);
        }
      }
    }
  }

  lemma Reloaded(hot: Rows, durable: Rows, volume: Volume, stream: seq<(EntryKey, Row)>, k: EntryKey)
    requires Streams(stream, durable, volume) && k.volume == volume
    ensures SameRow(Overlay(OtherVolumes(hot, volume), stream), durable, k)
  {
    if k in durable {
      var n :| 0 <= n < |stream| && stream[n].0 == k;
      OverlayHas(OtherVolumes(hot, volume), stream, n);
    } else {
      OverlayOnly(OtherVolumes(hot, volume), stream, k);
    }
  }

  /** The unknown size that is not zero: memory keeps the number, the store does not. */
  lemma UnknownSizeDisagrees()
    ensures var key, row := EntryKey(Volume(1), 5), Row(5, [], Facts(0, 4096, false, 0, 0, 0, 0));
            var c := Upsert(key, row, ALL_FIELDS);
            Agree(map[], map[], {}) && !Agree(ApplyHot(map[], c), ApplyChange(map[], c), {})
  {
    var key, row := EntryKey(Volume(1), 5), Row(5, [], Facts(0, 4096, false, 0, 0, 0, 0));
    var c := Upsert(key, row, ALL_FIELDS);
    ChangeAgreesIff(map[], map[], c);
  }
}
