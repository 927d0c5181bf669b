/**
  The durable tables: entry rows with names as bytes, and the candidate index derived from them.
  A transaction works on a copy of the tables that replaces them only when it commits.
 */
module DurableStore {
  import opened Records
  import opened Words
  import FoldClassification
  import TextCodec

  // ---- rows ----

  /** A stored row: the name in bytes, an unknown allocated size as no value. */
  datatype Stored = Stored(
    parent: FileId, name: seq<Byte>, size: nat, allocatedSize: Option<nat>,
    created: nat, modified: nat, accessed: nat, attributes: nat)

  function ReadRecord(s: Stored): Row {
    Row(s.parent, TextCodec.Decode(s.name), Facts(
      s.size, if s.allocatedSize.Some? then s.allocatedSize.value else 0, s.allocatedSize.Some?,
      s.created, s.modified, s.accessed, s.attributes))
  }

  /** The insert arm stores nothing for fields the change does not carry. */
  function InsertRow(row: Row, fields: set<Field>): Stored {
    Stored(
      if ParentField in fields then row.parent else 0,
      if NameField in fields then TextCodec.Encode(row.name) else [],
      if SizeField in fields then row.facts.size else 0,
      if AllocatedField in fields && row.facts.allocatedKnown then Some(row.facts.allocatedSize) else None,
      if CreatedField in fields then row.facts.created else 0,
      if ModifiedField in fields then row.facts.modified else 0,
      if AccessedField in fields then row.facts.accessed else 0,
      if AttributesField in fields then row.facts.attributes else 0)
  }

  /** The update arm replaces the fields the change carries. */
  function UpdateRow(was: Stored, row: Row, fields: set<Field>): Stored {
    var excluded := InsertRow(row, fields);
    Stored(
      if ParentField in fields then excluded.parent else was.parent,
      if NameField in fields then excluded.name else was.name,
      if SizeField in fields then excluded.size else was.size,
      if AllocatedField in fields then excluded.allocatedSize else was.allocatedSize,
      if CreatedField in fields then excluded.created else was.created,
      if ModifiedField in fields then excluded.modified else was.modified,
      if AccessedField in fields then excluded.accessed else was.accessed,
      if AttributesField in fields then excluded.attributes else was.attributes)
  }

  /** An unknown allocated size reads back as zero. */
  function Normal(row: Row): Row {
    if row.facts.allocatedKnown then row else row.(facts := row.facts.(allocatedSize := 0))
  }

  type Rows = map<EntryKey, Row>

  function Known(rows: Rows, key: EntryKey): Row {
    if key in rows then rows[key] else BLANK
  }

  datatype Change = Upsert(key: EntryKey, row: Row, fields: set<Field>) | Remove(key: EntryKey)

  /** What one change means for the rows a reader sees. */
  function ApplyChange(rows: Rows, c: Change): Rows {
    match c
    case Upsert(key, row, fields) => rows[key := Normal(Merge(Known(rows, key), row, fields))]
    case Remove(key) => rows - {key}
  }

  function ApplyAll(rows: Rows, changes: seq<Change>): Rows {
    if changes == [] then rows
    else ApplyChange(ApplyAll(rows, changes[..|changes| - 1]), changes[|changes| - 1])
  }

  // ---- the candidate index ----

  /** Each row has a number; the folded name and the exception mark are filed under it. */
  datatype Candidates = Candidates(ids: map<EntryKey, nat>, terms: map<nat, seq<Byte>>, exceptions: set<nat>)

  datatype Database = Database(volumes: map<Volume, bool>, rows: map<EntryKey, Stored>, index: Candidates)

  const EMPTY := Database(map[], map[], Candidates(map[], map[], {}))

  function Term(index: Candidates, id: nat): seq<Byte> {
    if id in index.terms then index.terms[id] else []
  }

  /** Only encoded names are ever stored. */
  ghost predicate Encoded(name: seq<Byte>) {
    TextCodec.Encode(TextCodec.Decode(name)) == name
  }

  /** The index entry of one row says what the row's name says. */
  ghost predicate Agrees(index: Candidates, key: EntryKey, s: Stored, mayFold: Unit -> bool) {
    && key in index.ids && Encoded(s.name)
    && Term(index, index.ids[key]) == TextCodec.FoldBytes(s.name)
    && (index.ids[key] in index.exceptions <==> FoldClassification.NeedsSideSet(TextCodec.Decode(s.name), mayFold))
  }

  ghost predicate OneToOne(ids: map<EntryKey, nat>) {
    forall a, b :: a in ids && b in ids && ids[a] == ids[b] ==> a == b
  }

  ghost predicate Owned(index: Candidates) {
    && (forall id :: id in index.terms ==> exists k :: k in index.ids && index.ids[k] == id)
    && (forall id :: id in index.exceptions ==> exists k :: k in index.ids && index.ids[k] == id)
  }

  /** The candidate index is what the rows make it: no row missing, none stale, none left over. */
  ghost predicate InStep(d: Database, mayFold: Unit -> bool) {
    && d.index.ids.Keys == d.rows.Keys
    && OneToOne(d.index.ids)
    && (forall k :: k in d.rows ==> Agrees(d.index, k, d.rows[k], mayFold))
    && Owned(d.index)
  }

  ghost function View(d: Database): Rows {
    map k | k in d.rows :: ReadRecord(d.rows[k])
  }

  // ---- one change ----

  method CandidateUpsert(index: Candidates, key: EntryKey, name: seq<Byte>, units: seq<Unit>, updateName: bool,
                         mayFold: Unit -> bool) returns (r: Candidates)
    ensures key in r.ids && r.ids == index.ids[key := r.ids[key]]
    ensures key in index.ids ==> r.ids[key] == index.ids[key]
    ensures key !in index.ids ==> r.ids[key] !in index.ids.Values && r.ids[key] !in index.terms && r.ids[key] !in index.exceptions
    ensures forall id :: id != r.ids[key] ==> Term(r, id) == Term(index, id) && (id in r.terms <==> id in index.terms)
    ensures forall id :: id != r.ids[key] ==> (id in r.exceptions <==> id in index.exceptions)
    ensures updateName ==> Term(r, r.ids[key]) == TextCodec.FoldBytes(name)
    ensures updateName ==> (r.ids[key] in r.exceptions <==> FoldClassification.NeedsSideSet(units, mayFold))
    ensures !updateName ==> r.terms == index.terms && r.exceptions == index.exceptions
  {
    r := index;
    var id: nat;
    if key in index.ids {
      id := index.ids[key];
    } else {
      id := FreshId(index);
      r := r.(ids := r.ids[key := id]);
    }
    if !updateName {
      return;
    }
    r := r.(terms := r.terms[id := TextCodec.FoldBytes(name)], exceptions := r.exceptions + {id});
    if !FoldClassification.NeedsSideSet(units, mayFold) {
      r := r.(exceptions := r.exceptions - {id});
    }
  }

  /** A row number nobody uses. */
  method FreshId(index: Candidates) returns (id: nat)
    ensures id !in index.ids.Values && id !in index.terms && id !in index.exceptions
  {
    var used := index.ids.Values + index.terms.Keys + index.exceptions;
    id := 0;
    while id in used
      decreases |From(used, id)|
    {
      FewerFrom(used, id);
      id := id + 1;
    }
  }

  ghost function From(used: set<nat>, id: nat): set<nat> {
    set x | x in used && x >= id
  }

  lemma FewerFrom(used: set<nat>, id: nat)
    requires id in used
    ensures |From(used, id + 1)| < |From(used, id)|
  {
    assert From(used, id) == From(used, id + 1) + {id};
  }

  method CandidateRemove(index: Candidates, key: EntryKey) returns (r: Candidates)
    ensures r.ids == index.ids - {key}
    ensures key !in index.ids ==> r == index
    ensures key in index.ids ==>
              r.terms == index.terms - {index.ids[key]} && r.exceptions == index.exceptions - {index.ids[key]}
  {
    if key !in index.ids {
      assert index.ids - {key} == index.ids;
      return index;
    }
    var id := index.ids[key];
    r := Candidates(index.ids - {key}, index.terms - {id}, index.exceptions - {id});
  }

  // ---- keeping the index in step ----

  lemma NameRoundTrip(row: Row, fields: set<Field>, was: Stored)
    ensures ReadRecord(InsertRow(row, fields)) == Normal(Merge(BLANK, row, fields))
    ensures ReadRecord(UpdateRow(was, row, fields)) == Normal(Merge(ReadRecord(was), row, fields))
  {
    TextCodec.RoundTrip(row.name);
  }

  lemma UpsertInStep(d: Database, key: EntryKey, s: Stored, index: Candidates, mayFold: Unit -> bool)
    requires InStep(d, mayFold)
    requires Agrees(index, key, s, mayFold) && index.ids == d.index.ids[key := index.ids[key]]
    requires key in d.index.ids ==> index.ids[key] == d.index.ids[key]
    requires key !in d.index.ids ==>
               index.ids[key] !in d.index.ids.Values && index.ids[key] !in d.index.terms && index.ids[key] !in d.index.exceptions
    requires forall id :: id != index.ids[key] ==> Term(index, id) == Term(d.index, id) && (id in index.terms <==> id in d.index.terms)
    requires forall id :: id != index.ids[key] ==> (id in index.exceptions <==> id in d.index.exceptions)
    ensures InStep(d.(rows := d.rows[key := s], index := index), mayFold)
  {
    var rows := d.rows[key := s];
    NumberIsOwn(d.index.ids, key, index.ids[key]);
    forall k | k in rows ensures Agrees(index, k, rows[k], mayFold) {
      if k != key {
        assert Agrees(d.index, k, d.rows[k], mayFold);
        StillAgrees(d.index, index, k, d.rows[k], mayFold);
      }
    }
    OwnedAfter(d.index, index, key);
  }

  lemma NumberIsOwn(ids: map<EntryKey, nat>, key: EntryKey, id: nat)
    requires OneToOne(ids) && if key in ids then ids[key] == id else id !in ids.Values
    ensures forall k :: k in ids && k != key ==> ids[k] != id
    ensures OneToOne(ids[key := id])
  {
    forall k | k in ids && k != key ensures ids[k] != id {
      assert ids[k] in ids.Values;
    }
  }

  lemma StillAgrees(was: Candidates, index: Candidates, k: EntryKey, s: Stored, mayFold: Unit -> bool)
    requires Agrees(was, k, s, mayFold) && k in index.ids && index.ids[k] == was.ids[k]
    requires Term(index, was.ids[k]) == Term(was, was.ids[k])
    requires was.ids[k] in index.exceptions <==> was.ids[k] in was.exceptions
    ensures Agrees(index, k, s, mayFold)
  {
  }

  lemma OwnedAfter(was: Candidates, index: Candidates, key: EntryKey)
    requires Owned(was) && key in index.ids && forall k :: k in was.ids ==> k in index.ids
    requires forall k :: k in was.ids && k != key ==> index.ids[k] == was.ids[k]
    requires key in was.ids ==> index.ids[key] == was.ids[key]
    requires forall id :: id != index.ids[key] ==> (id in index.terms <==> id in was.terms)
    requires forall id :: id != index.ids[key] ==> (id in index.exceptions <==> id in was.exceptions)
    ensures Owned(index)
  {
    forall id | id in index.terms || id in index.exceptions
      ensures exists k :: k in index.ids && index.ids[k] == id
    {
      if id == index.ids[key] {
      } else {
        var k :| k in was.ids && was.ids[k] == id;
        assert index.ids[k] == id;
      }
    }
  }

  lemma RemoveInStep(d: Database, key: EntryKey, index: Candidates, mayFold: Unit -> bool)
    requires InStep(d, mayFold) && index.ids == d.index.ids - {key}
    requires key !in d.index.ids ==> index == d.index
    requires key in d.index.ids ==>
               index.terms == d.index.terms - {d.index.ids[key]} && index.exceptions == d.index.exceptions - {d.index.ids[key]}
    ensures InStep(d.(rows := d.rows - {key}, index := index), mayFold)
  {
    if key !in d.index.ids {
      assert d.rows - {key} == d.rows;
    } else {
      forall k | k in d.rows - {key} ensures Agrees(index, k, d.rows[k], mayFold) {
        assert Agrees(d.index, k, d.rows[k], mayFold);
        AgreesWithout(d.index, index, key, k, d.rows[k], mayFold);
      }
      OwnedWithout(d.index, index, key);
    }
  }

  lemma AgreesWithout(was: Candidates, index: Candidates, key: EntryKey, k: EntryKey, s: Stored, mayFold: Unit -> bool)
    requires OneToOne(was.ids) && key in was.ids && k != key && Agrees(was, k, s, mayFold)
    requires index.ids == was.ids - {key}
    requires index.terms == was.terms - {was.ids[key]} && index.exceptions == was.exceptions - {was.ids[key]}
    ensures Agrees(index, k, s, mayFold)
  {
    assert was.ids[k] != was.ids[key];
    StillAgrees(was, index, k, s, mayFold);
  }

  lemma OwnedWithout(was: Candidates, index: Candidates, key: EntryKey)
    requires Owned(was) && key in was.ids && index.ids == was.ids - {key}
    requires index.terms == was.terms - {was.ids[key]} && index.exceptions == was.exceptions - {was.ids[key]}
    ensures Owned(index)
  {
    forall id | id in index.terms || id in index.exceptions
      ensures exists k :: k in index.ids && index.ids[k] == id
    {
      var k :| k in was.ids && was.ids[k] == id;
      assert k in index.ids;
    }
  }

  method ApplyOne(d: Database, c: Change, mayFold: Unit -> bool) returns (e: Database)
    requires InStep(d, mayFold)
    ensures InStep(e, mayFold) && View(e) == ApplyChange(View(d), c) && e.volumes == d.volumes
  {
    match c
    case Upsert(key, row, fields) =>
      var s := if key in d.rows then UpdateRow(d.rows[key], row, fields) else InsertRow(row, fields);
      var index := CandidateUpsert(d.index, key, TextCodec.Encode(row.name), row.name, NameField in fields, mayFold);
      UpsertAgrees(d, key, row, fields, s, index, mayFold);
      UpsertInStep(d, key, s, index, mayFold);
      e := d.(rows := d.rows[key := s], index := index);
      UpsertView(d, key, row, fields, s);
    case Remove(key) =>
      var index := CandidateRemove(d.index, key);
      RemoveInStep(d, key, index, mayFold);
      e := d.(rows := d.rows - {key}, index := index);
      assert View(e) == View(d) - {key};
  }

  lemma UpsertView(d: Database, key: EntryKey, row: Row, fields: set<Field>, s: Stored)
    requires s == if key in d.rows then UpdateRow(d.rows[key], row, fields) else InsertRow(row, fields)
    ensures View(d.(rows := d.rows[key := s])) == ApplyChange(View(d), Upsert(key, row, fields))
  {
    NameRoundTrip(row, fields, if key in d.rows then d.rows[key] else s);
  }

  lemma UpsertAgrees(d: Database, key: EntryKey, row: Row, fields: set<Field>, s: Stored, index: Candidates,
                     mayFold: Unit -> bool)
    requires InStep(d, mayFold)
    requires s == if key in d.rows then UpdateRow(d.rows[key], row, fields) else InsertRow(row, fields)
    requires key in index.ids
    requires key in d.index.ids ==> index.ids[key] == d.index.ids[key]
    requires key !in d.index.ids ==> index.ids[key] !in d.index.terms && index.ids[key] !in d.index.exceptions
    requires NameField in fields ==> Term(index, index.ids[key]) == TextCodec.FoldBytes(TextCodec.Encode(row.name))
    requires NameField in fields ==>
               (index.ids[key] in index.exceptions <==> FoldClassification.NeedsSideSet(row.name, mayFold))
    requires NameField !in fields ==> index.terms == d.index.terms && index.exceptions == d.index.exceptions
    ensures Agrees(index, key, s, mayFold)
  {
    TextCodec.RoundTrip(row.name);
    if NameField !in fields {
      if key in d.rows {
        assert Agrees(d.index, key, d.rows[key], mayFold);
      } else {
        assert TextCodec.FoldBytes([]) == [] && TextCodec.Decode([]) == [];
      }
    }
  }

  lemma ForgetInStep(d: Database, gone: set<EntryKey>, index: Candidates, mayFold: Unit -> bool)
    requires InStep(d, mayFold) && gone <= d.rows.Keys && index.ids == d.index.ids - gone
    requires forall id :: id in index.terms <==> id in d.index.terms && forall k :: k in gone ==> d.index.ids[k] != id
    requires forall id :: id in index.terms ==> index.terms[id] == d.index.terms[id]
    requires forall id :: id in index.exceptions <==> id in d.index.exceptions && forall k :: k in gone ==> d.index.ids[k] != id
    ensures InStep(d.(rows := d.rows - gone, index := index), mayFold)
  {
    var rows := d.rows - gone;
    forall k | k in rows ensures Agrees(index, k, rows[k], mayFold) {
      assert Agrees(d.index, k, d.rows[k], mayFold);
      var id := d.index.ids[k];
      assert forall g :: g in gone ==> d.index.ids[g] != id;
    }
    forall id | id in index.terms || id in index.exceptions
      ensures exists k :: k in index.ids && index.ids[k] == id
    {
      var k :| k in d.index.ids && d.index.ids[k] == id;
      assert k !in gone;
      assert k in index.ids;
    }
  }

  // ---- the store ----

  /** The tables with the rows a reader sees in them. */
  datatype Tables = Tables(d: Database, mayFold: Unit -> bool, view: Rows)

  datatype Seal = Seal

  /** Proofs about the tables break the seal; the others see only the rows. */
  predicate Broken(s: Seal) { true }

  ghost predicate Synced(t: Tables) {
    forall s: Seal :: Broken(s) ==> InStep(t.d, t.mayFold) && t.view == View(t.d)
  }

  type Consistent = t: Tables | Synced(t)
    ghost witness Tables(EMPTY, _ => false, map[])

  lemma Opened(t: Consistent)
    ensures InStep(t.d, t.mayFold) && t.view == View(t.d)
  {
    assert Broken(Seal);
  }

  lemma Closed(d: Database, mayFold: Unit -> bool) returns (t: Consistent)
    requires InStep(d, mayFold)
    ensures t == Tables(d, mayFold, View(d))
  {
    t := Tables(d, mayFold, View(d));
  }

  /** The rows of one volume as a reader gets them. */
  ghost predicate Streams(stream: seq<(EntryKey, Row)>, view: Rows, volume: Volume) {
    && (forall i, j :: 0 <= i < j < |stream| ==> stream[i].0 != stream[j].0)
    && (forall n :: 0 <= n < |stream| ==>
          stream[n].0 in view && stream[n].0.volume == volume && stream[n].1 == view[stream[n].0])
    && (forall k :: k in view && k.volume == volume ==> exists n :: 0 <= n < |stream| && stream[n].0 == k)
  }

  class Store {
    const mayFold: Unit -> bool
    var db: Database
    ghost var tables: Consistent

    ghost predicate Valid()
      reads this
    {
      tables.d == db && tables.mayFold == mayFold
    }

    constructor (mayFold: Unit -> bool)
      ensures Valid() && tables.view == map[] && db == EMPTY && this.mayFold == mayFold
    {
      this.mayFold, db, tables := mayFold, EMPTY, Tables(EMPTY, mayFold, map[]);
    }

    /** All changes or none.  `fault` is the step that fails: a change, or the commit after them. */
    method ApplyBatch(changes: seq<Change>, fault: Option<nat>) returns (ok: bool)
      requires Valid()
      modifies this
      ensures Valid() && db.volumes == old(db.volumes)
      ensures ok <==> changes == [] || fault.None? || fault.value > |changes|
      ensures tables.view == if ok then ApplyAll(old(tables.view), changes) else old(tables.view)
      ensures !ok ==> db == old(db)
    {
      if changes == [] {
        return true;
      }
      Opened(tables);
      var done, work := ApplyInOrder(db, changes, fault, mayFold);
      if !done || fault == Some(|changes|) {
        return false;
      }
      tables := Closed(work, mayFold);
      db := work;
      return true;
    }

    method PutVolume(volume: Volume, available: bool)
      requires Valid()
      modifies this
      ensures Valid() && tables.view == old(tables.view) && db.volumes == old(db.volumes)[volume := available]
    {
      Opened(tables);
      db := db.(volumes := db.volumes[volume := available]);
      tables := Closed(db, mayFold);
    }

    /** A volume that is not known yet is registered as available. */
    method GetOrCreateVolume(volume: Volume) returns (created: bool)
      requires Valid()
      modifies this
      ensures Valid() && tables.view == old(tables.view) && (created <==> volume !in old(db.volumes))
      ensures db.volumes == if created then old(db.volumes)[volume := true] else old(db.volumes)
    {
      created := volume !in db.volumes;
      if created {
        PutVolume(volume, true);
      }
    }

    method SetVolumeAvailable(volume: Volume, available: bool) returns (ok: bool, changed: bool)
      requires Valid()
      modifies this
      ensures Valid() && tables.view == old(tables.view) && (ok <==> volume in old(db.volumes))
      ensures changed <==> ok && old(db.volumes)[volume] != available
      ensures db.volumes == if ok then old(db.volumes)[volume := available] else old(db.volumes)
    {
      ok := volume in db.volumes;
      changed := ok && db.volumes[volume] != available;
      if ok {
        PutVolume(volume, available);
      }
    }

    /** Only a volume marked unavailable can be forgotten, and then with everything it had. */
    method ForgetVolume(volume: Volume, fault: bool) returns (ok: bool)
      requires Valid()
      modifies this
      ensures Valid()
      ensures ok <==> !fault && volume in old(db.volumes) && !old(db.volumes)[volume]
      ensures !ok ==> db == old(db) && tables.view == old(tables.view)
      ensures ok ==> db.volumes == old(db.volumes) - {volume}
      ensures ok ==> tables.view == map k | k in old(tables.view) && k.volume != volume :: old(tables.view)[k]
    {
      if fault || volume !in db.volumes || db.volumes[volume] {
        return false;
      }
      Opened(tables);
      db := WithoutVolume(db, volume, mayFold);
      tables := Closed(db, mayFold);
      return true;
    }

    method ForEachEntry(volume: Volume) returns (stream: seq<(EntryKey, Row)>)
      requires Valid()
      ensures Streams(stream, tables.view, volume)
    {
      Opened(tables);
      stream := ReadVolume(db, volume);
    }
  }

  method ApplyInOrder(d: Database, changes: seq<Change>, fault: Option<nat>, mayFold: Unit -> bool)
    returns (done: bool, work: Database)
    requires InStep(d, mayFold)
    ensures done <==> fault.None? || fault.value >= |changes|
    ensures done ==> InStep(work, mayFold) && work.volumes == d.volumes && View(work) == ApplyAll(View(d), changes)
  {
    work := d;
    for n := 0 to |changes|
      invariant InStep(work, mayFold) && work.volumes == d.volumes
      invariant View(work) == ApplyAll(View(d), changes[..n])
      invariant fault.None? || fault.value >= n
    {
      if fault == Some(n) {
        return false, work;
      }
      assert changes[..n + 1][..n] == changes[..n];
      work := ApplyOne(work, changes[n], mayFold);
    }
    assert changes[..|changes|] == changes;
    done := true;
  }

  method WithoutVolume(d: Database, volume: Volume, mayFold: Unit -> bool) returns (e: Database)
    requires InStep(d, mayFold)
    ensures InStep(e, mayFold) && e.volumes == d.volumes - {volume}
    ensures View(e) == map k | k in View(d) && k.volume != volume :: View(d)[k]
  {
    var gone := set k | k in d.rows && k.volume == volume;
    var numbers := set k | k in gone :: d.index.ids[k];
    var index := Candidates(d.index.ids - gone, d.index.terms - numbers, d.index.exceptions - numbers);
    ForgetInStep(d, gone, index, mayFold);
    e := Database(d.volumes - {volume}, d.rows - gone, index);
    SameTables(d.(rows := d.rows - gone, index := index), e, mayFold);
    ForgottenView(d, e, volume, gone);
  }

  lemma SameTables(d: Database, e: Database, mayFold: Unit -> bool)
    requires InStep(d, mayFold) && e.rows == d.rows && e.index == d.index
    ensures InStep(e, mayFold)
  {
  }

  lemma ForgottenView(d: Database, e: Database, volume: Volume, gone: set<EntryKey>)
    requires e.rows == d.rows - gone && forall k :: k in gone <==> k in d.rows && k.volume == volume
    ensures View(e) == map k | k in View(d) && k.volume != volume :: View(d)[k]
  {
  }

  method ReadVolume(d: Database, volume: Volume) returns (stream: seq<(EntryKey, Row)>)
    ensures Streams(stream, View(d), volume)
  {
    var order := Enumerate(set k | k in d.rows && k.volume == volume);
    assert forall n :: 0 <= n < |order| ==> order[n] in order;
    stream := seq(|order|, n requires 0 <= n < |order| => (order[n], ReadRecord(d.rows[order[n]])));
    forall k | k in View(d) && k.volume == volume ensures exists n :: 0 <= n < |stream| && stream[n].0 == k {
      assert k in order;
      var n :| 0 <= n < |order| && order[n] == k;
      assert stream[n].0 == k;
    }
  }
}
