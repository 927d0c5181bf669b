/**
  The index that the session manager's machine works on is the pipeline's: a batch does to its rows and
  its seen-set what the pipeline does to the ids of the durable rows and of the pass, and a pass finishes
  with the same ids.
 */
module SessionIndexBridge {
  import opened BatchEffect
  import opened DurableStore
  import opened IndexPipeline
  import opened ReconciliationWindow
  import opened Records
  import Machine = SessionSteps

  /** The ids of one volume's rows, as the machine sees them. */
  function Ids(rows: Rows, volume: Volume): set<int> {
    set k | k in rows && k.volume == volume :: k.id
  }

  function Refs(ids: set<FileId>): set<int> {
    set id | id in ids :: id
  }

  /** The ids the batch upserts, first or last. */
  function Upserted(changes: seq<Change>): set<int> {
    set n | 0 <= n < |changes| && changes[n].Upsert? :: changes[n].key.id
  }

  function Included(changes: seq<Change>, included: FileId -> bool): set<int> {
    set n | 0 <= n < |changes| && changes[n].Upsert? && included(changes[n].key.id) :: changes[n].key.id
  }

  /** The ids whose last change removes them. */
  ghost function Deleted(changes: seq<Change>): set<int> {
    set n | 0 <= n < |changes| && LastOf(changes, n, changes[n].key) && changes[n].Remove? :: changes[n].key.id
  }

  function OutcomeOf(b: Batch): Machine.BatchOutcome {
    if !Lands(b) then Machine.Refused else if Prunes(b) then Machine.Applied else Machine.PruneFailed
  }

  lemma {:induction false} HasLast(changes: seq<Change>, k: EntryKey) returns (n: int)
    requires !Untouched(changes, k)
    ensures LastOf(changes, n, k)
  {
    var most, end := changes[..|changes| - 1], |changes| - 1;
    if changes[end].key == k {
      n := end;
    } else {
      assert forall m :: 0 <= m < |most| ==> most[m] == changes[m];
      n := HasLast(most, k);
    }
  }

  /** One id after the batch. */
  lemma RowAfter(before: Rows, after: Rows, b: Batch, id: FileId)
    requires WellFormed(b) && Lands(b) && Leads(before, after, b)
    ensures var k := EntryKey(b.volume, id);
            var upserted, deleted := id in Upserted(b.changes), id in Deleted(b.changes);
            k in after <==> if !upserted then k in before && !deleted
                            else !deleted && (Prunes(b) ==> b.included(id))
  {
    var k := EntryKey(b.volume, id);
    assert ReflectsAt(before, after, b.changes, if Prunes(b) then b.included else WithoutRules, k);
    if Untouched(b.changes, k) {
      NotTouched(b, id);
    } else {
      var n := HasLast(b.changes, k);
      LastDecides(b, id, n);
    }
  }

  lemma NotTouched(b: Batch, id: FileId)
    requires WellFormed(b) && Untouched(b.changes, EntryKey(b.volume, id))
    ensures id !in Upserted(b.changes) && id !in Deleted(b.changes)
    ensures !RuledOut(b.changes, b.included, EntryKey(b.volume, id))
  {
    forall n | 0 <= n < |b.changes| ensures b.changes[n].key.id != id {
      assert b.changes[n].key == EntryKey(b.volume, b.changes[n].key.id);
    }
  }

  lemma LastDecides(b: Batch, id: FileId, n: int)
    requires WellFormed(b) && LastOf(b.changes, n, EntryKey(b.volume, id))
    ensures id in Deleted(b.changes) <==> b.changes[n].Remove?
    ensures b.changes[n].Upsert? ==> id in Upserted(b.changes)
    ensures RuledOut(b.changes, b.included, EntryKey(b.volume, id)) <==> id in Upserted(b.changes) && !b.included(id)
  {
    var k := EntryKey(b.volume, id);
    if id in Deleted(b.changes) {
      var m :| 0 <= m < |b.changes| && LastOf(b.changes, m, b.changes[m].key) && b.changes[m].Remove? && b.changes[m].key.id == id;
      assert b.changes[m].key == k;
      assert m == n;
    }
    if id in Upserted(b.changes) {
      var m :| 0 <= m < |b.changes| && b.changes[m].Upsert? && b.changes[m].key.id == id;
      assert b.changes[m].key == k;
    }
  }

  lemma IdsAfter(before: Rows, after: Rows, b: Batch)
    requires WellFormed(b) && Lands(b) && Leads(before, after, b)
    ensures var upserts, deletes := Upserted(b.changes), Deleted(b.changes);
            Ids(after, b.volume)
            == if Prunes(b) then (Ids(before, b.volume) - deletes - upserts) + (Included(b.changes, b.included) - deletes)
               else (Ids(before, b.volume) - deletes) + (upserts - deletes)
  {
    var upserts, deletes, kept := Upserted(b.changes), Deleted(b.changes), Included(b.changes, b.included);
    var ids := if Prunes(b) then (Ids(before, b.volume) - deletes - upserts) + (kept - deletes)
               else (Ids(before, b.volume) - deletes) + (upserts - deletes);
    forall id: int ensures id in Ids(after, b.volume) <==> id in ids {
      if id >= 0 {
        RowAfter(before, after, b, id);
        IdIff(before, b.volume, id);
        IdIff(after, b.volume, id);
        assert id in kept <==> id in upserts && b.included(id);
      }
    }
  }

  lemma IdIff(rows: Rows, volume: Volume, id: FileId)
    ensures id in Ids(rows, volume) <==> EntryKey(volume, id) in rows
  {
    if id in Ids(rows, volume) {
      var k :| k in rows && k.volume == volume && k.id == id;
      assert k == EntryKey(volume, id);
    }
  }

  /** The machine's batch step is the pipeline's batch, for every batch and every way it can end. */
  lemma BatchIsPipelines(before: Rows, after: Rows, seen: set<FileId>, seenAfter: set<FileId>, b: Batch, v: Machine.Volume)
    requires WellFormed(b) && Leads(before, after, b)
    requires if Lands(b) then Notes(map[b.volume := seen], map[b.volume := seenAfter], b.volume, Sightings(b.changes, b.included))
             else seenAfter == seen
    ensures Machine.ApplyBatch(
              Machine.Index(map[v := Refs(seen)], map[v := Ids(before, b.volume)]), v, Upserted(b.changes),
              Included(b.changes, b.included), Deleted(b.changes), OutcomeOf(b))
            == Machine.Index(map[v := Refs(seenAfter)], map[v := Ids(after, b.volume)])
  {
    if Lands(b) {
      IdsAfter(before, after, b);
      var upserts, kept := Upserted(b.changes), Included(b.changes, b.included);
      assert kept * upserts == kept;
      forall id: int ensures id in Refs(seenAfter) <==> id in Refs(seen) + kept {
        if id >= 0 {
          var i: FileId := id;
          assert id in Refs(seenAfter) <==> i in seenAfter;
          assert id in Refs(seen) <==> i in seen;
          assert id in kept <==> i in Sightings(b.changes, b.included);
        }
      }
      assert Refs(seenAfter) == Refs(seen) + kept;
    }
  }

  /** What a finishing pass sets out to remove is the same on both sides. */
  lemma FinishIsPipelines(rows: Rows, volume: Volume, seen: set<FileId>, included: FileId -> bool, v: Machine.Volume)
    ensures var excluded: set<int> := set k | k in rows && k.volume == volume && !included(k.id) :: k.id;
            Machine.StaleRows(Machine.Index(map[v := Refs(seen)], map[v := Ids(rows, volume)]), v, excluded)
            == set k | k in Stale(rows, volume, seen, included) :: k.id
  {
    var excluded: set<int> := set k | k in rows && k.volume == volume && !included(k.id) :: k.id;
    var stale: set<int> := set k | k in Stale(rows, volume, seen, included) :: k.id;
    var ids := Ids(rows, volume);
    forall id: int ensures id in (ids - Refs(seen)) + (ids * excluded) <==> id in stale {
      if id >= 0 {
        var i: FileId := id;
        var k := EntryKey(volume, i);
        IdIff(rows, volume, i);
        assert id in Refs(seen) <==> i in seen;
        assert k in Stale(rows, volume, seen, included) ==> k.id in stale;
        assert k in rows && !included(k.id) ==> k.id in excluded;
        if id in excluded {
          var o :| o in rows && o.volume == volume && !included(o.id) && o.id == id;
          assert o == k;
        }
        if id in stale {
          var o :| o in Stale(rows, volume, seen, included) && o.id == id;
          assert o == k;
        }
      }
    }
    assert Machine.RowsOf(Machine.Index(map[v := Refs(seen)], map[v := ids]), v) == ids;
  }
}
