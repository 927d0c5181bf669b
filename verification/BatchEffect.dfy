/**
  What a batch of changes means for a reader, field by field: the last change that speaks of a field
  decides it.
 */
module BatchEffect {
  import opened DurableStore
  import opened Records
  import opened Words

  /** What a reader finds in one field; an unknown allocated size is no value. */
  datatype Cell = File(id: FileId) | Text(name: Name) | Number(n: nat) | Allocated(size: Option<nat>)

  function CellOf(row: Row, f: Field): Cell {
    match f
    case ParentField => File(row.parent)
    case NameField => Text(row.name)
    case SizeField => Number(row.facts.size)
    case CreatedField => Number(row.facts.created)
    case ModifiedField => Number(row.facts.modified)
    case AccessedField => Number(row.facts.accessed)
    case AttributesField => Number(row.facts.attributes)
    case AllocatedField => Allocated(if row.facts.allocatedKnown then Some(row.facts.allocatedSize) else None)
  }

  /** What a field of a new file is until a change speaks of it. */
  function Unsaid(f: Field): Cell {
    match f
    case ParentField => File(0)
    case NameField => Text([])
    case AllocatedField => Allocated(None)
    case _ => Number(0)
  }

  /** What a reader finds, in a file that is not there as in a new one. */
  function FieldIn(rows: Rows, k: EntryKey, f: Field): Cell {
    if k in rows then CellOf(rows[k], f) else Unsaid(f)
  }

  /** The change decides this field of this file: it carries the field, or removes the file. */
  predicate Says(c: Change, k: EntryKey, f: Field) {
    c.key == k && (c.Remove? || f in c.fields)
  }

  /** The last change of the file is the `n`th. */
  ghost predicate LastOf(changes: seq<Change>, n: int, k: EntryKey) {
    0 <= n < |changes| && changes[n].key == k && forall m :: n < m < |changes| ==> changes[m].key != k
  }

  /** The last change that decides the field is the `n`th. */
  ghost predicate LastSays(changes: seq<Change>, n: int, k: EntryKey, f: Field) {
    0 <= n < |changes| && Says(changes[n], k, f) && forall m :: n < m < |changes| ==> !Says(changes[m], k, f)
  }

  ghost predicate Untouched(changes: seq<Change>, k: EntryKey) {
    forall n :: 0 <= n < |changes| ==> changes[n].key != k
  }

  ghost predicate Undecided(changes: seq<Change>, k: EntryKey, f: Field) {
    forall n :: 0 <= n < |changes| ==> !Says(changes[n], k, f)
  }

  /** A file is there if its last change leaves it there. */
  ghost predicate PresenceFollows(before: Rows, after: Rows, changes: seq<Change>, k: EntryKey) {
    && (Untouched(changes, k) ==> (k in after <==> k in before) && (k in after && k in before ==> after[k] == before[k]))
    && (forall n :: LastOf(changes, n, k) ==> (k in after <==> changes[n].Upsert?))
  }

  /** A field is what the last change that decides it made of it. */
  ghost predicate FieldFollows(before: Rows, after: Rows, changes: seq<Change>, k: EntryKey, f: Field) {
    && (Undecided(changes, k, f) ==> FieldIn(after, k, f) == FieldIn(before, k, f))
    && (forall n :: LastSays(changes, n, k, f) ==>
          FieldIn(after, k, f) == if changes[n].Upsert? then CellOf(changes[n].row, f) else Unsaid(f))
  }

  ghost predicate Follows(before: Rows, after: Rows, changes: seq<Change>, k: EntryKey) {
    PresenceFollows(before, after, changes, k) && forall f: Field :: FieldFollows(before, after, changes, k, f)
  }

  lemma {:induction false} PresenceByLast(rows: Rows, changes: seq<Change>, k: EntryKey)
    ensures PresenceFollows(rows, ApplyAll(rows, changes), changes, k)
  {
    if changes != [] {
      var most, last := changes[..|changes| - 1], changes[|changes| - 1];
      PresenceByLast(rows, most, k);
      if last.key == k {
        assert !Untouched(changes, k);
      } else {
        forall n | LastOf(changes, n, k) ensures LastOf(most, n, k) {
          assert changes[n] == most[n];
          assert forall m :: n < m < |most| ==> most[m] == changes[m];
        }
        assert Untouched(changes, k) ==> Untouched(most, k);
      }
    }
  }

  /** One change sets the fields it carries and leaves the others. */
  lemma ChangeSetsField(rows: Rows, c: Change, k: EntryKey, f: Field)
    ensures FieldIn(ApplyChange(rows, c), k, f) == (
              if !Says(c, k, f) then FieldIn(rows, k, f) else if c.Upsert? then CellOf(c.row, f) else Unsaid(f))
  {
  }

  lemma {:induction false} FieldByLast(rows: Rows, changes: seq<Change>, k: EntryKey, f: Field)
    ensures FieldFollows(rows, ApplyAll(rows, changes), changes, k, f)
  {
    if changes != [] {
      var most, last := changes[..|changes| - 1], changes[|changes| - 1];
      FieldByLast(rows, most, k, f);
      ChangeSetsField(ApplyAll(rows, most), last, k, f);
      LastAmong(changes, k, f);
    }
  }

  lemma LastAmong(changes: seq<Change>, k: EntryKey, f: Field)
    requires changes != []
    ensures var most, end := changes[..|changes| - 1], |changes| - 1;
            if Says(changes[end], k, f) then !Undecided(changes, k, f) && forall n :: LastSays(changes, n, k, f) ==> n == end
            else (Undecided(changes, k, f) ==> Undecided(most, k, f))
                 && forall n :: LastSays(changes, n, k, f) ==> LastSays(most, n, k, f) && changes[n] == most[n]
  {
    var most := changes[..|changes| - 1];
    assert forall m :: 0 <= m < |most| ==> most[m] == changes[m];
  }

  /** The meaning of a batch, for every batch, file and field. */
  lemma BatchFollows(rows: Rows, changes: seq<Change>, k: EntryKey)
    ensures Follows(rows, ApplyAll(rows, changes), changes, k)
  {
    PresenceByLast(rows, changes, k);
    forall f: Field ensures FieldFollows(rows, ApplyAll(rows, changes), changes, k, f) {
      FieldByLast(rows, changes, k, f);
    }
  }

  // ---- a batch under rules ----

  function WithoutRules(id: FileId): bool { true }

  /** The batch brings a file that the rules leave out. */
  ghost predicate RuledOut(changes: seq<Change>, included: FileId -> bool, k: EntryKey) {
    !included(k.id) && exists n :: 0 <= n < |changes| && changes[n].Upsert? && changes[n].key == k
  }

  /** Files the rules leave out are gone; of the others the last change decides. */
  ghost predicate ReflectsAt(before: Rows, after: Rows, changes: seq<Change>, included: FileId -> bool, k: EntryKey) {
    if RuledOut(changes, included, k) then k !in after else Follows(before, after, changes, k)
  }

  ghost predicate Reflects(before: Rows, after: Rows, changes: seq<Change>, included: FileId -> bool) {
    forall k: EntryKey :: ReflectsAt(before, after, changes, included, k)
  }

  lemma PrunedReflects(rows: Rows, changes: seq<Change>, included: FileId -> bool, excluded: set<EntryKey>)
    requires forall k :: k in excluded <==> RuledOut(changes, included, k)
    ensures Reflects(rows, ApplyAll(rows, changes) - excluded, changes, included)
  {
    forall k: EntryKey ensures ReflectsAt(rows, ApplyAll(rows, changes) - excluded, changes, included, k) {
      if k !in excluded {
        BatchFollows(rows, changes, k);
        FollowsToo(rows, ApplyAll(rows, changes), ApplyAll(rows, changes) - excluded, changes, k);
      }
    }
  }

  lemma FollowsToo(before: Rows, after: Rows, also: Rows, changes: seq<Change>, k: EntryKey)
    requires Follows(before, after, changes, k) && (k in after <==> k in also) && (k in after ==> after[k] == also[k])
    ensures Follows(before, also, changes, k)
  {
    forall f: Field ensures FieldFollows(before, also, changes, k, f) {
      assert FieldFollows(before, after, changes, k, f);
    }
  }

  lemma UnprunedReflects(rows: Rows, changes: seq<Change>)
    ensures Reflects(rows, ApplyAll(rows, changes), changes, WithoutRules)
  {
    PrunedReflects(rows, changes, WithoutRules, {});
    assert ApplyAll(rows, changes) - {} == ApplyAll(rows, changes);
  }

  // ---- what a running pass has seen ----

  /** The files that the batch brings and the rules include. */
  ghost function Sightings(changes: seq<Change>, included: FileId -> bool): iset<FileId> {
    iset id: FileId | included(id) && exists n :: 0 <= n < |changes| && changes[n].Upsert? && changes[n].key.id == id
  }

  /** A pass of the volume has seen what it had and these files; other passes nothing new. */
  ghost predicate Notes(before: map<Volume, set<FileId>>, after: map<Volume, set<FileId>>, volume: Volume,
                        sighted: iset<FileId>)
  {
    && after.Keys == before.Keys && (forall v :: v in before && v != volume ==> after[v] == before[v])
    && (volume in before ==> forall id :: id in after[volume] <==> id in before[volume] || id in sighted)
  }

  // ---- a scan batch ----

  /** The last record of the file is the `n`th. */
  ghost predicate LastRecord(records: seq<(FileId, Row)>, n: int, id: FileId) {
    0 <= n < |records| && records[n].0 == id && forall m :: n < m < |records| ==> records[m].0 != id
  }

  /** The files that are on the list and the rules include. */
  ghost function Recorded(records: seq<(FileId, Row)>, included: FileId -> bool): iset<FileId> {
    iset id: FileId | included(id) && exists n :: 0 <= n < |records| && records[n].0 == id
  }

  /** After a scan batch a file on the list is what its last record says if the rules include it and gone if
      not; all else is as before. */
  ghost predicate ScannedAt(before: Rows, after: Rows, volume: Volume, records: seq<(FileId, Row)>,
                            included: FileId -> bool, k: EntryKey)
  {
    if k.volume == volume && exists n :: LastRecord(records, n, k.id) then (
      && (k in after <==> included(k.id))
      && (forall n :: LastRecord(records, n, k.id) && k in after ==> after[k] == records[n].1))
    else (k in after <==> k in before) && (k in after && k in before ==> after[k] == before[k])
  }

  ghost predicate Scanned(before: Rows, after: Rows, volume: Volume, records: seq<(FileId, Row)>, included: FileId -> bool) {
    forall k: EntryKey :: ScannedAt(before, after, volume, records, included, k)
  }
}
