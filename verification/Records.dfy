/** Volumes, file identities and the rows kept for them. */
module Records {
  import opened Words

  datatype Volume = Volume(rowId: int)

  type FileId = nat

  type Name = seq<Unit>

  datatype EntryKey = EntryKey(volume: Volume, id: FileId)

  function VolumesIn(keys: set<EntryKey>): set<Volume> {
    set k | k in keys :: k.volume
  }

  /** Everything about a file except where it is and what it is called. */
  datatype Facts = Facts(
    size: nat, allocatedSize: nat, allocatedKnown: bool,
    created: nat, modified: nat, accessed: nat, attributes: nat)

  datatype Row = Row(parent: FileId, name: Name, facts: Facts)

  const ATTRIBUTE_DIRECTORY := 0x10

  predicate IsDirectory(facts: Facts) {
    facts.attributes / ATTRIBUTE_DIRECTORY % 2 == 1
  }

  // ---- partial updates ----

  datatype Field = ParentField | NameField | SizeField | CreatedField | ModifiedField | AccessedField |
    AttributesField | AllocatedField

  const ALL_FIELDS: set<Field> := {
    ParentField, NameField, SizeField, CreatedField, ModifiedField, AccessedField, AttributesField, AllocatedField}

  /** What a file unknown so far is taken to be where an update says nothing. */
  const BLANK := Row(0, [], Facts(0, 0, false, 0, 0, 0, 0))

  function MergeFacts(was: Facts, update: Facts, fields: set<Field>): Facts {
    Facts(
      if SizeField in fields then update.size else was.size,
      if AllocatedField in fields then update.allocatedSize else was.allocatedSize,
      if AllocatedField in fields then update.allocatedKnown else was.allocatedKnown,
      if CreatedField in fields then update.created else was.created,
      if ModifiedField in fields then update.modified else was.modified,
      if AccessedField in fields then update.accessed else was.accessed,
      if AttributesField in fields then update.attributes else was.attributes)
  }

  /** Fields the update carries replace the old ones; the others stay. */
  function Merge(was: Row, update: Row, fields: set<Field>): Row {
    Row(
      if ParentField in fields then update.parent else was.parent,
      if NameField in fields then update.name else was.name,
      MergeFacts(was.facts, update.facts, fields))
  }

  // ---- listings ----

  /** A listing of a set of identities, each once, in whatever order a hash table or query yields. */
  ghost predicate Enumerates<T(!new)>(order: seq<T>, keys: set<T>) {
    && (forall i, j :: 0 <= i < j < |order| ==> order[i] != order[j])
    && (forall k :: k in order <==> k in keys)
  }

  method Enumerate<T(==, !new)>(keys: set<T>) returns (order: seq<T>)
    ensures Enumerates(order, keys)
  {
    order := [];
    var rest := keys;
    while rest != {}
      invariant forall i, j :: 0 <= i < j < |order| ==> order[i] != order[j]
      invariant forall k :: k in keys <==> k in order || k in rest
      invariant forall k :: k in order ==> k !in rest
      decreases |rest|
    {
      var k :| k in rest;
      order := order + [k];
      rest := rest - {k};
    }
  }
}
