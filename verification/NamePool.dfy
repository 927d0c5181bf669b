/** Names interned into one arena and found again through hash buckets. */
module NamePool {
  import opened Words

  type Name = seq<Unit>

  datatype Slot = Slot(offset: nat, length: nat)

  ghost predicate SlotHolds(arena: seq<Unit>, slot: Slot, text: Name) {
    slot.offset + slot.length <= |arena| && arena[slot.offset..slot.offset + slot.length] == text
  }

  ghost predicate Slotted(arena: seq<Unit>, table: seq<Slot>, texts: seq<Name>, i: nat) {
    i < |table| && i < |texts| ==> SlotHolds(arena, table[i], texts[i])
  }

  ghost predicate Differ(texts: seq<Name>, i: nat, j: nat) {
    i < j < |texts| ==> texts[i] != texts[j]
  }

  ghost predicate Distinct(texts: seq<Name>) {
    forall i: nat, j: nat :: Differ(texts, i, j)
  }

  ghost predicate BucketOf(bucket: seq<nat>, h: nat, hash: Name -> nat, texts: seq<Name>) {
    forall j :: 0 <= j < |bucket| ==> bucket[j] < |texts| && hash(texts[bucket[j]]) == h
  }

  ghost predicate Filed(buckets: map<nat, seq<nat>>, hash: Name -> nat, texts: seq<Name>, i: nat) {
    i < |texts| ==> hash(texts[i]) in buckets && i in buckets[hash(texts[i])]
  }

  /** Every name is in the bucket of its hash, and buckets hold nothing else. */
  ghost predicate Bucketed(buckets: map<nat, seq<nat>>, hash: Name -> nat, texts: seq<Name>) {
    && (forall i: nat :: Filed(buckets, hash, texts, i))
    && (forall h :: h in buckets ==> BucketOf(buckets[h], h, hash, texts))
  }

  lemma {:induction false} SlotKept(arena: seq<Unit>, more: seq<Unit>, slot: Slot, text: Name)
    requires SlotHolds(arena, slot, text)
    ensures SlotHolds(arena + more, slot, text)
  {
    assert (arena + more)[slot.offset..slot.offset + slot.length] == arena[slot.offset..slot.offset + slot.length];
  }

  lemma Appended(arena: seq<Unit>, text: Name)
    ensures SlotHolds(arena + text, Slot(|arena|, |text|), text)
  {
  }

  lemma BucketGrows(buckets: map<nat, seq<nat>>, bucket: seq<nat>, hash: Name -> nat, texts: seq<Name>, name: Name)
    requires Bucketed(buckets, hash, texts)
    requires bucket == if hash(name) in buckets then buckets[hash(name)] else []
    ensures Bucketed(buckets[hash(name) := bucket + [|texts|]], hash, texts + [name])
  {
    var more, grown := buckets[hash(name) := bucket + [|texts|]], texts + [name];
    forall i: nat ensures Filed(more, hash, grown, i) {
      assert Filed(buckets, hash, texts, i);
    }
  }

  datatype Content = Content(
    arena: seq<Unit>, table: seq<Slot>, buckets: map<nat, seq<nat>>, hash: Name -> nat, texts: seq<Name>)

  /** Slots hold the texts, the texts differ, and the buckets find them. */
  ghost predicate InOrder(c: Content) {
    && |c.table| == |c.texts|
    && (forall i: nat :: Slotted(c.arena, c.table, c.texts, i))
    && Distinct(c.texts)
    && Bucketed(c.buckets, c.hash, c.texts)
  }

  type Ordered = c: Content | InOrder(c)
    ghost witness Content([], [], map[], _ => 0, [])

  lemma Grown(c: Ordered, name: Name, bucket: seq<nat>)
    requires name !in c.texts
    requires bucket == if c.hash(name) in c.buckets then c.buckets[c.hash(name)] else []
    ensures InOrder(Content(
              c.arena + name, c.table + [Slot(|c.arena|, |name|)], c.buckets[c.hash(name) := bucket + [|c.texts|]],
              c.hash, c.texts + [name]))
  {
    var arena, table, texts := c.arena + name, c.table + [Slot(|c.arena|, |name|)], c.texts + [name];
    BucketGrows(c.buckets, bucket, c.hash, c.texts, name);
    Appended(c.arena, name);
    forall i: nat ensures Slotted(arena, table, texts, i) {
      assert Slotted(c.arena, c.table, c.texts, i);
      if i < |c.texts| {
        SlotKept(c.arena, name, table[i], texts[i]);
      }
    }
    forall i: nat, j: nat ensures Differ(texts, i, j) {
      assert Differ(c.texts, i, j);
    }
  }

  lemma NotFiled(c: Ordered, name: Name, bucket: seq<nat>)
    requires bucket == if c.hash(name) in c.buckets then c.buckets[c.hash(name)] else []
    requires forall j :: 0 <= j < |bucket| && bucket[j] < |c.texts| ==> c.texts[bucket[j]] != name
    ensures name !in c.texts
  {
    forall i: nat | i < |c.texts| ensures c.texts[i] != name {
      assert Filed(c.buckets, c.hash, c.texts, i);
    }
  }

  /** `texts` lists the interned names by identifier. */
  class Pool {
    const hash: Name -> nat
    var arena: seq<Unit>
    var table: seq<Slot>
    var hashBuckets: map<nat, seq<nat>>
    ghost var content: Ordered
    ghost var texts: seq<Name>

    ghost predicate Valid()
      reads this
    {
      content == Content(arena, table, hashBuckets, hash, texts)
    }

    constructor (hash: Name -> nat)
      ensures Valid() && texts == [] && this.hash == hash
    {
      this.hash := hash;
      arena, table, hashBuckets, texts, content := [], [], map[], [], Content([], [], map[], hash, []);
    }

    /** Equal names get equal identifiers whatever the hash; identifiers and texts never change. */
    method Intern(name: Name) returns (id: nat)
      requires Valid()
      modifies this
      ensures Valid() && id < |texts| && texts[id] == name
      ensures texts == if name in old(texts) then old(texts) else old(texts) + [name]
    {
      var h := hash(name);
      var bucket := if h in hashBuckets then hashBuckets[h] else [];
      var found := Search(bucket, name);
      if found.Some? {
        return found.value;
      }
      NotFiled(content, name, bucket);
      Grown(content, name, bucket);
      id := |table|;
      hashBuckets := hashBuckets[h := bucket + [id]];
      table := table + [Slot(|arena|, |name|)];
      arena := arena + name;
      texts := texts + [name];
      content := Content(arena, table, hashBuckets, hash, texts);
    }

    /** Looks for the name among the candidates of its bucket. */
    method Search(bucket: seq<nat>, name: Name) returns (found: Option<nat>)
      requires Valid() && bucket == if hash(name) in hashBuckets then hashBuckets[hash(name)] else []
      ensures found.Some? ==> found.value < |texts| && texts[found.value] == name
      ensures found.None? ==> forall j :: 0 <= j < |bucket| && bucket[j] < |texts| ==> texts[bucket[j]] != name
    {
      assert BucketOf(bucket, hash(name), hash, texts);
      for k := 0 to |bucket|
        invariant forall j :: 0 <= j < k ==> texts[bucket[j]] != name
      {
        var id := bucket[k];
        assert Slotted(arena, table, texts, id);
        var slot := table[id];
        if slot.length == |name| && arena[slot.offset..slot.offset + slot.length] == name {
          return Some(id);
        }
      }
      return None;
    }

    /** Takes over the names of another pool. */
    method MoveFrom(other: Pool)
      requires other.Valid() && other.hash == hash
      modifies this
      ensures Valid() && texts == old(other.texts)
    {
      arena, table, hashBuckets, texts := other.arena, other.table, other.hashBuckets, other.texts;
      content := other.content;
    }

    /** Unknown identifiers read as the empty name. */
    function Get(id: nat): (name: Name)
      requires Valid()
      reads this
      ensures name == if id < |texts| then texts[id] else []
    {
      if id >= |table| then []
      else
        assert Slotted(arena, table, texts, id);
        arena[table[id].offset..table[id].offset + table[id].length]
    }
  }
}
