/**
  The arrays and maps of the in-memory projection: row slots, the list of free slots, the map from
  identities to slots and the child lists.
 */
module ProjectionTable {
  import opened Records

  datatype Entry = Entry(key: EntryKey, parent: FileId, nameId: nat, facts: Facts)

  datatype Table = Table(
    entries: seq<Entry>, free: seq<nat>, ids: map<EntryKey, nat>, children: map<EntryKey, seq<nat>>)

  const EMPTY := Table([], [], map[], map[])

  function ParentKey(e: Entry): EntryKey {
    EntryKey(e.key.volume, e.parent)
  }

  /** A file that is its own parent is the root of its volume, not a child of itself. */
  predicate IsRoot(e: Entry) {
    e.parent == e.key.id
  }

  // ---- where rows are ----

  /** The slots in use, the free ones in the order they were freed, and how many there are. */
  datatype Layout = Layout(ids: map<EntryKey, nat>, free: seq<nat>, count: nat)

  function LayoutOf(t: Table): Layout {
    Layout(t.ids, t.free, |t.entries|)
  }

  /** A row that is new takes the slot freed last, or a new one. */
  function Place(l: Layout, key: EntryKey): Layout {
    if key in l.ids then l
    else if l.free == [] then Layout(l.ids[key := l.count], [], l.count + 1)
    else Layout(l.ids[key := l.free[|l.free| - 1]], l.free[..|l.free| - 1], l.count)
  }

  function Release(l: Layout, key: EntryKey): Layout {
    if key in l.ids then l.(ids := l.ids - {key}, free := l.free + [l.ids[key]]) else l
  }

  // ---- representation invariant ----

  predicate Live(t: Table, i: nat) {
    i < |t.entries| && t.entries[i].key in t.ids && t.ids[t.entries[i].key] == i
  }

  ghost predicate IdsOk(t: Table) {
    forall k :: k in t.ids ==> t.ids[k] < |t.entries| && t.entries[t.ids[k]].key == k
  }

  predicate Distinct(s: seq<nat>) {
    forall i, j :: 0 <= i < j < |s| ==> s[i] != s[j]
  }

  /** Live slots and free slots partition the array. */
  ghost predicate SlotsOk(t: Table) {
    && Distinct(t.free)
    && (forall i: nat :: i in t.free <==> i < |t.entries| && !Live(t, i))
  }

  predicate Listed(children: map<EntryKey, seq<nat>>, p: EntryKey, i: nat) {
    p in children && i in children[p]
  }

  predicate IsChild(t: Table, p: EntryKey, i: nat) {
    Live(t, i) && !IsRoot(t.entries[i]) && ParentKey(t.entries[i]) == p
  }

  ghost predicate ListsOk(children: map<EntryKey, seq<nat>>) {
    forall p :: p in children ==> children[p] != [] && Distinct(children[p])
  }

  /** Each child list holds exactly the live children, once each. */
  ghost predicate ChildrenOk(t: Table) {
    && ListsOk(t.children)
    && (forall p: EntryKey, i: nat :: Listed(t.children, p, i) <==> IsChild(t, p, i))
  }

  ghost predicate TableOk(t: Table) {
    IdsOk(t) && SlotsOk(t) && ChildrenOk(t)
  }

  // ---- rows ----

  function Text(texts: seq<Name>, id: nat): Name {
    if id < |texts| then texts[id] else []
  }

  function RowOf(e: Entry, texts: seq<Name>): Row {
    Row(e.parent, Text(texts, e.nameId), e.facts)
  }

  ghost predicate NamesOk(t: Table, texts: seq<Name>) {
    forall k :: k in t.ids && t.ids[k] < |t.entries| ==> t.entries[t.ids[k]].nameId < |texts|
  }

  /** What the projection says about each file it holds. */
  function Rows(t: Table, texts: seq<Name>): map<EntryKey, Row> {
    map k | k in t.ids && t.ids[k] < |t.entries| :: RowOf(t.entries[t.ids[k]], texts)
  }

  function LiveNames(t: Table, texts: seq<Name>): map<nat, Name> {
    map i | 0 <= i < |t.entries| && Live(t, i) :: Text(texts, t.entries[i].nameId)
  }

  // ---- child lists ----

  function ChildrenOf(children: map<EntryKey, seq<nat>>, p: EntryKey): seq<nat> {
    if p in children then children[p] else []
  }

  function AddChild(children: map<EntryKey, seq<nat>>, p: EntryKey, i: nat): map<EntryKey, seq<nat>> {
    children[p := ChildrenOf(children, p) + [i]]
  }

  function Position(s: seq<nat>, i: nat): (k: nat)
    ensures k <= |s| && (k < |s| ==> s[k] == i) && (k == |s| ==> i !in s)
  {
    if s == [] || s[0] == i then 0 else 1 + Position(s[1..], i)
  }

  /** The last element takes the place of the one removed. */
  function SwapRemove(s: seq<nat>, i: nat): seq<nat> {
    var k := Position(s, i);
    if k == |s| then s else s[k := s[|s| - 1]][..|s| - 1]
  }

  function RemoveChild(children: map<EntryKey, seq<nat>>, p: EntryKey, i: nat): map<EntryKey, seq<nat>> {
    var left := SwapRemove(ChildrenOf(children, p), i);
    if p !in children then children
    else if left == [] then children - {p}
    else children[p := left]
  }

  lemma SwapRemoves(s: seq<nat>, i: nat)
    requires Distinct(s)
    ensures Distinct(SwapRemove(s, i))
    ensures forall x: nat :: x in SwapRemove(s, i) <==> x in s && x != i
  {
    var k, r := Position(s, i), SwapRemove(s, i);
    if k < |s| {
      forall x: nat ensures x in r <==> x in s && x != i {
        if x in s && x != i {
          var j :| 0 <= j < |s| && s[j] == x;
          assert r[if j == |s| - 1 then k else j] == x;
        }
      }
    }
  }

  lemma AddsChild(children: map<EntryKey, seq<nat>>, p: EntryKey, i: nat)
    requires ListsOk(children) && !Listed(children, p, i)
    ensures ListsOk(AddChild(children, p, i))
    ensures forall q: EntryKey, j: nat ::
              Listed(AddChild(children, p, i), q, j) <==> Listed(children, q, j) || (q == p && j == i)
  {
  }

  lemma RemovesChild(children: map<EntryKey, seq<nat>>, p: EntryKey, i: nat)
    requires ListsOk(children)
    ensures ListsOk(RemoveChild(children, p, i))
    ensures forall q: EntryKey, j: nat ::
              Listed(RemoveChild(children, p, i), q, j) <==> Listed(children, q, j) && !(q == p && j == i)
  {
    SwapRemoves(ChildrenOf(children, p), i);
  }

  // ---- storing a row ----

  /** The child lists after slot `i` goes from entry `was` to entry `e`. */
  function Reparent(children: map<EntryKey, seq<nat>>, i: nat, was: Entry, e: Entry): map<EntryKey, seq<nat>> {
    if was.parent == e.parent then children
    else
      var left := RemoveChild(children, ParentKey(was), i);
      if IsRoot(e) then left else AddChild(left, ParentKey(e), i)
  }

  function Replace(t: Table, e: Entry): Table
    requires IdsOk(t) && e.key in t.ids
  {
    var i := t.ids[e.key];
    t.(entries := t.entries[i := e], children := Reparent(t.children, i, t.entries[i], e))
  }

  function SlotFor(t: Table): nat {
    if t.free != [] then t.free[|t.free| - 1] else |t.entries|
  }

  predicate FreeInRange(t: Table) {
    forall k :: 0 <= k < |t.free| ==> t.free[k] < |t.entries|
  }

  function Insert(t: Table, e: Entry): Table
    requires FreeInRange(t)
  {
    var i := SlotFor(t);
    Table(
      if t.free != [] then t.entries[i := e] else t.entries + [e],
      if t.free != [] then t.free[..|t.free| - 1] else [],
      t.ids[e.key := i],
      if IsRoot(e) then t.children else AddChild(t.children, ParentKey(e), i))
  }

  lemma ReplaceKeepsIds(t: Table, e: Entry)
    requires TableOk(t) && e.key in t.ids
    ensures var u := Replace(t, e); IdsOk(u) && SlotsOk(u) && forall i: nat :: Live(u, i) <==> Live(t, i)
  {
    var u := Replace(t, e);
    forall i: nat ensures Live(u, i) <==> Live(t, i) {
    }
    forall i: nat ensures i in u.free <==> i < |u.entries| && !Live(u, i) {
      assert i in t.free <==> i < |t.entries| && !Live(t, i);
    }
  }

  lemma Reparented(children: map<EntryKey, seq<nat>>, i: nat, was: Entry, e: Entry)
    requires ListsOk(children) && was.key == e.key
    requires forall p: EntryKey :: Listed(children, p, i) <==> !IsRoot(was) && ParentKey(was) == p
    ensures var c := Reparent(children, i, was, e);
            && ListsOk(c)
            && (forall p: EntryKey, j: nat :: j != i ==> (Listed(c, p, j) <==> Listed(children, p, j)))
            && (forall p: EntryKey :: Listed(c, p, i) <==> !IsRoot(e) && ParentKey(e) == p)
  {
    if was.parent != e.parent {
      RemovesChild(children, ParentKey(was), i);
      var left := RemoveChild(children, ParentKey(was), i);
      if !IsRoot(e) {
        assert !Listed(left, ParentKey(e), i);
        AddsChild(left, ParentKey(e), i);
      }
    }
  }

  lemma ReplaceKeepsChildren(t: Table, e: Entry)
    requires TableOk(t) && e.key in t.ids
    ensures ChildrenOk(Replace(t, e))
  {
    var u, i := Replace(t, e), t.ids[e.key];
    ReplaceKeepsIds(t, e);
    assert Live(t, i);
    forall p: EntryKey ensures Listed(t.children, p, i) <==> !IsRoot(t.entries[i]) && ParentKey(t.entries[i]) == p {
      assert Listed(t.children, p, i) <==> IsChild(t, p, i);
    }
    Reparented(t.children, i, t.entries[i], e);
    forall p: EntryKey, j: nat ensures Listed(u.children, p, j) <==> IsChild(u, p, j) {
      assert Listed(t.children, p, j) <==> IsChild(t, p, j);
      assert Live(u, j) <==> Live(t, j);
    }
  }

  lemma ReplaceRows(t: Table, e: Entry, texts: seq<Name>)
    requires TableOk(t) && e.key in t.ids
    ensures IdsOk(Replace(t, e)) && Rows(Replace(t, e), texts) == Rows(t, texts)[e.key := RowOf(e, texts)]
    ensures LiveNames(Replace(t, e), texts) == LiveNames(t, texts)[t.ids[e.key] := Text(texts, e.nameId)]
    ensures NamesOk(t, texts) && e.nameId < |texts| ==> NamesOk(Replace(t, e), texts)
  {
    ReplaceKeepsIds(t, e);
    var u, i := Replace(t, e), t.ids[e.key];
    assert Live(t, i) && Live(u, i);
  }

  lemma SlotsInRange(t: Table)
    requires SlotsOk(t)
    ensures FreeInRange(t)
  {
    forall k | 0 <= k < |t.free| ensures t.free[k] < |t.entries| {
      assert t.free[k] in t.free;
    }
  }

  lemma InsertKeepsIds(t: Table, e: Entry)
    requires TableOk(t) && e.key !in t.ids
    ensures FreeInRange(t)
    ensures var u, i := Insert(t, e), SlotFor(t);
            && IdsOk(u) && !Live(t, i) && (forall j: nat :: Live(u, j) <==> Live(t, j) || j == i)
            && (forall j: nat :: Live(t, j) ==> u.entries[j] == t.entries[j]) && u.entries[i] == e
  {
    SlotsInRange(t);
    var u, i := Insert(t, e), SlotFor(t);
    assert t.free != [] ==> i in t.free;
    assert !Live(t, i);
    assert forall k :: k in t.ids ==> Live(t, t.ids[k]);
    forall j: nat ensures Live(u, j) <==> Live(t, j) || j == i {
    }
  }

  lemma InsertKeepsSlots(t: Table, e: Entry)
    requires TableOk(t) && e.key !in t.ids
    ensures FreeInRange(t)
    ensures SlotsOk(Insert(t, e))
  {
    InsertKeepsIds(t, e);
    var u, i := Insert(t, e), SlotFor(t);
    forall j: nat ensures j in u.free <==> j < |u.entries| && !Live(u, j) {
      assert j in t.free <==> j < |t.entries| && !Live(t, j);
      if t.free != [] {
        assert t.free == u.free + [i];
        assert j in t.free <==> j in u.free || j == i;
        assert i !in u.free;
      }
    }
  }

  lemma InsertKeepsChildren(t: Table, e: Entry)
    requires TableOk(t) && e.key !in t.ids
    ensures FreeInRange(t)
    ensures ChildrenOk(Insert(t, e))
  {
    InsertKeepsIds(t, e);
    var u, i := Insert(t, e), SlotFor(t);
    assert forall p: EntryKey :: Listed(t.children, p, i) <==> IsChild(t, p, i);
    if !IsRoot(e) {
      AddsChild(t.children, ParentKey(e), i);
    }
    forall p: EntryKey, j: nat ensures Listed(u.children, p, j) <==> IsChild(u, p, j) {
      assert Listed(t.children, p, j) <==> IsChild(t, p, j);
      assert Live(u, j) <==> Live(t, j) || j == i;
    }
  }

  lemma InsertRows(t: Table, e: Entry, texts: seq<Name>)
    requires TableOk(t) && e.key !in t.ids
    ensures FreeInRange(t)
    ensures IdsOk(Insert(t, e)) && Rows(Insert(t, e), texts) == Rows(t, texts)[e.key := RowOf(e, texts)]
    ensures NamesOk(t, texts) && e.nameId < |texts| ==> NamesOk(Insert(t, e), texts)
  {
    InsertKeepsIds(t, e);
    assert forall k :: k in t.ids ==> Live(t, t.ids[k]);
  }

  lemma InsertNames(t: Table, e: Entry, texts: seq<Name>)
    requires TableOk(t) && e.key !in t.ids
    ensures FreeInRange(t)
    ensures SlotFor(t) !in LiveNames(t, texts)
    ensures LiveNames(Insert(t, e), texts) == LiveNames(t, texts)[SlotFor(t) := Text(texts, e.nameId)]
  {
    InsertKeepsIds(t, e);
  }

  // ---- removing a row ----

  function Drop(t: Table, key: EntryKey): Table
    requires IdsOk(t) && key in t.ids
  {
    var i := t.ids[key];
    Table(t.entries, t.free + [i], t.ids - {key}, RemoveChild(t.children, ParentKey(t.entries[i]), i))
  }

  lemma DropKeepsIds(t: Table, key: EntryKey)
    requires TableOk(t) && key in t.ids
    ensures var u := Drop(t, key);
            IdsOk(u) && SlotsOk(u) && forall j: nat :: Live(u, j) <==> Live(t, j) && j != t.ids[key]
  {
    var u, i := Drop(t, key), t.ids[key];
    assert Live(t, i);
    forall j: nat ensures Live(u, j) <==> Live(t, j) && j != i {
    }
    forall j: nat ensures j in u.free <==> j < |u.entries| && !Live(u, j) {
      assert j in t.free <==> j < |t.entries| && !Live(t, j);
    }
    assert i !in t.free;
  }

  lemma DropKeepsChildren(t: Table, key: EntryKey)
    requires TableOk(t) && key in t.ids
    ensures ChildrenOk(Drop(t, key))
  {
    DropKeepsIds(t, key);
    var u, i := Drop(t, key), t.ids[key];
    RemovesChild(t.children, ParentKey(t.entries[i]), i);
    forall p: EntryKey, j: nat ensures Listed(u.children, p, j) <==> IsChild(u, p, j) {
      assert Listed(t.children, p, j) <==> IsChild(t, p, j);
      assert Live(u, j) <==> Live(t, j) && j != i;
    }
  }

  lemma DropRows(t: Table, key: EntryKey, texts: seq<Name>)
    requires TableOk(t) && key in t.ids
    ensures IdsOk(Drop(t, key)) && Rows(Drop(t, key), texts) == Rows(t, texts) - {key}
    ensures NamesOk(t, texts) ==> NamesOk(Drop(t, key), texts)
  {
    DropKeepsIds(t, key);
  }

  lemma DropNames(t: Table, key: EntryKey, texts: seq<Name>)
    requires TableOk(t) && key in t.ids
    ensures t.ids[key] in LiveNames(t, texts)
    ensures LiveNames(Drop(t, key), texts) == LiveNames(t, texts) - {t.ids[key]}
  {
    DropKeepsIds(t, key);
    assert Live(t, t.ids[key]);
  }

  // ---- the three changes, all at once ----

  /** A table with the texts of its names, the rows it stands for and the names of its live slots. */
  datatype Image = Image(t: Table, texts: seq<Name>, view: map<EntryKey, Row>, live: map<nat, Name>)

  datatype Seal = Seal

  /** Proofs that look inside an image break its seal; the others see only its parts. */
  predicate Broken(s: Seal) { true }

  ghost predicate InOrder(m: Image) {
    forall s: Seal :: Broken(s) ==>
      && TableOk(m.t) && NamesOk(m.t, m.texts)
      && m.view == Rows(m.t, m.texts) && m.live == LiveNames(m.t, m.texts)
  }

  type Sound = m: Image | InOrder(m)
    ghost witness Image(EMPTY, [], map[], map[])

  /** What a lookup relies on. */
  lemma Found(m: Sound, key: EntryKey)
    ensures key in m.t.ids <==> key in m.view
    ensures key in m.t.ids ==> (
              var i := m.t.ids[key];
              && i < |m.t.entries| && m.t.entries[i].nameId < |m.texts| && m.view[key] == RowOf(m.t.entries[i], m.texts)
              && i in m.live && m.live[i] == m.texts[m.t.entries[i].nameId])
  {
    assert Broken(Seal);
    assert key in m.t.ids ==> Live(m.t, m.t.ids[key]);
  }

  lemma MoreTexts(m: Sound, more: seq<Name>) returns (n: Sound)
    requires m.texts <= more
    ensures n == m.(texts := more)
  {
    assert Broken(Seal);
    n := m.(texts := more);
    var t, texts := m.t, m.texts;
    forall i | i in LiveNames(t, texts) ensures LiveNames(t, more)[i] == LiveNames(t, texts)[i] {
      assert t.entries[i].key in t.ids;
    }
  }

  lemma ReplacedImage(m: Sound, e: Entry) returns (n: Sound)
    requires e.key in m.t.ids && e.nameId < |m.texts|
    ensures IdsOk(m.t)
    ensures n == Image(Replace(m.t, e), m.texts, m.view[e.key := RowOf(e, m.texts)],
                       m.live[m.t.ids[e.key] := m.texts[e.nameId]])
  {
    assert Broken(Seal);
    ReplaceKeepsIds(m.t, e);
    ReplaceKeepsChildren(m.t, e);
    ReplaceRows(m.t, e, m.texts);
    n := Image(Replace(m.t, e), m.texts, m.view[e.key := RowOf(e, m.texts)], m.live[m.t.ids[e.key] := m.texts[e.nameId]]);
  }

  lemma InsertedImage(m: Sound, e: Entry) returns (n: Sound)
    requires e.key !in m.t.ids && e.nameId < |m.texts|
    ensures FreeInRange(m.t) && SlotFor(m.t) !in m.live
    ensures n == Image(Insert(m.t, e), m.texts, m.view[e.key := RowOf(e, m.texts)],
                       m.live[SlotFor(m.t) := m.texts[e.nameId]])
  {
    assert Broken(Seal);
    InsertKeepsIds(m.t, e);
    InsertKeepsSlots(m.t, e);
    InsertKeepsChildren(m.t, e);
    InsertRows(m.t, e, m.texts);
    InsertNames(m.t, e, m.texts);
    n := Image(Insert(m.t, e), m.texts, m.view[e.key := RowOf(e, m.texts)], m.live[SlotFor(m.t) := m.texts[e.nameId]]);
  }

  lemma DroppedImage(m: Sound, key: EntryKey) returns (n: Sound)
    requires key in m.t.ids
    ensures IdsOk(m.t)
    ensures n == Image(Drop(m.t, key), m.texts, m.view - {key}, m.live - {m.t.ids[key]})
  {
    assert Broken(Seal);
    DropKeepsIds(m.t, key);
    DropKeepsChildren(m.t, key);
    DropRows(m.t, key, m.texts);
    DropNames(m.t, key, m.texts);
    n := Image(Drop(m.t, key), m.texts, m.view - {key}, m.live - {m.t.ids[key]});
  }

  /** Overwrites the row's slot and moves it between child lists if its parent changed. */
  method ReplaceEntry(t: Table, e: Entry, ghost m: Sound) returns (u: Table, ghost n: Sound)
    requires m.t == t && e.key in t.ids && e.nameId < |m.texts|
    ensures n == Image(u, m.texts, m.view[e.key := RowOf(e, m.texts)], m.live[t.ids[e.key] := m.texts[e.nameId]])
    ensures LayoutOf(u) == LayoutOf(t)
  {
    n := ReplacedImage(m, e);
    var i := t.ids[e.key];
    u := t.(entries := t.entries[i := e]);
    if t.entries[i].parent != e.parent {
      u := u.(children := RemoveChild(u.children, ParentKey(t.entries[i]), i));
      if e.parent != e.key.id {
        u := u.(children := AddChild(u.children, ParentKey(e), i));
      }
    }
  }

  /** Takes the slot freed last, or a new one at the end. */
  method InsertEntry(t: Table, e: Entry, ghost m: Sound) returns (u: Table, i: nat, ghost n: Sound)
    requires m.t == t && e.key !in t.ids && e.nameId < |m.texts|
    ensures n == Image(u, m.texts, m.view[e.key := RowOf(e, m.texts)], m.live[i := m.texts[e.nameId]])
    ensures i !in m.live && u.ids == t.ids[e.key := i]
    ensures LayoutOf(u) == Place(LayoutOf(t), e.key)
    ensures |u.entries| == if i < |t.entries| then |t.entries| else |t.entries| + 1
  {
    n := InsertedImage(m, e);
    u := t;
    if t.free != [] {
      i := t.free[|t.free| - 1];
      u := u.(free := t.free[..|t.free| - 1], entries := t.entries[i := e]);
    } else {
      i := |t.entries|;
      u := u.(entries := t.entries + [e]);
    }
    u := u.(ids := t.ids[e.key := i]);
    if e.parent != e.key.id {
      u := u.(children := AddChild(t.children, ParentKey(e), i));
    }
  }

  /** Unlinks the row and frees its slot; the slot's content stays behind. */
  method DropEntry(t: Table, key: EntryKey, ghost m: Sound) returns (u: Table, ghost n: Sound)
    requires m.t == t && key in t.ids
    ensures n == Image(u, m.texts, m.view - {key}, m.live - {t.ids[key]})
    ensures LayoutOf(u) == Release(LayoutOf(t), key) && u.entries == t.entries
  {
    n := DroppedImage(m, key);
    var i := t.ids[key];
    u := Table(t.entries, t.free + [i], t.ids - {key}, RemoveChild(t.children, ParentKey(t.entries[i]), i));
  }

  // ---- bulk erasure and compaction ----

  /** A table of which only the identities are current: child lists and free slots may be stale. */
  datatype Remnant = Remnant(t: Table, texts: seq<Name>, view: map<EntryKey, Row>)

  ghost predicate Readable(m: Remnant) {
    forall s: Seal :: Broken(s) ==> IdsOk(m.t) && NamesOk(m.t, m.texts) && m.view == Rows(m.t, m.texts)
  }

  type Legible = m: Remnant | Readable(m)
    ghost witness Remnant(EMPTY, [], map[])

  lemma Erased(m: Sound, keys: set<EntryKey>) returns (left: Legible)
    ensures left == Remnant(m.t.(ids := m.t.ids - keys), m.texts, m.view - keys)
  {
    assert Broken(Seal);
    left := Remnant(m.t.(ids := m.t.ids - keys), m.texts, m.view - keys);
  }

  lemma FoundRemnant(m: Legible, key: EntryKey)
    ensures key in m.t.ids <==> key in m.view
    ensures key in m.t.ids ==> (
              var i := m.t.ids[key];
              && i < |m.t.entries| && m.t.entries[i].key == key
              && m.t.entries[i].nameId < |m.texts| && m.view[key] == RowOf(m.t.entries[i], m.texts))
  {
    assert Broken(Seal);
  }

  ghost function Part(view: map<EntryKey, Row>, keys: seq<EntryKey>): map<EntryKey, Row> {
    map k | k in keys && k in view :: view[k]
  }

  lemma PartGrows(view: map<EntryKey, Row>, order: seq<EntryKey>, k: nat)
    requires Enumerates(order, view.Keys) && k < |order|
    ensures order[k] in view && order[k] !in Part(view, order[..k])
    ensures Part(view, order[..k + 1]) == Part(view, order[..k])[order[k] := view[order[k]]]
  {
    assert order[k] in order;
    assert order[..k + 1] == order[..k] + [order[k]];
  }

  lemma PartWhole(view: map<EntryKey, Row>, order: seq<EntryKey>)
    requires Enumerates(order, view.Keys)
    ensures Part(view, order[..|order|]) == view
  {
    assert order[..|order|] == order;
  }

  lemma Identities(m: Sound)
    ensures m.view.Keys == m.t.ids.Keys
    ensures forall k :: k in m.t.ids ==> m.t.ids[k] < |m.t.entries|
  {
    assert Broken(Seal);
  }

  lemma SameIdentities(m: Legible)
    ensures m.view.Keys == m.t.ids.Keys
  {
    assert Broken(Seal);
  }

  // ---- renumbering the slots ----

  /** The slots in the order in which the identities are visited. */
  function SlotsIn(t: Table, order: seq<EntryKey>): (slots: seq<nat>)
    requires forall n :: 0 <= n < |order| ==> order[n] in t.ids
    ensures |slots| == |order| && forall n :: 0 <= n < |order| ==> slots[n] == t.ids[order[n]]
  {
    seq(|order|, n requires 0 <= n < |order| => t.ids[order[n]])
  }

  lemma AllSlots(m: Sound, order: seq<EntryKey>)
    requires Enumerates(order, m.t.ids.Keys)
    ensures forall n :: 0 <= n < |order| ==> order[n] in m.t.ids
    ensures var slots := SlotsIn(m.t, order);
            && Distinct(slots) && (forall i: nat :: i in slots <==> Live(m.t, i))
            && (forall i: nat :: i in slots <==> i in m.live)
            && (forall i: nat :: i in slots ==> i < |m.t.entries|)
  {
    assert Broken(Seal);
    var t := m.t;
    assert forall n :: 0 <= n < |order| ==> order[n] in order;
    var slots := SlotsIn(t, order);
    forall i: nat ensures i in slots <==> Live(t, i) {
      if i in slots {
        var n :| 0 <= n < |slots| && slots[n] == i;
        assert t.entries[i].key == order[n];
      }
      if Live(t, i) {
        var n :| 0 <= n < |order| && order[n] == t.entries[i].key;
        assert slots[n] == i;
      }
    }
    forall a, b | 0 <= a < b < |slots| ensures slots[a] != slots[b] {
      assert t.entries[slots[a]].key == order[a] && t.entries[slots[b]].key == order[b];
    }
  }

  /** The new number of each slot. */
  function Renumbering(slots: seq<nat>): (remap: map<nat, nat>)
    requires Distinct(slots)
    ensures forall i: nat :: i in remap <==> i in slots
    ensures forall n :: 0 <= n < |slots| ==> remap[slots[n]] == n
  {
    map i | i in slots :: Position(slots, i)
  }

  function RenumberList(s: seq<nat>, remap: map<nat, nat>): (r: seq<nat>)
    requires forall i :: i in s ==> i in remap
    ensures |r| == |s| && forall j :: 0 <= j < |s| ==> s[j] in s && r[j] == remap[s[j]]
  {
    if s == [] then []
    else
      assert s == [s[0]] + s[1..];
      [remap[s[0]]] + RenumberList(s[1..], remap)
  }

  ghost predicate Renumberable(t: Table, slots: seq<nat>) {
    && Distinct(slots)
    && (forall i: nat :: i in slots <==> i < |t.entries|)
    && (forall k :: k in t.ids ==> t.ids[k] in slots)
    && (forall p, i :: p in t.children && i in t.children[p] ==> i in slots)
  }

  function Renumber(t: Table, slots: seq<nat>): Table
    requires Renumberable(t, slots)
  {
    var remap := Renumbering(slots);
    Table(
      seq(|slots|, n requires 0 <= n < |slots| => assert slots[n] in slots; t.entries[slots[n]]),
      [],
      map k | k in t.ids :: remap[t.ids[k]],
      map p | p in t.children :: RenumberList(t.children[p], remap))
  }

  lemma RenumberKeepsIds(t: Table, slots: seq<nat>)
    requires Renumberable(t, slots) && IdsOk(t) && forall i: nat :: i < |t.entries| ==> Live(t, i)
    ensures var u := Renumber(t, slots);
            && IdsOk(u) && (forall n: nat :: Live(u, n) <==> n < |slots|)
            && |u.entries| == |slots| && (forall n :: 0 <= n < |slots| ==> slots[n] < |t.entries| && u.entries[n] == t.entries[slots[n]])
            && (forall k :: k in t.ids ==> k in u.ids && u.ids[k] < |slots| && slots[u.ids[k]] == t.ids[k])
  {
    var u, remap := Renumber(t, slots), Renumbering(slots);
    forall k | k in t.ids ensures u.ids[k] < |slots| && slots[u.ids[k]] == t.ids[k] {
      assert t.ids[k] in slots;
      var n :| 0 <= n < |slots| && slots[n] == t.ids[k];
      assert remap[slots[n]] == n;
    }
    forall n: nat | n < |slots| ensures slots[n] < |t.entries| && Live(u, n) {
      assert slots[n] in slots;
      assert Live(t, slots[n]);
    }
  }

  lemma RenumberKeepsLists(t: Table, slots: seq<nat>)
    requires Renumberable(t, slots) && ListsOk(t.children)
    ensures var u := Renumber(t, slots);
            && ListsOk(u.children)
            && (forall p: EntryKey, n: nat :: Listed(u.children, p, n) <==> n < |slots| && Listed(t.children, p, slots[n]))
  {
    var u, remap := Renumber(t, slots), Renumbering(slots);
    forall p | p in u.children
      ensures u.children[p] != [] && Distinct(u.children[p])
      ensures forall n: nat :: n in u.children[p] <==> n < |slots| && slots[n] in t.children[p]
    {
      RenumberedList(t.children[p], slots);
    }
  }

  lemma RenumberedList(s: seq<nat>, slots: seq<nat>)
    requires Distinct(slots) && Distinct(s) && forall i :: i in s ==> i in slots
    ensures var r := RenumberList(s, Renumbering(slots));
            && Distinct(r) && |r| == |s|
            && (forall n: nat :: n in r <==> n < |slots| && slots[n] in s)
  {
    var remap := Renumbering(slots);
    var r := RenumberList(s, remap);
    forall j | 0 <= j < |s| ensures r[j] < |slots| && slots[r[j]] == s[j] {
      var n :| 0 <= n < |slots| && slots[n] == s[j];
      assert remap[slots[n]] == n;
    }
    forall n: nat | n < |slots| && slots[n] in s ensures n in r {
      var j :| 0 <= j < |s| && s[j] == slots[n];
      assert r[j] == n;
    }
  }

  lemma CanRenumber(t: Table, slots: seq<nat>)
    requires TableOk(t) && t.free == [] && Distinct(slots) && forall i: nat :: i in slots <==> Live(t, i)
    ensures Renumberable(t, slots) && forall i: nat :: i < |t.entries| ==> Live(t, i)
  {
    forall i: nat | i < |t.entries| ensures Live(t, i) {
      assert i !in t.free;
    }
    forall k | k in t.ids ensures t.ids[k] in slots {
      assert Live(t, t.ids[k]);
    }
    forall p, i: nat | p in t.children && i in t.children[p] ensures i in slots {
      assert Listed(t.children, p, i);
      assert IsChild(t, p, i);
    }
  }

  /** Renumbering changes no row. */
  lemma RenumberedImage(m: Sound, order: seq<EntryKey>) returns (n: Sound)
    requires Enumerates(order, m.t.ids.Keys) && m.t.free == []
    ensures forall j :: 0 <= j < |order| ==> order[j] in m.t.ids
    ensures Renumberable(m.t, SlotsIn(m.t, order))
    ensures n.t == Renumber(m.t, SlotsIn(m.t, order)) && n.texts == m.texts && n.view == m.view
  {
    AllSlots(m, order);
    assert Broken(Seal);
    var t, slots := m.t, SlotsIn(m.t, order);
    CanRenumber(t, slots);
    RenumberKeepsIds(t, slots);
    RenumberKeepsChildren(t, slots);
    RenumberRows(t, slots, m.texts);
    n := ImageOf(Renumber(t, slots), m.texts);
  }

  ghost predicate TakesTurns(t: Table, u: Table, slots: seq<nat>) {
    u.ids.Keys == t.ids.Keys && forall k :: k in t.ids ==> u.ids[k] < |slots| && slots[u.ids[k]] == t.ids[k]
  }

  lemma RenumberTakesTurns(t: Table, slots: seq<nat>)
    requires Renumberable(t, slots) && IdsOk(t) && AllLive(t)
    ensures TakesTurns(t, Renumber(t, slots), slots)
  {
    RenumberKeepsIds(t, slots);
  }

  lemma MayRenumber(m: Sound, order: seq<EntryKey>)
    requires Enumerates(order, m.t.ids.Keys) && m.t.free == []
    ensures forall j :: 0 <= j < |order| ==> order[j] in m.t.ids
    ensures Renumberable(m.t, SlotsIn(m.t, order)) && IdsOk(m.t) && AllLive(m.t)
  {
    AllSlots(m, order);
    assert Broken(Seal);
    CanRenumber(m.t, SlotsIn(m.t, order));
  }

  /** Each row is in the slot whose turn its old slot was. */
  lemma RenumberedSlots(m: Sound, order: seq<EntryKey>)
    requires Enumerates(order, m.t.ids.Keys) && m.t.free == []
    ensures forall j :: 0 <= j < |order| ==> order[j] in m.t.ids
    ensures Renumberable(m.t, SlotsIn(m.t, order))
    ensures TakesTurns(m.t, Renumber(m.t, SlotsIn(m.t, order)), SlotsIn(m.t, order))
  {
    MayRenumber(m, order);
    RenumberTakesTurns(m.t, SlotsIn(m.t, order));
  }

  lemma RenumberKeepsChildren(t: Table, slots: seq<nat>)
    requires Renumberable(t, slots) && TableOk(t) && forall i: nat :: i < |t.entries| ==> Live(t, i)
    ensures ChildrenOk(Renumber(t, slots))
  {
    var u := Renumber(t, slots);
    RenumberKeepsIds(t, slots);
    RenumberKeepsLists(t, slots);
    forall p: EntryKey, n: nat ensures Listed(u.children, p, n) <==> IsChild(u, p, n) {
      if n < |slots| {
        assert Listed(t.children, p, slots[n]) <==> IsChild(t, p, slots[n]);
      }
    }
  }

  lemma RenumberRows(t: Table, slots: seq<nat>, texts: seq<Name>)
    requires Renumberable(t, slots) && IdsOk(t) && NamesOk(t, texts) && forall i: nat :: i < |t.entries| ==> Live(t, i)
    ensures var u := Renumber(t, slots); NamesOk(u, texts) && Rows(u, texts) == Rows(t, texts)
  {
    var u := Renumber(t, slots);
    RenumberKeepsIds(t, slots);
    assert u.ids.Keys == t.ids.Keys;
    SameRows(t, u, texts);
  }

  lemma SameRows(t: Table, u: Table, texts: seq<Name>)
    requires u.ids.Keys == t.ids.Keys && IdsOk(t) && IdsOk(u)
    requires forall k :: k in t.ids ==> u.entries[u.ids[k]] == t.entries[t.ids[k]]
    ensures Rows(u, texts) == Rows(t, texts)
  {
  }

  lemma ImageOf(t: Table, texts: seq<Name>) returns (n: Sound)
    requires TableOk(t) && NamesOk(t, texts)
    ensures n == Image(t, texts, Rows(t, texts), LiveNames(t, texts))
  {
    n := Image(t, texts, Rows(t, texts), LiveNames(t, texts));
  }

  /** Without free slots the rows fill the slots from zero on. */
  lemma DenseSlots(m: Sound)
    requires m.t.free == []
    ensures forall k :: k in m.t.ids ==> m.t.ids[k] < |m.t.ids|
    ensures forall a, b :: a in m.t.ids && b in m.t.ids && m.t.ids[a] == m.t.ids[b] ==> a == b
    ensures m.view.Keys == m.t.ids.Keys
  {
    assert Broken(Seal);
    assert AllLive(m.t) by {
      assert forall i: nat :: i < |m.t.entries| ==> i !in m.t.free;
    }
    KeysFill(m.t, |m.t.entries|);
  }

  ghost predicate AllLive(t: Table) {
    forall i: nat :: i < |t.entries| ==> Live(t, i)
  }

  lemma {:induction false} KeysFill(t: Table, n: nat)
    requires n <= |t.entries| && AllLive(t)
    ensures |t.ids| >= n
    decreases n
  {
    var keys := KeysUpTo(t, n);
    assert t.ids.Keys == keys + (t.ids.Keys - keys);
    assert |t.ids.Keys| == |t.ids|;
  }

  lemma {:induction false} KeysUpTo(t: Table, n: nat) returns (keys: set<EntryKey>)
    requires n <= |t.entries| && AllLive(t)
    ensures |keys| == n && forall k :: k in keys ==> k in t.ids && t.ids[k] < n
    decreases n
  {
    if n == 0 {
      keys := {};
    } else {
      var most := KeysUpTo(t, n - 1);
      assert Live(t, n - 1);
      keys := most + {t.entries[n - 1].key};
    }
  }
}
