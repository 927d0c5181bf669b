/** Which rows leave memory first, and which go with them. */
module ProjectionEviction {
  import opened Records
  import opened ProjectionTable
  import opened Words

  // ---- the victim ----

  /** Directories go first, then files; a volume's root goes last. */
  function Rank(e: Entry): nat {
    if IsRoot(e) then 2 else if IsDirectory(e.facts) then 0 else 1
  }

  function EntryOf(t: Table, key: EntryKey): Entry
    requires key in t.ids && t.ids[key] < |t.entries|
  {
    t.entries[t.ids[key]]
  }

  ghost predicate Addressable(t: Table, times: seq<nat>) {
    |times| == |t.entries| && forall k :: k in t.ids ==> t.ids[k] < |t.entries|
  }

  /** `best` is the oldest of the keys of one rank; none if there are no such keys. */
  ghost predicate OldestOf(t: Table, times: seq<nat>, rank: nat, keys: seq<EntryKey>, best: Option<EntryKey>)
    requires Addressable(t, times)
  {
    match best
    case None => forall k :: k in keys && k in t.ids ==> Rank(EntryOf(t, k)) != rank
    case Some(b) =>
      && b in keys && b in t.ids && Rank(EntryOf(t, b)) == rank
      && forall k :: k in keys && k in t.ids && Rank(EntryOf(t, k)) == rank ==> times[t.ids[b]] <= times[t.ids[k]]
  }

  function Older(t: Table, times: seq<nat>, best: Option<EntryKey>, key: EntryKey): Option<EntryKey>
    requires key in t.ids && t.ids[key] < |times|
    requires best.Some? ==> best.value in t.ids && t.ids[best.value] < |times|
  {
    if best.None? || times[t.ids[key]] < times[t.ids[best.value]] then Some(key) else best
  }

  lemma OldestGrows(t: Table, times: seq<nat>, rank: nat, keys: seq<EntryKey>, best: Option<EntryKey>, key: EntryKey)
    requires Addressable(t, times) && OldestOf(t, times, rank, keys, best) && key in t.ids
    ensures OldestOf(t, times, rank, keys + [key], if Rank(EntryOf(t, key)) == rank then Older(t, times, best, key) else best)
  {
  }

  lemma NoneIsOlder(t: Table, times: seq<nat>, order: seq<EntryKey>,
                    directory: Option<EntryKey>, file: Option<EntryKey>, root: Option<EntryKey>)
    requires Addressable(t, times) && Enumerates(order, t.ids.Keys)
    requires OldestOf(t, times, 0, order, directory)
    requires OldestOf(t, times, 1, order, file)
    requires OldestOf(t, times, 2, order, root)
    ensures var victim := if directory.Some? then directory else if file.Some? then file else root;
            && (victim.None? <==> t.ids == map[])
            && (victim.Some? ==> victim.value in t.ids && forall k :: k in t.ids ==> NotBefore(t, times, victim.value, k))
  {
    forall k | k in t.ids ensures k in order && 0 <= Rank(EntryOf(t, k)) <= 2 {
    }
  }

  method LeastRecentlyUsedEntry(t: Table, times: seq<nat>, order: seq<EntryKey>) returns (victim: Option<EntryKey>)
    requires Addressable(t, times) && Enumerates(order, t.ids.Keys)
    ensures victim.None? <==> t.ids == map[]
    ensures victim.Some? ==> victim.value in t.ids
    ensures victim.Some? ==> forall k :: k in t.ids ==> NotBefore(t, times, victim.value, k)
  {
    var directory: Option<EntryKey>, file: Option<EntryKey>, root: Option<EntryKey> := None, None, None;
    for n := 0 to |order|
      invariant OldestOf(t, times, 0, order[..n], directory)
      invariant OldestOf(t, times, 1, order[..n], file)
      invariant OldestOf(t, times, 2, order[..n], root)
    {
      var key := order[n];
      assert key in order;
      assert order[..n + 1] == order[..n] + [key];
      var rank := Rank(EntryOf(t, key));
      OldestGrows(t, times, 0, order[..n], directory, key);
      OldestGrows(t, times, 1, order[..n], file, key);
      OldestGrows(t, times, 2, order[..n], root, key);
      if rank == 2 {
        root := Older(t, times, root, key);
      } else if rank == 0 {
        directory := Older(t, times, directory, key);
      } else {
        file := Older(t, times, file, key);
      }
    }
    assert order[..|order|] == order;
    NoneIsOlder(t, times, order, directory, file, root);
    victim := if directory.Some? then directory else if file.Some? then file else root;
  }

  /** `a` is of a kind that goes no later than `b`, and if of the same kind was used no later. */
  ghost predicate NotBefore(t: Table, times: seq<nat>, a: EntryKey, b: EntryKey)
    requires Addressable(t, times) && a in t.ids && b in t.ids
  {
    var x, y := Rank(EntryOf(t, a)), Rank(EntryOf(t, b));
    x < y || (x == y && times[t.ids[a]] <= times[t.ids[b]])
  }

  // ---- its subtree ----

  function ChildKeys(t: Table, key: EntryKey): seq<EntryKey> {
    KeysAt(t, ChildrenOf(t.children, key))
  }

  function KeysAt(t: Table, slots: seq<nat>): (keys: seq<EntryKey>)
    ensures forall k :: k in keys ==> exists j :: 0 <= j < |slots| && slots[j] < |t.entries| && t.entries[slots[j]].key == k
    ensures forall j :: 0 <= j < |slots| && slots[j] < |t.entries| ==> t.entries[slots[j]].key in keys
  {
    if slots == [] then []
    else
      var rest := KeysAt(t, slots[1..]);
      if slots[0] < |t.entries| then [t.entries[slots[0]].key] + rest else rest
  }

  predicate HoldsDirectory(t: Table, key: EntryKey) {
    key in t.ids && t.ids[key] < |t.entries| && IsDirectory(t.entries[t.ids[key]].facts)
  }

  /** `key` is the root of the subtree or is listed under one of the directories `within`. */
  ghost predicate Under(t: Table, root: EntryKey, within: seq<EntryKey>, key: EntryKey) {
    key == root || exists p :: p in within && HoldsDirectory(t, p) && key in ChildKeys(t, p)
  }

  ghost predicate DistinctKeys(keys: seq<EntryKey>) {
    forall i, j :: 0 <= i < j < |keys| ==> keys[i] != keys[j]
  }

  /** Each key hangs below an earlier one. */
  ghost predicate Chained(t: Table, root: EntryKey, keys: seq<EntryKey>) {
    forall j :: 0 <= j < |keys| ==> HangsBelow(t, root, keys, j)
  }

  ghost predicate HangsBelow(t: Table, root: EntryKey, keys: seq<EntryKey>, j: nat)
    requires j < |keys|
  {
    keys[j] in t.ids && Under(t, root, keys[..j], keys[j])
  }

  /** Everything listed under the directories among `keys` satisfies `known`. */
  ghost predicate Closed(t: Table, keys: seq<EntryKey>, known: set<EntryKey>) {
    forall p, k :: p in keys && HoldsDirectory(t, p) && k in ChildKeys(t, p) ==> k in known
  }

  /** A subtree: the root and, step by step, all that is listed under its directories. */
  ghost predicate IsSubtree(t: Table, root: EntryKey, keys: seq<EntryKey>) {
    && root in keys && DistinctKeys(keys) && Chained(t, root, keys)
    && (forall p, k :: p in keys && HoldsDirectory(t, p) && k in ChildKeys(t, p) && k in t.ids ==> k in keys)
  }

  lemma UnderMore(t: Table, root: EntryKey, within: seq<EntryKey>, more: seq<EntryKey>, key: EntryKey)
    requires Under(t, root, within, key) && forall k :: k in within ==> k in more
    ensures Under(t, root, more, key)
  {
  }

  function Elements(s: seq<EntryKey>): set<EntryKey> {
    set k | k in s
  }

  ghost predicate AllUnder(t: Table, root: EntryKey, order: seq<EntryKey>, pending: seq<EntryKey>) {
    forall k :: k in pending ==> Under(t, root, order, k)
  }

  ghost predicate Walked(t: Table, root: EntryKey, order: seq<EntryKey>, pending: seq<EntryKey>,
                         visited: set<EntryKey>) {
    forall s: Seal :: Broken(s) ==> SoFar(t, root, order, pending, visited)
  }

  ghost predicate SoFar(t: Table, root: EntryKey, order: seq<EntryKey>, pending: seq<EntryKey>,
                        visited: set<EntryKey>) {
    && (root in visited || root in pending)
    && DistinctKeys(order) && Chained(t, root, order)
    && (forall k :: k in order <==> k in visited && k in t.ids)
    && AllUnder(t, root, order, pending)
    && Closed(t, order, visited + Elements(pending))
  }

  lemma PassOver(t: Table, root: EntryKey, order: seq<EntryKey>, rest: seq<EntryKey>, key: EntryKey,
                 visited: set<EntryKey>)
    requires Walked(t, root, order, rest + [key], visited) && (key in visited || key !in t.ids)
    ensures Walked(t, root, order, rest, visited + {key})
  {
    assert Broken(Seal);
    assert visited + Elements(rest + [key]) == visited + {key} + Elements(rest);
  }

  lemma TakeIn(t: Table, root: EntryKey, order: seq<EntryKey>, rest: seq<EntryKey>, key: EntryKey,
               visited: set<EntryKey>)
    requires Walked(t, root, order, rest + [key], visited) && key !in visited && key in t.ids
    ensures var more := if HoldsDirectory(t, key) then ChildKeys(t, key) else [];
            Walked(t, root, order + [key], rest + more, visited + {key})
  {
    assert Broken(Seal);
    var more := if HoldsDirectory(t, key) then ChildKeys(t, key) else [];
    var grown := order + [key];
    assert key in rest + [key];
    forall j | 0 <= j < |grown| ensures HangsBelow(t, root, grown, j) {
      assert grown[..j] == order[..j];
      if j < |order| {
        assert HangsBelow(t, root, order, j);
      } else {
        assert order[..|order|] == order;
      }
    }
    AllUnderMore(t, root, order, rest, key, more);
    ClosedMore(t, order, rest, key, more, visited);
  }

  lemma AllUnderMore(t: Table, root: EntryKey, order: seq<EntryKey>, rest: seq<EntryKey>, key: EntryKey,
                     more: seq<EntryKey>)
    requires AllUnder(t, root, order, rest + [key])
    requires more == if HoldsDirectory(t, key) then ChildKeys(t, key) else []
    ensures AllUnder(t, root, order + [key], rest + more)
  {
    var grown := order + [key];
    forall k | k in rest + more ensures Under(t, root, grown, k) {
      if k in rest {
        assert k in rest + [key];
        UnderMore(t, root, order, grown, k);
      } else {
        assert key in grown;
      }
    }
  }

  lemma ClosedMore(t: Table, order: seq<EntryKey>, rest: seq<EntryKey>, key: EntryKey, more: seq<EntryKey>,
                   visited: set<EntryKey>)
    requires Closed(t, order, visited + Elements(rest + [key]))
    requires more == if HoldsDirectory(t, key) then ChildKeys(t, key) else []
    ensures Closed(t, order + [key], visited + {key} + Elements(rest + more))
  {
    forall p, k | p in order + [key] && HoldsDirectory(t, p) && k in ChildKeys(t, p)
      ensures k in visited + {key} + Elements(rest + more)
    {
      if p in order {
        assert k in visited + Elements(rest + [key]);
      }
    }
  }

  /** Takes the last pending key; one not seen before is collected and its children become pending. */
  method CollectOne(t: Table, root: EntryKey, order: seq<EntryKey>, rest: seq<EntryKey>, key: EntryKey,
                    visited: set<EntryKey>)
    returns (collected: seq<EntryKey>, pending: seq<EntryKey>)
    requires Walked(t, root, order, rest + [key], visited)
    ensures Walked(t, root, collected, pending, visited + {key})
    ensures key in visited || key !in t.ids ==> pending == rest
  {
    if key in visited || key !in t.ids {
      PassOver(t, root, order, rest, key, visited);
      return order, rest;
    }
    TakeIn(t, root, order, rest, key, visited);
    return order + [key], rest + if HoldsDirectory(t, key) then ChildKeys(t, key) else [];
  }

  method CollectSubtree(t: Table, root: EntryKey) returns (order: seq<EntryKey>)
    requires root in t.ids
    ensures IsSubtree(t, root, order)
  {
    order := [];
    var pending, visited := [root], {};
    Started(t, root);
    while pending != []
      invariant Walked(t, root, order, pending, visited)
      decreases |t.ids.Keys - visited|, |pending|
    {
      var key, rest := pending[|pending| - 1], pending[..|pending| - 1];
      assert pending == rest + [key];
      Fewer(t.ids.Keys, visited, key);
      order, pending := CollectOne(t, root, order, rest, key, visited);
      visited := visited + {key};
    }
    Finished(t, root, order, visited);
  }

  lemma Started(t: Table, root: EntryKey)
    ensures Walked(t, root, [], [root], {})
  {
  }

  lemma Finished(t: Table, root: EntryKey, order: seq<EntryKey>, visited: set<EntryKey>)
    requires root in t.ids && Walked(t, root, order, [], visited)
    ensures IsSubtree(t, root, order)
  {
    assert Broken(Seal);
    assert visited + Elements([]) == visited;
  }

  lemma Fewer(all: set<EntryKey>, visited: set<EntryKey>, key: EntryKey)
    ensures |all - (visited + {key})| <= |all - visited|
    ensures key in all && key !in visited ==> |all - (visited + {key})| < |all - visited|
  {
    assert all - (visited + {key}) == all - visited - {key};
  }

  lemma ChildOnVolume(m: Sound, p: EntryKey, key: EntryKey)
    requires key in ChildKeys(m.t, p)
    ensures key.volume == p.volume && key in m.t.ids
  {
    assert Broken(Seal);
    var slots := ChildrenOf(m.t.children, p);
    var j :| 0 <= j < |slots| && slots[j] < |m.t.entries| && m.t.entries[slots[j]].key == key;
    assert slots[j] in slots;
    assert Listed(m.t.children, p, slots[j]);
    assert IsChild(m.t, p, slots[j]);
  }

  /** Children live on their parent's volume, so a subtree never leaves it. */
  lemma {:induction false} SubtreeStaysOnVolume(m: Sound, root: EntryKey, keys: seq<EntryKey>, n: nat)
    requires n <= |keys| && Chained(m.t, root, keys)
    ensures forall k :: k in keys[..n] ==> k.volume == root.volume
  {
    if n > 0 {
      SubtreeStaysOnVolume(m, root, keys, n - 1);
      NextOnVolume(m, root, keys, n - 1);
      OneMoreOnVolume(keys, n, root.volume);
    }
  }

  lemma OneMoreOnVolume(keys: seq<EntryKey>, n: nat, volume: Volume)
    requires 0 < n <= |keys| && keys[n - 1].volume == volume && forall k :: k in keys[..n - 1] ==> k.volume == volume
    ensures forall k :: k in keys[..n] ==> k.volume == volume
  {
    assert keys[..n] == keys[..n - 1] + [keys[n - 1]];
  }

  lemma NextOnVolume(m: Sound, root: EntryKey, keys: seq<EntryKey>, n: nat)
    requires n < |keys| && Chained(m.t, root, keys) && forall k :: k in keys[..n] ==> k.volume == root.volume
    ensures keys[n].volume == root.volume
  {
    assert HangsBelow(m.t, root, keys, n);
    if keys[n] != root {
      var p :| p in keys[..n] && HoldsDirectory(m.t, p) && keys[n] in ChildKeys(m.t, p);
      ChildOnVolume(m, p, keys[n]);
    }
  }
}
