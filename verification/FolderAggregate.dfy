/** The totals of a folder: all that lies below it, walked with a stack over the child lists. */
module FolderAggregate {
  import opened EvictionOrder
  import opened ProjectionEviction
  import opened ProjectionTable
  import opened Records
  import opened Words

  const MAXIMUM := 0xFFFF_FFFF_FFFF_FFFF

  datatype Aggregate = Aggregate(
    items: nat, size: nat, allocatedTotal: nat, knownCount: nat, complete: bool)

  // ---- sums ----

  function Sizes(facts: seq<Facts>): nat {
    if facts == [] then 0 else Sizes(facts[..|facts| - 1]) + facts[|facts| - 1].size
  }

  function KnownSizes(facts: seq<Facts>): nat {
    if facts == [] then 0
    else
      var last := facts[|facts| - 1];
      KnownSizes(facts[..|facts| - 1]) + if last.allocatedKnown then last.allocatedSize else 0
  }

  function KnownCount(facts: seq<Facts>): (n: nat)
    ensures n <= |facts| && (n == |facts| <==> forall i :: 0 <= i < |facts| ==> facts[i].allocatedKnown)
  {
    if facts == [] then 0
    else KnownCount(facts[..|facts| - 1]) + if facts[|facts| - 1].allocatedKnown then 1 else 0
  }

  function Sum(values: seq<nat>): nat {
    if values == [] then 0 else Sum(values[..|values| - 1]) + values[|values| - 1]
  }

  /** The three counts are sums of what each file contributes. */
  lemma {:induction false} CountsAreSums(facts: seq<Facts>, sizes: seq<nat>, onDisk: seq<nat>, known: seq<nat>)
    requires |sizes| == |onDisk| == |known| == |facts|
    requires forall n :: 0 <= n < |facts| ==> (
               && sizes[n] == facts[n].size && onDisk[n] == (if facts[n].allocatedKnown then facts[n].allocatedSize else 0)
               && known[n] == if facts[n].allocatedKnown then 1 else 0)
    ensures Sizes(facts) == Sum(sizes) && KnownSizes(facts) == Sum(onDisk) && KnownCount(facts) == Sum(known)
  {
    if facts != [] {
      var n := |facts| - 1;
      CountsAreSums(facts[..n], sizes[..n], onDisk[..n], known[..n]);
    }
  }

  function Saturated(n: nat): nat {
    if n < MAXIMUM then n else MAXIMUM
  }

  /** The totals of a list of files: sums stop at the largest number, and are complete only if none
      of them did and every allocated size is known. */
  function Totals(facts: seq<Facts>): Aggregate {
    Aggregate(
      |facts|, Saturated(Sizes(facts)), Saturated(KnownSizes(facts)), KnownCount(facts),
      Sizes(facts) <= MAXIMUM && KnownSizes(facts) <= MAXIMUM && KnownCount(facts) == |facts|)
  }

  /** Every file counts once, with its size, and with its allocated size if that is known; the sums stop at
      the largest 64-bit number; complete means that none did and that no size is unknown. */
  ghost predicate IsTotal(a: Aggregate, facts: seq<Facts>) {
    var size := Sum(seq(|facts|, n requires 0 <= n < |facts| => facts[n].size));
    var onDisk := Sum(seq(|facts|, n requires 0 <= n < |facts| => if facts[n].allocatedKnown then facts[n].allocatedSize else 0));
    && a.items == |facts|
    && a.size == (if size <= 0xFFFF_FFFF_FFFF_FFFF then size else 0xFFFF_FFFF_FFFF_FFFF)
    && a.allocatedTotal == (if onDisk <= 0xFFFF_FFFF_FFFF_FFFF then onDisk else 0xFFFF_FFFF_FFFF_FFFF)
    && a.knownCount == Sum(seq(|facts|, n requires 0 <= n < |facts| => if facts[n].allocatedKnown then 1 else 0))
    && (a.complete <==> size <= 0xFFFF_FFFF_FFFF_FFFF && onDisk <= 0xFFFF_FFFF_FFFF_FFFF
                        && forall n :: 0 <= n < |facts| ==> facts[n].allocatedKnown)
  }

  lemma TotalsAreTotal(facts: seq<Facts>)
    ensures IsTotal(Totals(facts), facts)
  {
    CountsAreSums(
      facts, seq(|facts|, n requires 0 <= n < |facts| => facts[n].size),
      seq(|facts|, n requires 0 <= n < |facts| => if facts[n].allocatedKnown then facts[n].allocatedSize else 0),
      seq(|facts|, n requires 0 <= n < |facts| => if facts[n].allocatedKnown then 1 else 0));
  }

  /** A running total and whether it ever had to stop short. */
  datatype Running = Running(items: nat, size: nat, allocatedTotal: nat, knownCount: nat, overflowed: bool)

  method SaturatingAdd(destination: nat, value: nat, overflowed: bool) returns (sum: nat, over: bool)
    requires destination <= MAXIMUM
    ensures sum == Saturated(destination + value) && (over <==> overflowed || destination + value > MAXIMUM)
  {
    if MAXIMUM - destination < value {
      return MAXIMUM, true;
    }
    return destination + value, overflowed;
  }

  ghost predicate RunningTotals(r: Running, facts: seq<Facts>) {
    && r.items == |facts| && r.size == Saturated(Sizes(facts)) && r.allocatedTotal == Saturated(KnownSizes(facts))
    && r.knownCount == KnownCount(facts)
    && (r.overflowed <==> Sizes(facts) > MAXIMUM || KnownSizes(facts) > MAXIMUM)
  }

  method AddFile(r: Running, f: Facts, ghost facts: seq<Facts>) returns (s: Running)
    requires RunningTotals(r, facts)
    ensures RunningTotals(s, facts + [f])
  {
    assert (facts + [f])[..|facts|] == facts;
    var size, over := SaturatingAdd(r.size, f.size, r.overflowed);
    var allocatedTotal, known := r.allocatedTotal, r.knownCount;
    if f.allocatedKnown {
      allocatedTotal, over := SaturatingAdd(r.allocatedTotal, f.allocatedSize, over);
      known := known + 1;
    }
    s := Running(r.items + 1, size, allocatedTotal, known, over);
  }

  // ---- what lies below ----

  predicate Addressed(t: Table, keys: seq<EntryKey>) {
    forall n :: 0 <= n < |keys| ==> keys[n] in t.ids && t.ids[keys[n]] < |t.entries|
  }

  function FactsOf(t: Table, keys: seq<EntryKey>): (facts: seq<Facts>)
    requires Addressed(t, keys)
    ensures |facts| == |keys| && forall n :: 0 <= n < |keys| ==> facts[n] == t.entries[t.ids[keys[n]]].facts
  {
    seq(|keys|, n requires 0 <= n < |keys| => t.entries[t.ids[keys[n]]].facts)
  }

  /** The walk looks below the start and below directories. */
  predicate Opens(t: Table, start: EntryKey, p: EntryKey) {
    p == start || HoldsDirectory(t, p)
  }

  ghost predicate Descends(t: Table, start: EntryKey, path: seq<EntryKey>) {
    && |path| >= 2 && path[0] == start
    && forall n :: 0 <= n < |path| - 1 ==> Opens(t, start, path[n]) && path[n + 1] in ChildKeys(t, path[n])
  }

  /** `key` lies below the start. */
  ghost predicate Below(t: Table, start: EntryKey, key: EntryKey) {
    exists path :: Descends(t, start, path) && path[|path| - 1] == key
  }

  /** The walk comes back to its start and opens it again. */
  ghost predicate Circles(t: Table, start: EntryKey) {
    HoldsDirectory(t, start) && Below(t, start, start)
  }

  /** The file `k` lies directly in `p`. */
  predicate LiesDirectlyIn(view: map<EntryKey, Row>, k: EntryKey, p: EntryKey) {
    k in view && view[k].parent != k.id && EntryKey(k.volume, view[k].parent) == p
  }

  /** A way down from the start, through folders. */
  ghost predicate LeadsDown(view: map<EntryKey, Row>, start: EntryKey, path: seq<EntryKey>) {
    |path| >= 2 && path[0] == start && forall n :: 0 <= n < |path| - 1 ==> GoesInto(view, start, path[n], path[n + 1])
  }

  /** From the start, or from a folder, to what lies directly in it. */
  predicate GoesInto(view: map<EntryKey, Row>, start: EntryKey, p: EntryKey, k: EntryKey) {
    LiesDirectlyIn(view, k, p) && (p == start || (p in view && view[p].facts.attributes / 0x10 % 2 == 1))
  }

  /** The same told from the rows alone. */
  ghost predicate LiesBelow(view: map<EntryKey, Row>, start: EntryKey, k: EntryKey) {
    exists path :: LeadsDown(view, start, path) && path[|path| - 1] == k
  }

  lemma ChildIff(m: Sound, p: EntryKey, k: EntryKey)
    ensures k in ChildKeys(m.t, p) <==> LiesDirectlyIn(m.view, k, p)
    ensures HoldsDirectory(m.t, p) <==> p in m.view && m.view[p].facts.attributes / 0x10 % 2 == 1
  {
    Identities(m);
    if k in m.t.ids { RowIsEntry(m, k); }
    if p in m.t.ids { RowIsEntry(m, p); }
    if k in ChildKeys(m.t, p) {
      ChildIsLive(m, k, p);
    }
    if LiesDirectlyIn(m.view, k, p) {
      LiveEntry(m, k);
      LiveIsChild(m, k, p);
    }
  }

  lemma LiveEntry(m: Sound, k: EntryKey)
    requires k in m.t.ids
    ensures Live(m.t, m.t.ids[k])
  {
    RowIsEntry(m, k);
  }

  lemma DescendsIff(m: Sound, start: EntryKey, path: seq<EntryKey>)
    ensures Descends(m.t, start, path) <==> LeadsDown(m.view, start, path)
  {
    if Descends(m.t, start, path) {
      forall n | 0 <= n < |path| - 1 ensures GoesInto(m.view, start, path[n], path[n + 1]) {
        ChildIff(m, path[n], path[n + 1]);
      }
    }
    if LeadsDown(m.view, start, path) {
      forall n | 0 <= n < |path| - 1 ensures Opens(m.t, start, path[n]) && path[n + 1] in ChildKeys(m.t, path[n]) {
        assert GoesInto(m.view, start, path[n], path[n + 1]);
        ChildIff(m, path[n], path[n + 1]);
      }
    }
  }

  lemma BelowIff(m: Sound, start: EntryKey, k: EntryKey)
    ensures Below(m.t, start, k) <==> LiesBelow(m.view, start, k)
  {
    if path :| Descends(m.t, start, path) && path[|path| - 1] == k {
      DescendsIff(m, start, path);
    }
    if path :| LeadsDown(m.view, start, path) && path[|path| - 1] == k {
      DescendsIff(m, start, path);
    }
  }

  lemma BelowChild(t: Table, start: EntryKey, p: EntryKey, key: EntryKey)
    requires (p == start || (Below(t, start, p) && HoldsDirectory(t, p))) && key in ChildKeys(t, p)
    ensures Below(t, start, key)
  {
    if p == start {
      assert Descends(t, start, [start, key]);
      assert [start, key][1] == key;
    } else {
      var path :| Descends(t, start, path) && path[|path| - 1] == p;
      var longer := path + [key];
      assert longer[|longer| - 1] == key;
      forall n | 0 <= n < |longer| - 1 ensures Opens(t, start, longer[n]) && longer[n + 1] in ChildKeys(t, longer[n]) {
        if n < |path| - 1 {
          assert longer[n] == path[n] && longer[n + 1] == path[n + 1];
        }
      }
      assert Descends(t, start, longer);
    }
  }

  /** Everything below the start is counted when all that was visited has its children counted. */
  lemma {:induction false} BelowIsCounted(t: Table, start: EntryKey, path: seq<EntryKey>, n: nat,
                                          visited: set<EntryKey>, counted: seq<EntryKey>)
    requires Descends(t, start, path) && 0 < n < |path|
    requires start in visited && forall k :: k in counted && HoldsDirectory(t, k) ==> k in visited
    requires forall p, k :: p in visited && k in ChildKeys(t, p) ==> k in counted
    ensures path[n] in counted
  {
    if n > 1 {
      BelowIsCounted(t, start, path, n - 1, visited, counted);
    }
  }

  lemma ChildHasOneParent(m: Sound, p: EntryKey, q: EntryKey, key: EntryKey)
    requires key in ChildKeys(m.t, p) && key in ChildKeys(m.t, q)
    ensures p == q
  {
    ParentOf(m, p, key);
    ParentOf(m, q, key);
  }

  lemma ParentOf(m: Sound, p: EntryKey, key: EntryKey)
    requires key in ChildKeys(m.t, p)
    ensures key in m.t.ids && m.t.ids[key] < |m.t.entries| && ParentKey(m.t.entries[m.t.ids[key]]) == p
  {
    assert Broken(Seal);
    var slots := ChildrenOf(m.t.children, p);
    var j :| 0 <= j < |slots| && slots[j] < |m.t.entries| && m.t.entries[slots[j]].key == key;
    assert slots[j] in slots;
    assert Listed(m.t.children, p, slots[j]);
    assert IsChild(m.t, p, slots[j]);
  }

  /** The child list gives each child once. */
  lemma ChildrenAreDistinct(m: Sound, p: EntryKey)
    ensures DistinctKeys(ChildKeys(m.t, p)) && |ChildKeys(m.t, p)| == |ChildrenOf(m.t.children, p)|
    ensures var slots := ChildrenOf(m.t.children, p);
            forall j :: 0 <= j < |slots| ==> (
              && slots[j] < |m.t.entries| && ChildKeys(m.t, p)[j] == m.t.entries[slots[j]].key
              && m.t.entries[slots[j]].key in m.t.ids && m.t.ids[m.t.entries[slots[j]].key] == slots[j])
  {
    assert Broken(Seal);
    var slots := ChildrenOf(m.t.children, p);
    forall j | 0 <= j < |slots| ensures Live(m.t, slots[j]) {
      assert slots[j] in slots;
      assert Listed(m.t.children, p, slots[j]);
      assert IsChild(m.t, p, slots[j]);
    }
    AllKept(m.t, slots);
  }

  lemma {:induction false} AllKept(t: Table, slots: seq<nat>)
    requires forall j :: 0 <= j < |slots| ==> slots[j] < |t.entries|
    ensures |KeysAt(t, slots)| == |slots| && forall j :: 0 <= j < |slots| ==> KeysAt(t, slots)[j] == t.entries[slots[j]].key
  {
    if slots != [] {
      AllKept(t, slots[1..]);
    }
  }

  function DirectoriesAmong(t: Table, keys: seq<EntryKey>): (dirs: seq<EntryKey>)
    ensures forall k :: k in dirs <==> k in keys && HoldsDirectory(t, k)
    ensures DistinctKeys(keys) ==> DistinctKeys(dirs)
  {
    if keys == [] then []
    else
      var most, last := keys[..|keys| - 1], keys[|keys| - 1];
      assert keys == most + [last];
      if HoldsDirectory(t, last) then DirectoriesAmong(t, most) + [last] else DirectoriesAmong(t, most)
  }

  // ---- the walk ----

  ghost predicate Found(t: Table, start: EntryKey, visited: set<EntryKey>, k: EntryKey) {
    k in t.ids && t.ids[k] < |t.entries| && Below(t, start, k) && exists p :: p in visited && k in ChildKeys(t, p)
  }

  ghost predicate Walking(t: Table, start: EntryKey, stack: seq<EntryKey>, visited: set<EntryKey>,
                          counted: seq<EntryKey>) {
    && DistinctKeys(counted) && (start in counted ==> !HoldsDirectory(t, start)) && DistinctKeys(stack)
    && (forall k :: k in counted ==> Found(t, start, visited, k))
    && (forall p, k :: p in visited && k in ChildKeys(t, p) ==> k in counted)
    && (forall k :: k in stack ==> k !in visited)
    && (forall k :: k in stack || k in visited <==> k == start || (k in counted && HoldsDirectory(t, k)))
  }

  /** Not counted yet, and not the start to be opened again. */
  predicate Newly(t: Table, start: EntryKey, counted: seq<EntryKey>, k: EntryKey) {
    k !in counted && (k == start ==> !HoldsDirectory(t, k))
  }

  lemma FreshChildren(m: Sound, start: EntryKey, stack: seq<EntryKey>, visited: set<EntryKey>, counted: seq<EntryKey>,
                      p: EntryKey)
    requires Walking(m.t, start, stack, visited, counted) && p in stack && !Circles(m.t, start)
    ensures forall k :: k in ChildKeys(m.t, p) ==> Newly(m.t, start, counted, k) && Below(m.t, start, k)
  {
    forall k | k in ChildKeys(m.t, p) ensures Newly(m.t, start, counted, k) && Below(m.t, start, k) {
      assert p == start || Found(m.t, start, visited, p);
      BelowChild(m.t, start, p, k);
      if k in counted {
        var q :| q in visited && k in ChildKeys(m.t, q);
        ChildHasOneParent(m, p, q, k);
        assert false;
      }
    }
  }

  lemma FoundOn(m: Sound, start: EntryKey, visited: set<EntryKey>, p: EntryKey, counted: seq<EntryKey>)
    requires forall k :: k in counted ==> Found(m.t, start, visited, k)
    requires forall k :: k in ChildKeys(m.t, p) ==> Below(m.t, start, k)
    ensures forall k :: k in counted + ChildKeys(m.t, p) ==> Found(m.t, start, visited + {p}, k)
  {
    forall k | k in counted + ChildKeys(m.t, p) ensures Found(m.t, start, visited + {p}, k) {
      if k in counted {
        assert Found(m.t, start, visited, k);
      } else {
        ParentOf(m, p, k);
      }
    }
  }

  lemma WalkingOn(m: Sound, start: EntryKey, rest: seq<EntryKey>, p: EntryKey, visited: set<EntryKey>,
                  counted: seq<EntryKey>)
    requires Walking(m.t, start, rest + [p], visited, counted) && !Circles(m.t, start)
    ensures var keys := ChildKeys(m.t, p);
            Walking(m.t, start, rest + DirectoriesAmong(m.t, keys), visited + {p}, counted + keys)
  {
    var keys := ChildKeys(m.t, p);
    var dirs := DirectoriesAmong(m.t, keys);
    assert (rest + [p])[|rest|] == p;
    FreshChildren(m, start, rest + [p], visited, counted, p);
    ChildrenAreDistinct(m, p);
    assert forall k :: k in rest ==> k in rest + [p];
    FoundOn(m, start, visited, p, counted);
    DistinctTogether(rest, p, dirs, start, counted);
    StackedOrVisited(m.t, start, rest, p, dirs, visited, counted, keys);
  }

  lemma StackedOrVisited(t: Table, start: EntryKey, rest: seq<EntryKey>, p: EntryKey, dirs: seq<EntryKey>,
                         visited: set<EntryKey>, counted: seq<EntryKey>, keys: seq<EntryKey>)
    requires Walking(t, start, rest + [p], visited, counted) && dirs == DirectoriesAmong(t, keys) && p !in rest
    requires forall k :: k in keys ==> Newly(t, start, counted, k)
    ensures forall k :: k in rest + dirs ==> k !in visited + {p}
    ensures forall k :: k in rest + dirs || k in visited + {p} <==> k == start || (k in counted + keys && HoldsDirectory(t, k))
  {
    assert p in rest + [p];
    forall k ensures k in rest + dirs || k in visited + {p} <==> k == start || (k in counted + keys && HoldsDirectory(t, k)) {
      assert k in rest + [p] || k in visited <==> k == start || (k in counted && HoldsDirectory(t, k));
    }
    forall k | k in rest + dirs ensures k !in visited + {p} {
      assert k in rest ==> k in rest + [p];
    }
  }

  lemma DistinctTogether(rest: seq<EntryKey>, p: EntryKey, dirs: seq<EntryKey>, start: EntryKey, counted: seq<EntryKey>)
    requires DistinctKeys(rest + [p]) && DistinctKeys(dirs)
    requires forall k :: k in rest + [p] ==> k == start || k in counted
    requires forall k :: k in dirs ==> k != start && k !in counted
    ensures DistinctKeys(rest + dirs) && p !in rest
  {
    var all := rest + dirs;
    forall i, j | 0 <= i < j < |all| ensures all[i] != all[j] {
      if i < |rest| <= j {
        assert (rest + [p])[i] == rest[i];
        assert dirs[j - |rest|] in dirs && rest[i] in rest + [p];
      } else if j < |rest| {
        assert (rest + [p])[i] == rest[i] && (rest + [p])[j] == rest[j];
      }
    }
    forall i | 0 <= i < |rest| ensures rest[i] != p {
      assert (rest + [p])[i] == rest[i] && (rest + [p])[|rest|] == p;
    }
  }

  lemma OneMore(t: Table, keys: seq<EntryKey>, j: nat, facts: seq<Facts>, stack: seq<EntryKey>)
    requires j < |keys| && Addressed(t, keys)
    ensures facts + FactsOf(t, keys[..j + 1]) == facts + FactsOf(t, keys[..j]) + [t.entries[t.ids[keys[j]]].facts]
    ensures stack + DirectoriesAmong(t, keys[..j + 1])
         == stack + DirectoriesAmong(t, keys[..j]) + if HoldsDirectory(t, keys[j]) then [keys[j]] else []
  {
    assert keys[..j + 1][..j] == keys[..j];
  }

  /** Counts one folder's children and stacks those that are folders themselves. */
  method CountChildren(t: Table, slots: seq<nat>, r: Running, stack: seq<EntryKey>, ghost facts: seq<Facts>,
                       ghost keys: seq<EntryKey>)
    returns (s: Running, grown: seq<EntryKey>)
    requires RunningTotals(r, facts) && |keys| == |slots|
    requires forall j :: 0 <= j < |slots| ==> (
               slots[j] < |t.entries| && keys[j] == t.entries[slots[j]].key && keys[j] in t.ids && t.ids[keys[j]] == slots[j])
    ensures RunningTotals(s, facts + FactsOf(t, keys))
    ensures grown == stack + DirectoriesAmong(t, keys)
  {
    s, grown := r, stack;
    assert facts + FactsOf(t, keys[..0]) == facts;
    for j := 0 to |slots|
      invariant RunningTotals(s, facts + FactsOf(t, keys[..j]))
      invariant grown == stack + DirectoriesAmong(t, keys[..j])
    {
      var child := t.entries[slots[j]];
      OneMore(t, keys, j, facts, stack);
      s := AddFile(s, child.facts, facts + FactsOf(t, keys[..j]));
      if IsDirectory(child.facts) {
        grown := grown + [child.key];
      }
    }
    assert keys[..|slots|] == keys;
  }

  lemma WalkingAddressed(t: Table, start: EntryKey, stack: seq<EntryKey>, visited: set<EntryKey>,
                         counted: seq<EntryKey>)
    requires Walking(t, start, stack, visited, counted) && start in t.ids
    ensures Addressed(t, counted) && forall k :: k in stack ==> k in t.ids && k !in visited
  {
    forall n | 0 <= n < |counted| ensures counted[n] in t.ids && t.ids[counted[n]] < |t.entries| {
      assert counted[n] in counted;
      assert Found(t, start, visited, counted[n]);
    }
    forall k | k in stack ensures k in t.ids {
      assert k == start || Found(t, start, visited, k);
    }
  }

  lemma FactsJoin(t: Table, a: seq<EntryKey>, b: seq<EntryKey>)
    requires Addressed(t, a) && Addressed(t, b)
    ensures Addressed(t, a + b) && FactsOf(t, a + b) == FactsOf(t, a) + FactsOf(t, b)
  {
  }

  lemma FewerLeft(all: set<EntryKey>, visited: set<EntryKey>, p: EntryKey)
    requires p in all && p !in visited
    ensures |all - (visited + {p})| < |all - visited|
  {
    assert all - visited == all - (visited + {p}) + {p};
  }

  ghost predicate Counting(t: Table, start: EntryKey, stack: seq<EntryKey>, visited: set<EntryKey>,
                           counted: seq<EntryKey>, r: Running) {
    Walking(t, start, stack, visited, counted) && Addressed(t, counted) && RunningTotals(r, FactsOf(t, counted))
  }

  /** Takes one folder off the stack and counts what is directly in it. */
  method CountFolder(t: Table, start: EntryKey, stack: seq<EntryKey>, r: Running,
                     ghost m: Sound, ghost visited: set<EntryKey>, ghost counted: seq<EntryKey>)
    returns (left: seq<EntryKey>, s: Running, ghost more: seq<EntryKey>)
    requires m.t == t && start in t.ids && !Circles(t, start)
    requires stack != [] && Counting(t, start, stack, visited, counted, r)
    ensures stack[|stack| - 1] in t.ids && stack[|stack| - 1] !in visited
    ensures Counting(t, start, left, visited + {stack[|stack| - 1]}, more, s)
  {
    var p, rest := stack[|stack| - 1], stack[..|stack| - 1];
    assert stack == rest + [p];
    WalkingAddressed(t, start, stack, visited, counted);
    WalkingOn(m, start, rest, p, visited, counted);
    ChildrenAreDistinct(m, p);
    ghost var keys := ChildKeys(t, p);
    s, left := CountChildren(t, ChildrenOf(t.children, p), r, rest, FactsOf(t, counted), keys);
    more := counted + keys;
    FactsJoin(t, counted, keys);
  }

  /** Everything below the folder is counted exactly once.  The walk keeps no record of where it has
      been, so it is asked only where it ends: the start is no directory that lies below itself. */
  method GetFolderAggregate(t: Table, start: EntryKey, ghost m: Sound)
    returns (result: Option<Aggregate>, ghost counted: seq<EntryKey>)
    requires m.t == t && !Circles(t, start)
    ensures result.Some? <==> start in t.ids
    ensures result.Some? ==> (
              && DistinctKeys(counted) && (forall k :: k in counted <==> LiesBelow(m.view, start, k))
              && Addressed(t, counted) && result.value == Totals(FactsOf(t, counted)))
    ensures result.Some? ==> IsTotal(result.value, seq(|counted|, n requires 0 <= n < |counted| =>
              if counted[n] in m.view then m.view[counted[n]].facts else BLANK.facts))
  {
    counted := [];
    if start !in t.ids {
      return None, counted;
    }
    var stack, r := [start], Running(0, 0, 0, 0, false);
    ghost var visited: set<EntryKey> := {};
    assert Counting(t, start, stack, visited, counted, r);
    while stack != []
      invariant Counting(t, start, stack, visited, counted, r)
      decreases |t.ids.Keys - visited|
    {
      ghost var p := stack[|stack| - 1];
      stack, r, counted := CountFolder(t, start, stack, r, m, visited, counted);
      FewerLeft(t.ids.Keys, visited, p);
      visited := visited + {p};
    }
    AllCounted(t, start, visited, counted);
    forall k ensures k in counted <==> LiesBelow(m.view, start, k) {
      BelowIff(m, start, k);
    }
    FactsInView(m, counted);
    TotalsAreTotal(FactsOf(t, counted));
    return Some(Aggregate(r.items, r.size, r.allocatedTotal, r.knownCount, !r.overflowed && r.knownCount == r.items)), counted;
  }

  lemma FactsInView(m: Sound, counted: seq<EntryKey>)
    requires Addressed(m.t, counted)
    ensures FactsOf(m.t, counted) == seq(|counted|, n requires 0 <= n < |counted| =>
              if counted[n] in m.view then m.view[counted[n]].facts else BLANK.facts)
  {
    forall n | 0 <= n < |counted|
      ensures counted[n] in m.view && FactsOf(m.t, counted)[n] == m.view[counted[n]].facts
    {
      RowIsEntry(m, counted[n]);
    }
  }

  lemma AllCounted(t: Table, start: EntryKey, visited: set<EntryKey>, counted: seq<EntryKey>)
    requires Walking(t, start, [], visited, counted)
    ensures forall k :: k in counted <==> Below(t, start, k)
  {
    forall k ensures k in counted <==> Below(t, start, k) {
      if k in counted {
        assert Found(t, start, visited, k);
      }
      if Below(t, start, k) {
        var path :| Descends(t, start, path) && path[|path| - 1] == k;
        BelowIsCounted(t, start, path, |path| - 1, visited, counted);
      }
    }
  }

  // ---- when the walk ends ----

  /** The stack after so many folders have been taken off it. */
  function StackAfter(t: Table, stack: seq<EntryKey>, steps: nat): seq<EntryKey>
    decreases steps
  {
    if steps == 0 || stack == [] then stack
    else
      var p, rest := stack[|stack| - 1], stack[..|stack| - 1];
      StackAfter(t, rest + DirectoriesAmong(t, ChildKeys(t, p)), steps - 1)
  }

  ghost predicate Ends(t: Table, stack: seq<EntryKey>) {
    exists n: nat :: StackAfter(t, stack, n) == []
  }

  lemma EndsEarlier(t: Table, stack: seq<EntryKey>)
    requires stack != []
    requires Ends(t, stack[..|stack| - 1] + DirectoriesAmong(t, ChildKeys(t, stack[|stack| - 1])))
    ensures Ends(t, stack)
  {
    var n: nat :| StackAfter(t, stack[..|stack| - 1] + DirectoriesAmong(t, ChildKeys(t, stack[|stack| - 1])), n) == [];
    assert StackAfter(t, stack, n + 1) == [];
  }

  lemma {:induction false} WalkEnds(m: Sound, start: EntryKey, stack: seq<EntryKey>, visited: set<EntryKey>,
                                    counted: seq<EntryKey>)
    requires Walking(m.t, start, stack, visited, counted) && !Circles(m.t, start) && start in m.t.ids
    ensures Ends(m.t, stack)
    decreases |m.t.ids.Keys - visited|
  {
    if stack == [] {
      assert StackAfter(m.t, stack, 0) == [];
    } else {
      var p, rest := stack[|stack| - 1], stack[..|stack| - 1];
      assert stack == rest + [p];
      WalkingAddressed(m.t, start, stack, visited, counted);
      WalkingOn(m, start, rest, p, visited, counted);
      FewerLeft(m.t.ids.Keys, visited, p);
      var keys := ChildKeys(m.t, p);
      WalkEnds(m, start, rest + DirectoriesAmong(m.t, keys), visited + {p}, counted + keys);
      EndsEarlier(m.t, stack);
    }
  }

  ghost predicate OnLoop(t: Table, loop: seq<EntryKey>) {
    && |loop| >= 2 && loop[|loop| - 1] == loop[0]
    && forall n :: 0 <= n < |loop| - 1 ==> HoldsDirectory(t, loop[n]) && loop[n + 1] in ChildKeys(t, loop[n])
  }

  /** Below itself through directories, the walk never runs out of folders. */
  lemma {:induction false} LoopNeverEnds(t: Table, loop: seq<EntryKey>, stack: seq<EntryKey>, steps: nat)
    requires OnLoop(t, loop) && exists k :: k in stack && k in loop
    ensures StackAfter(t, stack, steps) != []
    decreases steps
  {
    if steps > 0 {
      var p, rest := stack[|stack| - 1], stack[..|stack| - 1];
      var next := StillOnLoop(t, loop, stack);
      LoopNeverEnds(t, loop, rest + DirectoriesAmong(t, ChildKeys(t, p)), steps - 1);
    }
  }

  lemma StillOnLoop(t: Table, loop: seq<EntryKey>, stack: seq<EntryKey>) returns (next: EntryKey)
    requires OnLoop(t, loop) && exists k :: k in stack && k in loop
    ensures next in stack[..|stack| - 1] + DirectoriesAmong(t, ChildKeys(t, stack[|stack| - 1])) && next in loop
  {
    var p, rest := stack[|stack| - 1], stack[..|stack| - 1];
    if p in loop {
      next := NextOnLoop(t, loop, p);
    } else {
      next :| next in stack && next in loop;
      assert stack == rest + [p];
    }
  }

  lemma NextOnLoop(t: Table, loop: seq<EntryKey>, p: EntryKey) returns (next: EntryKey)
    requires OnLoop(t, loop) && p in loop
    ensures next in loop && next in ChildKeys(t, p) && HoldsDirectory(t, next)
  {
    var n :| 0 <= n < |loop| && loop[n] == p;
    var i := if n == |loop| - 1 then 0 else n;
    next := loop[i + 1];
    assert i + 1 < |loop| - 1 || next == loop[0];
  }

  /** For every table and every known start: the walk ends if and only if the start is not a directory
      that lies below itself. */
  lemma WalkEndsIff(m: Sound, start: EntryKey)
    requires start in m.t.ids
    ensures Ends(m.t, [start]) <==> !Circles(m.t, start)
    ensures Circles(m.t, start) <==>
            start in m.view && m.view[start].facts.attributes / 0x10 % 2 == 1 && LiesBelow(m.view, start, start)
  {
    BelowIff(m, start, start);
    ChildIff(m, start, start);
    if Circles(m.t, start) {
      var path :| Descends(m.t, start, path) && path[|path| - 1] == start;
      assert OnLoop(m.t, path);
      forall n: nat ensures StackAfter(m.t, [start], n) != [] {
        assert start in [start] && path[0] in path;
        LoopNeverEnds(m.t, path, [start], n);
      }
    } else {
      assert Walking(m.t, start, [start], {}, []);
      WalkEnds(m, start, [start], {}, []);
    }
  }

  // ---- both kinds of start that lie below themselves ----

  const DIRECTORY := Facts(0, 0, true, 0, 0, 0, ATTRIBUTE_DIRECTORY)

  /** Two entries, each the other's parent; the second is a directory. */
  function Knot(first: Facts): Table {
    var a, b := EntryKey(Volume(1), 7), EntryKey(Volume(1), 8);
    Table([Entry(a, 8, 0, first), Entry(b, 7, 0, DIRECTORY)], [], map[a := 0, b := 1], map[b := [0], a := [1]])
  }

  lemma KnotIsOk(first: Facts)
    ensures TableOk(Knot(first))
  {
    var t := Knot(first);
    assert Live(t, 0) && Live(t, 1);
  }

  lemma KnotIsBelowItself(first: Facts)
    ensures Below(Knot(first), EntryKey(Volume(1), 7), EntryKey(Volume(1), 7))
  {
    var t, a, b := Knot(first), EntryKey(Volume(1), 7), EntryKey(Volume(1), 8);
    assert ChildrenOf(t.children, a) == [1] && ChildrenOf(t.children, b) == [0];
    assert b in ChildKeys(t, a) && a in ChildKeys(t, b) && HoldsDirectory(t, b);
    var path := [a, b, a];
    assert Descends(t, a, path);
    assert path[|path| - 1] == a;
  }

  /** Two directories in each other never end; a file in a directory in that file does. */
  lemma KnotsEndIffFile(first: Facts) returns (m: Sound)
    ensures m.t == Knot(first) && EntryKey(Volume(1), 7) in m.t.ids
    ensures Below(m.t, EntryKey(Volume(1), 7), EntryKey(Volume(1), 7))
    ensures Ends(m.t, [EntryKey(Volume(1), 7)]) <==> !IsDirectory(first)
  {
    KnotIsOk(first);
    KnotIsBelowItself(first);
    var t := Knot(first);
    m := Image(t, [[]], Rows(t, [[]]), LiveNames(t, [[]]));
    WalkEndsIff(m, EntryKey(Volume(1), 7));
  }
}
