/**
  The in-memory filename accelerator: for each three-unit window of a folded name the rows that have
  it, and a side list of rows whose names the host might match through a non-ASCII unit.
 */
module FilenameIndex {
  import opened Words
  import opened SortedLists
  import FoldClassification
  import TextCodec

  type Name = seq<Unit>

  function PackTrigram(value: Name, o: nat): nat
    requires o + 3 <= |value|
  {
    value[o] as int + 0x1_0000 * value[o + 1] as int + 0x1_0000_0000 * value[o + 2] as int
  }

  function Windows(value: Name): (w: seq<nat>) {
    if |value| < 3 then [] else seq(|value| - 2, k requires 0 <= k < |value| - 2 => PackTrigram(value, k))
  }

  function UniqueTrigrams(value: Name): (t: seq<nat>)
    ensures Sorted(t) && SameElements(t, Windows(value))
  {
    SortedUnique(Windows(value))
  }

  // ---- what the index should hold ----

  type Postings = map<nat, seq<nat>>

  predicate Posted(postings: Postings, t: nat, row: nat) {
    t in postings && row in postings[t]
  }

  predicate NameHas(name: Name, t: nat) {
    t in Windows(TextCodec.Fold(name))
  }

  predicate HasTrigram(rows: map<nat, Name>, t: nat, row: nat) {
    row in rows && NameHas(rows[row], t)
  }

  /** The postings list exactly the rows that have each trigram, and no empty lists. */
  ghost predicate Lists(postings: Postings, rows: map<nat, Name>) {
    && (forall t: nat, row: nat :: Posted(postings, t, row) <==> HasTrigram(rows, t, row))
    && (forall t :: t in postings ==> postings[t] != [])
  }

  ghost predicate AllSorted(postings: Postings) {
    forall t :: t in postings ==> Sorted(postings[t])
  }

  predicate NeedsFallback(rows: map<nat, Name>, mayFold: Unit -> bool, row: nat) {
    row in rows && FoldClassification.NeedsSideSet(rows[row], mayFold)
  }

  ghost predicate Sides(exceptional: seq<nat>, rows: map<nat, Name>, mayFold: Unit -> bool) {
    forall row: nat :: row in exceptional <==> NeedsFallback(rows, mayFold, row)
  }

  ghost predicate Exact(postings: Postings, exceptional: seq<nat>, rows: map<nat, Name>, mayFold: Unit -> bool) {
    && Lists(postings, rows) && AllSorted(postings)
    && Sides(exceptional, rows, mayFold) && Sorted(exceptional)
  }

  datatype Holding = Holding(postings: Postings, exceptional: seq<nat>, rows: map<nat, Name>, mayFold: Unit -> bool)

  type ExactHolding = h: Holding | Exact(h.postings, h.exceptional, h.rows, h.mayFold)
    ghost witness Holding(map[], [], map[], _ => false)

  /** Exactness leaves no choice: an incrementally kept index is the one a rebuild would give. */
  lemma ExactIsUnique(p: Postings, e: seq<nat>, q: Postings, f: seq<nat>, rows: map<nat, Name>, mayFold: Unit -> bool)
    requires Exact(p, e, rows, mayFold) && Exact(q, f, rows, mayFold)
    ensures p == q && e == f
  {
    forall row: nat ensures row in e <==> row in f {
      assert row in e <==> NeedsFallback(rows, mayFold, row);
    }
    SortedIsUnique(e, f);
    forall t | t in p ensures t in q && q[t] == p[t] {
      SameLists(p, q, rows, t);
    }
    forall t | t in q ensures t in p {
      SameLists(q, p, rows, t);
    }
  }

  lemma SameLists(p: Postings, q: Postings, rows: map<nat, Name>, t: nat)
    requires Lists(p, rows) && AllSorted(p) && Lists(q, rows) && AllSorted(q) && t in p
    ensures t in q && q[t] == p[t]
  {
    var row := p[t][0];
    assert Posted(p, t, row);
    assert HasTrigram(rows, t, row);
    assert Posted(q, t, row);
    forall x: nat ensures x in p[t] <==> x in q[t] {
      assert Posted(p, t, x) <==> HasTrigram(rows, t, x);
      assert Posted(q, t, x) <==> HasTrigram(rows, t, x);
    }
    SortedIsUnique(p[t], q[t]);
  }

  // ---- posting and withdrawing one row ----

  function Listed(postings: Postings, t: nat): seq<nat> {
    if t in postings then postings[t] else []
  }

  /** Appending is only used while a rebuild has yet to sort. */
  method PostAll(postings: Postings, row: nat, trigrams: seq<nat>, building: bool) returns (p: Postings)
    requires building || AllSorted(postings)
    requires forall t :: t in postings ==> postings[t] != []
    ensures forall t: nat, i: nat :: Posted(p, t, i) <==> Posted(postings, t, i) || (i == row && t in trigrams)
    ensures forall t :: t in p ==> p[t] != []
    ensures !building ==> AllSorted(p)
  {
    p := postings;
    for k := 0 to |trigrams|
      invariant building || AllSorted(p)
      invariant forall t: nat, i: nat :: Posted(p, t, i) <==> Posted(postings, t, i) || (i == row && t in trigrams[..k])
      invariant forall t :: t in p ==> p[t] != []
    {
      var t := trigrams[k];
      assert trigrams[..k + 1] == trigrams[..k] + [t];
      var posting := if building then Listed(p, t) + [row] else InsertSorted(Listed(p, t), row);
      PostsOne(p, t, row, posting);
      ghost var before := p;
      p := p[t := posting];
      forall u: nat, i: nat
        ensures Posted(p, u, i) <==> Posted(postings, u, i) || (i == row && u in trigrams[..k + 1])
      {
        assert Posted(p, u, i) <==> Posted(before, u, i) || (i == row && u == t);
      }
    }
    assert trigrams[..|trigrams|] == trigrams;
  }

  lemma PostsOne(p: Postings, t: nat, row: nat, posting: seq<nat>)
    requires forall x: nat :: x in posting <==> x in Listed(p, t) || x == row
    ensures posting != []
    ensures forall u: nat, i: nat :: Posted(p[t := posting], u, i) <==> Posted(p, u, i) || (i == row && u == t)
  {
    assert row in posting;
    var q := p[t := posting];
    forall u: nat, i: nat ensures Posted(q, u, i) <==> Posted(p, u, i) || (i == row && u == t) {
      if u == t {
        assert Listed(q, t) == posting;
        assert i in posting <==> i in Listed(p, t) || i == row;
      } else {
        assert Listed(q, u) == Listed(p, u);
      }
    }
  }

  method WithdrawAll(postings: Postings, row: nat, trigrams: seq<nat>) returns (p: Postings)
    requires AllSorted(postings)
    requires forall t :: t in postings ==> postings[t] != []
    ensures forall t: nat, i: nat :: Posted(p, t, i) <==> Posted(postings, t, i) && !(i == row && t in trigrams)
    ensures forall t :: t in p ==> p[t] != []
    ensures AllSorted(p)
  {
    p := postings;
    for k := 0 to |trigrams|
      invariant AllSorted(p)
      invariant forall t: nat, i: nat :: Posted(p, t, i) <==> Posted(postings, t, i) && !(i == row && t in trigrams[..k])
      invariant forall t :: t in p ==> p[t] != []
    {
      var t := trigrams[k];
      assert trigrams[..k + 1] == trigrams[..k] + [t];
      if t in p {
        var posting := EraseSorted(p[t], row);
        WithdrawsOne(p, t, row, posting);
        if posting == [] {
          p := p - {t};
        } else {
          p := p[t := posting];
        }
      }
    }
    assert trigrams[..|trigrams|] == trigrams;
  }

  lemma WithdrawsOne(p: Postings, t: nat, row: nat, posting: seq<nat>)
    requires t in p && forall x: nat :: x in posting <==> x in p[t] && x != row
    ensures posting == [] ==>
              forall u: nat, i: nat :: Posted(p - {t}, u, i) <==> Posted(p, u, i) && !(i == row && u == t)
    ensures forall u: nat, i: nat :: Posted(p[t := posting], u, i) <==> Posted(p, u, i) && !(i == row && u == t)
  {
    EmptyHasNone(posting);
  }

  lemma ListsMore(postings: Postings, p: Postings, rows: map<nat, Name>, row: nat, name: Name)
    requires Lists(postings, rows) && row !in rows
    requires forall t: nat, i: nat ::
               Posted(p, t, i) <==> Posted(postings, t, i) || (i == row && NameHas(name, t))
    requires forall t :: t in p ==> p[t] != []
    ensures Lists(p, rows[row := name])
  {
    forall t: nat, i: nat ensures Posted(p, t, i) <==> HasTrigram(rows[row := name], t, i) {
      assert Posted(postings, t, i) <==> HasTrigram(rows, t, i);
    }
  }

  lemma ListsFewer(postings: Postings, p: Postings, rows: map<nat, Name>, row: nat)
    requires Lists(postings, rows) && row in rows
    requires forall t: nat, i: nat ::
               Posted(p, t, i) <==> Posted(postings, t, i) && !(i == row && NameHas(rows[row], t))
    requires forall t :: t in p ==> p[t] != []
    ensures Lists(p, rows - {row})
  {
    forall t: nat, i: nat ensures Posted(p, t, i) <==> HasTrigram(rows - {row}, t, i) {
      assert Posted(postings, t, i) <==> HasTrigram(rows, t, i);
    }
  }

  // ---- building from all rows ----

  ghost predicate Enumerates(order: seq<nat>, rows: map<nat, Name>) {
    && (forall i, j :: 0 <= i < j < |order| ==> order[i] != order[j])
    && (forall row: nat :: row in order <==> row in rows)
  }

  ghost function Among(rows: map<nat, Name>, some: seq<nat>): map<nat, Name> {
    map row | row in some && row in rows :: rows[row]
  }

  lemma AmongGrows(rows: map<nat, Name>, order: seq<nat>, k: nat)
    requires Enumerates(order, rows) && k < |order|
    ensures order[k] in rows && order[k] !in Among(rows, order[..k])
    ensures Among(rows, order[..k + 1]) == Among(rows, order[..k])[order[k] := rows[order[k]]]
  {
    assert order[k] in order;
    assert order[..k + 1] == order[..k] + [order[k]];
  }

  lemma AmongAll(rows: map<nat, Name>, order: seq<nat>)
    requires Enumerates(order, rows)
    ensures Among(rows, order[..|order|]) == rows
  {
    assert order[..|order|] == order;
  }

  method PostEveryRow(order: seq<nat>, rows: map<nat, Name>, mayFold: Unit -> bool) returns (p: Postings, e: seq<nat>)
    requires Enumerates(order, rows)
    ensures Lists(p, rows) && Sides(e, rows, mayFold)
  {
    p, e := map[], [];
    for k := 0 to |order|
      invariant Lists(p, Among(rows, order[..k]))
      invariant Sides(e, Among(rows, order[..k]), mayFold)
    {
      AmongGrows(rows, order, k);
      var row, name, before := order[k], rows[order[k]], e;
      if FoldClassification.NeedsSideSet(name, mayFold) {
        e := e + [row];
      }
      SidesMore(before, e, Among(rows, order[..k]), mayFold, row, name);
      var more := PostAll(p, row, UniqueTrigrams(TextCodec.Fold(name)), true);
      ListsMore(p, more, Among(rows, order[..k]), row, name);
      p := more;
    }
    AmongAll(rows, order);
  }

  function SortAll(p: Postings): Postings {
    map t | t in p :: SortedUnique(p[t])
  }

  lemma SortingKeeps(p: Postings, rows: map<nat, Name>)
    requires Lists(p, rows)
    ensures Lists(SortAll(p), rows) && AllSorted(SortAll(p))
  {
    forall t: nat, row: nat ensures Posted(SortAll(p), t, row) <==> HasTrigram(rows, t, row) {
      assert Posted(p, t, row) <==> HasTrigram(rows, t, row);
    }
    forall t | t in p ensures SortAll(p)[t] != [] {
      EmptyHasNone(p[t]);
      EmptyHasNone(SortAll(p)[t]);
    }
  }

  // ---- candidates ----

  /** Rows listed under every trigram. */
  function Common(postings: Postings, trigrams: seq<nat>): (r: seq<nat>)
    requires AllSorted(postings) && trigrams != []
    ensures Sorted(r)
    ensures forall row: nat :: row in r <==> forall t: nat :: t in trigrams ==> Posted(postings, t, row)
  {
    var first, rest := Listed(postings, trigrams[0]), trigrams[1..];
    assert trigrams == [trigrams[0]] + rest;
    assert forall row: nat :: row in first <==> Posted(postings, trigrams[0], row);
    if rest == [] then first else Intersection(first, Common(postings, rest))
  }

  function CandidateRows(postings: Postings, exceptional: seq<nat>, trigrams: seq<nat>): (r: seq<nat>)
    requires AllSorted(postings) && trigrams != []
    ensures Sorted(r)
  {
    Union(Common(postings, trigrams), exceptional)
  }

  /** Some window is missing or has a list within the cap. */
  ghost predicate Narrow(postings: Postings, trigrams: seq<nat>, cap: nat) {
    cap == 0 || exists t :: t in trigrams && |Listed(postings, t)| <= cap
  }

  ghost predicate AreLists(lists: seq<seq<nat>>, postings: Postings, trigrams: seq<nat>) {
    |lists| == |trigrams| && forall k :: 0 <= k < |trigrams| ==> lists[k] == Listed(postings, trigrams[k])
  }

  /** The lists of the needle's windows; none as soon as one is missing. */
  method FindPostings(postings: Postings, trigrams: seq<nat>) returns (lists: Option<seq<seq<nat>>>)
    ensures lists.None? <==> exists t :: t in trigrams && t !in postings
    ensures lists.Some? ==> AreLists(lists.value, postings, trigrams)
  {
    var found: seq<seq<nat>> := [];
    for k := 0 to |trigrams|
      invariant |found| == k
      invariant forall j :: 0 <= j < k ==> trigrams[j] in postings && found[j] == postings[trigrams[j]]
    {
      if trigrams[k] !in postings {
        return None;
      }
      found := found + [postings[trigrams[k]]];
    }
    lists := Some(found);
  }

  /** Shortest lists first. */
  function BySize(lists: seq<seq<nat>>): (r: seq<seq<nat>>)
    ensures |r| == |lists|
    ensures forall l :: l in r <==> l in lists
    ensures forall i, j :: 0 <= i < j < |r| ==> |r[i]| <= |r[j]|
  {
    if lists == [] then [] else InsertBySize(BySize(lists[1..]), lists[0])
  }

  function InsertBySize(lists: seq<seq<nat>>, l: seq<nat>): (r: seq<seq<nat>>)
    requires forall i, j :: 0 <= i < j < |lists| ==> |lists[i]| <= |lists[j]|
    ensures |r| == |lists| + 1
    ensures forall x :: x in r <==> x in lists || x == l
    ensures forall i, j :: 0 <= i < j < |r| ==> |r[i]| <= |r[j]|
  {
    if lists == [] || |l| <= |lists[0]| then [l] + lists
    else
      var rest := InsertBySize(lists[1..], l);
      assert forall k :: 0 <= k < |rest| ==> rest[k] in rest;
      [lists[0]] + rest
  }

  method IntersectAll(lists: seq<seq<nat>>, cap: nat) returns (r: Option<seq<nat>>)
    requires lists != [] && forall k :: 0 <= k < |lists| ==> Sorted(lists[k])
    ensures r.Some? <==> cap == 0 || |lists[0]| <= cap
    ensures r.Some? ==> Sorted(r.value)
    ensures r.Some? ==> forall x: nat :: x in r.value <==> forall k :: 0 <= k < |lists| ==> x in lists[k]
  {
    if cap != 0 && |lists[0]| > cap {
      return None;
    }
    var result := lists[0];
    var index := 1;
    while index < |lists| && result != []
      invariant 1 <= index <= |lists| && Sorted(result) && |result| <= |lists[0]|
      invariant forall x: nat :: x in result <==> forall k :: 0 <= k < index ==> x in lists[k]
    {
      var scratch := Intersection(result, lists[index]);
      if cap != 0 && |scratch| > cap {
        return None;
      }
      result := scratch;
      index := index + 1;
    }
    r := Some(result);
  }

  method CommonRows(postings: Postings, trigrams: seq<nat>, cap: nat) returns (r: Option<seq<nat>>)
    requires AllSorted(postings) && trigrams != []
    ensures r.Some? <==> Narrow(postings, trigrams, cap)
    ensures r.Some? ==> r.value == Common(postings, trigrams)
  {
    var lists := FindPostings(postings, trigrams);
    if lists.None? {
      MissingWindow(postings, trigrams);
      return Some([]);
    }
    var sorted := BySize(lists.value);
    ListsAreSorted(postings, trigrams, lists.value, sorted);
    r := IntersectAll(sorted, cap);
    ShortestDecides(postings, trigrams, lists.value, sorted, cap);
    if r.Some? {
      CommonToAll(postings, trigrams, lists.value, sorted, r.value);
    }
  }

  lemma MissingWindow(postings: Postings, trigrams: seq<nat>)
    requires AllSorted(postings) && exists t :: t in trigrams && t !in postings
    ensures trigrams != [] && Common(postings, trigrams) == []
    ensures forall cap: nat :: Narrow(postings, trigrams, cap)
  {
    var t :| t in trigrams && t !in postings;
    assert Listed(postings, t) == [];
    EmptyHasNone(Common(postings, trigrams));
  }

  lemma ListsAreSorted(postings: Postings, trigrams: seq<nat>, lists: seq<seq<nat>>, sorted: seq<seq<nat>>)
    requires AllSorted(postings) && AreLists(lists, postings, trigrams) && sorted == BySize(lists)
    ensures forall k :: 0 <= k < |sorted| ==> Sorted(sorted[k])
  {
    forall k | 0 <= k < |sorted| ensures Sorted(sorted[k]) {
      assert sorted[k] in lists;
    }
  }

  lemma ShortestDecides(postings: Postings, trigrams: seq<nat>, lists: seq<seq<nat>>, sorted: seq<seq<nat>>, cap: nat)
    requires AreLists(lists, postings, trigrams) && sorted == BySize(lists) && lists != []
    ensures Narrow(postings, trigrams, cap) <==> cap == 0 || |sorted[0]| <= cap
  {
    assert sorted[0] in lists;
    var k :| 0 <= k < |lists| && lists[k] == sorted[0];
    assert trigrams[k] in trigrams;
    forall t | t in trigrams ensures |sorted[0]| <= |Listed(postings, t)| {
      var j :| 0 <= j < |trigrams| && trigrams[j] == t;
      assert lists[j] in sorted;
    }
  }

  lemma CommonToAll(postings: Postings, trigrams: seq<nat>, lists: seq<seq<nat>>, sorted: seq<seq<nat>>, r: seq<nat>)
    requires AllSorted(postings) && trigrams != []
    requires AreLists(lists, postings, trigrams) && sorted == BySize(lists) && Sorted(r)
    requires forall x: nat :: x in r <==> forall k :: 0 <= k < |sorted| ==> x in sorted[k]
    ensures r == Common(postings, trigrams)
  {
    forall x: nat ensures x in r <==> x in Common(postings, trigrams) {
      if x in r {
        forall t: nat | t in trigrams ensures Posted(postings, t, x) {
          var j :| 0 <= j < |trigrams| && trigrams[j] == t;
          assert lists[j] in sorted;
        }
      }
      if x in Common(postings, trigrams) {
        forall k | 0 <= k < |sorted| ensures x in sorted[k] {
          assert sorted[k] in lists;
          var j :| 0 <= j < |lists| && lists[j] == sorted[k];
          assert trigrams[j] in trigrams && Posted(postings, trigrams[j], x);
        }
      }
    }
    SortedIsUnique(r, Common(postings, trigrams));
  }

  // ---- completeness ----

  /** Among ASCII units the host tells apart everything but the two cases of a letter. */
  ghost predicate AsciiCaseInsensitive(host: (Unit, Unit) -> bool) {
    forall a: Unit, b: Unit :: FoldClassification.IsAscii(a) && FoldClassification.IsAscii(b) ==>
      (host(a, b) <==> TextCodec.SameIgnoringCase(a, b))
  }

  ghost predicate MatchesAt(host: (Unit, Unit) -> bool, name: Name, needle: Name, o: nat) {
    o + |needle| <= |name| && forall i :: 0 <= i < |needle| ==> host(name[o + i], needle[i])
  }

  /** The canonical matcher: the needle occurs somewhere under the host's case equality. */
  ghost predicate HostContains(host: (Unit, Unit) -> bool, name: Name, needle: Name) {
    exists o :: 0 <= o <= |name| && MatchesAt(host, name, needle, o)
  }

  /** ASCII without capital letters. */
  predicate FoldedAscii(needle: Name) {
    TextCodec.AllAscii(needle) && forall i :: 0 <= i < |needle| ==> !(0x41 <= needle[i] < 0x41 + TextCodec.LETTERS)
  }

  /** Away from exceptional names a host match is a match of the folded text. */
  lemma PlainMatch(host: (Unit, Unit) -> bool, mayFold: Unit -> bool, name: Name, needle: Name, o: nat, i: nat)
    requires AsciiCaseInsensitive(host) && FoldClassification.Covers(mayFold, host)
    requires TextCodec.AllAscii(needle) && !FoldClassification.NeedsSideSet(name, mayFold)
    requires MatchesAt(host, name, needle, o) && i < |needle|
    ensures TextCodec.Fold(name)[o + i] == TextCodec.Fold(needle)[i]
  {
    var u, a := name[o + i], needle[i];
    assert host(u, a) && FoldClassification.IsAscii(a);
    assert FoldClassification.MatchesSomeAscii(host, u);
    assert !mayFold(u);
    assert FoldClassification.IsAscii(u);
    TextCodec.FoldsAlike(u, a);
  }

  lemma HasWindow(needle: Name)
    requires |needle| >= 3
    ensures UniqueTrigrams(needle) != []
  {
    assert Windows(needle)[0] in Windows(needle);
    EmptyHasNone(UniqueTrigrams(needle));
  }

  /** Every row the canonical matcher would accept is a candidate. */
  lemma MatchIsCandidate(host: (Unit, Unit) -> bool, mayFold: Unit -> bool, rows: map<nat, Name>,
                         postings: Postings, exceptional: seq<nat>, needle: Name, row: nat)
    requires AsciiCaseInsensitive(host) && FoldClassification.Covers(mayFold, host)
    requires FoldedAscii(needle) && Exact(postings, exceptional, rows, mayFold)
    requires row in rows && HostContains(host, rows[row], needle)
    requires |needle| >= 3
    ensures UniqueTrigrams(needle) != []
    ensures row in CandidateRows(postings, exceptional, UniqueTrigrams(needle))
  {
    HasWindow(needle);
    var name := rows[row];
    if FoldClassification.NeedsSideSet(name, mayFold) {
      assert NeedsFallback(rows, mayFold, row);
    } else {
      var o :| 0 <= o <= |name| && MatchesAt(host, name, needle, o);
      forall t | t in UniqueTrigrams(needle) ensures Posted(postings, t, row) {
        assert t in Windows(needle);
        TrigramKept(host, mayFold, name, needle, o, t);
        assert HasTrigram(rows, t, row);
      }
    }
  }

  lemma TrigramKept(host: (Unit, Unit) -> bool, mayFold: Unit -> bool, name: Name, needle: Name, o: nat, t: nat)
    requires AsciiCaseInsensitive(host) && FoldClassification.Covers(mayFold, host)
    requires FoldedAscii(needle) && !FoldClassification.NeedsSideSet(name, mayFold)
    requires MatchesAt(host, name, needle, o) && t in Windows(needle)
    ensures NameHas(name, t)
  {
    var k :| 0 <= k < |Windows(needle)| && Windows(needle)[k] == t;
    WindowKept(host, mayFold, name, needle, o, k);
  }

  lemma WindowKept(host: (Unit, Unit) -> bool, mayFold: Unit -> bool, name: Name, needle: Name, o: nat, k: nat)
    requires AsciiCaseInsensitive(host) && FoldClassification.Covers(mayFold, host)
    requires FoldedAscii(needle) && !FoldClassification.NeedsSideSet(name, mayFold)
    requires MatchesAt(host, name, needle, o) && k + 3 <= |needle|
    ensures NameHas(name, PackTrigram(needle, k))
  {
    PlainMatch(host, mayFold, name, needle, o, k);
    PlainMatch(host, mayFold, name, needle, o, k + 1);
    PlainMatch(host, mayFold, name, needle, o, k + 2);
    SameWindow(TextCodec.Fold(name), o + k, needle, k);
  }

  lemma SameWindow(a: Name, i: nat, b: Name, j: nat)
    requires i + 3 <= |a| && j + 3 <= |b|
    requires a[i] == b[j] && a[i + 1] == b[j + 1] && a[i + 2] == b[j + 2]
    ensures PackTrigram(b, j) in Windows(a)
  {
    assert Windows(a)[i] == PackTrigram(b, j);
  }

  // ---- precision ----

  /** The name has, from `i` on and but for the case of letters, the three units the needle has from `j` on. */
  predicate SpelledAt(name: Name, i: nat, needle: Name, j: nat) {
    && i + 3 <= |name| && j + 3 <= |needle|
    && FoldsTo(name[i], needle[j]) && FoldsTo(name[i + 1], needle[j + 1]) && FoldsTo(name[i + 2], needle[j + 2])
  }

  /** The small letter or other unit a unit is folded to. */
  predicate FoldsTo(u: Unit, a: Unit) {
    if 0x41 <= u < 0x41 + TextCodec.LETTERS then TextCodec.CasePair(u, a) else u == a
  }

  ghost predicate HasPart(name: Name, needle: Name, j: nat) {
    exists i: nat :: SpelledAt(name, i, needle, j)
  }

  /** What makes a name a candidate: the host might match it through an exceptional unit, or it has every
      part of three units of the needle. */
  ghost predicate Likely(name: Name, needle: Name, mayFold: Unit -> bool) {
    FoldClassification.NeedsSideSet(name, mayFold) || forall j: nat :: j + 3 <= |needle| ==> HasPart(name, needle, j)
  }

  lemma PackIsInjective(a: Name, i: nat, b: Name, j: nat)
    requires i + 3 <= |a| && j + 3 <= |b| && PackTrigram(a, i) == PackTrigram(b, j)
    ensures a[i] == b[j] && a[i + 1] == b[j + 1] && a[i + 2] == b[j + 2]
  {
  }

  lemma FoldsToFolded(u: Unit, a: Unit)
    ensures FoldsTo(u, a) <==> TextCodec.FoldOne(u) == a
  {
  }

  lemma SpelledIff(name: Name, i: nat, needle: Name, j: nat)
    requires i + 3 <= |name| && j + 3 <= |needle|
    ensures var folded := TextCodec.Fold(name);
            SpelledAt(name, i, needle, j) <==>
            folded[i] == needle[j] && folded[i + 1] == needle[j + 1] && folded[i + 2] == needle[j + 2]
  {
    FoldsToFolded(name[i], needle[j]);
    FoldsToFolded(name[i + 1], needle[j + 1]);
    FoldsToFolded(name[i + 2], needle[j + 2]);
  }

  lemma PartIff(name: Name, needle: Name, j: nat)
    requires j + 3 <= |needle|
    ensures NameHas(name, PackTrigram(needle, j)) <==> HasPart(name, needle, j)
  {
    var folded := TextCodec.Fold(name);
    if NameHas(name, PackTrigram(needle, j)) {
      var i :| 0 <= i < |Windows(folded)| && Windows(folded)[i] == PackTrigram(needle, j);
      PackIsInjective(folded, i, needle, j);
      SpelledIff(name, i, needle, j);
      assert SpelledAt(name, i, needle, j);
    }
    if HasPart(name, needle, j) {
      var i: nat :| SpelledAt(name, i, needle, j);
      SpelledIff(name, i, needle, j);
      SameWindow(folded, i, needle, j);
    }
  }

  /** The candidates are exactly the live rows with likely names. */
  lemma CandidateIff(postings: Postings, exceptional: seq<nat>, rows: map<nat, Name>, mayFold: Unit -> bool,
                     needle: Name, row: nat)
    requires Exact(postings, exceptional, rows, mayFold) && |needle| >= 3
    ensures UniqueTrigrams(needle) != []
    ensures row in CandidateRows(postings, exceptional, UniqueTrigrams(needle)) <==>
            row in rows && Likely(rows[row], needle, mayFold)
  {
    HasWindow(needle);
    var trigrams := UniqueTrigrams(needle);
    assert row in exceptional <==> NeedsFallback(rows, mayFold, row);
    if row in Common(postings, trigrams) {
      assert Posted(postings, trigrams[0], row);
      assert HasTrigram(rows, trigrams[0], row);
      forall j: nat | j + 3 <= |needle| ensures HasPart(rows[row], needle, j) {
        assert Windows(needle)[j] in trigrams;
        assert Posted(postings, PackTrigram(needle, j), row);
        assert HasTrigram(rows, PackTrigram(needle, j), row);
        PartIff(rows[row], needle, j);
      }
    }
    if row in rows && forall j: nat :: j + 3 <= |needle| ==> HasPart(rows[row], needle, j) {
      forall t: nat | t in trigrams ensures Posted(postings, t, row) {
        var j :| 0 <= j < |Windows(needle)| && Windows(needle)[j] == t;
        PartIff(rows[row], needle, j);
        assert HasTrigram(rows, t, row);
      }
    }
  }

  // ---- the index ----

  /** `rows` are the live rows and their names. */
  class Index {
    const mayFold: Unit -> bool
    var valid: bool
    var building: bool
    var postings: Postings
    var exceptional: seq<nat>
    ghost var rows: map<nat, Name>
    ghost var held: ExactHolding

    ghost predicate Valid()
      reads this
    {
      !building && (valid ==> held == Holding(postings, exceptional, rows, mayFold))
    }

    constructor (mayFold: Unit -> bool)
      ensures Valid() && valid && rows == map[] && this.mayFold == mayFold
    {
      this.mayFold := mayFold;
      valid, building, postings, exceptional, rows := true, false, map[], [], map[];
      held := Holding(map[], [], map[], mayFold);
    }

    /** Drops the index; `live` are the rows left at this point. */
    method Invalidate(ghost live: map<nat, Name>)
      requires !building
      modifies this
      ensures Valid() && !valid && rows == live
    {
      valid, postings, exceptional, rows := false, map[], [], live;
    }

    /** While the index is off, slots may be renumbered freely. */
    ghost method Relabel(live: map<nat, Name>)
      requires Valid() && !valid
      modifies this
      ensures Valid() && !valid && rows == live
    {
      rows := live;
    }

    /** `outOfMemory` says whether an allocation fails on the way. */
    method Add(row: nat, name: Name, outOfMemory: bool)
      requires Valid() && row !in rows
      modifies this
      ensures Valid() && rows == old(rows)[row := name] && (valid <==> old(valid) && !outOfMemory)
    {
      rows := rows[row := name];
      if !valid {
        return;
      }
      if outOfMemory {
        Invalidate(rows);
        return;
      }
      ghost var before := old(rows);
      if FoldClassification.NeedsSideSet(name, mayFold) {
        exceptional := InsertSorted(exceptional, row);
      }
      assert Sides(exceptional, rows, mayFold) by {
        SidesMore(old(exceptional), exceptional, before, mayFold, row, name);
      }
      var p := PostAll(postings, row, UniqueTrigrams(TextCodec.Fold(name)), false);
      ListsMore(postings, p, before, row, name);
      postings := p;
      held := Holding(postings, exceptional, rows, mayFold);
    }

    method Remove(row: nat, name: Name, outOfMemory: bool)
      requires Valid() && row in rows && rows[row] == name
      modifies this
      ensures Valid() && rows == old(rows) - {row} && (valid <==> old(valid) && !outOfMemory)
    {
      rows := rows - {row};
      if !valid {
        return;
      }
      if outOfMemory {
        Invalidate(rows);
        return;
      }
      ghost var before := old(rows);
      if FoldClassification.NeedsSideSet(name, mayFold) {
        exceptional := EraseSorted(exceptional, row);
      }
      assert Sides(exceptional, rows, mayFold) by {
        SidesFewer(old(exceptional), exceptional, before, mayFold, row);
      }
      var p := WithdrawAll(postings, row, UniqueTrigrams(TextCodec.Fold(name)));
      ListsFewer(postings, p, before, row);
      postings := p;
      held := Holding(postings, exceptional, rows, mayFold);
    }

    /** `order` is the order in which the live rows are visited. */
    method Rebuild(order: seq<nat>, names: map<nat, Name>, outOfMemory: bool)
      requires Enumerates(order, names)
      modifies this
      ensures Valid() && rows == names && (valid <==> !outOfMemory)
    {
      postings, exceptional, valid, building, rows := map[], [], true, true, names;
      if outOfMemory {
        postings, exceptional, valid := map[], [], false;
      } else {
        var p, e := PostEveryRow(order, names, mayFold);
        SortingKeeps(p, names);
        postings, exceptional := SortAll(p), SortedUnique(e);
        forall row: nat ensures row in exceptional <==> NeedsFallback(rows, mayFold, row) {
          assert row in e <==> NeedsFallback(rows, mayFold, row);
        }
        held := Holding(postings, exceptional, rows, mayFold);
      }
      building := false;
    }

    /** The candidates of a folded ASCII needle, or none where the canonical scan has to be used. */
    method Candidates(needle: Name, cap: nat, outOfMemory: bool) returns (r: Option<seq<nat>>)
      requires Valid()
      ensures valid ==> Exact(postings, exceptional, rows, mayFold)
      ensures r.Some? <==> (
                && valid && |needle| >= 3 && TextCodec.AllAscii(needle) && !outOfMemory
                && UniqueTrigrams(needle) != []
                && Narrow(postings, UniqueTrigrams(needle), cap)
                && (cap == 0 || |CandidateRows(postings, exceptional, UniqueTrigrams(needle))| <= cap))
      ensures r.Some? ==> r.value == CandidateRows(postings, exceptional, UniqueTrigrams(needle))
      ensures r.Some? ==> Sorted(r.value) && forall row: nat :: row in r.value <==> row in rows && Likely(rows[row], needle, mayFold)
    {
      if !valid || |needle| < 3 || !TextCodec.AllAscii(needle) || outOfMemory {
        return None;
      }
      var trigrams := UniqueTrigrams(needle);
      HasWindow(needle);
      var common := CommonRows(postings, trigrams, cap);
      if common.None? {
        return None;
      }
      var merged := if exceptional == [] then common.value else Union(common.value, exceptional);
      if cap != 0 && |merged| > cap {
        return None;
      }
      forall row: nat ensures row in merged <==> row in rows && Likely(rows[row], needle, mayFold) {
        CandidateIff(postings, exceptional, rows, mayFold, needle, row);
      }
      return Some(merged);
    }
  }

  lemma SidesMore(e: seq<nat>, f: seq<nat>, rows: map<nat, Name>, mayFold: Unit -> bool, row: nat, name: Name)
    requires Sides(e, rows, mayFold) && row !in rows
    requires if FoldClassification.NeedsSideSet(name, mayFold)
             then forall x: nat :: x in f <==> x in e || x == row
             else f == e
    ensures Sides(f, rows[row := name], mayFold)
  {
    forall x: nat ensures x in f <==> NeedsFallback(rows[row := name], mayFold, x) {
      assert x in e <==> NeedsFallback(rows, mayFold, x);
    }
  }

  lemma SidesFewer(e: seq<nat>, f: seq<nat>, rows: map<nat, Name>, mayFold: Unit -> bool, row: nat)
    requires Sides(e, rows, mayFold) && row in rows
    requires if FoldClassification.NeedsSideSet(rows[row], mayFold)
             then forall x: nat :: x in f <==> x in e && x != row
             else f == e
    ensures Sides(f, rows - {row}, mayFold)
  {
    forall x: nat ensures x in f <==> NeedsFallback(rows - {row}, mayFold, x) {
      assert x in e <==> NeedsFallback(rows, mayFold, x);
    }
  }
}
