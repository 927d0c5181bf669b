/**
  An indexed search over all locations.  It takes the lock only for short sections and works outside
  it; between two of its sections writers may do anything they announce.  A run gives the shared
  state at each section, so a theorem about all runs is a theorem about all interleavings.
 */
module ReadPlane {
  import opened DurableStore
  import opened HotAgreement
  import opened Records
  import opened Visibility
  import opened Words

  const MAX_GENERATION_RESTARTS := 3
  const MAX_FALLBACK_RETRIES := 2
  const HOT_CHUNK := 256

  type Matcher = (EntryKey, Row) -> bool

  // ---- the runs ----

  ghost predicate OneSlotEach(slots: map<EntryKey, nat>) {
    forall a, b :: a in slots && b in slots && slots[a] == slots[b] ==> a == b
  }

  /** Every row in memory has a slot of its own. */
  ghost predicate Placed(s: Shared) {
    s.hot.slots.Keys == s.hot.rows.Keys && OneSlotEach(s.hot.slots)
  }

  /** What every state of the pipeline satisfies. */
  ghost predicate Good(s: Shared) {
    Bounded(s.epochs) && Placed(s) && Agree(s.hot.rows, s.durable, s.cold)
  }

  ghost predicate IsRun(run: nat -> Shared) {
    forall n: nat :: Proceeds(run, n)
  }

  ghost predicate Proceeds(run: nat -> Shared, n: nat) {
    Good(run(n)) && Evolves(run(n), run(n + 1))
  }

  lemma {:induction false} RunEvolves(run: nat -> Shared, i: nat, j: nat)
    requires IsRun(run) && i <= j
    ensures Evolves(run(i), run(j)) && Good(run(i)) && Good(run(j))
    decreases j - i
  {
    assert Proceeds(run, j);
    if i == j {
      EvolvesReflexive(run(i));
    } else {
      RunEvolves(run, i, j - 1);
      assert Proceeds(run, j - 1);
      EvolvesTransitive(run(i), run(j - 1), run(j));
    }
  }

  /** The search's test that what it captured is still current. */
  predicate Current(captured: Shared, s: Shared) {
    SameEpochs(captured.epochs, s.epochs, Searchable(captured))
  }

  /** The weaker test of the fallback, which reads only its own snapshot. */
  predicate SameConfiguration(captured: Shared, s: Shared) {
    SameSettings(captured.epochs, s.epochs, Searchable(captured))
  }

  // ---- what a search should find ----

  /** A row with a name; the root of a volume is shown by its letter and needs none. */
  predicate Listable(k: EntryKey, row: Row) {
    row.name != [] || row.parent == k.id
  }

  predicate Wanted(matches: Matcher, k: EntryKey, row: Row) {
    Listable(k, row) && matches(k, row)
  }

  /** What the query asks for: every durable row of a known volume that is not hidden, cold or not, that
      matches and has a name or is a root. */
  ghost predicate Asked(s: Shared, matches: Matcher, k: EntryKey) {
    && k in s.durable && k.volume in s.volumes && k.volume !in s.hidden
    && (s.durable[k].name != [] || s.durable[k].parent == k.id) && matches(k, s.durable[k])
  }

  ghost function Answer(s: Shared, matches: Matcher): Rows {
    map k | k in s.durable && Asked(s, matches, k) :: s.durable[k]
  }

  /** The additions list exactly these rows, each once. */
  ghost predicate Lists(added: seq<(EntryKey, Row)>, rows: Rows) {
    && (forall i, j :: 0 <= i < j < |added| ==> added[i].0 != added[j].0)
    && (forall n :: 0 <= n < |added| ==> added[n].0 in rows && rows[added[n].0] == added[n].1)
    && (forall k :: k in rows ==> exists n :: 0 <= n < |added| && added[n].0 == k)
  }

  /** This row is among the additions. */
  ghost predicate IsAdded(added: seq<(EntryKey, Row)>, k: EntryKey) {
    exists n :: 0 <= n < |added| && added[n].0 == k
  }

  lemma ListsAnswer(added: seq<(EntryKey, Row)>, s: Shared, matches: Matcher)
    requires Lists(added, Answer(s, matches))
    ensures forall k :: IsAdded(added, k) <==> Asked(s, matches, k)
    ensures forall k: EntryKey :: k.volume in s.cold && Asked(s, matches, k) ==> (k, s.durable[k]) in added
  {
    forall k ensures IsAdded(added, k) <==> Asked(s, matches, k)
      ensures Asked(s, matches, k) ==> (k, s.durable[k]) in added
    {
      if IsAdded(added, k) {
        var n :| 0 <= n < |added| && added[n].0 == k;
        assert added[n] == (k, s.durable[k]);
      }
      assert k in Answer(s, matches) <==> Asked(s, matches, k);
    }
  }

  lemma ListsMore(added: seq<(EntryKey, Row)>, rows: Rows, k: EntryKey, row: Row)
    requires Lists(added, rows) && k !in rows
    ensures Lists(added + [(k, row)], rows[k := row])
  {
    var more, grown := added + [(k, row)], rows[k := row];
    forall x | x in grown ensures exists n :: 0 <= n < |more| && more[n].0 == x {
      if x == k {
        assert more[|added|].0 == x;
      } else {
        var n :| 0 <= n < |added| && added[n].0 == x;
        assert more[n].0 == x;
      }
    }
  }

  // ---- the hot part ----

  predicate InMemory(s: Shared, k: EntryKey) {
    k in s.hot.slots && k in s.hot.rows
  }

  /** The slots a search visits: all matches are among them, none comes twice. */
  ghost predicate Covers(plan: seq<nat>, s: Shared, matches: Matcher) {
    && (forall i, j :: 0 <= i < j < |plan| ==> plan[i] != plan[j])
    && (forall k :: InMemory(s, k) && Hot(s, k) && matches(k, s.hot.rows[k]) ==> s.hot.slots[k] in plan)
  }

  ghost function HotPart(s: Shared, matches: Matcher, slots: seq<nat>): Rows {
    map k | k in s.hot.rows && k in s.hot.slots && Hot(s, k) && s.hot.slots[k] in slots && Wanted(matches, k, s.hot.rows[k])
      :: s.hot.rows[k]
  }

  /** The row in a slot, if any. */
  function RowAt(s: Shared, slot: nat): (r: Option<(EntryKey, Row)>)
    requires Placed(s)
    ensures r.Some? ==> InMemory(s, r.value.0) && s.hot.slots[r.value.0] == slot && s.hot.rows[r.value.0] == r.value.1
    ensures r.None? ==> forall k :: k in s.hot.slots ==> s.hot.slots[k] != slot
  {
    if exists k :: k in s.hot.slots && s.hot.slots[k] == slot then
      var k :| k in s.hot.slots && s.hot.slots[k] == slot;
      assert k in s.hot.slots.Keys;
      Some((k, s.hot.rows[k]))
    else None
  }

  /** What one visit adds: a matching row of a volume that was captured as hot. */
  function Visit(captured: Shared, s: Shared, matches: Matcher, slot: nat): Option<(EntryKey, Row)>
    requires Placed(s)
  {
    var r := RowAt(s, slot);
    if r.Some? && Hot(captured, r.value.0) && Wanted(matches, r.value.0, r.value.1) then r else None
  }

  /** What visiting these slots in one locked section adds. */
  function Gather(captured: Shared, s: Shared, matches: Matcher, slots: seq<nat>): seq<(EntryKey, Row)>
    requires Placed(s)
  {
    if slots == [] then []
    else
      var most, v := Gather(captured, s, matches, slots[..|slots| - 1]), Visit(captured, s, matches, slots[|slots| - 1]);
      if v.Some? then most + [v.value] else most
  }

  /** While the capture is current, a visit reads what it would have read at the capture. */
  lemma VisitIsAsCaptured(captured: Shared, s: Shared, matches: Matcher, slot: nat)
    requires Good(captured) && Good(s) && Alike(captured, s)
    ensures Visit(captured, s, matches, slot) == Visit(captured, captured, matches, slot)
  {
    var a, b := RowAt(captured, slot), RowAt(s, slot);
    if a.Some? && Hot(captured, a.value.0) {
      assert SameHot(captured, s, a.value.0);
    }
    if b.Some? && Hot(captured, b.value.0) {
      assert SameHot(captured, s, b.value.0);
    }
  }

  lemma {:induction false} GatherIsAsCaptured(captured: Shared, s: Shared, matches: Matcher, slots: seq<nat>)
    requires Good(captured) && Good(s) && Alike(captured, s)
    ensures Gather(captured, s, matches, slots) == Gather(captured, captured, matches, slots)
    decreases |slots|
  {
    if slots != [] {
      GatherIsAsCaptured(captured, s, matches, slots[..|slots| - 1]);
      VisitIsAsCaptured(captured, s, matches, slots[|slots| - 1]);
    }
  }

  lemma HotPartGrows(s: Shared, matches: Matcher, plan: seq<nat>, p: nat)
    requires Good(s) && Covers(plan, s, matches) && p < |plan|
    ensures var v := Visit(s, s, matches, plan[p]);
            && HotPart(s, matches, plan[..p + 1])
               == (if v.Some? then HotPart(s, matches, plan[..p])[v.value.0 := v.value.1] else HotPart(s, matches, plan[..p]))
            && (v.Some? ==> v.value.0 !in HotPart(s, matches, plan[..p]))
  {
    assert plan[..p + 1] == plan[..p] + [plan[p]];
    var v := Visit(s, s, matches, plan[p]);
    if v.Some? {
      assert plan[p] !in plan[..p];
    }
  }

  lemma GatherOneMore(s: Shared, matches: Matcher, plan: seq<nat>, q: nat, most: seq<(EntryKey, Row)>)
    requires Good(s) && Covers(plan, s, matches) && q < |plan| && Lists(most, HotPart(s, matches, plan[..q]))
    ensures var v := Visit(s, s, matches, plan[q]);
            Lists(if v.Some? then most + [v.value] else most, HotPart(s, matches, plan[..q + 1]))
  {
    HotPartGrows(s, matches, plan, q);
    var v := Visit(s, s, matches, plan[q]);
    if v.Some? {
      ListsMore(most, HotPart(s, matches, plan[..q]), v.value.0, v.value.1);
      assert (v.value.0, v.value.1) == v.value;
    }
  }

  lemma GatherStep(captured: Shared, s: Shared, matches: Matcher, plan: seq<nat>, p: nat, q: nat,
                   added: seq<(EntryKey, Row)>)
    requires Placed(s) && p <= q < |plan|
    ensures var v, most := Visit(captured, s, matches, plan[q]), added + Gather(captured, s, matches, plan[p..q]);
            added + Gather(captured, s, matches, plan[p..q + 1]) == (if v.Some? then most + [v.value] else most)
  {
    assert plan[p..q + 1][..q - p] == plan[p..q];
  }

  /** Undisturbed, the slots from `p` to `q` add exactly the matches in them. */
  lemma {:induction false} GatherLists(s: Shared, matches: Matcher, plan: seq<nat>, p: nat, q: nat,
                                       added: seq<(EntryKey, Row)>)
    requires Good(s) && Covers(plan, s, matches) && p <= q <= |plan| && Lists(added, HotPart(s, matches, plan[..p]))
    ensures Lists(added + Gather(s, s, matches, plan[p..q]), HotPart(s, matches, plan[..q]))
    decreases q - p
  {
    if p == q {
      assert plan[p..q] == [] && added + [] == added;
    } else {
      GatherLists(s, matches, plan, p, q - 1, added);
      GatherListsOne(s, matches, plan, p, q - 1, added);
      assert q - 1 + 1 == q;
    }
  }

  lemma GatherListsOne(s: Shared, matches: Matcher, plan: seq<nat>, p: nat, q: nat, added: seq<(EntryKey, Row)>)
    requires Good(s) && Covers(plan, s, matches) && p <= q < |plan|
    requires Lists(added + Gather(s, s, matches, plan[p..q]), HotPart(s, matches, plan[..q]))
    ensures Lists(added + Gather(s, s, matches, plan[p..q + 1]), HotPart(s, matches, plan[..q + 1]))
  {
    GatherOneMore(s, matches, plan, q, added + Gather(s, s, matches, plan[p..q]));
    GatherStep(s, s, matches, plan, p, q, added);
  }

  /** Either stale at some section, or all chunks read by section `now`. */
  datatype HotRead = Stale(now: nat) | Read(added: seq<(EntryKey, Row)>, now: nat)

  ghost predicate AllPlaced(run: nat -> Shared) {
    forall n: nat :: Placed(run(n))
  }

  /** A section keeps this row to look at outside the lock, whether it matches or not. */
  predicate Captures(captured: Shared, s: Shared, slot: nat)
    requires Placed(s)
  {
    var r := RowAt(s, slot);
    r.Some? && Hot(captured, r.value.0) && Listable(r.value.0, r.value.1)
  }

  /** Where a section that stands at `q` with `rows` rows ends: when it is full or the plan is. */
  function Fill(captured: Shared, s: Shared, plan: seq<nat>, q: nat, rows: nat): (end: nat)
    requires Placed(s) && q <= |plan| && rows <= HOT_CHUNK
    ensures q <= end <= |plan| && (q < |plan| && rows < HOT_CHUNK ==> q < end)
    decreases |plan| - q
  {
    if q == |plan| || rows == HOT_CHUNK then q
    else Fill(captured, s, plan, q + 1, if Captures(captured, s, plan[q]) then rows + 1 else rows)
  }

  /** A chunk is as many slots as it takes to capture 256 rows. */
  function ChunkEnd(captured: Shared, s: Shared, plan: seq<nat>, p: nat): (end: nat)
    requires Placed(s) && p < |plan|
    ensures p < end <= |plan|
  {
    Fill(captured, s, plan, p, 0)
  }

  /** The slot holds a row that the search shows if it matches: of a volume that was visible and in memory,
      with a name or a root. */
  ghost predicate Shows(captured: Shared, s: Shared, slot: nat) {
    exists k :: InMemory(s, k) && s.hot.slots[k] == slot && ShowsRow(captured, k, s.hot.rows[k])
  }

  predicate ShowsRow(captured: Shared, k: EntryKey, row: Row) {
    && k.volume in captured.volumes && k.volume !in captured.hidden && k.volume !in captured.cold
    && (row.name != [] || row.parent == k.id)
  }

  /** The places of the plan from `p` to `q` whose slots hold such rows. */
  ghost function Shown(captured: Shared, s: Shared, plan: seq<nat>, p: nat, q: nat): set<nat>
    requires q <= |plan|
  {
    set i: nat | p <= i < q && Shows(captured, s, plan[i])
  }

  lemma CapturesShown(captured: Shared, s: Shared, slot: nat)
    requires Placed(s)
    ensures Captures(captured, s, slot) <==> Shows(captured, s, slot)
  {
    var r := RowAt(s, slot);
    if k :| InMemory(s, k) && s.hot.slots[k] == slot && ShowsRow(captured, k, s.hot.rows[k]) {
      assert r.Some? && r.value.0 == k;
    }
  }

  lemma ShownMore(captured: Shared, s: Shared, plan: seq<nat>, p: nat, q: nat)
    requires Placed(s) && p <= q < |plan|
    ensures |Shown(captured, s, plan, p, q + 1)|
         == |Shown(captured, s, plan, p, q)| + if Captures(captured, s, plan[q]) then 1 else 0
  {
    CapturesShown(captured, s, plan[q]);
    var more, most := Shown(captured, s, plan, p, q + 1), Shown(captured, s, plan, p, q);
    assert more == if Shows(captured, s, plan[q]) then most + {q} else most;
  }

  lemma {:induction false} FillShown(captured: Shared, s: Shared, plan: seq<nat>, p: nat, q: nat, rows: nat)
    requires Placed(s) && p <= q <= |plan| && rows == |Shown(captured, s, plan, p, q)| <= 256
    ensures var end := Fill(captured, s, plan, q, rows);
            |Shown(captured, s, plan, p, end)| <= 256 && (end < |plan| ==> |Shown(captured, s, plan, p, end)| == 256)
    decreases |plan| - q
  {
    if q < |plan| && rows < HOT_CHUNK {
      ShownMore(captured, s, plan, p, q);
      FillShown(captured, s, plan, p, q + 1, if Captures(captured, s, plan[q]) then rows + 1 else rows);
    }
  }

  /** A section ends when it has 256 rows to show, however many slots that takes, or at the end of the plan. */
  lemma ChunkIsFull(captured: Shared, s: Shared, plan: seq<nat>, p: nat)
    requires Placed(s) && p < |plan|
    ensures var end := ChunkEnd(captured, s, plan, p);
            && |Shown(captured, s, plan, p, end)| <= 256
            && (end < |plan| ==> |Shown(captured, s, plan, p, end)| == 256)
  {
    assert Shown(captured, s, plan, p, p) == {};
    FillShown(captured, s, plan, p, p, 0);
  }

  /** The chunks from `p` on, one locked section each; stale as soon as a section finds the capture no
      longer current or the storage under its cursor replaced. */
  function Sections(run: nat -> Shared, disturbed: nat -> bool, at: nat, matches: Matcher, plan: seq<nat>, p: nat,
                    now: nat)
    : HotRead
    requires AllPlaced(run)
    decreases |plan| - p
  {
    if p >= |plan| then Read([], now)
    else if !Current(run(at), run(now + 1)) || disturbed(now + 1) then Stale(now + 1)
    else
      var q := ChunkEnd(run(at), run(now + 1), plan, p);
      var rest := Sections(run, disturbed, at, matches, plan, q, now + 1);
      if rest.Stale? then rest else Read(Gather(run(at), run(now + 1), matches, plan[p..q]) + rest.added, rest.now)
  }

  function Before(added: seq<(EntryKey, Row)>, r: HotRead): HotRead {
    if r.Stale? then r else Read(added + r.added, r.now)
  }

  /** Reads one chunk of slots in one locked section. */
  method ReadChunk(captured: Shared, s: Shared, matches: Matcher, plan: seq<nat>, p: nat, added: seq<(EntryKey, Row)>)
    returns (more: seq<(EntryKey, Row)>, q: nat)
    requires Placed(s) && p < |plan|
    ensures q == ChunkEnd(captured, s, plan, p) && more == added + Gather(captured, s, matches, plan[p..q])
  {
    var rows := 0;
    more, q := added, p;
    while q < |plan| && rows < HOT_CHUNK
      invariant p <= q <= |plan| && rows <= HOT_CHUNK && Fill(captured, s, plan, q, rows) == ChunkEnd(captured, s, plan, p)
      invariant more == added + Gather(captured, s, matches, plan[p..q])
    {
      GatherStep(captured, s, matches, plan, p, q, added);
      var v := Visit(captured, s, matches, plan[q]);
      if v.Some? {
        more := more + [v.value];
      }
      if Captures(captured, s, plan[q]) {
        rows := rows + 1;
      }
      q := q + 1;
    }
  }

  lemma NothingBefore(r: HotRead)
    ensures Before([], r) == r
  {
    assert r.Read? ==> [] + r.added == r.added;
  }

  lemma SectionRead(run: nat -> Shared, disturbed: nat -> bool, at: nat, matches: Matcher, plan: seq<nat>, p: nat,
                    now: nat, added: seq<(EntryKey, Row)>)
    requires AllPlaced(run) && p < |plan| && Current(run(at), run(now + 1)) && !disturbed(now + 1)
    ensures var q := ChunkEnd(run(at), run(now + 1), plan, p);
            Before(added, Sections(run, disturbed, at, matches, plan, p, now)) == (
              Before(added + Gather(run(at), run(now + 1), matches, plan[p..q]),
                     Sections(run, disturbed, at, matches, plan, q, now + 1)))
  {
    var q := ChunkEnd(run(at), run(now + 1), plan, p);
    var rest := Sections(run, disturbed, at, matches, plan, q, now + 1);
    if rest.Read? {
      var chunk := Gather(run(at), run(now + 1), matches, plan[p..q]);
      assert added + (chunk + rest.added) == (added + chunk) + rest.added;
    }
  }

  /** All chunks, or stale as soon as one section finds the capture no longer current. */
  method HotPass(run: nat -> Shared, disturbed: nat -> bool, at: nat, matches: Matcher, plan: seq<nat>)
    returns (result: HotRead)
    requires AllPlaced(run)
    ensures result == Sections(run, disturbed, at, matches, plan, 0, at)
  {
    var added, p, now := [], 0, at;
    NothingBefore(Sections(run, disturbed, at, matches, plan, 0, at));
    while p < |plan|
      invariant p <= |plan|
      invariant Sections(run, disturbed, at, matches, plan, 0, at)
             == Before(added, Sections(run, disturbed, at, matches, plan, p, now))
      decreases |plan| - p
    {
      now := now + 1;
      if !Current(run(at), run(now)) || disturbed(now) {
        return Stale(now);
      }
      SectionRead(run, disturbed, at, matches, plan, p, now - 1, added);
      added, p := ReadChunk(run(at), run(now), matches, plan, p, added);
    }
    assert added + [] == added;
    return Read(added, now);
  }

  lemma OneSection(run: nat -> Shared, at: nat, matches: Matcher, plan: seq<nat>, p: nat, now: nat,
                   added: seq<(EntryKey, Row)>)
    requires IsRun(run) && Covers(plan, run(at), matches) && p < |plan| && at <= now && Current(run(at), run(now))
    requires Lists(added, HotPart(run(at), matches, plan[..p]))
    ensures Placed(run(now))
    ensures var q := ChunkEnd(run(at), run(now), plan, p);
            Lists(added + Gather(run(at), run(now), matches, plan[p..q]), HotPart(run(at), matches, plan[..q]))
  {
    RunEvolves(run, at, now);
    var q := ChunkEnd(run(at), run(now), plan, p);
    GatherIsAsCaptured(run(at), run(now), matches, plan[p..q]);
    GatherLists(run(at), matches, plan, p, q, added);
  }

  lemma RunIsPlaced(run: nat -> Shared)
    requires IsRun(run)
    ensures AllPlaced(run)
  {
    forall n: nat ensures Placed(run(n)) {
      assert Proceeds(run, n);
    }
  }

  lemma {:induction false} SectionsGoOn(run: nat -> Shared, disturbed: nat -> bool, at: nat, matches: Matcher,
                                        plan: seq<nat>, p: nat, now: nat)
    requires AllPlaced(run)
    ensures var r := Sections(run, disturbed, at, matches, plan, p, now);
            now <= r.now && (r.Stale? ==> !Current(run(at), run(r.now)) || disturbed(r.now))
    decreases |plan| - p
  {
    if p < |plan| && Current(run(at), run(now + 1)) && !disturbed(now + 1) {
      SectionsGoOn(run, disturbed, at, matches, plan, ChunkEnd(run(at), run(now + 1), plan, p), now + 1);
    }
  }

  /** The matches of the first `p` planned slots have been added. */
  ghost predicate AddedUpTo(s: Shared, matches: Matcher, plan: seq<nat>, p: nat, added: seq<(EntryKey, Row)>)
    requires Placed(s) && p <= |plan|
  {
    Lists(added, HotPart(s, matches, plan[..p]))
  }

  lemma SectionsJoin(run: nat -> Shared, disturbed: nat -> bool, at: nat, matches: Matcher, plan: seq<nat>, p: nat,
                     now: nat,
                     added: seq<(EntryKey, Row)>) returns (chunk: seq<(EntryKey, Row)>)
    requires AllPlaced(run) && p < |plan| && Sections(run, disturbed, at, matches, plan, p, now).Read?
    ensures Current(run(at), run(now + 1)) && Placed(run(now + 1))
    ensures chunk == Gather(run(at), run(now + 1), matches, plan[p..ChunkEnd(run(at), run(now + 1), plan, p)])
    ensures var rest := Sections(run, disturbed, at, matches, plan, ChunkEnd(run(at), run(now + 1), plan, p), now + 1);
            rest.Read? && added + Sections(run, disturbed, at, matches, plan, p, now).added == (added + chunk) + rest.added
  {
    chunk := Gather(run(at), run(now + 1), matches, plan[p..ChunkEnd(run(at), run(now + 1), plan, p)]);
  }

  lemma NextSection(run: nat -> Shared, disturbed: nat -> bool, at: nat, matches: Matcher, plan: seq<nat>, p: nat,
                    now: nat,
                    added: seq<(EntryKey, Row)>) returns (more: seq<(EntryKey, Row)>)
    requires IsRun(run) && AllPlaced(run) && Covers(plan, run(at), matches) && p < |plan| && at <= now
    requires AddedUpTo(run(at), matches, plan, p, added)
    requires Sections(run, disturbed, at, matches, plan, p, now).Read?
    ensures AddedUpTo(run(at), matches, plan, ChunkEnd(run(at), run(now + 1), plan, p), more)
    ensures var rest := Sections(run, disturbed, at, matches, plan, ChunkEnd(run(at), run(now + 1), plan, p), now + 1);
            rest.Read? && added + Sections(run, disturbed, at, matches, plan, p, now).added == more + rest.added
  {
    var chunk := SectionsJoin(run, disturbed, at, matches, plan, p, now, added);
    OneSection(run, at, matches, plan, p, now + 1, added);
    more := added + chunk;
  }

  lemma {:induction false} SectionsAreCaptured(run: nat -> Shared, disturbed: nat -> bool, at: nat, matches: Matcher,
                                               plan: seq<nat>, p: nat, now: nat, added: seq<(EntryKey, Row)>)
    requires IsRun(run) && AllPlaced(run) && Covers(plan, run(at), matches) && p <= |plan| && at <= now
    requires AddedUpTo(run(at), matches, plan, p, added)
    requires Sections(run, disturbed, at, matches, plan, p, now).Read?
    ensures AddedUpTo(run(at), matches, plan, |plan|, added + Sections(run, disturbed, at, matches, plan, p, now).added)
    decreases |plan| - p
  {
    if p == |plan| {
      assert added + [] == added;
    } else {
      var more := NextSection(run, disturbed, at, matches, plan, p, now, added);
      SectionsAreCaptured(run, disturbed, at, matches, plan, ChunkEnd(run(at), run(now + 1), plan, p), now + 1, more);
    }
  }

  /** Over every run of announced changes: unless found stale, the chunks add exactly the captured
      matches among the planned slots. */
  lemma HotPassIsCaptured(run: nat -> Shared, disturbed: nat -> bool, at: nat, matches: Matcher, plan: seq<nat>)
    requires IsRun(run) && Covers(plan, run(at), matches)
    ensures AllPlaced(run)
    ensures var r := Sections(run, disturbed, at, matches, plan, 0, at);
            && at <= r.now
            && (r.Read? ==> Lists(r.added, HotPart(run(at), matches, plan[..|plan|])))
            && (r.Stale? ==> !Current(run(at), run(r.now)) || disturbed(r.now))
  {
    RunIsPlaced(run);
    SectionsGoOn(run, disturbed, at, matches, plan, 0, at);
    var r := Sections(run, disturbed, at, matches, plan, 0, at);
    if r.Read? {
      assert HotPart(run(at), matches, plan[..0]) == map[];
      SectionsAreCaptured(run, disturbed, at, matches, plan, 0, at, []);
      assert [] + r.added == r.added;
    }
  }

  // ---- the cold part ----

  /** What reading a volume from the snapshot delivers: all matches, none twice. */
  ghost predicate Delivers(rows: seq<EntryKey>, s: Shared, volume: Volume, matches: Matcher) {
    && (forall i, j :: 0 <= i < j < |rows| ==> rows[i] != rows[j])
    && (forall k :: k in rows ==> k in s.durable && k.volume == volume)
    && (forall k :: k in s.durable && k.volume == volume && matches(k, s.durable[k]) ==> k in rows)
  }

  ghost function Picked(s: Shared, matches: Matcher, rows: seq<EntryKey>): Rows {
    map k | k in rows && k in s.durable && Wanted(matches, k, s.durable[k]) :: s.durable[k]
  }

  method ReadVolumeRows(s: Shared, matches: Matcher, volume: Volume, rows: seq<EntryKey>,
                        added: seq<(EntryKey, Row)>, ghost found: Rows)
    returns (more: seq<(EntryKey, Row)>)
    requires Delivers(rows, s, volume, matches) && Lists(added, found) && forall k :: k in found ==> k.volume != volume
    ensures Lists(more, found + Picked(s, matches, rows))
  {
    more := added;
    assert found + Picked(s, matches, rows[..0]) == found;
    for j := 0 to |rows|
      invariant Lists(more, found + Picked(s, matches, rows[..j]))
    {
      var k := rows[j];
      PickedGrows(s, matches, rows, j, found);
      if Wanted(matches, k, s.durable[k]) {
        ListsMore(more, found + Picked(s, matches, rows[..j]), k, s.durable[k]);
        more := more + [(k, s.durable[k])];
      }
    }
    assert rows[..|rows|] == rows;
  }

  lemma PickedOneMore(s: Shared, matches: Matcher, rows: seq<EntryKey>, j: nat)
    requires j < |rows| && forall i, l :: 0 <= i < l < |rows| ==> rows[i] != rows[l]
    requires rows[j] in s.durable
    ensures rows[j] !in Picked(s, matches, rows[..j])
    ensures Picked(s, matches, rows[..j + 1])
         == if Wanted(matches, rows[j], s.durable[rows[j]]) then Picked(s, matches, rows[..j])[rows[j] := s.durable[rows[j]]]
            else Picked(s, matches, rows[..j])
  {
    assert rows[..j + 1] == rows[..j] + [rows[j]];
  }

  lemma PickedGrows(s: Shared, matches: Matcher, rows: seq<EntryKey>, j: nat, found: Rows)
    requires j < |rows| && forall i, l :: 0 <= i < l < |rows| ==> rows[i] != rows[l]
    requires rows[j] in s.durable && forall k :: k in found ==> k != rows[j]
    ensures found + Picked(s, matches, rows[..j + 1])
         == if Wanted(matches, rows[j], s.durable[rows[j]]) then (found + Picked(s, matches, rows[..j]))[rows[j] := s.durable[rows[j]]]
            else found + Picked(s, matches, rows[..j])
    ensures rows[j] !in found + Picked(s, matches, rows[..j])
  {
    PickedOneMore(s, matches, rows, j);
  }

  ghost function ColdPart(s: Shared, matches: Matcher, volumes: seq<Volume>): Rows {
    map k | k in s.durable && k.volume in volumes && Wanted(matches, k, s.durable[k]) :: s.durable[k]
  }

  lemma ColdPartGrows(s: Shared, matches: Matcher, volumes: seq<Volume>, n: nat, rows: seq<EntryKey>, found: Rows)
    requires n < |volumes| && Delivers(rows, s, volumes[n], matches)
    ensures found + ColdPart(s, matches, volumes[..n + 1]) == found + ColdPart(s, matches, volumes[..n]) + Picked(s, matches, rows)
  {
    assert volumes[..n + 1] == volumes[..n] + [volumes[n]];
  }

  lemma NoneCold(s: Shared, matches: Matcher, volumes: seq<Volume>, found: Rows)
    ensures found + ColdPart(s, matches, volumes[..0]) == found && volumes[..|volumes|] == volumes
  {
  }

  method ReadNextVolume(s: Shared, matches: Matcher, volumes: seq<Volume>, n: nat, rows: seq<EntryKey>,
                        added: seq<(EntryKey, Row)>, ghost found: Rows)
    returns (more: seq<(EntryKey, Row)>)
    requires n < |volumes| && Delivers(rows, s, volumes[n], matches)
    requires forall i, j :: 0 <= i < j < |volumes| ==> volumes[i] != volumes[j]
    requires Lists(added, found + ColdPart(s, matches, volumes[..n])) && forall k :: k in found ==> k.volume !in volumes
    ensures Lists(more, found + ColdPart(s, matches, volumes[..n + 1]))
  {
    assert volumes[n] in volumes && volumes[n] !in volumes[..n];
    ColdPartGrows(s, matches, volumes, n, rows, found);
    more := ReadVolumeRows(s, matches, volumes[n], rows, added, found + ColdPart(s, matches, volumes[..n]));
  }

  /** The volumes are read one after the other from the snapshot taken at the capture. */
  method ColdPass(s: Shared, matches: Matcher, volumes: seq<Volume>, scan: (Shared, Volume) -> seq<EntryKey>,
                  fails: Volume -> bool, added: seq<(EntryKey, Row)>, ghost found: Rows)
    returns (ok: bool, more: seq<(EntryKey, Row)>)
    requires forall v :: Delivers(scan(s, v), s, v, matches)
    requires forall i, j :: 0 <= i < j < |volumes| ==> volumes[i] != volumes[j]
    requires Lists(added, found) && forall k :: k in found ==> k.volume !in volumes
    ensures ok ==> Lists(more, found + ColdPart(s, matches, volumes))
    ensures ok <==> forall n :: 0 <= n < |volumes| ==> !fails(volumes[n])
  {
    more := added;
    NoneCold(s, matches, volumes, found);
    for n := 0 to |volumes|
      invariant Lists(more, found + ColdPart(s, matches, volumes[..n]))
      invariant forall j :: 0 <= j < n ==> !fails(volumes[j])
    {
      if fails(volumes[n]) {
        return false, more;
      }
      more := ReadNextVolume(s, matches, volumes, n, scan(s, volumes[n]), more, found);
    }
    ok := true;
  }

  // ---- the search ----

  datatype Outcome = Completed(added: seq<(EntryKey, Row)>) | Unavailable | Cancelled

  /** What the search cannot choose: whether the store can be read at a section, which reads fail,
      when it is cancelled, and at which sections
      the storage under its cursor turns out to have been replaced. */
  datatype Fate = Fate(
    readable: nat -> bool, fails: (nat, Volume) -> bool, cancelled: nat -> bool, disturbed: nat -> bool)

  /** How the search visits hot slots and reads volumes: by cursor, accelerator or candidate index. */
  datatype Access = Access(plan: Shared -> seq<nat>, scan: (Shared, Volume) -> seq<EntryKey>)

  ghost predicate Sufficient(access: Access, run: nat -> Shared, matches: Matcher) {
    && (forall n: nat :: Covers(access.plan(run(n)), run(n), matches))
    && (forall n: nat, v :: Delivers(access.scan(run(n), v), run(n), v, matches))
  }

  /** Hot rows of searchable volumes that are not cold, and durable rows of those that are, make up
      the answer. */
  lemma PartsMakeAnswer(s: Shared, matches: Matcher, plan: seq<nat>, cold: seq<Volume>)
    requires Good(s) && Covers(plan, s, matches) && forall v :: v in cold <==> v in s.cold && v in Searchable(s)
    ensures HotPart(s, matches, plan[..|plan|]) + ColdPart(s, matches, cold) == Answer(s, matches)
    ensures forall k :: k in HotPart(s, matches, plan[..|plan|]) ==> k.volume !in cold
  {
    assert plan[..|plan|] == plan;
    var hot := HotPart(s, matches, plan);
    forall k: EntryKey | Hot(s, k)
      ensures k in hot <==> k in Answer(s, matches)
      ensures k in hot ==> hot[k] == Answer(s, matches)[k]
    {
      assert SameRow(s.hot.rows, s.durable, k);
    }
  }

  /** One attempt on the rows in memory. */
  method HotAttempt(run: nat -> Shared, at: nat, matches: Matcher, access: Access, fate: Fate)
    returns (stale: bool, failed: bool, added: seq<(EntryKey, Row)>, now: nat)
    requires IsRun(run) && Sufficient(access, run, matches)
    ensures at < now
    ensures !stale && !failed ==> Lists(added, Answer(run(at), matches))
    ensures !stale ==> Current(run(at), run(now))
    ensures stale ==> exists n :: at <= n && (!Current(run(at), run(n)) || fate.disturbed(n))
    ensures failed ==> exists v :: fate.fails(at, v)
  {
    var s := run(at);
    assert Proceeds(run, at);
    var plan := access.plan(s);
    HotPassIsCaptured(run, fate.disturbed, at, matches, plan);
    var r := HotPass(run, fate.disturbed, at, matches, plan);
    stale, failed, added := r.Stale?, false, [];
    if r.Read? {
      var cold := Enumerate(s.cold * Searchable(s));
      PartsMakeAnswer(s, matches, plan, cold);
      var ok;
      ok, added := ColdPass(s, matches, cold, access.scan, v => fate.fails(at, v), r.added, HotPart(s, matches, plan[..|plan|]));
      failed := !ok;
    }
    now := r.now + 1;
    stale := stale || !Current(s, run(now));
  }

  /** One attempt on the durable rows alone. */
  method DurableAttempt(run: nat -> Shared, at: nat, matches: Matcher, access: Access, fate: Fate)
    returns (ok: bool, added: seq<(EntryKey, Row)>)
    requires IsRun(run) && Sufficient(access, run, matches)
    ensures ok ==> Lists(added, Answer(run(at), matches))
    ensures !ok ==> exists v :: fate.fails(at, v)
  {
    var s := run(at);
    var volumes := Enumerate(Searchable(s));
    assert Lists([], map[]);
    ok, added := ColdPass(s, matches, volumes, access.scan, v => fate.fails(at, v), [], map[]);
    assert map[] + ColdPart(s, matches, volumes) == Answer(s, matches);
  }

  /** The same volumes are there to be searched. */
  ghost predicate SameVolumes(s: Shared, t: Shared) {
    forall v :: v in s.volumes && v !in s.hidden <==> v in t.volumes && v !in t.hidden
  }

  /** What was found in memory still holds. */
  ghost predicate StillRight(s: Shared, t: Shared) {
    forall k: EntryKey :: k.volume in s.volumes && k.volume !in s.hidden && k.volume !in s.cold ==> SameRow(s.durable, t.durable, k)
  }

  lemma CurrentIsRight(run: nat -> Shared, at: nat, ended: nat)
    requires IsRun(run) && at <= ended && Current(run(at), run(ended))
    ensures SameVolumes(run(at), run(ended)) && StillRight(run(at), run(ended))
  {
    RunEvolves(run, at, ended);
    var s, t := run(at), run(ended);
    assert Alike(s, t) && Good(s) && Good(t);
    forall v ensures v in s.volumes && v !in s.hidden <==> v in t.volumes && v !in t.hidden {
      assert v in Searchable(s) <==> v in Searchable(t);
    }
    forall k: EntryKey | k.volume in s.volumes && k.volume !in s.hidden && k.volume !in s.cold
      ensures SameRow(s.durable, t.durable, k)
    {
      assert Hot(s, k) && SameHot(s, t, k);
      assert SameRow(s.hot.rows, s.durable, k) && SameRow(t.hot.rows, t.durable, k);
    }
  }

  lemma SettingsKeepVolumes(run: nat -> Shared, at: nat, ended: nat)
    requires IsRun(run) && at <= ended && SameConfiguration(run(at), run(ended))
    ensures SameVolumes(run(at), run(ended))
  {
    RunEvolves(run, at, ended);
    var s, t := run(at), run(ended);
    forall v ensures v in s.volumes && v !in s.hidden <==> v in t.volumes && v !in t.hidden {
      assert v in Searchable(s) <==> v in Searchable(t);
    }
  }

  /** The store cannot be read, every volume is hidden, or the read of a volume fails. */
  ghost predicate Blocked(s: Shared, fate: Fate, n: nat) {
    !fate.readable(n) || s.volumes <= s.hidden || exists v :: fate.fails(n, v)
  }

  lemma NothingToRead(s: Shared, fate: Fate, n: nat)
    requires !fate.readable(n) || Searchable(s) == {}
    ensures Blocked(s, fate, n)
  {
    forall v | v in s.volumes && v !in s.hidden ensures !fate.readable(n) {
      assert v in Searchable(s);
    }
  }

  /** Nothing but writers gets in the way: reads succeed, nobody cancels, there is something to
      search, and neither configuration nor residency changes. */
  ghost predicate OnlyWriters(run: nat -> Shared, fate: Fate) {
    && (forall n: nat :: fate.readable(n) && !fate.cancelled(n) && !(run(n).volumes <= run(n).hidden))
    && (forall n: nat, v: Volume :: !fate.fails(n, v))
    && (forall m: nat, n: nat :: SameConfiguration(run(m), run(n)))
  }

  /** No epoch moves and no storage is replaced, not even for rows searches do not read. */
  ghost predicate NoWriters(run: nat -> Shared, fate: Fate) {
    (forall m: nat, n: nat :: Current(run(m), run(n))) && forall n: nat :: !fate.disturbed(n)
  }

  /** A completed search is a consistent cut: what it added is exactly the query over the durable
      rows of one moment `at` during the search, each row once, however writers interleave, and an
      answer found in memory is still current when the search ends.  Writers alone never keep a
      search from completing: it does so within four attempts in memory and three on the store, and
      at once when there are none. */
  method SearchIndexed(run: nat -> Shared, matches: Matcher, access: Access, fate: Fate)
    returns (outcome: Outcome, ghost at: nat, ghost ended: nat, attempts: nat, fallbacks: nat)
    requires IsRun(run) && Sufficient(access, run, matches)
    ensures outcome.Completed? ==> at < ended && Lists(outcome.added, Answer(run(at), matches))
    ensures outcome.Completed? ==> forall k :: IsAdded(outcome.added, k) <==> Asked(run(at), matches, k)
    ensures outcome.Completed? ==>
              forall k: EntryKey :: k.volume in run(at).cold && Asked(run(at), matches, k) ==> (k, run(at).durable[k]) in outcome.added
    ensures outcome.Completed? ==> SameVolumes(run(at), run(ended))
    ensures outcome.Completed? && fallbacks == 0 ==> Current(run(at), run(ended)) && StillRight(run(at), run(ended))
    ensures outcome.Unavailable? ==> (exists n: nat :: Blocked(run(n), fate, n)) || fallbacks == 3
    ensures outcome.Cancelled? ==> exists n :: fate.cancelled(n)
    ensures attempts <= 4 && fallbacks <= 3
    ensures fallbacks > 0 ==> attempts == 4
    ensures OnlyWriters(run, fate) ==> outcome.Completed?
    ensures OnlyWriters(run, fate) && NoWriters(run, fate) ==> attempts == 1 && fallbacks == 0
  {
    var now := 0;
    at, ended, attempts, fallbacks := 0, 0, 0, 0;
    while attempts <= MAX_GENERATION_RESTARTS
      invariant attempts <= MAX_GENERATION_RESTARTS + 1
      invariant NoWriters(run, fate) ==> attempts == 0
    {
      now := now + 1;
      if fate.cancelled(now) {
        return Cancelled, at, now, attempts, fallbacks;
      }
      if !fate.readable(now) || Searchable(run(now)) == {} {
        NothingToRead(run(now), fate, now);
        return Unavailable, at, now, attempts, fallbacks;
      }
      at, attempts := now, attempts + 1;
      var stale, failed, added, later := HotAttempt(run, now, matches, access, fate);
      now := later;
      if fate.cancelled(now) {
        return Cancelled, at, now, attempts, fallbacks;
      }
      if !stale {
        if failed {
          assert Blocked(run(at), fate, at);
          return Unavailable, at, now, attempts, fallbacks;
        }
        ListsAnswer(added, run(at), matches);
        CurrentIsRight(run, at, now);
        return Completed(added), at, now, attempts, fallbacks;
      }
    }
    outcome, at, ended, fallbacks := Fallback(run, now, matches, access, fate);
  }

  /** The snapshot cannot go stale; only the configuration has to be the captured one. */
  method Fallback(run: nat -> Shared, start: nat, matches: Matcher, access: Access, fate: Fate)
    returns (outcome: Outcome, ghost at: nat, ghost ended: nat, fallbacks: nat)
    requires IsRun(run) && Sufficient(access, run, matches)
    ensures outcome.Completed? ==> start < at < ended && Lists(outcome.added, Answer(run(at), matches))
    ensures outcome.Completed? ==> forall k :: IsAdded(outcome.added, k) <==> Asked(run(at), matches, k)
    ensures outcome.Completed? ==>
              forall k: EntryKey :: k.volume in run(at).cold && Asked(run(at), matches, k) ==> (k, run(at).durable[k]) in outcome.added
    ensures outcome.Completed? ==> SameVolumes(run(at), run(ended))
    ensures outcome.Unavailable? ==> (exists n: nat :: Blocked(run(n), fate, n)) || fallbacks == 3
    ensures outcome.Cancelled? ==> exists n :: fate.cancelled(n)
    ensures fallbacks <= 3 && (outcome.Completed? ==> fallbacks > 0)
    ensures OnlyWriters(run, fate) ==> outcome.Completed?
  {
    var now := start;
    at, ended, fallbacks := start, start, 0;
    while fallbacks <= MAX_FALLBACK_RETRIES
      invariant fallbacks <= MAX_FALLBACK_RETRIES + 1 && start <= now
      invariant OnlyWriters(run, fate) ==> fallbacks == 0
    {
      now := now + 1;
      if fate.cancelled(now) {
        return Cancelled, at, now, fallbacks;
      }
      if !fate.readable(now) || Searchable(run(now)) == {} {
        NothingToRead(run(now), fate, now);
        return Unavailable, at, now, fallbacks;
      }
      at, fallbacks := now, fallbacks + 1;
      var captured := run(now);
      var ok, added := DurableAttempt(run, now, matches, access, fate);
      if !ok {
        assert Blocked(run(at), fate, at);
        return Unavailable, at, now, fallbacks;
      }
      now := now + 1;
      if SameConfiguration(captured, run(now)) {
        ListsAnswer(added, captured, matches);
        SettingsKeepVolumes(run, at, now);
        return Completed(added), at, now, fallbacks;
      }
    }
    outcome := Unavailable;
  }

  // ---- a search that is misled ----

  function Everything(k: EntryKey, row: Row): bool { true }

  /** The state changes once, between the first section and the second. */
  function Turned(s: Shared, t: Shared): nat -> Shared {
    n => if n <= 1 then s else t
  }

  /** Every section finds the capture current, the answer is accepted, and it is the query at no moment. */
  ghost predicate IsMisled(run: nat -> Shared, plan: seq<nat>)
    requires AllPlaced(run)
  {
    var r := Sections(run, _ => false, 0, Everything, plan, 0, 0);
    && r.Read? && Current(run(0), run(r.now + 1))
    && forall n: nat :: !Lists(r.added, Answer(run(n), Everything))
  }

  /** A section over captured rows alone ends after 256 slots. */
  lemma {:induction false} FillAll(captured: Shared, s: Shared, plan: seq<nat>, q: nat, rows: nat)
    requires Placed(s) && q <= |plan| && rows <= HOT_CHUNK && forall i :: 0 <= i < |plan| ==> Captures(captured, s, plan[i])
    requires q + (HOT_CHUNK - rows) <= |plan|
    ensures Fill(captured, s, plan, q, rows) == q + (HOT_CHUNK - rows)
    decreases HOT_CHUNK - rows
  {
    if rows < HOT_CHUNK {
      FillAll(captured, s, plan, q + 1, rows + 1);
    }
  }

  lemma {:induction false} GatherHas(captured: Shared, s: Shared, matches: Matcher, slots: seq<nat>, i: nat)
    requires Placed(s) && i < |slots| && Visit(captured, s, matches, slots[i]).Some?
    ensures Visit(captured, s, matches, slots[i]).value in Gather(captured, s, matches, slots)
    decreases |slots|
  {
    if i < |slots| - 1 {
      GatherHas(captured, s, matches, slots[..|slots| - 1], i);
    }
  }

  lemma VisitReads(captured: Shared, s: Shared, k: EntryKey)
    requires Placed(s) && InMemory(s, k) && Hot(captured, k) && Listable(k, s.hot.rows[k])
    ensures Visit(captured, s, Everything, s.hot.slots[k]) == Some((k, s.hot.rows[k]))
    ensures Captures(captured, s, s.hot.slots[k])
  {
    var r := RowAt(s, s.hot.slots[k]);
    assert r.Some? && r.value.0 == k;
  }

  /** One section of the run, from `seen` on. */
  lemma NextRead(s: Shared, t: Shared, plan: seq<nat>, p: nat, now: nat, seen: Shared)
    requires AllPlaced(Turned(s, t)) && Placed(seen) && t.epochs == s.epochs && p < |plan|
    requires seen == if now + 1 <= 1 then s else t
    ensures var q := ChunkEnd(s, seen, plan, p);
            var rest := Sections(Turned(s, t), _ => false, 0, Everything, plan, q, now + 1);
            Sections(Turned(s, t), _ => false, 0, Everything, plan, p, now) == (
              Before(Gather(s, seen, Everything, plan[p..q]), rest))
  {
    var run := Turned(s, t);
    assert run(0) == s && run(now + 1) == seen;
  }

  /** After the change every section reads the later state. */
  lemma {:induction false} RestReads(s: Shared, t: Shared, plan: seq<nat>, p: nat, now: nat, i: nat)
    requires AllPlaced(Turned(s, t)) && Placed(t) && t.epochs == s.epochs && now >= 1 && p <= i < |plan|
    requires Visit(s, t, Everything, plan[i]).Some?
    ensures var r := Sections(Turned(s, t), _ => false, 0, Everything, plan, p, now);
            r.Read? && Visit(s, t, Everything, plan[i]).value in r.added
    decreases |plan| - p
  {
    var q := ChunkEnd(s, t, plan, p);
    NextRead(s, t, plan, p, now, t);
    if i < q {
      assert plan[p..q][i - p] == plan[i];
      GatherHas(s, t, Everything, plan[p..q], i - p);
      AllRead(s, t, plan, q, now + 1);
    } else {
      RestReads(s, t, plan, q, now + 1, i);
    }
  }

  lemma {:induction false} AllRead(s: Shared, t: Shared, plan: seq<nat>, p: nat, now: nat)
    requires AllPlaced(Turned(s, t)) && Placed(t) && t.epochs == s.epochs && now >= 1
    ensures Sections(Turned(s, t), _ => false, 0, Everything, plan, p, now).Read?
    decreases |plan| - p
  {
    if p < |plan| {
      NextRead(s, t, plan, p, now, t);
      AllRead(s, t, plan, ChunkEnd(s, t, plan, p), now + 1);
    }
  }

  /** Every planned row is captured, and there are more than one section takes. */
  ghost predicate TwoSections(s: Shared, plan: seq<nat>)
    requires Placed(s)
  {
    |plan| > HOT_CHUNK && forall i :: 0 <= i < |plan| ==> Captures(s, s, plan[i])
  }

  lemma FirstVisit(s: Shared, plan: seq<nat>, a: EntryKey)
    requires Placed(s) && |plan| > HOT_CHUNK
    requires InMemory(s, a) && s.hot.slots[a] == plan[0] && Hot(s, a) && Listable(a, s.hot.rows[a])
    ensures (a, s.hot.rows[a]) in Gather(s, s, Everything, plan[0..HOT_CHUNK])
  {
    VisitReads(s, s, a);
    assert plan[0..HOT_CHUNK][0] == plan[0];
    GatherHas(s, s, Everything, plan[0..HOT_CHUNK], 0);
  }

  lemma LastVisit(s: Shared, t: Shared, plan: seq<nat>, b: EntryKey)
    requires AllPlaced(Turned(s, t)) && Placed(t) && t.epochs == s.epochs && |plan| > HOT_CHUNK
    requires InMemory(t, b) && t.hot.slots[b] == plan[|plan| - 1] && Hot(s, b) && Listable(b, t.hot.rows[b])
    ensures var r := Sections(Turned(s, t), _ => false, 0, Everything, plan, HOT_CHUNK, 1);
            r.Read? && (b, t.hot.rows[b]) in r.added
  {
    VisitReads(s, t, b);
    RestReads(s, t, plan, HOT_CHUNK, 1, |plan| - 1);
  }

  /** The first row as it was and the last as it is. */
  lemma MixtureIsRead(s: Shared, t: Shared, plan: seq<nat>, a: EntryKey, b: EntryKey)
    requires AllPlaced(Turned(s, t)) && Placed(s) && Placed(t) && t.epochs == s.epochs
    requires |plan| > HOT_CHUNK && ChunkEnd(s, s, plan, 0) == HOT_CHUNK
    requires InMemory(s, a) && s.hot.slots[a] == plan[0] && Hot(s, a) && Listable(a, s.hot.rows[a])
    requires InMemory(t, b) && t.hot.slots[b] == plan[|plan| - 1] && Hot(s, b) && Listable(b, t.hot.rows[b])
    ensures var r := Sections(Turned(s, t), _ => false, 0, Everything, plan, 0, 0);
            r.Read? && (a, s.hot.rows[a]) in r.added && (b, t.hot.rows[b]) in r.added
  {
    NextRead(s, t, plan, 0, 0, s);
    FirstVisit(s, plan, a);
    LastVisit(s, t, plan, b);
  }

  /** If the first and the last of more than 256 rows change between the two sections and no epoch does,
      the search is misled. */
  lemma ChangeMisleads(s: Shared, t: Shared, plan: seq<nat>, a: EntryKey, b: EntryKey)
    requires Good(s) && Good(t) && t.epochs == s.epochs && TwoSections(s, plan)
    requires InMemory(s, a) && s.hot.slots[a] == plan[0] && Hot(s, a) && Listable(a, s.hot.rows[a])
    requires InMemory(t, b) && t.hot.slots[b] == plan[|plan| - 1] && Hot(s, b) && Listable(b, t.hot.rows[b])
    requires a in t.durable ==> t.durable[a] != s.hot.rows[a]
    requires b in s.durable ==> s.durable[b] != t.hot.rows[b]
    ensures AllPlaced(Turned(s, t)) && IsMisled(Turned(s, t), plan)
  {
    var run := Turned(s, t);
    assert AllPlaced(run);
    FillAll(s, s, plan, 0, 0);
    MixtureIsRead(s, t, plan, a, b);
    MixtureIsNoAnswer(s, t, plan, a, b);
  }

  lemma MixtureIsNoAnswer(s: Shared, t: Shared, plan: seq<nat>, a: EntryKey, b: EntryKey)
    requires AllPlaced(Turned(s, t)) && InMemory(s, a) && InMemory(t, b)
    requires var r := Sections(Turned(s, t), _ => false, 0, Everything, plan, 0, 0);
             r.Read? && (a, s.hot.rows[a]) in r.added && (b, t.hot.rows[b]) in r.added
    requires a in t.durable ==> t.durable[a] != s.hot.rows[a]
    requires b in s.durable ==> s.durable[b] != t.hot.rows[b]
    ensures var r := Sections(Turned(s, t), _ => false, 0, Everything, plan, 0, 0);
            forall n: nat :: !Lists(r.added, Answer(Turned(s, t)(n), Everything))
  {
    var run := Turned(s, t);
    var r := Sections(run, _ => false, 0, Everything, plan, 0, 0);
    forall n: nat ensures !Lists(r.added, Answer(run(n), Everything)) {
      if n <= 1 {
        NotListed(r.added, Answer(s, Everything), b, t.hot.rows[b]);
      } else {
        NotListed(r.added, Answer(t, Everything), a, s.hot.rows[a]);
      }
    }
  }

  lemma NotListed(added: seq<(EntryKey, Row)>, rows: Rows, k: EntryKey, row: Row)
    requires (k, row) in added && (k in rows ==> rows[k] != row)
    ensures !Lists(added, rows)
  {
    var n :| 0 <= n < |added| && added[n] == (k, row);
    assert added[n].0 == k && added[n].1 == row;
  }
}
