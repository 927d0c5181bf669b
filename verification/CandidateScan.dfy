/**
  Scanning one volume of a snapshot for an ASCII needle: by the candidate index when it is usable
  and narrow enough, by a LIKE filter over the rows otherwise.
 */
module CandidateScan {
  import opened DurableStore
  import opened Records
  import opened Words
  import FilenameIndex
  import FoldClassification
  import TextCodec

  const CANDIDATE_CAP := 16384

  // ---- LIKE ----

  const PERCENT: Byte := 0x25
  const UNDERSCORE: Byte := 0x5F
  const BACKSLASH: Byte := 0x5C

  /** The database's LIKE with a backslash as escape: ASCII case is ignored. */
  predicate LikeMatch(pattern: seq<Byte>, text: seq<Byte>)
    decreases |pattern| + |text|
  {
    if pattern == [] then text == []
    else if pattern[0] == PERCENT then
      LikeMatch(pattern[1..], text) || (text != [] && LikeMatch(pattern, text[1..]))
    else if pattern[0] == BACKSLASH && |pattern| >= 2 then
      text != [] && TextCodec.SameIgnoringCase(text[0], pattern[1]) && LikeMatch(pattern[2..], text[1..])
    else if pattern[0] == UNDERSCORE then text != [] && LikeMatch(pattern[1..], text[1..])
    else text != [] && TextCodec.SameIgnoringCase(text[0], pattern[0]) && LikeMatch(pattern[1..], text[1..])
  }

  function Escape(b: Byte): seq<Byte> {
    if b == BACKSLASH || b == PERCENT || b == UNDERSCORE then [BACKSLASH, b] else [b]
  }

  function EscapeAll(needle: seq<Byte>): seq<Byte> {
    if needle == [] then [] else Escape(needle[0]) + EscapeAll(needle[1..])
  }

  function LikePattern(needle: seq<Byte>): seq<Byte> {
    [PERCENT] + EscapeAll(needle) + [PERCENT]
  }

  method LikePatternForLiteralNeedle(needle: seq<Byte>) returns (pattern: seq<Byte>)
    ensures pattern == LikePattern(needle)
  {
    pattern := [PERCENT];
    for n := 0 to |needle|
      invariant pattern + EscapeAll(needle[n..]) == [PERCENT] + EscapeAll(needle)
    {
      EscapesNext(pattern, needle, n);
      if needle[n] == BACKSLASH || needle[n] == PERCENT || needle[n] == UNDERSCORE {
        pattern := pattern + [BACKSLASH];
      }
      pattern := pattern + [needle[n]];
    }
    pattern := pattern + [PERCENT];
  }

  lemma EscapesNext(pattern: seq<Byte>, needle: seq<Byte>, n: nat)
    requires n < |needle|
    ensures pattern + EscapeAll(needle[n..]) == pattern + Escape(needle[n]) + EscapeAll(needle[n + 1..])
    ensures Escape(needle[n]) == [BACKSLASH, needle[n]] ==> pattern + [BACKSLASH] + [needle[n]] == pattern + Escape(needle[n])
  {
    assert needle[n..][1..] == needle[n + 1..];
  }

  lemma {:induction false} AnythingMatches(text: seq<Byte>)
    ensures LikeMatch([PERCENT], text)
  {
    if text != [] {
      AnythingMatches(text[1..]);
    }
  }

  lemma {:induction false} PrefixMatches(needle: seq<Byte>, text: seq<Byte>)
    ensures LikeMatch(EscapeAll(needle) + [PERCENT], text)
        <==> TextCodec.StartsWith(TextCodec.FoldBytes(text), TextCodec.FoldBytes(needle))
    decreases |needle|
  {
    var pattern := EscapeAll(needle) + [PERCENT];
    if needle == [] {
      assert pattern == [PERCENT];
      AnythingMatches(text);
    } else {
      var rest := EscapeAll(needle[1..]) + [PERCENT];
      assert pattern == Escape(needle[0]) + rest;
      if text != [] {
        PrefixMatches(needle[1..], text[1..]);
        FoldTail(text);
        FoldTail(needle);
        TextCodec.StartsWithTail(TextCodec.FoldBytes(text), TextCodec.FoldBytes(needle));
        TextCodec.FoldsAlike(text[0], needle[0]);
      }
      if |Escape(needle[0])| == 2 {
        assert pattern[0] == BACKSLASH && pattern[1] == needle[0] && pattern[2..] == rest;
      } else {
        assert pattern[0] == needle[0] && pattern[1..] == rest;
      }
    }
  }

  lemma FoldTail(text: seq<Byte>)
    requires text != []
    ensures TextCodec.FoldBytes(text)[1..] == TextCodec.FoldBytes(text[1..])
  {
  }

  /** The escaped pattern matches exactly the texts that somewhere spell the needle but for case. */
  lemma LikeIsContains(needle: seq<Byte>, text: seq<Byte>)
    ensures LikeMatch(LikePattern(needle), text) <==> exists k :: TextCodec.SpellsAt(text, needle, k)
  {
    LikeIsFolded(needle, text);
    TextCodec.FoldedContains(text, needle);
  }

  lemma {:induction false} LikeIsFolded(needle: seq<Byte>, text: seq<Byte>)
    ensures LikeMatch(LikePattern(needle), text)
        <==> TextCodec.Contains(TextCodec.FoldBytes(text), TextCodec.FoldBytes(needle))
    decreases |text|
  {
    var pattern, rest := LikePattern(needle), EscapeAll(needle) + [PERCENT];
    assert pattern[0] == PERCENT && pattern[1..] == rest;
    PrefixMatches(needle, text);
    var folded := TextCodec.FoldBytes(text);
    if text == [] {
      assert folded[0..] == folded;
    } else {
      LikeIsFolded(needle, text[1..]);
      FoldTail(text);
      TextCodec.ContainsTail(folded, TextCodec.FoldBytes(needle));
    }
  }

  /** The GLOB arm: some byte is not a printable ASCII character. */
  predicate Unprintable(name: seq<Byte>) {
    exists k :: 0 <= k < |name| && !(0x20 <= name[k] <= 0x7E)
  }

  // ---- what the two routes deliver ----

  predicate TermHit(d: Database, id: nat, folded: seq<Byte>) {
    id in d.index.terms && TextCodec.Contains(d.index.terms[id], folded)
  }

  /** Rows whose folded name contains the needle, and all exceptional rows. */
  function CandidateKeys(d: Database, volume: Volume, folded: seq<Byte>): set<EntryKey> {
    set k | k in d.index.ids && k in d.rows && k.volume == volume
         && (TermHit(d, d.index.ids[k], folded) || d.index.ids[k] in d.index.exceptions)
  }

  function FilteredKeys(d: Database, volume: Volume, pattern: seq<Byte>): set<EntryKey> {
    set k | k in d.rows && k.volume == volume && (LikeMatch(pattern, d.rows[k].name) || Unprintable(d.rows[k].name))
  }

  ghost predicate CanonicalMatch(host: (Unit, Unit) -> bool, d: Database, needle: seq<Byte>, k: EntryKey) {
    k in d.rows && FilenameIndex.HostContains(host, TextCodec.Decode(d.rows[k].name), needle)
  }

  /** Away from exceptional names, a host match shows in the stored bytes. */
  lemma MatchShowsInBytes(host: (Unit, Unit) -> bool, mayFold: Unit -> bool, name: seq<Byte>, needle: seq<Byte>)
    requires FilenameIndex.AsciiCaseInsensitive(host) && FoldClassification.Covers(mayFold, host)
    requires needle != [] && TextCodec.AllAscii(needle) && Encoded(name)
    requires !FoldClassification.NeedsSideSet(TextCodec.Decode(name), mayFold)
    requires FilenameIndex.HostContains(host, TextCodec.Decode(name), needle)
    ensures TextCodec.Contains(TextCodec.FoldBytes(name), TextCodec.FoldBytes(needle))
  {
    var units := TextCodec.Decode(name);
    var o :| 0 <= o <= |units| && FilenameIndex.MatchesAt(host, units, needle, o);
    var folded, want := TextCodec.Fold(units), TextCodec.Fold(needle);
    forall i | 0 <= i < |needle| ensures folded[o + i] == want[i] {
      FilenameIndex.PlainMatch(host, mayFold, units, needle, o, i);
    }
    assert folded[o..][..|want|] == want;
    assert TextCodec.StartsWith(folded[o..], want);
    assert TextCodec.Contains(folded, want);
    TextCodec.ByteSearchIsUnitSearch(folded, want);
    TextCodec.FoldCommutes(units);
    assert TextCodec.FoldBytes(needle) == want;
  }

  lemma CandidatesCover(host: (Unit, Unit) -> bool, mayFold: Unit -> bool, d: Database, volume: Volume,
                        needle: seq<Byte>, k: EntryKey)
    requires FilenameIndex.AsciiCaseInsensitive(host) && FoldClassification.Covers(mayFold, host)
    requires needle != [] && TextCodec.AllAscii(needle) && InStep(d, mayFold)
    requires k.volume == volume && CanonicalMatch(host, d, needle, k)
    ensures k in CandidateKeys(d, volume, TextCodec.FoldBytes(needle))
  {
    var name, folded := d.rows[k].name, TextCodec.FoldBytes(needle);
    assert Agrees(d.index, k, d.rows[k], mayFold);
    if !FoldClassification.NeedsSideSet(TextCodec.Decode(name), mayFold) {
      MatchShowsInBytes(host, mayFold, name, needle);
      NotEmptyTerm(d.index, d.index.ids[k], folded);
    }
  }

  lemma NotEmptyTerm(index: Candidates, id: nat, folded: seq<Byte>)
    requires folded != [] && TextCodec.Contains(Term(index, id), folded)
    ensures id in index.terms
  {
    var term := Term(index, id);
    var k :| 0 <= k <= |term| && TextCodec.StartsWith(term[k..], folded);
    assert |term| > 0;
  }

  lemma FilterCovers(host: (Unit, Unit) -> bool, d: Database, volume: Volume, needle: seq<Byte>, k: EntryKey)
    requires FilenameIndex.AsciiCaseInsensitive(host)
    requires TextCodec.AllAscii(needle)
    requires k.volume == volume && CanonicalMatch(host, d, needle, k)
    ensures k in FilteredKeys(d, volume, LikePattern(needle))
  {
    var name := d.rows[k].name;
    if !Unprintable(name) {
      LikeIsFolded(needle, name);
      PlainNameMatches(host, name, needle);
    }
  }

  /** A printable ASCII name is its own text, so a host match is a match ignoring ASCII case. */
  lemma PlainNameMatches(host: (Unit, Unit) -> bool, name: seq<Byte>, needle: seq<Byte>)
    requires FilenameIndex.AsciiCaseInsensitive(host) && TextCodec.AllAscii(needle) && !Unprintable(name)
    requires FilenameIndex.HostContains(host, TextCodec.Decode(name), needle)
    ensures TextCodec.Contains(TextCodec.FoldBytes(name), TextCodec.FoldBytes(needle))
  {
    TextCodec.AsciiDecodesToItself(name);
    var o :| 0 <= o <= |name| && FilenameIndex.MatchesAt(host, name, needle, o);
    var folded, want := TextCodec.FoldBytes(name), TextCodec.FoldBytes(needle);
    forall i | 0 <= i < |needle| ensures folded[o + i] == want[i] {
      assert host(name[o + i], needle[i]);
      assert FoldClassification.IsAscii(name[o + i]) && FoldClassification.IsAscii(needle[i]);
      TextCodec.FoldsAlike(name[o + i], needle[i]);
    }
    assert folded[o..][..|want|] == want;
    assert TextCodec.StartsWith(folded[o..], want);
  }

  /** What a delivered name is: it spells the needle but for case, or the host might match what it does not spell. */
  ghost predicate Plausible(name: seq<Byte>, needle: seq<Byte>, mayFold: Unit -> bool) {
    || (exists o :: TextCodec.SpellsAt(name, needle, o))
    || Unprintable(name) || FoldClassification.NeedsSideSet(TextCodec.Decode(name), mayFold)
  }

  lemma CandidatesPlausible(mayFold: Unit -> bool, d: Database, volume: Volume, needle: seq<Byte>, k: EntryKey)
    requires InStep(d, mayFold) && k in CandidateKeys(d, volume, TextCodec.FoldBytes(needle))
    ensures Plausible(d.rows[k].name, needle, mayFold)
  {
    assert Agrees(d.index, k, d.rows[k], mayFold);
    TextCodec.FoldedContains(d.rows[k].name, needle);
  }

  lemma FilteredPlausible(mayFold: Unit -> bool, d: Database, volume: Volume, needle: seq<Byte>, k: EntryKey)
    requires k in FilteredKeys(d, volume, LikePattern(needle))
    ensures Plausible(d.rows[k].name, needle, mayFold)
  {
    LikeIsContains(needle, d.rows[k].name);
  }

  // ---- the scan ----

  /** What can go wrong: a count that fails, the candidate query or the fallback failing after so
      many rows. */
  datatype Faults = Faults(globalCount: bool, volumeCount: bool, candidateRead: Option<nat>, fallbackRead: Option<nat>)

  function Limited(count: nat, limit: nat): nat {
    if count < limit then count else limit
  }

  function VolumeIds(d: Database, volume: Volume): set<nat> {
    set k | k in d.index.ids && k.volume == volume :: d.index.ids[k]
  }

  /** Hits counted over the whole database first, then over the volume alone; none if a count fails. */
  function Admission(d: Database, volume: Volume, folded: seq<Byte>, cap: nat, faults: Faults): Option<nat> {
    var hits := set id | id in d.index.terms && TermHit(d, id, folded);
    var global := Limited(|hits|, cap + 1) + Limited(|d.index.exceptions|, cap + 1);
    if !faults.globalCount && global <= cap then Some(global)
    else if faults.volumeCount then None
    else
      var ids := VolumeIds(d, volume);
      Some(Limited(|hits * ids|, cap + 1) + Limited(|d.index.exceptions * ids|, cap + 1))
  }

  predicate Eligible(needle: seq<Byte>) {
    |needle| >= 3 && TextCodec.AllAscii(needle)
  }

  predicate UsesCandidates(d: Database, volume: Volume, needle: seq<Byte>, usable: bool, cap: nat, faults: Faults) {
    && Eligible(needle) && usable
    && var hits := Admission(d, volume, TextCodec.FoldBytes(needle), cap, faults);
       hits.Some? && hits.value <= cap
  }

  /** All rows are read before any is delivered; none if the query fails or exceeds the cap. */
  method Stage(rows: seq<EntryKey>, cap: nat, fault: Option<nat>) returns (staged: Option<seq<EntryKey>>)
    ensures staged.Some? ==> staged.value == rows
    ensures staged.Some? <==> |rows| <= cap && (fault.None? || fault.value > |rows|)
  {
    var buffer: seq<EntryKey> := [];
    for n := 0 to |rows|
      invariant buffer == rows[..n] && n <= cap
      invariant fault.None? || fault.value >= n
    {
      if fault == Some(n) || |buffer| >= cap {
        return None;
      }
      buffer := buffer + [rows[n]];
    }
    return if fault == Some(|rows|) then None else Some(buffer);
  }

  ghost predicate Complete(host: (Unit, Unit) -> bool, d: Database, volume: Volume, needle: seq<Byte>,
                           visited: seq<EntryKey>) {
    forall k: EntryKey :: k.volume == volume && CanonicalMatch(host, d, needle, k) ==> k in visited
  }

  /** Delivers rows until the visitor has had enough or the read fails. */
  method Deliver(rows: seq<EntryKey>, stopAfter: nat, fault: Option<nat>)
    returns (ok: bool, visited: seq<EntryKey>)
    ensures visited <= rows
    ensures ok && |visited| < stopAfter ==> visited == rows
    ensures !ok ==> fault.Some? && fault.value == |visited|
  {
    visited := [];
    for n := 0 to |rows|
      invariant visited == rows[..n] && (fault.None? || fault.value >= n)
      invariant n == 0 || n < stopAfter
    {
      if fault == Some(n) {
        return false, visited;
      }
      visited := visited + [rows[n]];
      if |visited| >= stopAfter {
        return true, visited;
      }
    }
    ok := fault != Some(|rows|);
  }

  /** Each row at most once; every canonical match unless the visitor stops or the read fails.  Rows
      staged by an abandoned candidate run have not been delivered. */
  method ForEachEntryWithAsciiNameUntil(
    d: Database, volume: Volume, needle: seq<Byte>, usable: bool, cap: nat, faults: Faults, stopAfter: nat,
    ghost mayFold: Unit -> bool, ghost host: (Unit, Unit) -> bool)
    returns (ok: bool, visited: seq<EntryKey>)
    requires TextCodec.AllAscii(needle) && (usable ==> InStep(d, mayFold))
    requires FilenameIndex.AsciiCaseInsensitive(host) && FoldClassification.Covers(mayFold, host)
    ensures forall i, j :: 0 <= i < j < |visited| ==> visited[i] != visited[j]
    ensures forall k :: k in visited ==> k in d.rows && k.volume == volume && Plausible(d.rows[k].name, needle, mayFold)
    ensures ok && |visited| < stopAfter ==> Complete(host, d, volume, needle, visited)
    ensures faults.fallbackRead.None? ==> ok
  {
    if UsesCandidates(d, volume, needle, usable, cap, faults) {
      var rows := Enumerate(CandidateKeys(d, volume, TextCodec.FoldBytes(needle)));
      var staged := Stage(rows, cap, faults.candidateRead);
      if staged.Some? {
        ok, visited := Deliver(staged.value, stopAfter, None);
        DeliveredPart(rows, visited);
        forall k | k in visited ensures Plausible(d.rows[k].name, needle, mayFold) {
          CandidatesPlausible(mayFold, d, volume, needle, k);
        }
        if |visited| < stopAfter {
          forall k: EntryKey | k.volume == volume && CanonicalMatch(host, d, needle, k) ensures k in visited {
            CandidatesCover(host, mayFold, d, volume, needle, k);
          }
        }
        return;
      }
    }
    var pattern := LikePatternForLiteralNeedle(needle);
    var rows := Enumerate(FilteredKeys(d, volume, pattern));
    ok, visited := Deliver(rows, stopAfter, faults.fallbackRead);
    DeliveredPart(rows, visited);
    forall k | k in visited ensures Plausible(d.rows[k].name, needle, mayFold) {
      FilteredPlausible(mayFold, d, volume, needle, k);
    }
    if ok && |visited| < stopAfter {
      forall k: EntryKey | k.volume == volume && CanonicalMatch(host, d, needle, k) ensures k in visited {
        FilterCovers(host, d, volume, needle, k);
      }
    }
  }

  lemma DeliveredPart(rows: seq<EntryKey>, visited: seq<EntryKey>)
    requires visited <= rows && forall i, j :: 0 <= i < j < |rows| ==> rows[i] != rows[j]
    ensures forall i, j :: 0 <= i < j < |visited| ==> visited[i] != visited[j]
    ensures forall k :: k in visited ==> k in rows
  {
  }
}
