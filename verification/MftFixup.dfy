/**
  The NTFS update-sequence fixup of one raw MFT record, in place.  Every byte is untrusted: the
  array accesses below are proved to stay inside the record for every content and sector size.
 */
module MftFixup {

  import opened Words

  datatype FixupResult = Ok | NotAFileRecord | NotInUse | Malformed

  const OFFSET_USA_OFFSET := 4
  const OFFSET_USA_SIZE := 6
  const OFFSET_FLAGS := 22
  const MINIMUM_SIZE := 28
  const SIGNATURE: seq<Byte> := [0x46, 0x49, 0x4C, 0x45]

  function U16(s: seq<Byte>, o: nat): nat
    requires o + 2 <= |s|
  {
    s[o] as int + 256 * s[o + 1] as int
  }

  // ---- the layout of a record ----

  function UsaOffset(s: seq<Byte>): nat
    requires |s| >= MINIMUM_SIZE
  {
    U16(s, OFFSET_USA_OFFSET)
  }

  function UsaSize(s: seq<Byte>): nat
    requires |s| >= MINIMUM_SIZE
  {
    U16(s, OFFSET_USA_SIZE)
  }

  predicate InUse(s: seq<Byte>)
    requires |s| >= MINIMUM_SIZE
  {
    U16(s, OFFSET_FLAGS) % 2 == 1
  }

  /** The header tests, in the order the code makes them. */
  function CheckHeader(s: seq<Byte>, sectorSize: nat): FixupResult {
    if sectorSize == 0 || |s| < MINIMUM_SIZE then Malformed
    else if s[..4] != SIGNATURE then NotAFileRecord
    else if !InUse(s) then NotInUse
    else if UsaSize(s) == 0 || UsaOffset(s) + 2 * UsaSize(s) > |s| then Malformed
    else if |s| / sectorSize + 1 != UsaSize(s) then Malformed
    else Ok
  }

  predicate Checked(s: seq<Byte>, sectorSize: nat) {
    CheckHeader(s, sectorSize) == Ok
  }

  /** The offsets of the sectors' last two bytes. */
  function TailsOf(s: seq<Byte>, sectorSize: nat): (tails: seq<nat>)
    requires Checked(s, sectorSize)
    ensures |tails| + 1 == UsaSize(s)
  {
    SectorsHoldTails(|s|, sectorSize, UsaOffset(s));
    seq(|s| / sectorSize, k requires 0 <= k < |s| / sectorSize => TailAt(sectorSize, k))
  }

  function TailAt(sectorSize: nat, k: nat): nat
    requires sectorSize >= 3
  {
    (k + 1) * sectorSize - 2
  }

  /** The size test of the update array leaves no room for sectors of one or two bytes. */
  lemma SectorsHoldTails(size: nat, sectorSize: nat, usa: nat)
    requires sectorSize > 0 && usa + 2 * (size / sectorSize + 1) <= size
    ensures size / sectorSize == 0 || sectorSize >= 3
  {
    assert size / sectorSize * sectorSize <= size;
  }

  /** The tails lie inside the record, in order, and do not touch each other. */
  predicate Spaced(tails: seq<nat>, size: nat) {
    && (forall k :: 0 <= k < |tails| ==> tails[k] + 2 <= size)
    && (forall j, k :: 0 <= j < k < |tails| ==> tails[j] + 2 <= tails[k])
  }

  lemma Multiples(a: nat, b: nat, c: nat)
    requires a <= b
    ensures a * c <= b * c
  {
  }

  lemma TailInside(size: nat, sectorSize: nat, k: nat)
    requires sectorSize >= 3 && k < size / sectorSize
    ensures TailAt(sectorSize, k) + 2 <= size
  {
    var n := size / sectorSize;
    assert n * sectorSize <= size;
    Multiples(k + 1, n, sectorSize);
  }

  lemma TailsInOrder(sectorSize: nat, j: nat, k: nat)
    requires sectorSize >= 3 && j < k
    ensures TailAt(sectorSize, j) + 2 <= TailAt(sectorSize, k)
  {
    Multiples(j + 2, k + 1, sectorSize);
    assert (j + 2) * sectorSize == (j + 1) * sectorSize + sectorSize;
  }

  lemma TailsSpaced(s: seq<Byte>, sectorSize: nat)
    requires Checked(s, sectorSize)
    ensures Spaced(TailsOf(s, sectorSize), |s|)
  {
    var tails := TailsOf(s, sectorSize);
    SectorsHoldTails(|s|, sectorSize, UsaOffset(s));
    forall k | 0 <= k < |tails| ensures tails[k] + 2 <= |s| {
      TailInside(|s|, sectorSize, k);
    }
    forall j, k | 0 <= j < k < |tails| ensures tails[j] + 2 <= tails[k] {
      TailsInOrder(sectorSize, j, k);
    }
  }

  // ---- what the fixup decides and does ----

  /** What both sector loops rely on. */
  predicate Fits(size: nat, usa: nat, tails: seq<nat>) {
    Spaced(tails, size) && usa + 2 * (|tails| + 1) <= size
  }

  /** Every sector tail carries the update sequence number: the record is as it lies on disk. */
  predicate ProtectedOnDisk(s: seq<Byte>, usa: nat, tails: seq<nat>)
    requires Fits(|s|, usa, tails)
  {
    forall k :: 0 <= k < |tails| ==> U16(s, tails[k]) == U16(s, usa)
  }

  /** Every sector tail already carries its true value. */
  predicate AlreadyRestored(s: seq<Byte>, usa: nat, tails: seq<nat>)
    requires Fits(|s|, usa, tails)
  {
    forall k :: 0 <= k < |tails| ==> U16(s, tails[k]) == U16(s, usa + 2 * (k + 1))
  }

  function CopyWord(s: seq<Byte>, to: nat, from: nat): (t: seq<Byte>)
    requires to + 2 <= |s| && from + 2 <= |s|
    ensures |t| == |s|
  {
    s[to := s[from]][to + 1 := s[from + 1]]
  }

  /** The restoring loop: from sector `k` on, tails take their array entries one after the other. */
  function RestoreFrom(s: seq<Byte>, usa: nat, tails: seq<nat>, k: nat): (t: seq<Byte>)
    requires k <= |tails| && Fits(|s|, usa, tails)
    ensures |t| == |s|
    decreases |tails| - k
  {
    if k == |tails| then s
    else RestoreFrom(CopyWord(s, tails[k], usa + 2 * (k + 1)), usa, tails, k + 1)
  }

  /** The verdict and the record afterwards: torn records are refused, protected ones restored. */
  function Fixup(s: seq<Byte>, sectorSize: nat): (FixupResult, seq<Byte>) {
    if !Checked(s, sectorSize) then (CheckHeader(s, sectorSize), s)
    else
      TailsSpaced(s, sectorSize);
      var usa, tails := UsaOffset(s), TailsOf(s, sectorSize);
      if ProtectedOnDisk(s, usa, tails) then (Ok, RestoreFrom(s, usa, tails, 0))
      else if AlreadyRestored(s, usa, tails) then (Ok, s)
      else (Malformed, s)
  }

  // ---- the verdicts, byte by byte ----

  predicate LargeEnough(s: seq<Byte>, sectorSize: nat) {
    sectorSize > 0 && |s| >= 28
  }

  /** The record begins with the letters FILE. */
  predicate Signed(s: seq<Byte>)
    requires |s| >= 28
  {
    s[0] == 0x46 && s[1] == 0x49 && s[2] == 0x4C && s[3] == 0x45
  }

  /** A file record in use whose update array lies in it and has one entry for each sector and one more. */
  predicate Sane(s: seq<Byte>, sectorSize: nat) {
    && LargeEnough(s, sectorSize) && Signed(s) && s[22] % 2 == 1
    && Word(s, 6) == |s| / sectorSize + 1 && Word(s, 4) + 2 * Word(s, 6) <= |s|
  }

  /** Two bytes, the low one first. */
  function Word(s: seq<Byte>, o: nat): nat
    requires o + 1 < |s|
  {
    256 * s[o + 1] as int + s[o] as int
  }

  /** Each sector ends with the sequence number, or, if `own`, with its own entry of the array. */
  predicate TailsCarry(s: seq<Byte>, sectorSize: nat, own: bool) {
    Sane(s, sectorSize) && forall k :: 0 <= k < |s| / sectorSize ==> TailCarries(s, sectorSize, own, k)
  }

  predicate TailCarries(s: seq<Byte>, sectorSize: nat, own: bool, k: nat)
    requires Sane(s, sectorSize) && k < |s| / sectorSize
  {
    SectorsHoldTails(|s|, sectorSize, Word(s, 4));
    TailInside(|s|, sectorSize, k);
    var tail, entry := (k + 1) * sectorSize - 2, Word(s, 4) + if own then 2 * (k + 1) else 0;
    s[tail] == s[entry] && s[tail + 1] == s[entry + 1]
  }

  lemma CheckedIffSane(s: seq<Byte>, sectorSize: nat)
    ensures Checked(s, sectorSize) <==> Sane(s, sectorSize)
    ensures CheckHeader(s, sectorSize) == NotAFileRecord <==> LargeEnough(s, sectorSize) && !Signed(s)
    ensures CheckHeader(s, sectorSize) == NotInUse <==> LargeEnough(s, sectorSize) && Signed(s) && s[22] % 2 == 0
  {
    if LargeEnough(s, sectorSize) {
      assert s[..4] == SIGNATURE <==> Signed(s);
    }
  }

  lemma CarriesIff(s: seq<Byte>, sectorSize: nat)
    requires Checked(s, sectorSize) && Sane(s, sectorSize) && Fits(|s|, UsaOffset(s), TailsOf(s, sectorSize))
    ensures ProtectedOnDisk(s, UsaOffset(s), TailsOf(s, sectorSize)) <==> TailsCarry(s, sectorSize, false)
    ensures AlreadyRestored(s, UsaOffset(s), TailsOf(s, sectorSize)) <==> TailsCarry(s, sectorSize, true)
  {
    var usa, tails := UsaOffset(s), TailsOf(s, sectorSize);
    forall k | 0 <= k < |tails|
      ensures U16(s, tails[k]) == U16(s, usa) <==> TailCarries(s, sectorSize, false, k)
      ensures U16(s, tails[k]) == U16(s, usa + 2 * (k + 1)) <==> TailCarries(s, sectorSize, true, k)
    {
      SectorsHoldTails(|s|, sectorSize, usa);
      SameWord(s, tails[k], usa);
      SameWord(s, tails[k], usa + 2 * (k + 1));
    }
  }

  lemma SameWord(s: seq<Byte>, a: nat, b: nat)
    requires a + 2 <= |s| && b + 2 <= |s|
    ensures U16(s, a) == U16(s, b) <==> s[a] == s[b] && s[a + 1] == s[b + 1]
  {
  }

  lemma Verdicts(s: seq<Byte>, sectorSize: nat)
    ensures var (r, t) := Fixup(s, sectorSize);
            && (r == NotAFileRecord <==> LargeEnough(s, sectorSize) && !Signed(s))
            && (r == NotInUse <==> LargeEnough(s, sectorSize) && Signed(s) && s[22] % 2 == 0)
            && (r == Ok <==> Sane(s, sectorSize) && (TailsCarry(s, sectorSize, false) || TailsCarry(s, sectorSize, true)))
            && (r != Ok || !TailsCarry(s, sectorSize, false) ==> t == s)
  {
    CheckedIffSane(s, sectorSize);
    if Checked(s, sectorSize) {
      TailsSpaced(s, sectorSize);
      CarriesIff(s, sectorSize);
    }
  }

  method ReadU16(record: array<Byte>, o: nat) returns (v: nat)
    requires o + 2 <= record.Length
    ensures v == U16(record[..], o)
  {
    v := record[o] as int + 256 * record[o + 1] as int;
  }

  method ApplyFixupAndValidate(record: array<Byte>, bytesPerSector: nat) returns (r: FixupResult)
    modifies record
    ensures (r, record[..]) == Fixup(old(record[..]), bytesPerSector)
    ensures r == NotAFileRecord <==> LargeEnough(old(record[..]), bytesPerSector) && !Signed(old(record[..]))
    ensures r == NotInUse <==> LargeEnough(old(record[..]), bytesPerSector) && Signed(old(record[..])) && old(record[..])[22] % 2 == 0
    ensures r == Ok <==> old(Sane(record[..], bytesPerSector)
                             && (TailsCarry(record[..], bytesPerSector, false) || TailsCarry(record[..], bytesPerSector, true)))
    ensures r != Ok || !old(TailsCarry(record[..], bytesPerSector, false)) ==> record[..] == old(record[..])
  {
    ghost var s := record[..];
    Verdicts(s, bytesPerSector);
    if bytesPerSector == 0 || record.Length < MINIMUM_SIZE {
      return Malformed;
    }
    assert s[..4] == record[..4];
    if record[..4] != SIGNATURE {
      return NotAFileRecord;
    }
    var flags := ReadU16(record, OFFSET_FLAGS);
    if flags % 2 == 0 {
      return NotInUse;
    }
    var usaOffset := ReadU16(record, OFFSET_USA_OFFSET);
    var usaSize := ReadU16(record, OFFSET_USA_SIZE);
    if usaSize == 0 || usaOffset + 2 * usaSize > record.Length {
      return Malformed;
    }
    var sectors := record.Length / bytesPerSector;
    if sectors + 1 != usaSize {
      return Malformed;
    }
    SectorsHoldTails(record.Length, bytesPerSector, usaOffset);
    TailsSpaced(s, bytesPerSector);
    ghost var tails := TailsOf(s, bytesPerSector);
    var usn := ReadU16(record, usaOffset);
    var isProtected, isRestored := CompareTails(record, bytesPerSector, usaOffset, tails, usn);
    if !isProtected && !isRestored {
      return Malformed;
    }
    if isProtected {
      RestoreTails(record, bytesPerSector, usaOffset, tails);
    }
    return Ok;
  }

  ghost predicate AreTails(tails: seq<nat>, size: nat, sectorSize: nat) {
    && sectorSize > 0 && |tails| == size / sectorSize
    && (forall k :: 0 <= k < |tails| ==> tails[k] == (k + 1) * sectorSize - 2)
  }

  method CompareTails(record: array<Byte>, bytesPerSector: nat, usaOffset: nat, ghost tails: seq<nat>, usn: nat)
    returns (isProtected: bool, isRestored: bool)
    requires AreTails(tails, record.Length, bytesPerSector) && Fits(record.Length, usaOffset, tails)
    requires usn == U16(record[..], usaOffset)
    ensures isProtected <==> ProtectedOnDisk(record[..], usaOffset, tails)
    ensures isRestored <==> AlreadyRestored(record[..], usaOffset, tails)
  {
    ghost var s := record[..];
    isProtected, isRestored := true, true;
    for k := 0 to record.Length / bytesPerSector
      invariant isProtected <==> forall j :: 0 <= j < k ==> U16(s, tails[j]) == usn
      invariant isRestored <==> forall j :: 0 <= j < k ==> U16(s, tails[j]) == U16(s, usaOffset + 2 * (j + 1))
    {
      var lastTwoBytes := (k + 1) * bytesPerSector - 2;
      assert lastTwoBytes == tails[k];
      var tail := ReadU16(record, lastTwoBytes);
      var trueValue := ReadU16(record, usaOffset + 2 * (k + 1));
      isProtected := isProtected && tail == usn;
      isRestored := isRestored && tail == trueValue;
    }
  }

  method RestoreTails(record: array<Byte>, bytesPerSector: nat, usaOffset: nat, ghost tails: seq<nat>)
    requires AreTails(tails, record.Length, bytesPerSector) && Fits(record.Length, usaOffset, tails)
    modifies record
    ensures record[..] == RestoreFrom(old(record[..]), usaOffset, tails, 0)
  {
    ghost var s := record[..];
    for k := 0 to record.Length / bytesPerSector
      invariant RestoreFrom(record[..], usaOffset, tails, k) == RestoreFrom(s, usaOffset, tails, 0)
    {
      ghost var before := record[..];
      var tail, entry := (k + 1) * bytesPerSector - 2, usaOffset + 2 * (k + 1);
      assert tail == tails[k];
      record[tail], record[tail + 1] := record[entry], record[entry + 1];
      assert record[..] == CopyWord(before, tail, entry);
    }
  }

  // ---- what a restored record looks like ----

  /** Byte `j` is in no tail from sector `k` on. */
  predicate Away(j: nat, tails: seq<nat>, k: nat) {
    forall i :: k <= i < |tails| ==> j != tails[i] && j != tails[i] + 1
  }

  /** No tail lies on the update array. */
  predicate ArrayApart(usa: nat, tails: seq<nat>) {
    forall k :: 0 <= k < |tails| ==> tails[k] + 2 <= usa || tails[k] >= usa + 2 * (|tails| + 1)
  }

  lemma {:induction false} RestoredElsewhere(s: seq<Byte>, usa: nat, tails: seq<nat>, k: nat, j: nat)
    requires k <= |tails| && Fits(|s|, usa, tails) && j < |s| && Away(j, tails, k)
    ensures RestoreFrom(s, usa, tails, k)[j] == s[j]
    decreases |tails| - k
  {
    if k < |tails| {
      RestoredElsewhere(CopyWord(s, tails[k], usa + 2 * (k + 1)), usa, tails, k + 1, j);
    }
  }

  predicate WordIs(t: seq<Byte>, o: nat, lo: Byte, hi: Byte) {
    o + 2 <= |t| && t[o] == lo && t[o + 1] == hi
  }

  lemma {:induction false} RestoredTail(s: seq<Byte>, usa: nat, tails: seq<nat>, k: nat, i: nat)
    requires k <= i < |tails| && Fits(|s|, usa, tails) && ArrayApart(usa, tails)
    ensures WordIs(RestoreFrom(s, usa, tails, k), tails[i], s[usa + 2 * (i + 1)], s[usa + 2 * (i + 1) + 1])
    decreases |tails| - k
  {
    var s1 := CopyWord(s, tails[k], usa + 2 * (k + 1));
    if i == k {
      RestoredElsewhere(s1, usa, tails, k + 1, tails[k]);
      RestoredElsewhere(s1, usa, tails, k + 1, tails[k] + 1);
    } else {
      RestoredTail(s1, usa, tails, k + 1, i);
    }
  }

  // ---- the writer's side ----

  /** Each tail is saved in the array and stamped with the sequence number. */
  function StampFrom(s: seq<Byte>, usa: nat, tails: seq<nat>, usn: (Byte, Byte), k: nat): (t: seq<Byte>)
    requires k <= |tails| && Fits(|s|, usa, tails)
    ensures |t| == |s|
    decreases |tails| - k
  {
    if k == |tails| then s
    else StampFrom(Stamp(s, usa, tails[k], usn, k), usa, tails, usn, k + 1)
  }

  function Stamp(s: seq<Byte>, usa: nat, tail: nat, usn: (Byte, Byte), k: nat): (t: seq<Byte>)
    requires tail + 2 <= |s| && usa + 2 * (k + 2) <= |s|
    ensures |t| == |s|
  {
    CopyWord(s, usa + 2 * (k + 1), tail)[tail := usn.0][tail + 1 := usn.1]
  }

  function Protect(s: seq<Byte>, usa: nat, tails: seq<nat>, usn: (Byte, Byte)): (t: seq<Byte>)
    requires Fits(|s|, usa, tails)
    ensures |t| == |s|
  {
    StampFrom(s[usa := usn.0][usa + 1 := usn.1], usa, tails, usn, 0)
  }

  lemma {:induction false} StampedElsewhere(s: seq<Byte>, usa: nat, tails: seq<nat>, usn: (Byte, Byte), k: nat, j: nat)
    requires k <= |tails| && Fits(|s|, usa, tails)
    requires j < |s| && Away(j, tails, k) && !(usa + 2 * (k + 1) <= j < usa + 2 * (|tails| + 1))
    ensures StampFrom(s, usa, tails, usn, k)[j] == s[j]
    decreases |tails| - k
  {
    if k < |tails| {
      StampedElsewhere(Stamp(s, usa, tails[k], usn, k), usa, tails, usn, k + 1, j);
    }
  }

  lemma StampedFirst(s: seq<Byte>, usa: nat, tails: seq<nat>, usn: (Byte, Byte), k: nat)
    requires k < |tails| && Fits(|s|, usa, tails) && ArrayApart(usa, tails)
    ensures WordIs(StampFrom(s, usa, tails, usn, k), tails[k], usn.0, usn.1)
    ensures WordIs(StampFrom(s, usa, tails, usn, k), usa + 2 * (k + 1), s[tails[k]], s[tails[k] + 1])
  {
    var s1, entry := Stamp(s, usa, tails[k], usn, k), usa + 2 * (k + 1);
    StampedWord(s1, usa, tails, usn, k + 1, tails[k]);
    StampedWord(s1, usa, tails, usn, k + 1, entry);
  }

  lemma StampedWord(s: seq<Byte>, usa: nat, tails: seq<nat>, usn: (Byte, Byte), k: nat, at: nat)
    requires k <= |tails| && Fits(|s|, usa, tails) && at + 1 < |s|
    requires Away(at, tails, k) && Away(at + 1, tails, k)
    requires at + 2 <= usa + 2 * (k + 1) || at >= usa + 2 * (|tails| + 1)
    ensures WordIs(StampFrom(s, usa, tails, usn, k), at, s[at], s[at + 1])
  {
    StampedElsewhere(s, usa, tails, usn, k, at);
    StampedElsewhere(s, usa, tails, usn, k, at + 1);
  }

  lemma {:induction false} Stamped(s: seq<Byte>, usa: nat, tails: seq<nat>, usn: (Byte, Byte), k: nat, i: nat)
    requires k <= i < |tails| && Fits(|s|, usa, tails) && ArrayApart(usa, tails)
    ensures WordIs(StampFrom(s, usa, tails, usn, k), tails[i], usn.0, usn.1)
    ensures WordIs(StampFrom(s, usa, tails, usn, k), usa + 2 * (i + 1), s[tails[i]], s[tails[i] + 1])
    decreases |tails| - k
  {
    if i == k {
      StampedFirst(s, usa, tails, usn, k);
    } else {
      Stamped(Stamp(s, usa, tails[k], usn, k), usa, tails, usn, k + 1, i);
    }
  }

  // ---- fixup undoes protection ----

  predicate HeaderByte(j: nat) {
    j < OFFSET_USA_SIZE + 2 || OFFSET_FLAGS <= j < OFFSET_FLAGS + 2
  }

  /** No sector ends inside the update array or a header field. */
  ghost predicate TailsApart(s: seq<Byte>, sectorSize: nat) {
    && Checked(s, sectorSize)
    && ArrayApart(UsaOffset(s), TailsOf(s, sectorSize))
    && (forall j: nat :: HeaderByte(j) ==> Away(j, TailsOf(s, sectorSize), 0))
  }

  /** Neither the tails nor the update array lie on the header fields the fixup reads, and the tails
      do not lie on the array. */
  ghost predicate WellLaidOut(s: seq<Byte>, sectorSize: nat) {
    && TailsApart(s, sectorSize)
    && UsaOffset(s) >= OFFSET_USA_SIZE + 2
    && (UsaOffset(s) + 2 * UsaSize(s) <= OFFSET_FLAGS || UsaOffset(s) >= OFFSET_FLAGS + 2)
  }

  /** Two records that agree on the header fields have the same layout. */
  lemma SameHeader(s: seq<Byte>, t: seq<Byte>, sectorSize: nat)
    requires |s| == |t| && Checked(s, sectorSize)
    requires forall j: nat :: HeaderByte(j) ==> t[j] == s[j]
    ensures Checked(t, sectorSize) && UsaOffset(t) == UsaOffset(s) && TailsOf(t, sectorSize) == TailsOf(s, sectorSize)
  {
    assert t[..4] == s[..4];
  }

  lemma HeaderUntouched(s: seq<Byte>, usa: nat, tails: seq<nat>, usn: (Byte, Byte))
    requires Fits(|s|, usa, tails) && forall j: nat :: HeaderByte(j) ==> Away(j, tails, 0)
    requires usa >= OFFSET_USA_SIZE + 2 && (usa + 2 * (|tails| + 1) <= OFFSET_FLAGS || usa >= OFFSET_FLAGS + 2)
    requires OFFSET_FLAGS + 2 <= |s|
    ensures forall j: nat :: HeaderByte(j) ==> Protect(s, usa, tails, usn)[j] == s[j]
  {
    forall j: nat | HeaderByte(j) ensures Protect(s, usa, tails, usn)[j] == s[j] {
      StampedElsewhere(s[usa := usn.0][usa + 1 := usn.1], usa, tails, usn, 0, j);
    }
  }

  lemma ProtectedWords(s: seq<Byte>, usa: nat, tails: seq<nat>, usn: (Byte, Byte))
    requires Fits(|s|, usa, tails) && ArrayApart(usa, tails)
    ensures var t := Protect(s, usa, tails, usn);
            && WordIs(t, usa, usn.0, usn.1)
            && forall k :: 0 <= k < |tails| ==>
                 && WordIs(t, tails[k], usn.0, usn.1)
                 && WordIs(t, usa + 2 * (k + 1), s[tails[k]], s[tails[k] + 1])
  {
    var s1 := s[usa := usn.0][usa + 1 := usn.1];
    StampedElsewhere(s1, usa, tails, usn, 0, usa);
    StampedElsewhere(s1, usa, tails, usn, 0, usa + 1);
    var t := Protect(s, usa, tails, usn);
    forall k | 0 <= k < |tails|
      ensures WordIs(t, tails[k], usn.0, usn.1) && WordIs(t, usa + 2 * (k + 1), s[tails[k]], s[tails[k] + 1])
    {
      Stamped(s1, usa, tails, usn, 0, k);
    }
  }

  /** A record that was protected for the disk is accepted, and comes back as it was everywhere
      outside its update array. */
  lemma FixupUndoesProtection(s: seq<Byte>, sectorSize: nat, usn: (Byte, Byte))
    requires WellLaidOut(s, sectorSize)
    ensures Fits(|s|, UsaOffset(s), TailsOf(s, sectorSize))
    ensures var usa, tails := UsaOffset(s), TailsOf(s, sectorSize);
            var (r, u) := Fixup(Protect(s, usa, tails, usn), sectorSize);
            && r == Ok && |u| == |s|
            && forall j :: 0 <= j < |s| && !(usa <= j < usa + 2 * (|tails| + 1)) ==> u[j] == s[j]
  {
    TailsSpaced(s, sectorSize);
    var usa, tails := UsaOffset(s), TailsOf(s, sectorSize);
    var t := Protect(s, usa, tails, usn);
    HeaderUntouched(s, usa, tails, usn);
    SameHeader(s, t, sectorSize);
    ProtectedWords(s, usa, tails, usn);
    assert ProtectedOnDisk(t, usa, tails);
    var u := RestoreFrom(t, usa, tails, 0);
    forall j | 0 <= j < |s| && !(usa <= j < usa + 2 * (|tails| + 1)) ensures u[j] == s[j] {
      UndoneAt(s, usa, tails, usn, j);
    }
  }

  lemma UndoneAt(s: seq<Byte>, usa: nat, tails: seq<nat>, usn: (Byte, Byte), j: nat)
    requires Fits(|s|, usa, tails) && ArrayApart(usa, tails)
    requires j < |s| && !(usa <= j < usa + 2 * (|tails| + 1))
    ensures RestoreFrom(Protect(s, usa, tails, usn), usa, tails, 0)[j] == s[j]
  {
    var t := Protect(s, usa, tails, usn);
    if Away(j, tails, 0) {
      RestoredElsewhere(t, usa, tails, 0, j);
      StampedElsewhere(s[usa := usn.0][usa + 1 := usn.1], usa, tails, usn, 0, j);
    } else {
      var i :| 0 <= i < |tails| && (j == tails[i] || j == tails[i] + 1);
      RestoredTail(t, usa, tails, 0, i);
      ProtectedWords(s, usa, tails, usn);
    }
  }

  // ---- fixup is idempotent ----

  lemma RestoredWord(s: seq<Byte>, usa: nat, tails: seq<nat>, k: nat)
    requires k < |tails| && Fits(|s|, usa, tails) && ArrayApart(usa, tails)
    ensures var t := RestoreFrom(s, usa, tails, 0); U16(t, tails[k]) == U16(t, usa + 2 * (k + 1))
  {
    RestoredTail(s, usa, tails, 0, k);
    RestoredElsewhere(s, usa, tails, 0, usa + 2 * (k + 1));
    RestoredElsewhere(s, usa, tails, 0, usa + 2 * (k + 1) + 1);
  }

  lemma RestoredHeader(s: seq<Byte>, sectorSize: nat)
    requires TailsApart(s, sectorSize)
    ensures Fits(|s|, UsaOffset(s), TailsOf(s, sectorSize))
    ensures var t := RestoreFrom(s, UsaOffset(s), TailsOf(s, sectorSize), 0);
            Checked(t, sectorSize) && UsaOffset(t) == UsaOffset(s) && TailsOf(t, sectorSize) == TailsOf(s, sectorSize)
  {
    TailsSpaced(s, sectorSize);
    var usa, tails := UsaOffset(s), TailsOf(s, sectorSize);
    var t := RestoreFrom(s, usa, tails, 0);
    forall j: nat | HeaderByte(j) ensures t[j] == s[j] {
      RestoredElsewhere(s, usa, tails, 0, j);
    }
    SameHeader(s, t, sectorSize);
  }

  lemma RestoredRecord(s: seq<Byte>, usa: nat, tails: seq<nat>)
    requires Fits(|s|, usa, tails) && ArrayApart(usa, tails)
    ensures AlreadyRestored(RestoreFrom(s, usa, tails, 0), usa, tails)
  {
    var t := RestoreFrom(s, usa, tails, 0);
    forall k | 0 <= k < |tails| ensures U16(t, tails[k]) == U16(t, usa + 2 * (k + 1)) {
      RestoredWord(s, usa, tails, k);
    }
  }

  lemma {:induction false} RestoringTwice(t: seq<Byte>, usa: nat, tails: seq<nat>, k: nat)
    requires k <= |tails| && Fits(|t|, usa, tails) && AlreadyRestored(t, usa, tails)
    ensures RestoreFrom(t, usa, tails, k) == t
    decreases |tails| - k
  {
    if k < |tails| {
      SameWord(t, tails[k], usa + 2 * (k + 1));
      assert CopyWord(t, tails[k], usa + 2 * (k + 1)) == t;
      RestoringTwice(t, usa, tails, k + 1);
    }
  }

  /** A second fixup of an accepted record accepts it again and changes nothing. */
  lemma FixupIdempotent(s: seq<Byte>, sectorSize: nat)
    requires TailsApart(s, sectorSize) && Fixup(s, sectorSize).0 == Ok
    ensures Fixup(Fixup(s, sectorSize).1, sectorSize) == (Ok, Fixup(s, sectorSize).1)
  {
    RestoredHeader(s, sectorSize);
    var usa, tails := UsaOffset(s), TailsOf(s, sectorSize);
    RestoredRecord(s, usa, tails);
    if ProtectedOnDisk(s, usa, tails) {
      RestoringTwice(RestoreFrom(s, usa, tails, 0), usa, tails, 0);
    }
  }
}
