/**
  The attribute walk over one MFT record whose fixup succeeded: which bytes make up its attributes,
  and which name and times it yields.
 */
module MftAttributes {
  import opened MftFixup
  import opened Words

  /** One attribute; the value is only cut out for the two resident kinds the parser reads. */
  datatype Attribute = Standard(info: seq<Byte>) | FileName(name: seq<Byte>) | Other

  datatype ParsedRecord = ParsedRecord(
    parent: nat, created: nat, modified: nat, accessed: nat, size: nat, allocatedSize: nat,
    attributes: nat, fileName: seq<nat>)

  const OFFSET_FIRST_ATTRIBUTE := 20
  const OFFSET_BYTES_IN_USE := 24
  const TYPE_STANDARD := 0x10
  const TYPE_FILE_NAME := 0x30
  const TYPE_END := 0xFFFF_FFFF
  const HEADER_SIZE := 24
  const STANDARD_SIZE := 36
  const NAME_OFFSET := 66
  const NAMESPACE_DOS := 2
  const ATTRIBUTE_DIRECTORY := 0x10

  function U32(s: seq<Byte>, o: nat): nat
    requires o + 4 <= |s|
  {
    U16(s, o) + 0x1_0000 * U16(s, o + 2)
  }

  function U64(s: seq<Byte>, o: nat): nat
    requires o + 8 <= |s|
  {
    U32(s, o) + 0x1_0000_0000 * U32(s, o + 4)
  }

  // ---- the attributes of a record ----

  /** Where the attribute at `o` ends, if its header fits. */
  predicate HeaderFits(s: seq<Byte>, o: nat, extent: nat)
    requires extent <= |s|
  {
    && o + HEADER_SIZE <= extent
    && HEADER_SIZE <= U32(s, o + 4)
    && o + U32(s, o + 4) <= extent
  }

  predicate Read(s: seq<Byte>, o: nat, extent: nat)
    requires extent <= |s| && HeaderFits(s, o, extent)
  {
    s[o + 8] == 0 && (U32(s, o) == TYPE_STANDARD || U32(s, o) == TYPE_FILE_NAME)
  }

  /** The attribute at `o`; none if it is malformed. */
  function AttributeAt(s: seq<Byte>, o: nat, extent: nat): Option<Attribute>
    requires extent <= |s|
  {
    if !HeaderFits(s, o, extent) then None
    else if !Read(s, o, extent) then Some(Other)
    else
      var length, start := U32(s, o + 16), U16(s, o + 20);
      if start + length > U32(s, o + 4) then None
      else
        var value := s[o + start..o + start + length];
        if U32(s, o) == TYPE_FILE_NAME then Some(FileName(value))
        else if length < STANDARD_SIZE then None
        else Some(Standard(value))
  }

  predicate AtEnd(s: seq<Byte>, o: nat, extent: nat)
    requires extent <= |s|
  {
    o + 8 > extent || U32(s, o) == TYPE_END
  }

  /** All attributes from `o` on; none if one of them is malformed. */
  function Walk(s: seq<Byte>, o: nat, extent: nat): Option<seq<Attribute>>
    requires extent <= |s|
    decreases extent - o
  {
    if AtEnd(s, o, extent) then Some([])
    else if AttributeAt(s, o, extent).None? then None
    else Prepend([AttributeAt(s, o, extent).value], Walk(s, o + U32(s, o + 4), extent))
  }

  function Prepend<T>(front: seq<T>, rest: Option<seq<T>>): Option<seq<T>> {
    match rest
    case None => None
    case Some(r) => Some(front + r)
  }

  // ---- what the record yields ----

  predicate UsableName(a: Attribute) {
    && a.FileName? && |a.name| >= NAME_OFFSET
    && a.name[64] > 0 && NAME_OFFSET + 2 * a.name[64] as int <= |a.name|
  }

  predicate UsableLongName(a: Attribute) {
    UsableName(a) && a.name[65] != NAMESPACE_DOS
  }

  predicate IsStandard(a: Attribute) {
    a.Standard? && |a.info| >= STANDARD_SIZE
  }

  /** The position of the first attribute with property `p`; the length if there is none. */
  function First<T>(p: T -> bool, s: seq<T>): (k: nat)
    ensures k <= |s| && (forall j :: 0 <= j < k ==> !p(s[j])) && (k < |s| ==> p(s[k]))
  {
    if s == [] then 0
    else if p(s[0]) then 0
    else 1 + First(p, s[1..])
  }

  function Last<T>(p: T -> bool, s: seq<T>): (k: int)
    ensures -1 <= k < |s| && (forall j :: k < j < |s| ==> !p(s[j])) && (k >= 0 ==> p(s[k]))
  {
    if s == [] then -1
    else if p(s[|s| - 1]) then |s| - 1
    else Last(p, s[..|s| - 1])
  }

  /** The first usable name outside the DOS namespace, else the first usable name. */
  function BestName(attributes: seq<Attribute>): (k: nat)
    ensures k <= |attributes| && (k < |attributes| ==> UsableName(attributes[k]))
    ensures forall j :: 0 <= j < |attributes| && UsableLongName(attributes[j]) ==>
              k <= j && UsableLongName(attributes[k])
    ensures forall j :: 0 <= j < |attributes| && UsableName(attributes[j]) ==>
              k < |attributes| && (k <= j || UsableLongName(attributes[k]))
  {
    var long := First(UsableLongName, attributes);
    if long < |attributes| then long else First(UsableName, attributes)
  }

  function Units(value: seq<Byte>, n: nat): seq<nat>
    requires NAME_OFFSET + 2 * n <= |value|
  {
    seq(n, i requires 0 <= i < n => U16(value, NAME_OFFSET + 2 * i))
  }

  predicate Directory(s: seq<Byte>)
    requires |s| >= MINIMUM_SIZE
  {
    U16(s, OFFSET_FLAGS) / 2 % 2 == 1
  }

  function WithDirectory(attributes: nat, directory: bool): nat {
    if directory && attributes / ATTRIBUTE_DIRECTORY % 2 == 0 then attributes + ATTRIBUTE_DIRECTORY else attributes
  }

  function Record(info: seq<Byte>, name: seq<Byte>, directory: bool): ParsedRecord
    requires IsStandard(Standard(info)) && UsableName(FileName(name))
  {
    ParsedRecord(
      U64(name, 0), U64(info, 0), U64(info, 8), U64(info, 24), U64(name, 48), U64(name, 40),
      WithDirectory(U32(info, 32), directory), Units(name, name[64]))
  }

  function Extent(s: seq<Byte>): nat
    requires |s| >= MINIMUM_SIZE
  {
    if U32(s, OFFSET_BYTES_IN_USE) < |s| then U32(s, OFFSET_BYTES_IN_USE) else |s|
  }

  function AllAttributes(s: seq<Byte>): Option<seq<Attribute>> {
    if |s| < MINIMUM_SIZE || U16(s, OFFSET_FIRST_ATTRIBUTE) >= Extent(s) then None
    else Walk(s, U16(s, OFFSET_FIRST_ATTRIBUTE), Extent(s))
  }

  /** What the parser returns, from the list of attributes. */
  function Yield(attributes: seq<Attribute>, directory: bool): Option<ParsedRecord> {
    var info, name := Last(IsStandard, attributes), BestName(attributes);
    if info < 0 || name == |attributes| then None
    else Some(Record(attributes[info].info, attributes[name].name, directory))
  }

  // ---- the parser ----

  /** Which standard information and which name the loop holds after the attributes `seen`. */
  ghost predicate Holds(seen: seq<Attribute>, info: Option<seq<Byte>>, name: Option<seq<Byte>>) {
    && (info.Some? <==> Last(IsStandard, seen) >= 0)
    && (info.Some? ==> info.value == seen[Last(IsStandard, seen)].info)
    && (name.Some? <==> BestName(seen) < |seen|)
    && (name.Some? ==> name.value == seen[BestName(seen)].name)
  }

  lemma {:induction false} FirstGrows<T>(p: T -> bool, s: seq<T>, x: T)
    ensures First(p, s + [x]) == if First(p, s) < |s| || p(x) then First(p, s) else |s| + 1
  {
    if s != [] {
      assert (s + [x])[1..] == s[1..] + [x];
      FirstGrows(p, s[1..], x);
    }
  }

  function Newer(info: Option<seq<Byte>>, a: Attribute): Option<seq<Byte>> {
    if a.Standard? then Some(a.info) else info
  }

  predicate Dos(name: seq<Byte>) {
    |name| > 65 && name[65] == NAMESPACE_DOS
  }

  /** A later name displaces the one in hand only if that one is a DOS name and the later is not. */
  function Better(name: Option<seq<Byte>>, a: Attribute): Option<seq<Byte>> {
    if UsableName(a) && (name.None? || (Dos(name.value) && !Dos(a.name))) then Some(a.name) else name
  }

  lemma Sees(seen: seq<Attribute>, a: Attribute, info: Option<seq<Byte>>, name: Option<seq<Byte>>)
    requires Holds(seen, info, name) && (a.Standard? ==> IsStandard(a))
    ensures Holds(seen + [a], Newer(info, a), Better(name, a))
  {
    FirstGrows(UsableName, seen, a);
    FirstGrows(UsableLongName, seen, a);
    assert (seen + [a])[..|seen|] == seen;
  }

  ghost predicate Walking(s: seq<Byte>, first: nat, o: nat, extent: nat, seen: seq<Attribute>)
    requires extent <= |s|
  {
    Prepend(seen, Walk(s, o, extent)) == Walk(s, first, extent)
  }

  lemma Started(s: seq<Byte>, first: nat, extent: nat)
    requires extent <= |s|
    ensures Walking(s, first, first, extent, [])
  {
    var all := Walk(s, first, extent);
    assert all.Some? ==> [] + all.value == all.value;
  }

  lemma Moved(s: seq<Byte>, first: nat, o: nat, extent: nat, seen: seq<Attribute>)
    requires extent <= |s| && Walking(s, first, o, extent, seen)
    requires !AtEnd(s, o, extent) && AttributeAt(s, o, extent).Some?
    ensures Walking(s, first, o + U32(s, o + 4), extent, seen + [AttributeAt(s, o, extent).value])
  {
    var rest := Walk(s, o + U32(s, o + 4), extent);
    if rest.Some? {
      var a := AttributeAt(s, o, extent).value;
      assert seen + ([a] + rest.value) == seen + [a] + rest.value;
    }
  }

  lemma Ended(s: seq<Byte>, first: nat, o: nat, extent: nat, seen: seq<Attribute>)
    requires extent <= |s| && Walking(s, first, o, extent, seen)
    requires AtEnd(s, o, extent)
    ensures Walk(s, first, extent) == Some(seen)
  {
    assert seen + [] == seen;
  }

  /** Reads the attribute at `offset`, keeping what the walk has found. */
  method WalkOne(record: array<Byte>, first: nat, offset: nat, extent: nat, kind: nat, ghost seen: seq<Attribute>,
                 info: Option<seq<Byte>>, name: Option<seq<Byte>>)
    returns (ok: bool, i: Option<seq<Byte>>, n: Option<seq<Byte>>, next: nat, ghost more: seq<Attribute>)
    requires offset + 8 <= extent <= record.Length && kind == U32(record[..], offset) && kind != TYPE_END
    requires Walking(record[..], first, offset, extent, seen) && Holds(seen, info, name)
    ensures !ok ==> Walk(record[..], first, extent).None?
    ensures ok ==> offset < next && Walking(record[..], first, next, extent, more) && Holds(more, i, n)
  {
    var a, length := ReadAttribute(record, offset, extent, kind);
    if a.None? {
      return false, info, name, offset, seen;
    }
    Sees(seen, a.value, info, name);
    Moved(record[..], first, offset, extent, seen);
    return true, Newer(info, a.value), Better(name, a.value), offset + length, seen + [a.value];
  }

  method WalkRecord(record: array<Byte>, first: nat, extent: nat)
    returns (ok: bool, info: Option<seq<Byte>>, name: Option<seq<Byte>>)
    requires extent <= record.Length
    ensures ok <==> Walk(record[..], first, extent).Some?
    ensures ok ==> Holds(Walk(record[..], first, extent).value, info, name)
  {
    info, name := None, None;
    ghost var seen: seq<Attribute> := [];
    var offset := first;
    Started(record[..], first, extent);
    while offset + 8 <= extent
      invariant Walking(record[..], first, offset, extent, seen)
      invariant Holds(seen, info, name)
      decreases extent - offset
    {
      var kind := ReadU32(record, offset);
      if kind == TYPE_END {
        break;
      }
      ok, info, name, offset, seen := WalkOne(record, first, offset, extent, kind, seen, info, name);
      if !ok {
        return false, None, None;
      }
    }
    Ended(record[..], first, offset, extent, seen);
    return true, info, name;
  }

  method ParseMftAttributes(record: array<Byte>) returns (r: Option<ParsedRecord>)
    ensures r == match AllAttributes(record[..])
                 case None => None
                 case Some(attributes) => Yield(attributes, Directory(record[..]))
  {
    if record.Length < MINIMUM_SIZE {
      return None;
    }
    var first := ReadU16(record, OFFSET_FIRST_ATTRIBUTE);
    var bytesInUse := ReadU32(record, OFFSET_BYTES_IN_USE);
    var flags := ReadU16(record, OFFSET_FLAGS);
    var extent := if bytesInUse < record.Length then bytesInUse else record.Length;
    if first >= extent {
      return None;
    }
    var ok, info, name := WalkRecord(record, first, extent);
    if !ok || info.None? || name.None? {
      return None;
    }
    return Some(Record(info.value, name.value, flags / 2 % 2 == 1));
  }

  method ReadAttribute(record: array<Byte>, o: nat, extent: nat, kind: nat)
    returns (a: Option<Attribute>, length: nat)
    requires o + 8 <= extent <= record.Length && kind == U32(record[..], o)
    ensures a == AttributeAt(record[..], o, extent)
    ensures a.Some? ==> length == U32(record[..], o + 4) && (a.value.Standard? ==> IsStandard(a.value))
  {
    if o + HEADER_SIZE > extent {
      return None, 0;
    }
    length := ReadU32(record, o + 4);
    if length < HEADER_SIZE || o + length > extent {
      return None, length;
    }
    if record[o + 8] != 0 || (kind != TYPE_STANDARD && kind != TYPE_FILE_NAME) {
      return Some(Other), length;
    }
    var valueLength := ReadU32(record, o + 16);
    var valueOffset := ReadU16(record, o + 20);
    if valueOffset + valueLength > length {
      return None, length;
    }
    var value := record[o + valueOffset..o + valueOffset + valueLength];
    assert value == record[..][o + valueOffset..o + valueOffset + valueLength];
    if kind == TYPE_FILE_NAME {
      return Some(FileName(value)), length;
    }
    return (if valueLength < STANDARD_SIZE then None else Some(Standard(value))), length;
  }

  method ReadU32(record: array<Byte>, o: nat) returns (v: nat)
    requires o + 4 <= record.Length
    ensures v == U32(record[..], o)
  {
    var low := ReadU16(record, o);
    var high := ReadU16(record, o + 2);
    v := low + 0x1_0000 * high;
  }

  // ---- the walk reads back what was laid out ----

  function Bytes2(v: nat): (b: seq<Byte>)
    requires v < 0x1_0000
    ensures |b| == 2
  {
    [v % 0x100, v / 0x100]
  }

  function Bytes4(v: nat): (b: seq<Byte>)
    requires v < 0x1_0000_0000
    ensures |b| == 4
  {
    Bytes2(v % 0x1_0000) + Bytes2(v / 0x1_0000)
  }

  /** A resident attribute of one of the two kinds the parser reads. */
  ghost predicate Storable(a: Attribute) {
    match a
    case Standard(info) => STANDARD_SIZE <= |info| < 0x1_0000
    case FileName(name) => |name| < 0x1_0000
    case Other => false
  }

  function ValueOf(a: Attribute): seq<Byte> {
    match a
    case Standard(info) => info
    case FileName(name) => name
    case Other => []
  }

  ghost function Store(a: Attribute): (b: seq<Byte>)
    requires Storable(a)
    ensures |b| == HEADER_SIZE + |ValueOf(a)|
  {
    Bytes4(if a.Standard? then TYPE_STANDARD else TYPE_FILE_NAME) + Bytes4(HEADER_SIZE + |ValueOf(a)|) +
    Zeros(8) + Bytes4(|ValueOf(a)|) + Bytes2(HEADER_SIZE) + Zeros(2) + ValueOf(a)
  }

  function Zeros(n: nat): (b: seq<Byte>)
    ensures |b| == n
  {
    seq(n, _ => 0)
  }

  ghost function StoreAll(attributes: seq<Attribute>): seq<Byte>
    requires forall k :: 0 <= k < |attributes| ==> Storable(attributes[k])
  {
    if attributes == [] then Bytes4(TYPE_END) + Zeros(4)
    else Store(attributes[0]) + StoreAll(attributes[1..])
  }

  lemma ReadsBack4(s: seq<Byte>, o: nat, v: nat)
    requires v < 0x1_0000_0000 && o + 4 <= |s| && s[o..o + 4] == Bytes4(v)
    ensures U32(s, o) == v
  {
    var b := s[o..o + 4];
    assert s[o] == b[0] && s[o + 1] == b[1] && s[o + 2] == b[2] && s[o + 3] == b[3];
  }

  lemma Inside(front: seq<Byte>, b: seq<Byte>, rest: seq<Byte>, i: nat, j: nat)
    requires i <= j <= |b|
    ensures (front + b + rest)[|front| + i..|front| + j] == b[i..j]
  {
  }

  lemma StorePieces(a: Attribute)
    requires Storable(a)
    ensures var b := Store(a);
            && b[0..4] == Bytes4(if a.Standard? then TYPE_STANDARD else TYPE_FILE_NAME)
            && b[4..8] == Bytes4(HEADER_SIZE + |ValueOf(a)|) && b[8..9] == [0]
            && b[16..20] == Bytes4(|ValueOf(a)|) && b[20..22] == Bytes2(HEADER_SIZE)
            && b[HEADER_SIZE..|b|] == ValueOf(a)
  {
  }

  lemma ReadsBackHeader(front: seq<Byte>, a: Attribute, rest: seq<Byte>)
    requires Storable(a)
    ensures var s, o := front + Store(a) + rest, |front|;
            && U32(s, o) == (if a.Standard? then TYPE_STANDARD else TYPE_FILE_NAME)
            && U32(s, o + 4) == HEADER_SIZE + |ValueOf(a)|
            && U32(s, o + 16) == |ValueOf(a)|
  {
    var b := Store(a);
    var s, o := front + b + rest, |front|;
    StorePieces(a);
    Inside(front, b, rest, 0, 4);
    Inside(front, b, rest, 4, 8);
    Inside(front, b, rest, 16, 20);
    ReadsBack4(s, o, if a.Standard? then TYPE_STANDARD else TYPE_FILE_NAME);
    ReadsBack4(s, o + 4, HEADER_SIZE + |ValueOf(a)|);
    ReadsBack4(s, o + 16, |ValueOf(a)|);
  }

  lemma ReadsBackValue(front: seq<Byte>, a: Attribute, rest: seq<Byte>)
    requires Storable(a)
    ensures var s, o := front + Store(a) + rest, |front|;
            && s[o + 8] == 0 && U16(s, o + 20) == HEADER_SIZE
            && s[o + HEADER_SIZE..o + HEADER_SIZE + |ValueOf(a)|] == ValueOf(a)
  {
    var b := Store(a);
    var s, o := front + b + rest, |front|;
    StorePieces(a);
    Inside(front, b, rest, 8, 9);
    Inside(front, b, rest, 20, 22);
    Inside(front, b, rest, HEADER_SIZE, |b|);
    assert s[o + 8] == s[o + 8..o + 9][0];
    assert s[o + 20] == s[o + 20..o + 22][0] && s[o + 21] == s[o + 20..o + 22][1];
  }

  lemma AttributeReadsBack(front: seq<Byte>, a: Attribute, rest: seq<Byte>)
    requires Storable(a)
    ensures var s, o := front + Store(a) + rest, |front|;
            && !AtEnd(s, o, |s|) && AttributeAt(s, o, |s|) == Some(a)
            && o + U32(s, o + 4) == |front + Store(a)|
  {
    ReadsBackHeader(front, a, rest);
    ReadsBackValue(front, a, rest);
  }

  lemma WalkFirst(s: seq<Byte>, o: nat, a: Attribute, next: nat, later: seq<Attribute>)
    requires !AtEnd(s, o, |s|) && AttributeAt(s, o, |s|) == Some(a) && next == o + U32(s, o + 4)
    requires Walk(s, next, |s|) == Some(later)
    ensures Walk(s, o, |s|) == Some([a] + later)
  {
  }

  lemma WalkReadsBackStep(front: seq<Byte>, a: Attribute, rest: seq<Byte>, later: seq<Attribute>)
    requires Storable(a)
    requires var s := front + Store(a) + rest; Walk(s, |front + Store(a)|, |s|) == Some(later)
    ensures var s := front + Store(a) + rest; Walk(s, |front|, |s|) == Some([a] + later)
  {
    AttributeReadsBack(front, a, rest);
    WalkFirst(front + Store(a) + rest, |front|, a, |front + Store(a)|, later);
  }

  lemma WalkReadsBackEnd(front: seq<Byte>)
    ensures var s := front + StoreAll([]); Walk(s, |front|, |s|) == Some([])
  {
    ReadsBack4(front + StoreAll([]), |front|, TYPE_END);
  }

  lemma StoreAllSplit(front: seq<Byte>, a: Attribute, later: seq<Attribute>)
    requires Storable(a) && forall k :: 0 <= k < |later| ==> Storable(later[k])
    ensures front + StoreAll([a] + later) == front + Store(a) + StoreAll(later)
  {
    assert ([a] + later)[1..] == later;
    Regroup(front, Store(a), StoreAll(later));
  }

  lemma Regroup(x: seq<Byte>, y: seq<Byte>, z: seq<Byte>)
    ensures x + (y + z) == x + y + z
  {
  }

  /** A record laid out from a list of attributes walks back to that list. */
  lemma {:induction false} WalkReadsBack(front: seq<Byte>, attributes: seq<Attribute>)
    requires forall k :: 0 <= k < |attributes| ==> Storable(attributes[k])
    ensures var s := front + StoreAll(attributes); Walk(s, |front|, |s|) == Some(attributes)
    decreases |attributes|
  {
    if attributes == [] {
      WalkReadsBackEnd(front);
    } else {
      var a, later := attributes[0], attributes[1..];
      assert [a] + later == attributes;
      WalkReadsBack(front + Store(a), later);
      WalkReadsBackStep(front, a, StoreAll(later), later);
      StoreAllSplit(front, a, later);
    }
  }
}
