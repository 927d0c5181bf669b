/**
  Records laid out byte by byte from times, attributes, parents, sizes and names, and what the
  attribute parser gives back of them.
 */
module MftRoundTrip {
  import opened MftAttributes
  import opened MftFixup
  import opened Words

  const U64_LIMIT := 0x1_0000_0000_0000_0000
  const U32_LIMIT := 0x1_0000_0000

  /** What is written: a standard-information attribute with its four times, or a file name with the link to
      its parent.  `rest` and the two fillers are bytes the parser does not read. */
  datatype Item =
    | Times(created: nat, modified: nat, changed: nat, accessed: nat, attributes: nat, rest: seq<Byte>)
    | Link(parent: nat, times: seq<Byte>, allocatedSize: nat, size: nat, flags: seq<Byte>, space: Byte, fileName: seq<Unit>)

  ghost predicate Writable(item: Item) {
    match item
    case Times(created, modified, changed, accessed, attributes, rest) =>
      && created < U64_LIMIT && modified < U64_LIMIT && changed < U64_LIMIT && accessed < U64_LIMIT
      && attributes < U32_LIMIT && |rest| < 0x1000
    case Link(parent, times, allocatedSize, size, flags, space, fileName) =>
      && parent < U64_LIMIT && allocatedSize < U64_LIMIT && size < U64_LIMIT
      && |times| == 32 && |flags| == 8 && 1 <= |fileName| <= 255
  }

  // ---- the writer ----

  function Bytes8(v: nat): (b: seq<Byte>)
    requires v < U64_LIMIT
    ensures |b| == 8
  {
    Bytes4(v % U32_LIMIT) + Bytes4(v / U32_LIMIT)
  }

  function NameBytes(name: seq<Unit>): (b: seq<Byte>)
    ensures |b| == 2 * |name|
  {
    seq(2 * |name|, k requires 0 <= k < 2 * |name| => if k % 2 == 0 then name[k / 2] % 0x100 else name[k / 2] / 0x100)
  }

  ghost function Write(item: Item): (a: Attribute)
    requires Writable(item)
    ensures Storable(a)
  {
    match item
    case Times(created, modified, changed, accessed, attributes, rest) =>
      Standard(Bytes8(created) + Bytes8(modified) + Bytes8(changed) + Bytes8(accessed) + Bytes4(attributes) + rest)
    case Link(parent, times, allocatedSize, size, flags, space, fileName) =>
      FileName(Bytes8(parent) + times + Bytes8(allocatedSize) + Bytes8(size) + flags + [|fileName|, space] + NameBytes(fileName))
  }

  ghost predicate AllWritable(items: seq<Item>) {
    forall k :: 0 <= k < |items| ==> Writable(items[k])
  }

  ghost function WriteAll(items: seq<Item>): (attributes: seq<Attribute>)
    requires AllWritable(items)
    ensures |attributes| == |items| && forall k :: 0 <= k < |items| ==> Storable(attributes[k]) && attributes[k] == Write(items[k])
  {
    seq(|items|, k requires 0 <= k < |items| => Write(items[k]))
  }

  /** The header as far as the parser reads it: where the attributes begin, the flags, and a length in use
      that leaves nothing out.  `front` and `gap` are the bytes around these fields. */
  datatype Header = Header(front: seq<Byte>, inUse: bool, directory: bool, moreFlags: nat, bytesInUse: nat, gap: seq<Byte>)

  ghost predicate Fits(h: Header) {
    |h.front| == 20 && h.moreFlags < 0x4000 && h.bytesInUse < U32_LIMIT && |h.gap| < 0x8000
  }

  ghost function HeaderBytes(h: Header): (b: seq<Byte>)
    requires Fits(h)
    ensures |b| == MINIMUM_SIZE + |h.gap|
  {
    var flags := (if h.inUse then 1 else 0) + (if h.directory then 2 else 0) + 4 * h.moreFlags;
    h.front + Bytes2(MINIMUM_SIZE + |h.gap|) + Bytes2(flags) + Bytes4(h.bytesInUse) + h.gap
  }

  ghost function Layout(h: Header, items: seq<Item>): seq<Byte>
    requires Fits(h) && AllWritable(items)
  {
    HeaderBytes(h) + StoreAll(WriteAll(items))
  }

  // ---- reading numbers back ----

  lemma ReadsBack2(s: seq<Byte>, o: nat, v: nat)
    requires v < 0x1_0000 && o + 2 <= |s| && s[o..o + 2] == Bytes2(v)
    ensures U16(s, o) == v
  {
    var b := s[o..o + 2];
    assert s[o] == b[0] && s[o + 1] == b[1];
  }

  lemma ReadsBack8(s: seq<Byte>, o: nat, v: nat)
    requires v < U64_LIMIT && o + 8 <= |s| && s[o..o + 8] == Bytes8(v)
    ensures U64(s, o) == v
  {
    var b := s[o..o + 8];
    assert s[o..o + 4] == b[..4] && s[o + 4..o + 8] == b[4..];
    ReadsBack4(s, o, v % U32_LIMIT);
    ReadsBack4(s, o + 4, v / U32_LIMIT);
  }

  lemma TimesReadBack(item: Item)
    requires item.Times? && Writable(item)
    ensures var info := Write(item).info;
            && IsStandard(Write(item))
            && U64(info, 0) == item.created && U64(info, 8) == item.modified && U64(info, 24) == item.accessed
            && U32(info, 32) == item.attributes
  {
    var info := Write(item).info;
    assert info[0..8] == Bytes8(item.created);
    assert info[8..16] == Bytes8(item.modified);
    assert info[24..32] == Bytes8(item.accessed);
    assert info[32..36] == Bytes4(item.attributes);
    ReadsBack8(info, 0, item.created);
    ReadsBack8(info, 8, item.modified);
    ReadsBack8(info, 24, item.accessed);
    ReadsBack4(info, 32, item.attributes);
  }

  lemma LinkReadsBack(item: Item)
    requires item.Link? && Writable(item)
    ensures var name := Write(item).name;
            && UsableName(Write(item)) && name[64] == |item.fileName| && name[65] == item.space
            && U64(name, 0) == item.parent && U64(name, 40) == item.allocatedSize && U64(name, 48) == item.size
  {
    var name := Write(item).name;
    assert name[0..8] == Bytes8(item.parent);
    assert name[40..48] == Bytes8(item.allocatedSize);
    assert name[48..56] == Bytes8(item.size);
    ReadsBack8(name, 0, item.parent);
    ReadsBack8(name, 40, item.allocatedSize);
    ReadsBack8(name, 48, item.size);
  }

  lemma NameReadsBack(item: Item)
    requires item.Link? && Writable(item) && UsableName(Write(item))
    ensures Units(Write(item).name, |item.fileName|) == item.fileName
  {
    var name, units := Write(item).name, NameBytes(item.fileName);
    assert name[66..] == units;
    forall i | 0 <= i < |item.fileName| ensures U16(name, NAME_OFFSET + 2 * i) == item.fileName[i] {
      assert name[NAME_OFFSET + 2 * i] == units[2 * i] && name[NAME_OFFSET + 2 * i + 1] == units[2 * i + 1];
    }
  }

  lemma HeaderReadsBack(h: Header, rest: seq<Byte>)
    requires Fits(h)
    ensures var s := HeaderBytes(h) + rest;
            && U16(s, OFFSET_FIRST_ATTRIBUTE) == |HeaderBytes(h)| && U32(s, OFFSET_BYTES_IN_USE) == h.bytesInUse
            && (Directory(s) <==> h.directory)
  {
    var b := HeaderBytes(h);
    var s := b + rest;
    var flags := (if h.inUse then 1 else 0) + (if h.directory then 2 else 0) + 4 * h.moreFlags;
    assert b[20..22] == Bytes2(|b|) && b[22..24] == Bytes2(flags) && b[24..28] == Bytes4(h.bytesInUse);
    assert s[20..22] == b[20..22] && s[22..24] == b[22..24] && s[24..28] == b[24..28];
    ReadsBack2(s, 20, |b|);
    ReadsBack2(s, 22, flags);
    ReadsBack4(s, 24, h.bytesInUse);
  }

  // ---- what the parser should give back ----

  /** The attributes that were written, with the directory bit set for a directory and no other changed. */
  ghost predicate AttributesOf(read: nat, written: nat, directory: bool) {
    && read % 0x10 == written % 0x10 && read / 0x20 == written / 0x20
    && (read / 0x10 % 2 == 1 <==> directory || written / 0x10 % 2 == 1)
  }

  /** The times last written. */
  ghost predicate LastTimes(items: seq<Item>, i: int) {
    0 <= i < |items| && items[i].Times? && forall j :: i < j < |items| ==> items[j].Link?
  }

  /** The first name outside the DOS namespace, or the first name if all are DOS names. */
  ghost predicate Preferred(items: seq<Item>, n: int) {
    && 0 <= n < |items| && items[n].Link?
    && (forall j :: 0 <= j < n && items[j].Link? ==> items[j].space == 2 && items[n].space != 2)
    && (items[n].space == 2 ==> forall j :: 0 <= j < |items| && items[j].Link? ==> items[j].space == 2)
  }

  ghost predicate GivesBack(r: Option<ParsedRecord>, items: seq<Item>, i: int, n: int, directory: bool)
    requires LastTimes(items, i) && Preferred(items, n)
  {
    && r.Some?
    && r.value.created == items[i].created && r.value.modified == items[i].modified && r.value.accessed == items[i].accessed
    && AttributesOf(r.value.attributes, items[i].attributes, directory)
    && r.value.parent == items[n].parent && r.value.size == items[n].size
    && r.value.allocatedSize == items[n].allocatedSize && r.value.fileName == items[n].fileName
  }

  lemma FoundTimes(items: seq<Item>, i: int)
    requires AllWritable(items) && LastTimes(items, i)
    ensures Last(IsStandard, WriteAll(items)) == i
  {
    TimesReadBack(items[i]);
  }

  lemma FoundName(items: seq<Item>, n: int)
    requires AllWritable(items) && Preferred(items, n)
    ensures BestName(WriteAll(items)) == n
  {
    var attributes := WriteAll(items);
    forall j | 0 <= j < |items| && items[j].Link?
      ensures UsableName(attributes[j]) && (UsableLongName(attributes[j]) <==> items[j].space != 2)
    {
      LinkReadsBack(items[j]);
    }
    var k := BestName(attributes);
    assert UsableName(attributes[n]);
    assert k < |items| && items[k].Link?;
  }

  lemma DirectoryBit(attributes: nat, directory: bool)
    ensures AttributesOf(WithDirectory(attributes, directory), attributes, directory)
  {
  }

  /** Exactly the values written, from one of each kind. */
  lemma RecordGivesBack(times: Item, link: Item, directory: bool)
    requires times.Times? && link.Link? && Writable(times) && Writable(link)
    ensures IsStandard(Write(times)) && UsableName(Write(link))
    ensures Record(Write(times).info, Write(link).name, directory)
         == ParsedRecord(link.parent, times.created, times.modified, times.accessed, link.size, link.allocatedSize,
                         WithDirectory(times.attributes, directory), link.fileName)
  {
    TimesReadBack(times);
    LinkReadsBack(link);
    NameReadsBack(link);
  }

  lemma YieldGivesBack(items: seq<Item>, i: int, n: int, directory: bool)
    requires AllWritable(items) && LastTimes(items, i) && Preferred(items, n)
    ensures GivesBack(Yield(WriteAll(items), directory), items, i, n, directory)
  {
    FoundTimes(items, i);
    FoundName(items, n);
    RecordGivesBack(items[i], items[n], directory);
    DirectoryBit(items[i].attributes, directory);
  }

  lemma LayoutWalks(h: Header, items: seq<Item>)
    requires Fits(h) && AllWritable(items) && |Layout(h, items)| <= h.bytesInUse
    ensures AllAttributes(Layout(h, items)) == Some(WriteAll(items)) && (Directory(Layout(h, items)) <==> h.directory)
  {
    HeaderReadsBack(h, StoreAll(WriteAll(items)));
    StoredIsLong(WriteAll(items));
    WalkReadsBack(HeaderBytes(h), WriteAll(items));
  }

  lemma StoredIsLong(attributes: seq<Attribute>)
    requires forall k :: 0 <= k < |attributes| ==> Storable(attributes[k])
    ensures |StoreAll(attributes)| >= 8
  {
  }

  /** Every record laid out this way, with any number of times and names in any order, parses back to the
      times written last and the preferred name, value by value. */
  method ParsesBack(record: array<Byte>, h: Header, items: seq<Item>, i: int, n: int) returns (r: Option<ParsedRecord>)
    requires Fits(h) && AllWritable(items) && LastTimes(items, i) && Preferred(items, n)
    requires record[..] == Layout(h, items) && record.Length <= h.bytesInUse
    ensures GivesBack(r, items, i, n, h.directory)
  {
    LayoutWalks(h, items);
    YieldGivesBack(items, i, n, h.directory);
    r := ParseMftAttributes(record);
  }

  // ---- which records are rejected ----

  /** Another attribute begins here: there is room for a type and a length, and it is not the end mark. */
  predicate Begins(s: seq<Byte>, o: nat, extent: nat)
    requires extent <= |s|
  {
    o + 8 <= extent && U32(s, o) != 0xFFFF_FFFF
  }

  /** The attribute does not fit the record, its value does not fit the attribute, or it is a standard
      information of fewer than 36 bytes. */
  predicate Malformed(s: seq<Byte>, o: nat, extent: nat)
    requires extent <= |s| && Begins(s, o, extent)
  {
    || o + 24 > extent || U32(s, o + 4) < 24 || o + U32(s, o + 4) > extent
    || (s[o + 8] == 0 && (U32(s, o) == 0x10 || U32(s, o) == 0x30)
        && (U16(s, o + 20) + U32(s, o + 16) > U32(s, o + 4) || (U32(s, o) == 0x10 && U32(s, o + 16) < 36)))
  }

  /** The walk passes these offsets one after the other. */
  ghost predicate Passes(s: seq<Byte>, extent: nat, path: seq<nat>)
    requires extent <= |s|
  {
    forall k :: 0 <= k < |path| - 1 ==> Leads(s, extent, path[k], path[k + 1])
  }

  predicate Leads(s: seq<Byte>, extent: nat, o: nat, next: nat)
    requires extent <= |s|
  {
    Begins(s, o, extent) && !Malformed(s, o, extent) && next == o + U32(s, o + 4)
  }

  /** From `o` on the walk comes to a malformed attribute. */
  ghost predicate RunsInto(s: seq<Byte>, o: nat, extent: nat, path: seq<nat>)
    requires extent <= |s|
  {
    && path != [] && path[0] == o && Passes(s, extent, path)
    && Begins(s, path[|path| - 1], extent) && Malformed(s, path[|path| - 1], extent)
  }

  lemma MalformedIff(s: seq<Byte>, o: nat, extent: nat)
    requires extent <= |s|
    ensures AtEnd(s, o, extent) <==> !Begins(s, o, extent)
    ensures Begins(s, o, extent) ==> (AttributeAt(s, o, extent).None? <==> Malformed(s, o, extent))
  {
  }

  /** A record is rejected exactly if the walk runs into a malformed attribute. */
  lemma {:induction false} RejectedIff(s: seq<Byte>, o: nat, extent: nat)
    requires extent <= |s|
    ensures Walk(s, o, extent).None? <==> exists path :: RunsInto(s, o, extent, path)
    decreases extent - o
  {
    MalformedIff(s, o, extent);
    if Begins(s, o, extent) && !Malformed(s, o, extent) {
      var next := o + U32(s, o + 4);
      RejectedIff(s, next, extent);
      if path :| RunsInto(s, next, extent, path) {
        Longer(s, o, extent, path);
      }
      if path :| RunsInto(s, o, extent, path) {
        Shorter(s, o, extent, path);
      }
    } else if Begins(s, o, extent) {
      assert RunsInto(s, o, extent, [o]);
    } else if path :| RunsInto(s, o, extent, path) {
      assert |path| > 1 ==> Leads(s, extent, path[0], path[1]);
    }
  }

  lemma Longer(s: seq<Byte>, o: nat, extent: nat, path: seq<nat>)
    requires extent <= |s| && path != [] && Leads(s, extent, o, path[0]) && RunsInto(s, path[0], extent, path)
    ensures RunsInto(s, o, extent, [o] + path)
  {
    var more := [o] + path;
    forall k | 0 <= k < |more| - 1 ensures Leads(s, extent, more[k], more[k + 1]) {
      if k > 0 {
        assert Leads(s, extent, path[k - 1], path[k - 1 + 1]);
      }
    }
  }

  lemma Shorter(s: seq<Byte>, o: nat, extent: nat, path: seq<nat>)
    requires extent <= |s| && RunsInto(s, o, extent, path) && Begins(s, o, extent) && !Malformed(s, o, extent)
    ensures |path| > 1 && RunsInto(s, o + U32(s, o + 4), extent, path[1..])
  {
    assert |path| > 1;
    assert Leads(s, extent, path[0], path[0 + 1]);
    var rest := path[1..];
    forall k | 0 <= k < |rest| - 1 ensures Leads(s, extent, rest[k], rest[k + 1]) {
      assert Leads(s, extent, path[k + 1], path[k + 1 + 1]);
    }
  }
}
