/**
  The store's own UTF-16/UTF-8 conversion, its ASCII fold, and what a byte-wise search for an ASCII
  needle finds.
 */
module TextCodec {
  import opened Words

  // ---- UTF-16 ----

  predicate IsHigh(u: Unit) { 0xD800 <= u <= 0xDBFF }

  predicate IsLow(u: Unit) { 0xDC00 <= u <= 0xDFFF }

  predicate StartsWithPair(s: seq<Unit>) {
    |s| >= 2 && IsHigh(s[0]) && IsLow(s[1])
  }

  type CodePoint = c: int | 0 <= c <= 0x10_FFFF

  predicate IsSurrogate(c: CodePoint) { 0xD800 <= c <= 0xDFFF }

  function PairValue(high: int, low: int): (c: int)
    requires 0xD800 <= high <= 0xDBFF && 0xDC00 <= low <= 0xDFFF
    ensures 0x1_0000 <= c <= 0x10_FFFF
  {
    0x1_0000 + (high - 0xD800) * 0x400 + (low - 0xDC00)
  }

  function FirstCodePoint(s: seq<Unit>): (c: CodePoint)
    requires s != []
  {
    if StartsWithPair(s) then PairValue(s[0], s[1]) else s[0]
  }

  function FirstLength(s: seq<Unit>): nat {
    if StartsWithPair(s) then 2 else 1
  }

  /** Well-formed UTF-16: every surrogate is half of a pair (section 2.1 of RFC 2781). */
  predicate PairedSurrogates(s: seq<Unit>) {
    s == [] || (!IsSurrogate(FirstCodePoint(s)) && PairedSurrogates(s[FirstLength(s)..]))
  }

  // ---- encoding ----

  function EncodePoint(c: CodePoint): (b: seq<Byte>)
    ensures b != []
  {
    if c <= 0x7F then [c]
    else if c <= 0x7FF then [0xC0 + c / 0x40, 0x80 + c % 0x40]
    else if c <= 0xFFFF then [0xE0 + c / 0x1000, 0x80 + c / 0x40 % 0x40, 0x80 + c % 0x40]
    else [0xF0 + c / 0x4_0000, 0x80 + c / 0x1000 % 0x40, 0x80 + c / 0x40 % 0x40, 0x80 + c % 0x40]
  }

  function Encode(s: seq<Unit>): seq<Byte> {
    if s == [] then [] else EncodePoint(FirstCodePoint(s)) + Encode(s[FirstLength(s)..])
  }

  // ---- decoding ----

  /** Continuation bytes a leading byte announces; none for a byte that cannot lead. */
  datatype Lead = Invalid | Lead(bits: nat, extra: nat)

  function LeadOf(b: Byte): Lead {
    if b < 0x80 then Lead(b, 0)
    else if 0xC0 <= b < 0xE0 then Lead(b - 0xC0, 1)
    else if 0xE0 <= b < 0xF0 then Lead(b - 0xE0, 2)
    else if 0xF0 <= b < 0xF8 then Lead(b - 0xF0, 3)
    else Invalid
  }

  predicate IsContinuation(b: Byte) { 0x80 <= b < 0xC0 }

  function LowBits(b: Byte): int
    requires IsContinuation(b)
  {
    b - 0x80
  }

  predicate Continued(b: seq<Byte>) {
    forall k :: 0 <= k < |b| ==> IsContinuation(b[k])
  }

  function Accumulate(bits: nat, rest: seq<Byte>): nat
    requires Continued(rest)
    decreases rest
  {
    if rest == [] then bits else Accumulate(bits * 0x40 + LowBits(rest[0]), rest[1..])
  }

  function UnitsOf(c: nat): (u: seq<Unit>)
    requires c < 0x20_0000
  {
    if c <= 0xFFFF then [c]
    else [0xD800 + (c - 0x1_0000) / 0x400, 0xDC00 + (c - 0x1_0000) % 0x400]
  }

  lemma Accumulate1(bits: nat, rest: seq<Byte>)
    requires |rest| == 1 && Continued(rest)
    ensures Accumulate(bits, rest) == bits * 0x40 + LowBits(rest[0])
  {
    assert rest[1..] == [];
  }

  lemma Accumulate2(bits: nat, rest: seq<Byte>)
    requires |rest| == 2 && Continued(rest)
    ensures Accumulate(bits, rest) == bits * 0x1000 + LowBits(rest[0]) * 0x40 + LowBits(rest[1])
  {
    assert Continued(rest[1..]);
    Accumulate1(bits * 0x40 + LowBits(rest[0]), rest[1..]);
  }

  lemma Accumulate3(bits: nat, rest: seq<Byte>)
    requires |rest| == 3 && Continued(rest)
    ensures Accumulate(bits, rest)
         == bits * 0x4_0000 + LowBits(rest[0]) * 0x1000 + LowBits(rest[1]) * 0x40 + LowBits(rest[2])
  {
    assert Continued(rest[1..]);
    Accumulate2(bits * 0x40 + LowBits(rest[0]), rest[1..]);
  }

  lemma AccumulateFits(b: Byte, rest: seq<Byte>)
    requires LeadOf(b).Lead? && |rest| == LeadOf(b).extra && Continued(rest)
    ensures Accumulate(LeadOf(b).bits, rest) < 0x20_0000
  {
    if |rest| == 1 {
      Accumulate1(LeadOf(b).bits, rest);
    } else if |rest| == 2 {
      Accumulate2(LeadOf(b).bits, rest);
    } else if |rest| == 3 {
      Accumulate3(LeadOf(b).bits, rest);
    }
  }

  function PointOf(b: Byte, rest: seq<Byte>): (c: nat)
    requires LeadOf(b).Lead? && |rest| == LeadOf(b).extra && Continued(rest)
    ensures c < 0x20_0000
  {
    AccumulateFits(b, rest);
    Accumulate(LeadOf(b).bits, rest)
  }

  /** What the bytes at the front stand for, and how many of them do. */
  datatype Piece = Truncated | Piece(units: seq<Unit>, length: nat)

  /** A byte that cannot lead is skipped, and so is a whole sequence with a bad continuation byte. */
  function FirstPiece(b: seq<Byte>): (p: Piece)
    requires b != []
    ensures p.Piece? ==> 0 < p.length <= |b|
  {
    var lead := LeadOf(b[0]);
    if lead.Invalid? then Piece([], 1)
    else if lead.extra >= |b| then Truncated
    else
      var rest := b[1..lead.extra + 1];
      Piece(if Continued(rest) then UnitsOf(PointOf(b[0], rest)) else [], lead.extra + 1)
  }

  /** A truncated last sequence ends the text. */
  function Decode(b: seq<Byte>): seq<Unit> {
    if b == [] then []
    else
      match FirstPiece(b)
      case Truncated => []
      case Piece(units, length) => units + Decode(b[length..])
  }

  // ---- the conversion loops ----

  predicate AllAscii(s: seq<int>) {
    forall k :: 0 <= k < |s| ==> s[k] <= 0x7F
  }

  lemma {:induction false} AsciiEncodesToItself(s: seq<Unit>)
    requires AllAscii(s)
    ensures Encode(s) == s
  {
    if s != [] {
      AsciiEncodesToItself(s[1..]);
    }
  }

  lemma {:induction false} AsciiDecodesToItself(b: seq<Byte>)
    requires AllAscii(b)
    ensures Decode(b) == b
  {
    if b != [] {
      AsciiDecodesToItself(b[1..]);
    }
  }

  method IsAllAscii(s: seq<int>) returns (isAscii: bool)
    ensures isAscii <==> AllAscii(s)
  {
    for k := 0 to |s|
      invariant AllAscii(s[..k])
    {
      if s[k] > 0x7F {
        return false;
      }
    }
    assert s[..|s|] == s;
    isAscii := true;
  }

  ghost predicate Encoding(out: seq<Byte>, input: seq<Unit>, i: nat) {
    i <= |input| && out + Encode(input[i..]) == Encode(input)
  }

  lemma EncodeStarts(input: seq<Unit>)
    ensures Encoding([], input, 0)
  {
    assert input[0..] == input;
  }

  lemma EncodeStep(out: seq<Byte>, input: seq<Unit>, i: nat)
    requires i < |input| && Encoding(out, input, i)
    ensures Encoding(out + EncodePoint(FirstCodePoint(input[i..])), input, i + FirstLength(input[i..]))
  {
    var c, n := FirstCodePoint(input[i..]), FirstLength(input[i..]);
    assert input[i..][n..] == input[i + n..];
    Regroup(out, EncodePoint(c), Encode(input[i + n..]));
  }

  lemma Regroup(x: seq<int>, y: seq<int>, z: seq<int>)
    ensures x + (y + z) == x + y + z
  {
  }

  method Utf16ToUtf8(input: seq<Unit>) returns (out: seq<Byte>)
    ensures out == Encode(input)
  {
    var isAscii := IsAllAscii(input);
    if isAscii {
      AsciiEncodesToItself(input);
      return seq(|input|, i requires 0 <= i < |input| => input[i]);
    }
    out := EncodeLoop(input);
  }

  lemma EncodeEnds(out: seq<Byte>, input: seq<Unit>)
    requires Encoding(out, input, |input|)
    ensures out == Encode(input)
  {
    assert input[|input|..] == [];
    assert out + [] == out;
  }

  /** Writes the next code point. */
  method EncodeNext(input: seq<Unit>, i: nat, out: seq<Byte>) returns (more: seq<Byte>, next: nat)
    requires i < |input| && Encoding(out, input, i)
    ensures i < next && Encoding(more, input, next)
  {
    EncodeStep(out, input, i);
    var c, n := ReadCodePoint(input, i);
    more, next := out + EncodePoint(c), i + n;
  }

  method EncodeLoop(input: seq<Unit>) returns (out: seq<Byte>)
    ensures out == Encode(input)
  {
    out := [];
    var i := 0;
    EncodeStarts(input);
    while i < |input|
      invariant Encoding(out, input, i)
    {
      out, i := EncodeNext(input, i, out);
    }
    EncodeEnds(out, input);
  }

  method ReadCodePoint(input: seq<Unit>, i: nat) returns (c: CodePoint, n: nat)
    requires i < |input|
    ensures c == FirstCodePoint(input[i..]) && n == FirstLength(input[i..])
  {
    c, n := input[i], 1;
    if IsHigh(input[i]) && i + 1 < |input| && IsLow(input[i + 1]) {
      c, n := PairValue(input[i], input[i + 1]), 2;
    }
  }

  ghost predicate Decoding(out: seq<Unit>, data: seq<Byte>, i: nat) {
    i <= |data| && out + Decode(data[i..]) == Decode(data)
  }

  lemma DecodeStarts(data: seq<Byte>)
    ensures Decoding([], data, 0)
  {
    assert data[0..] == data;
  }

  lemma DecodeStops(out: seq<Unit>, data: seq<Byte>, i: nat)
    requires i < |data| && Decoding(out, data, i) && FirstPiece(data[i..]).Truncated?
    ensures Decoding(out, data, |data|)
  {
    assert Decode(data[i..]) == [];
    assert data[|data|..] == [];
  }

  lemma DecodeStep(out: seq<Unit>, data: seq<Byte>, i: nat, units: seq<Unit>, length: nat)
    requires i < |data| && Decoding(out, data, i) && FirstPiece(data[i..]) == Piece(units, length)
    ensures i + length <= |data| && Decoding(out + units, data, i + length)
  {
    assert data[i..][length..] == data[i + length..];
    assert Decode(data[i..]) == units + Decode(data[i + length..]);
    Regroup(out, units, Decode(data[i + length..]));
  }

  lemma DecodeEnds(out: seq<Unit>, data: seq<Byte>)
    requires Decoding(out, data, |data|)
    ensures out == Decode(data)
  {
    assert data[|data|..] == [];
    assert out + [] == out;
  }

  method Utf8ToUtf16(data: seq<Byte>) returns (out: seq<Unit>)
    ensures out == Decode(data)
  {
    var isAscii := IsAllAscii(data);
    if isAscii {
      AsciiDecodesToItself(data);
      return seq(|data|, i requires 0 <= i < |data| => data[i]);
    }
    out := DecodeLoop(data);
  }

  /** Reads the next piece, or finds the rest truncated. */
  method DecodeNext(data: seq<Byte>, i: nat, out: seq<Unit>) returns (more: seq<Unit>, next: nat)
    requires i < |data| && Decoding(out, data, i)
    ensures i < next <= |data| && Decoding(more, data, next)
  {
    var piece := ReadPiece(data, i);
    if piece.Truncated? {
      DecodeStops(out, data, i);
      return out, |data|;
    }
    DecodeStep(out, data, i, piece.units, piece.length);
    more, next := out + piece.units, i + piece.length;
  }

  method DecodeLoop(data: seq<Byte>) returns (out: seq<Unit>)
    ensures out == Decode(data)
  {
    out := [];
    var i := 0;
    DecodeStarts(data);
    while i < |data|
      invariant Decoding(out, data, i)
    {
      out, i := DecodeNext(data, i, out);
    }
    DecodeEnds(out, data);
  }

  method ReadPiece(data: seq<Byte>, i: nat) returns (piece: Piece)
    requires i < |data|
    ensures piece == FirstPiece(data[i..])
  {
    var lead := LeadOf(data[i]);
    if lead.Invalid? {
      return Piece([], 1);
    }
    if i + lead.extra >= |data| {
      return Truncated;
    }
    var rest := data[i + 1..i + lead.extra + 1];
    assert data[i..][1..lead.extra + 1] == rest;
    var valid, value := ReadContinuation(lead.bits, rest);
    if !valid {
      return Piece([], lead.extra + 1);
    }
    assert value == PointOf(data[i], rest);
    return Piece(UnitsOf(value), lead.extra + 1);
  }

  method ReadContinuation(bits: nat, rest: seq<Byte>) returns (valid: bool, value: nat)
    ensures valid <==> Continued(rest)
    ensures valid ==> value == Accumulate(bits, rest)
  {
    value := bits;
    for k := 0 to |rest|
      invariant Continued(rest[..k])
      invariant Continued(rest) ==> Accumulate(value, rest[k..]) == Accumulate(bits, rest)
    {
      if !IsContinuation(rest[k]) {
        return false, 0;
      }
      assert Continued(rest) ==> Continued(rest[k..]);
      value := value * 0x40 + LowBits(rest[k]);
    }
    assert rest[..|rest|] == rest;
    valid := true;
  }

  // ---- the round trip ----

  lemma DecodesPoint(c: CodePoint, rest: seq<Byte>)
    ensures Decode(EncodePoint(c) + rest) == UnitsOf(c) + Decode(rest)
  {
    var b := EncodePoint(c);
    var lead := LeadOf(b[0]);
    assert |b| == lead.extra + 1;
    assert (b + rest)[1..lead.extra + 1] == b[1..];
    assert (b + rest)[lead.extra + 1..] == rest;
    Accumulates(c);
  }

  lemma Digits(c: nat)
    ensures c == c / 0x40 * 0x40 + c % 0x40
    ensures c / 0x40 == c / 0x1000 * 0x40 + c / 0x40 % 0x40
    ensures c / 0x1000 == c / 0x4_0000 * 0x40 + c / 0x1000 % 0x40
  {
  }

  lemma Accumulates(c: CodePoint)
    ensures var b := EncodePoint(c);
            LeadOf(b[0]).Lead? && Continued(b[1..]) && Accumulate(LeadOf(b[0]).bits, b[1..]) == c
  {
    var b := EncodePoint(c);
    var rest := b[1..];
    Digits(c);
    if 0x7F < c <= 0x7FF {
      Accumulate1(c / 0x40, rest);
    } else if 0x7FF < c <= 0xFFFF {
      Accumulate2(c / 0x1000, rest);
    } else if 0xFFFF < c {
      Accumulate3(c / 0x4_0000, rest);
    }
  }

  /** Every sequence of 16-bit units survives the store, lone surrogates included. */
  lemma {:induction false} RoundTrip(s: seq<Unit>)
    ensures Decode(Encode(s)) == s
  {
    if s != [] {
      var n := FirstLength(s);
      DecodesPoint(FirstCodePoint(s), Encode(s[n..]));
      RoundTrip(s[n..]);
      FirstUnits(s);
    }
  }

  lemma FirstUnits(s: seq<Unit>)
    requires s != []
    ensures UnitsOf(FirstCodePoint(s)) + s[FirstLength(s)..] == s
  {
    if StartsWithPair(s) {
      var c := PairValue(s[0], s[1]) - 0x1_0000;
      assert c / 0x400 == s[0] - 0xD800 && c % 0x400 == s[1] - 0xDC00;
    }
  }

  // ---- well-formedness ----

  predicate In(b: Byte, lo: int, hi: int) { lo <= b <= hi }

  /** One encoded character at the front (the grammar of section 4 of RFC 3629); its length, or 0. */
  function CharLength(b: seq<Byte>): (n: nat)
    ensures n <= |b|
  {
    if |b| >= 1 && In(b[0], 0, 0x7F) then 1
    else if |b| >= 2 && In(b[0], 0xC2, 0xDF) && IsContinuation(b[1]) then 2
    else if |b| >= 3 && IsContinuation(b[2]) && (
      || (b[0] == 0xE0 && In(b[1], 0xA0, 0xBF))
      || (In(b[0], 0xE1, 0xEC) && IsContinuation(b[1]))
      || (b[0] == 0xED && In(b[1], 0x80, 0x9F))
      || (In(b[0], 0xEE, 0xEF) && IsContinuation(b[1]))) then 3
    else if |b| >= 4 && IsContinuation(b[2]) && IsContinuation(b[3]) && (
      || (b[0] == 0xF0 && In(b[1], 0x90, 0xBF))
      || (In(b[0], 0xF1, 0xF3) && IsContinuation(b[1]))
      || (b[0] == 0xF4 && In(b[1], 0x80, 0x8F))) then 4
    else 0
  }

  predicate WellFormedUtf8(b: seq<Byte>) {
    b == [] || (CharLength(b) > 0 && WellFormedUtf8(b[CharLength(b)..]))
  }

  lemma ThreeByteChar(c: CodePoint, rest: seq<Byte>)
    requires 0x7FF < c <= 0xFFFF
    ensures CharLength(EncodePoint(c) + rest) == if IsSurrogate(c) then 0 else 3
  {
    var high, middle := c / 0x1000, c / 0x40 % 0x40;
    Digits(c);
    var b := EncodePoint(c) + rest;
    assert b[0] == 0xE0 + high && b[1] == 0x80 + middle && IsContinuation(b[2]);
    assert IsSurrogate(c) <==> high == 0xD && middle >= 0x20;
  }

  lemma FourByteChar(c: CodePoint, rest: seq<Byte>)
    requires 0xFFFF < c
    ensures CharLength(EncodePoint(c) + rest) == 4
  {
    var high, middle := c / 0x4_0000, c / 0x1000 % 0x40;
    Digits(c);
    var b := EncodePoint(c) + rest;
    assert b[0] == 0xF0 + high && b[1] == 0x80 + middle && IsContinuation(b[2]) && IsContinuation(b[3]);
  }

  lemma PointIsOneChar(c: CodePoint, rest: seq<Byte>)
    ensures CharLength(EncodePoint(c) + rest) == if IsSurrogate(c) then 0 else |EncodePoint(c)|
  {
    if 0x7FF < c <= 0xFFFF {
      ThreeByteChar(c, rest);
    } else if 0xFFFF < c {
      FourByteChar(c, rest);
    }
  }

  /** What the store writes is UTF-8 exactly when the name is well-formed UTF-16: the encoder departs
      from the standard only for lone surrogates. */
  lemma {:induction false} WellFormedIffPaired(s: seq<Unit>)
    ensures WellFormedUtf8(Encode(s)) <==> PairedSurrogates(s)
  {
    if s != [] {
      var c, rest := FirstCodePoint(s), s[FirstLength(s)..];
      PointIsOneChar(c, Encode(rest));
      WellFormedIffPaired(rest);
      assert (EncodePoint(c) + Encode(rest))[|EncodePoint(c)|..] == Encode(rest);
    }
  }

  /** The number that the bytes of one character stand for (section 3 of RFC 3629). */
  function Utf8Value(b: seq<Byte>): int
    requires 1 <= |b| <= 4
  {
    if |b| == 1 then b[0] as int
    else if |b| == 2 then (b[0] as int - 0xC0) * 0x40 + (b[1] as int - 0x80)
    else if |b| == 3 then (b[0] as int - 0xE0) * 0x1000 + (b[1] as int - 0x80) * 0x40 + (b[2] as int - 0x80)
    else (b[0] as int - 0xF0) * 0x4_0000 + (b[1] as int - 0x80) * 0x1000 + (b[2] as int - 0x80) * 0x40 + (b[3] as int - 0x80)
  }

  /** Each code point is written in the shortest form, with continuation bytes after the first, and stands for
      itself. */
  lemma EncodesByStandard(c: CodePoint)
    ensures var b := EncodePoint(c);
            && |b| == (if c < 0x80 then 1 else if c < 0x800 then 2 else if c < 0x1_0000 then 3 else 4)
            && Utf8Value(b) == c && forall k :: 0 < k < |b| ==> 0x80 <= b[k] < 0xC0
  {
    Digits(c);
  }

  /** How many continuation bytes are announced by a byte that may come first. */
  function Announced(b: Byte): (n: nat)
    requires b < 0x80 || 0xC0 <= b < 0xF8
    ensures n <= 3
  {
    if b < 0x80 then 0 else if b < 0xE0 then 1 else if b < 0xF0 then 2 else 3
  }

  /** The units are the number itself, or the pair of surrogates for it. */
  predicate StandsFor(units: seq<Unit>, c: int) {
    || (|units| == 1 && units[0] == c <= 0xFFFF)
    || (|units| == 2 && units[0] >= 0xD800 && 0xDC00 <= units[1] <= 0xDFFF
        && c == 0x1_0000 + 0x400 * (units[0] - 0xD800) as int + (units[1] - 0xDC00) as int)
  }

  /** All `n` bytes after the first are continuation bytes. */
  predicate Intact(b: seq<Byte>, n: nat)
    requires n < |b|
  {
    forall k :: 0 < k <= n ==> 0x80 <= b[k] < 0xC0
  }

  /** What becomes of bytes that need not be well formed: a byte that cannot come first is skipped, a sequence
      that is cut off ends the text, one with a byte that is no continuation is skipped whole, and any other
      gives the units that stand for its number. */
  lemma DecodesByRule(b: seq<Byte>) returns (units: seq<Unit>)
    requires b != []
    ensures 0x80 <= b[0] < 0xC0 || 0xF8 <= b[0] ==> Decode(b) == Decode(b[1..])
    ensures b[0] < 0x80 || 0xC0 <= b[0] < 0xF8 ==> (
              var n := Announced(b[0]);
              if n >= |b| then Decode(b) == []
              else if !Intact(b, n) then Decode(b) == Decode(b[n + 1..])
              else StandsFor(units, Utf8Value(b[..n + 1])) && Decode(b) == units + Decode(b[n + 1..]))
  {
    units := [];
    if b[0] < 0x80 || 0xC0 <= b[0] < 0xF8 {
      var n := Announced(b[0]);
      if n < |b| {
        IntactIff(b, n);
        if Intact(b, n) {
          NumberOf(b, n);
          units := UnitsOf(PointOf(b[0], b[1..n + 1]));
          UnitsStandFor(PointOf(b[0], b[1..n + 1]));
        } else {
          assert [] + Decode(b[n + 1..]) == Decode(b[n + 1..]);
        }
      }
    } else {
      assert [] + Decode(b[1..]) == Decode(b[1..]);
    }
  }

  lemma IntactIff(b: seq<Byte>, n: nat)
    requires n < |b|
    ensures Intact(b, n) <==> Continued(b[1..n + 1])
  {
    var rest := b[1..n + 1];
    assert forall k :: 0 < k <= n ==> b[k] == rest[k - 1];
  }

  lemma UnitsStandFor(c: nat)
    requires c < 0x20_0000
    ensures StandsFor(UnitsOf(c), c)
  {
  }

  lemma NumberOf(b: seq<Byte>, n: nat)
    requires b != [] && (b[0] < 0x80 || 0xC0 <= b[0] < 0xF8) && n == Announced(b[0]) < |b| && Continued(b[1..n + 1])
    ensures PointOf(b[0], b[1..n + 1]) == Utf8Value(b[..n + 1])
  {
    var rest := b[1..n + 1];
    if n == 1 {
      Accumulate1(LeadOf(b[0]).bits, rest);
    } else if n == 2 {
      Accumulate2(LeadOf(b[0]).bits, rest);
    } else if n == 3 {
      Accumulate3(LeadOf(b[0]).bits, rest);
    }
  }

  /** The number that a pair of surrogates stands for (section 2.1 of RFC 2781). */
  lemma PairsByStandard(high: nat, low: nat)
    requires high < 0x400 && low < 0x400
    ensures FirstCodePoint([0xD800 + high, 0xDC00 + low]) == 0x1_0000 + 0x400 * high + low
  {
    assert StartsWithPair([0xD800 + high, 0xDC00 + low]);
  }

  // ---- the ASCII fold ----

  const LETTERS := 26

  /** The two cases of one of the 26 letters. */
  predicate CasePair(upper: int, lower: int) {
    0x41 <= upper < 0x41 + LETTERS && lower == 0x61 + (upper - 0x41)
  }

  /** Equal, or the two cases of one letter. */
  predicate SameIgnoringCase(a: int, b: int) {
    a == b || CasePair(a, b) || CasePair(b, a)
  }

  function FoldOne(x: int): int {
    if 0x41 <= x <= 0x5A then x + 0x20 else x
  }

  /** The fold takes both cases of each letter to the small one and leaves everything else. */
  lemma FoldsLetters(x: int)
    ensures if 0x41 <= x < 0x41 + 26 then FoldOne(x) == FoldOne(x + 0x20) == 0x61 + (x - 0x41) else FoldOne(x) == x
  {
  }

  /** Two units fold alike exactly if they are equal but for the case of a letter. */
  lemma FoldsAlike(a: int, b: int)
    ensures FoldOne(a) == FoldOne(b) <==> SameIgnoringCase(a, b)
  {
  }

  function Fold(s: seq<Unit>): (t: seq<Unit>)
    ensures |t| == |s| && forall k :: 0 <= k < |s| ==> t[k] == FoldOne(s[k])
  {
    seq(|s|, k requires 0 <= k < |s| => FoldOne(s[k]))
  }

  function FoldBytes(b: seq<Byte>): (t: seq<Byte>)
    ensures |t| == |b| && forall k :: 0 <= k < |b| ==> t[k] == FoldOne(b[k])
  {
    seq(|b|, k requires 0 <= k < |b| => FoldOne(b[k]))
  }

  method FoldAsciiUtf8(utf8: seq<Byte>) returns (folded: seq<Byte>)
    ensures folded == FoldBytes(utf8) && |folded| == |utf8|
    ensures forall k :: 0 <= k < |utf8| ==>
              if 0x41 <= utf8[k] < 0x41 + LETTERS then CasePair(utf8[k], folded[k]) else folded[k] == utf8[k]
  {
    folded := utf8;
    for k := 0 to |folded|
      invariant |folded| == |utf8|
      invariant forall j :: 0 <= j < k ==> folded[j] == FoldOne(utf8[j])
      invariant forall j :: k <= j < |utf8| ==> folded[j] == utf8[j]
    {
      if 0x41 <= folded[k] <= 0x5A {
        folded := folded[k := folded[k] + 0x20];
      }
    }
  }

  lemma FoldsPoint(c: CodePoint)
    ensures FoldBytes(EncodePoint(c)) == EncodePoint(FoldOne(c))
  {
  }

  lemma FoldsEach(a: seq<Byte>, b: seq<Byte>)
    ensures FoldBytes(a + b) == FoldBytes(a) + FoldBytes(b)
  {
  }

  lemma FoldsFront(s: seq<Unit>)
    requires s != []
    ensures var n := FirstLength(s);
            && FirstLength(Fold(s)) == n && FirstCodePoint(Fold(s)) == FoldOne(FirstCodePoint(s))
            && Fold(s)[n..] == Fold(s[n..])
  {
  }

  /** Folding the stored bytes is folding the name. */
  lemma {:induction false} FoldCommutes(s: seq<Unit>)
    ensures FoldBytes(Encode(s)) == Encode(Fold(s))
  {
    if s != [] {
      var c, rest := FirstCodePoint(s), s[FirstLength(s)..];
      FoldCommutes(rest);
      FoldsPoint(c);
      FoldsFront(s);
      FoldsEach(EncodePoint(c), Encode(rest));
      assert Encode(Fold(s)) == EncodePoint(FoldOne(c)) + Encode(Fold(rest));
    }
  }

  // ---- searching the bytes ----

  predicate StartsWith(s: seq<int>, needle: seq<int>) {
    |needle| <= |s| && s[..|needle|] == needle
  }

  predicate Contains(s: seq<int>, needle: seq<int>) {
    exists k :: 0 <= k <= |s| && StartsWith(s[k..], needle)
  }

  /** At this place the text spells the needle, but for the case of letters. */
  predicate SpellsAt(s: seq<int>, needle: seq<int>, k: int) {
    0 <= k && k + |needle| <= |s| && forall i :: 0 <= i < |needle| ==> SameIgnoringCase(s[k + i], needle[i])
  }

  /** The folded text contains the folded needle exactly if the text somewhere spells it. */
  lemma FoldedContains(s: seq<Byte>, needle: seq<Byte>)
    ensures Contains(FoldBytes(s), FoldBytes(needle)) <==> exists k :: SpellsAt(s, needle, k)
  {
    var folded, want := FoldBytes(s), FoldBytes(needle);
    if k :| 0 <= k <= |folded| && StartsWith(folded[k..], want) {
      forall i | 0 <= i < |needle| ensures SameIgnoringCase(s[k + i], needle[i]) {
        assert folded[k..][..|want|][i] == want[i];
        FoldsAlike(s[k + i], needle[i]);
      }
      assert SpellsAt(s, needle, k);
    }
    if k :| SpellsAt(s, needle, k) {
      forall i | 0 <= i < |needle| ensures folded[k + i] == want[i] {
        FoldsAlike(s[k + i], needle[i]);
      }
      assert folded[k..][..|want|] == want;
      assert StartsWith(folded[k..], want);
    }
  }

  lemma {:induction false} PrefixesAgree(s: seq<Unit>, needle: seq<Unit>)
    requires AllAscii(needle)
    ensures StartsWith(Encode(s), needle) <==> StartsWith(s, needle)
    decreases |needle|
  {
    if needle != [] && s != [] {
      var c, n := FirstCodePoint(s), FirstLength(s);
      var b := EncodePoint(c);
      PrefixesAgree(s[n..], needle[1..]);
      StartsWithTail(Encode(s), needle);
      StartsWithTail(s, needle);
      if c <= 0x7F {
        assert Encode(s)[1..] == Encode(s[n..]);
      } else {
        assert Encode(s)[0] == b[0] >= 0x80;
      }
    }
  }

  lemma StartsWithTail(s: seq<int>, needle: seq<int>)
    requires s != [] && needle != []
    ensures StartsWith(s, needle) <==> s[0] == needle[0] && StartsWith(s[1..], needle[1..])
  {
    if |needle| <= |s| {
      assert s[..|needle|] == [s[0]] + s[1..][..|needle| - 1];
      assert needle == [needle[0]] + needle[1..];
      assert s[1..][..|needle| - 1] == s[..|needle|][1..];
    }
  }

  lemma ContainsTail(s: seq<int>, needle: seq<int>)
    requires s != []
    ensures Contains(s, needle) <==> StartsWith(s, needle) || Contains(s[1..], needle)
  {
    if Contains(s, needle) {
      var k :| 0 <= k <= |s| && StartsWith(s[k..], needle);
      if k > 0 {
        assert s[1..][k - 1..] == s[k..];
      } else {
        assert s[0..] == s;
      }
    }
    if StartsWith(s, needle) {
      assert s[0..] == s;
    }
    if Contains(s[1..], needle) {
      var k :| 0 <= k <= |s[1..]| && StartsWith(s[1..][k..], needle);
      assert s[k + 1..] == s[1..][k..];
    }
  }

  /** No match of an ASCII needle starts inside a character of two or more bytes. */
  lemma {:induction false} ContainsSkips(front: seq<int>, rest: seq<int>, needle: seq<int>)
    requires needle != [] && AllAscii(needle) && forall k :: 0 <= k < |front| ==> front[k] > 0x7F
    ensures Contains(front + rest, needle) <==> Contains(rest, needle)
  {
    if front == [] {
      assert front + rest == rest;
    } else {
      ContainsTail(front + rest, needle);
      StartsWithTail(front + rest, needle);
      assert (front + rest)[1..] == front[1..] + rest;
      ContainsSkips(front[1..], rest, needle);
    }
  }

  /** Searching the stored bytes for an ASCII needle finds exactly what searching the units finds. */
  lemma {:induction false} ByteSearchIsUnitSearch(s: seq<Unit>, needle: seq<Unit>)
    requires needle != [] && AllAscii(needle)
    ensures Contains(Encode(s), needle) <==> Contains(s, needle)
  {
    if s != [] {
      var c, n := FirstCodePoint(s), FirstLength(s);
      ByteSearchIsUnitSearch(s[n..], needle);
      if c <= 0x7F {
        PrefixesAgree(s, needle);
        ContainsTail(s, needle);
        ContainsTail(Encode(s), needle);
        assert Encode(s)[1..] == Encode(s[n..]);
      } else {
        ContainsSkips(EncodePoint(c), Encode(s[n..]), needle);
        ContainsSkips(s[..n], s[n..], needle);
        assert s[..n] + s[n..] == s;
      }
    }
  }
}
