/** AMF0 encoding of strings and numbers (Source/DataLayer/AFM0Encoder.swift,
    and the older string encoder in Source/Network/RTMPType.swift). Strings
    arrive as their UTF-8 bytes; a number arrives as its 64-bit IEEE bit
    pattern. */
module Amf0 {
  import opened Wire
  import opened RtmpTypes

  datatype EncodeError = StringOutOfSize

  /** Longest string the short form (marker 0x02, 16-bit length) carries. */
  const MaxShortString: nat := 0xFFFF
  /** Longest string the long form (marker 0x0C, 32-bit length) carries. */
  const MaxLongString: nat := 0xFFFF_FFFF

  /** The byte order a length prefix is written in: the host's own (what
      `storeBytes` produces; little-endian on the targets the publisher runs
      on) or network order (big-endian, which section 1.3 of the AMF0
      specification prescribes for U16 and U32). */
  datatype ByteOrder = Host | Network

  function EncodeLength(order: ByteOrder, n: nat, w: nat): (r: seq<uint8>)
    ensures |r| == w
  {
    match order
    case Host => EncodeLE(n, w)
    case Network => EncodeBE(n, w)
  }

  function DecodeLength(order: ByteOrder, bs: seq<uint8>): nat
  {
    match order
    case Host => DecodeLE(bs)
    case Network => DecodeBE(bs)
  }

  lemma LengthRoundTrip(order: ByteOrder, n: nat, w: nat)
    requires n < Pow256(w)
    ensures DecodeLength(order, EncodeLength(order, n, w)) == n
  {
    match order
    case Host => DecodeEncodeLE(n, w);
    case Network => DecodeEncodeBE(n, w);
  }

  /** The string encoder with its length prefix in the given byte order:
      the short form up to 0xFFFF bytes, the long form up to 0xFFFFFFFF, and
      an error beyond (the buffer is then left as it was). */
  function AppendStringIn(order: ByteOrder, data: seq<uint8>, utf8: seq<uint8>): (r: Result<seq<uint8>, EncodeError>)
  {
    var count := |utf8|;
    if count <= MaxShortString then
      Ok(data + [Marker(String)] + EncodeLength(order, count, 2) + utf8)
    else if count <= MaxLongString then
      Ok(data + [Marker(LongString)] + EncodeLength(order, count, 4) + utf8)
    else
      Err(StringOutOfSize)
  }

  /** Where the marker, the length prefix and the string bytes land. */
  lemma StringLayout(order: ByteOrder, data: seq<uint8>, utf8: seq<uint8>)
    ensures var r := AppendStringIn(order, data, utf8);
      && (r.Ok? <==> |utf8| <= MaxLongString)
      && (r.Ok? ==> data <= r.value)
      && (|utf8| <= MaxShortString ==>
          && r.Ok? && |r.value| == |data| + 3 + |utf8|
          && r.value[|data|] == 0x02
          && DecodeLength(order, r.value[|data| + 1 .. |data| + 3]) == |utf8|
          && r.value[|data| + 3 ..] == utf8)
      && (MaxShortString < |utf8| <= MaxLongString ==>
          && r.Ok? && |r.value| == |data| + 5 + |utf8|
          && r.value[|data|] == 0x0C
          && DecodeLength(order, r.value[|data| + 1 .. |data| + 5]) == |utf8|
          && r.value[|data| + 5 ..] == utf8)
  {
    var r := AppendStringIn(order, data, utf8);
    if |utf8| <= MaxShortString {
      assert r.value[|data| + 1 .. |data| + 3] == EncodeLength(order, |utf8|, 2);
      LengthRoundTrip(order, |utf8|, 2);
    } else if |utf8| <= MaxLongString {
      assert r.value[|data| + 1 .. |data| + 5] == EncodeLength(order, |utf8|, 4);
      LengthRoundTrip(order, |utf8|, 4);
    }
  }

  /** `String.append` as written in AFM0Encoder.swift: the length prefix is
      stored in host byte order. It only ever extends the buffer; a short
      string adds 3 + n bytes, a long one 5 + n, and the prefix reads back as
      n in the order it was written in. */
  function AppendString(data: seq<uint8>, utf8: seq<uint8>): (r: Result<seq<uint8>, EncodeError>)
    ensures r.Ok? <==> |utf8| <= MaxLongString
    ensures r.Ok? ==> data <= r.value
    ensures |utf8| <= MaxShortString ==>
      && r.Ok? && |r.value| == |data| + 3 + |utf8|
      && r.value[|data|] == 0x02
      && DecodeLE(r.value[|data| + 1 .. |data| + 3]) == |utf8|
      && r.value[|data| + 3 ..] == utf8
    ensures MaxShortString < |utf8| <= MaxLongString ==>
      && r.Ok? && |r.value| == |data| + 5 + |utf8|
      && r.value[|data|] == 0x0C
      && DecodeLE(r.value[|data| + 1 .. |data| + 5]) == |utf8|
      && r.value[|data| + 5 ..] == utf8
  {
    StringLayout(Host, data, utf8);
    AppendStringIn(Host, data, utf8)
  }

  /** The string encoder with the big-endian length prefix AMF0 requires. */
  function AppendStringNetwork(data: seq<uint8>, utf8: seq<uint8>): (r: Result<seq<uint8>, EncodeError>)
    ensures r.Ok? <==> |utf8| <= MaxLongString
    ensures r.Ok? ==> data <= r.value
    ensures |utf8| <= MaxShortString ==>
      && r.Ok? && |r.value| == |data| + 3 + |utf8|
      && r.value[|data|] == 0x02
      && DecodeBE(r.value[|data| + 1 .. |data| + 3]) == |utf8|
      && r.value[|data| + 3 ..] == utf8
    ensures MaxShortString < |utf8| <= MaxLongString ==>
      && r.Ok? && |r.value| == |data| + 5 + |utf8|
      && r.value[|data|] == 0x0C
      && DecodeBE(r.value[|data| + 1 .. |data| + 5]) == |utf8|
      && r.value[|data| + 5 ..] == utf8
  {
    StringLayout(Network, data, utf8);
    AppendStringIn(Network, data, utf8)
  }

  /** Reads one string value off the front of `bytes`, taking the length
      prefix in the given byte order: the UTF-8 bytes and how many bytes the
      value occupied. */
  function DecodeStringIn(order: ByteOrder, bytes: seq<uint8>): Option<(seq<uint8>, nat)>
  {
    if |bytes| >= 3 && bytes[0] == Marker(String) then
      var n := DecodeLength(order, bytes[1..3]);
      if 3 + n <= |bytes| then Some((bytes[3..3 + n], 3 + n)) else None
    else if |bytes| >= 5 && bytes[0] == Marker(LongString) then
      var n := DecodeLength(order, bytes[1..5]);
      if 5 + n <= |bytes| then Some((bytes[5..5 + n], 5 + n)) else None
    else None
  }

  /** Whatever the byte order, a reader using that same order gets the string
      back from what the encoder appended, whatever follows it. */
  lemma StringRoundTrip(order: ByteOrder, data: seq<uint8>, utf8: seq<uint8>, tail: seq<uint8>)
    requires |utf8| <= MaxLongString
    ensures AppendStringIn(order, data, utf8).Ok?
    ensures var enc := AppendStringIn(order, data, utf8).value[|data|..];
      DecodeStringIn(order, enc + tail) == Some((utf8, |enc|))
  {
    var w := if |utf8| <= MaxShortString then 2 else 4;
    var marker := if |utf8| <= MaxShortString then Marker(String) else Marker(LongString);
    var prefix := EncodeLength(order, |utf8|, w);
    var enc := AppendStringIn(order, data, utf8).value[|data|..];
    assert enc == [marker] + prefix + utf8;
    var bytes := [marker] + prefix + utf8 + tail;
    assert enc + tail == bytes;
    LengthRoundTrip(order, |utf8|, w);
    assert bytes[0] == marker;
    assert bytes[1..1 + w] == prefix;
    assert bytes[1 + w .. 1 + w + |utf8|] == utf8;
  }

  /** The host-order prefix of AFM0Encoder.swift misreads under AMF0's
      network order: the one-byte string "a" is written as 02 01 00 61, whose
      prefix a conforming reader takes as 256, longer than the bytes there. */
  lemma HostOrderPrefixMisread()
    ensures AppendString([], [0x61]) == Ok([0x02, 0x01, 0x00, 0x61])
    ensures DecodeStringIn(Network, AppendString([], [0x61]).value) == None
    ensures DecodeStringIn(Network, AppendStringNetwork([], [0x61]).value) == Some(([0x61], 4))
  {
    LeOfOne();
    assert DecodeBE([0x01, 0x00]) == 256 by {
      assert [0x01, 0x00][..1] == [0x01];
      assert [0x01][..0] == [];
    }
    assert AppendStringIn(Host, [], [0x61]).value == [] + [0x02] + [0x01, 0x00] + [0x61];
    var expected: seq<uint8> := [0x02, 0x01, 0x00, 0x61];
    assert AppendString([], [0x61]).value == expected;
    var enc := AppendString([], [0x61]).value;
    assert enc[1..3] == [0x01, 0x00];
    StringRoundTrip(Network, [], [0x61], []);
    assert AppendStringNetwork([], [0x61]).value[0..] + [] == AppendStringNetwork([], [0x61]).value;
  }

  /** `String.append` as written in RTMPType.swift: the same boundaries and
      the same error, but only the marker and the host-order length prefix
      are appended; the string bytes never are. */
  function AppendStringLegacy(data: seq<uint8>, utf8: seq<uint8>): (r: Result<seq<uint8>, EncodeError>)
    ensures r.Ok? <==> |utf8| <= MaxLongString
    ensures r.Ok? ==> data <= r.value
    ensures |utf8| <= MaxShortString ==> r.Ok? && |r.value| == |data| + 3 && r.value[|data|] == 0x02
    ensures MaxShortString < |utf8| <= MaxLongString ==>
      r.Ok? && |r.value| == |data| + 5 && r.value[|data|] == 0x0C
  {
    var count := |utf8|;
    if count <= MaxShortString then
      Ok(data + [Marker(String)] + EncodeLE(count, 2))
    else if count <= MaxLongString then
      Ok(data + [Marker(LongString)] + EncodeLE(count, 4))
    else
      Err(StringOutOfSize)
  }

  /** The older encoder's output is the newer one's with the string bytes cut
      off, so any two strings of one length encode alike and no reader can
      tell them apart. */
  lemma LegacyOmitsPayload(data: seq<uint8>, s: seq<uint8>, t: seq<uint8>)
    requires |s| <= MaxLongString && |s| == |t|
    ensures AppendString(data, s).value == AppendStringLegacy(data, s).value + s
    ensures AppendStringLegacy(data, s) == AppendStringLegacy(data, t)
  {
  }

  /** "a" and "b" encode to the same bytes under the older encoder. */
  lemma LegacyConfusesStrings()
    ensures AppendStringLegacy([], [0x61]) == AppendStringLegacy([], [0x62]) == Ok([0x02, 0x01, 0x00])
  {
    LeOfOne();
    assert AppendStringLegacy([], [0x61]).value == [] + [0x02] + [0x01, 0x00];
    var expected: seq<uint8> := [0x02, 0x01, 0x00];
    assert AppendStringLegacy([], [0x61]).value == expected;
    assert AppendStringLegacy([], [0x62]).value == expected;
  }

  lemma LeOfOne()
    ensures EncodeLE(1, 2) == [0x01, 0x00]
  {
    assert EncodeLE(0, 1) == [0x00] + EncodeLE(0, 0);
  }

  /** A 64-bit IEEE bit pattern, read as an unsigned integer. */
  type Bits64 = n: nat | n < 0x1_0000_0000_0000_0000

  lemma Pow256Of8()
    ensures Pow256(8) == 0x1_0000_0000_0000_0000
  {
    assert Pow256(2) == 0x1_0000;
    assert Pow256(4) == Pow256(2) * Pow256(2);
    assert Pow256(8) == Pow256(4) * Pow256(4);
  }

  /** `Double.append`: marker 0x00, then the 64-bit pattern byte-swapped to
      big-endian before it is stored. */
  function AppendDouble(data: seq<uint8>, bits: Bits64): (r: seq<uint8>)
    ensures data <= r && |r| == |data| + 9
    ensures r[|data|] == 0x00
    ensures DecodeBE(r[|data| + 1..]) == bits
  {
    Pow256Of8();
    DecodeEncodeBE(bits, 8);
    var r := data + [Marker(Number)] + EncodeBE(bits, 8);
    assert r[|data| + 1..] == EncodeBE(bits, 8);
    r
  }

  /** Reads one number value off the front of `bytes`. */
  function DecodeNumber(bytes: seq<uint8>): Option<Bits64>
  {
    if |bytes| >= 9 && bytes[0] == Marker(Number) then
      var v := DecodeBE(bytes[1..9]);
      if v < 0x1_0000_0000_0000_0000 then Some(v) else None
    else None
  }

  /** Every bit pattern survives encoding and decoding, whatever follows. */
  lemma NumberRoundTrip(data: seq<uint8>, bits: Bits64, tail: seq<uint8>)
    ensures DecodeNumber(AppendDouble(data, bits)[|data|..] + tail) == Some(bits)
  {
    var enc := AppendDouble(data, bits)[|data|..] + tail;
    assert enc[1..9] == AppendDouble(data, bits)[|data| + 1..];
  }

  /** The other numeric types the source extends: each is converted to a
      Double first. */
  datatype Numeric =
    | FloatValue(f: bv32)
    | IntValue(i: int)
    | UIntValue(u: nat)
    | Int64Value(i64: int)
    | UInt64Value(u64: nat)

  /** `Float/Int/UInt/Int64/UInt64.append`: the Double conversion (floating
      point, given here as `toDouble`) followed by `Double.append`, so each
      adds one 9-byte number value that decodes to the converted pattern. */
  function AppendNumeric(data: seq<uint8>, v: Numeric, toDouble: Numeric -> Bits64): (r: seq<uint8>)
    ensures data <= r && |r| == |data| + 9 && r[|data|] == 0x00
    ensures DecodeNumber(r[|data|..]) == Some(toDouble(v))
  {
    var r := AppendDouble(data, toDouble(v));
    NumberRoundTrip(data, toDouble(v), []);
    assert r[|data|..] + [] == r[|data|..];
    r
  }
}
