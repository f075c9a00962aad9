/** Shared vocabulary: optional values, results, and the fixed-width integer
    layouts that go onto the wire (host order on the little-endian Apple
    targets the publisher runs on, and the big-endian network order RTMP and
    AMF0 prescribe). */
module Wire {

  datatype Option<+T> = None | Some(value: T)

  datatype Result<+T, +E> = Ok(value: T) | Err(error: E)

  /** An octet. */
  newtype uint8 = x: int | 0 <= x < 0x100

  /** 256 to the power w: the number of values a w-byte field can hold. */
  function Pow256(w: nat): (p: nat)
    ensures p >= 1
  {
    if w == 0 then 1 else 256 * Pow256(w - 1)
  }

  /** n laid out in w bytes, least significant byte first. */
  function EncodeLE(n: nat, w: nat): (r: seq<uint8>)
    ensures |r| == w
  {
    if w == 0 then [] else [(n % 256) as uint8] + EncodeLE(n / 256, w - 1)
  }

  /** n laid out in w bytes, most significant byte first. */
  function EncodeBE(n: nat, w: nat): (r: seq<uint8>)
    ensures |r| == w
  {
    if w == 0 then [] else EncodeBE(n / 256, w - 1) + [(n % 256) as uint8]
  }

  /** The unsigned value of bytes read least significant first. */
  function DecodeLE(bs: seq<uint8>): nat
  {
    if |bs| == 0 then 0 else bs[0] as nat + 256 * DecodeLE(bs[1..])
  }

  /** The unsigned value of bytes read most significant first. */
  function DecodeBE(bs: seq<uint8>): nat
  {
    if |bs| == 0 then 0 else 256 * DecodeBE(bs[..|bs| - 1]) + bs[|bs| - 1] as nat
  }

  lemma {:induction false} DivBound(n: nat, w: nat)
    requires w > 0 && n < Pow256(w)
    ensures n / 256 < Pow256(w - 1)
  {
  }

  lemma SplitMod(n: nat)
    ensures n % 256 + 256 * (n / 256) == n
  {
  }

  /** Reading back little-endian bytes yields the value written, for every
      value the width can hold. */
  lemma {:induction false} DecodeEncodeLE(n: nat, w: nat)
    requires n < Pow256(w)
    ensures DecodeLE(EncodeLE(n, w)) == n
  {
    if w > 0 {
      DivBound(n, w);
      DecodeEncodeLE(n / 256, w - 1);
      var r := EncodeLE(n, w);
      assert r[1..] == EncodeLE(n / 256, w - 1);
      SplitMod(n);
    }
  }

  /** Reading back big-endian bytes yields the value written. */
  lemma {:induction false} DecodeEncodeBE(n: nat, w: nat)
    requires n < Pow256(w)
    ensures DecodeBE(EncodeBE(n, w)) == n
  {
    if w > 0 {
      DivBound(n, w);
      var high := EncodeBE(n / 256, w - 1);
      DecodeEncodeBE(n / 256, w - 1);
      DecodeBEAppend(high, (n % 256) as uint8);
      Recompose(n, DecodeBE(high), (n % 256) as uint8);
    }
  }

  lemma Recompose(n: nat, high: nat, low: uint8)
    requires high == n / 256 && low as nat == n % 256
    ensures 256 * high + low as nat == n
  {
  }

  /** One more byte at the least significant end. */
  lemma DecodeBEAppend(bs: seq<uint8>, b: uint8)
    ensures DecodeBE(bs + [b]) == 256 * DecodeBE(bs) + b as nat
  {
    assert (bs + [b])[..|bs|] == bs;
  }

  /** Decoding a byte string read in the opposite order gives the same value:
      the big-endian layout is the little-endian one reversed. */
  lemma {:induction false} EncodeBEIsReversedLE(n: nat, w: nat)
    ensures forall i :: 0 <= i < w ==> EncodeBE(n, w)[i] == EncodeLE(n, w)[w - 1 - i]
  {
    if w > 0 {
      EncodeBEIsReversedLE(n / 256, w - 1);
    }
  }
}
