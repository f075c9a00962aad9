/** The session status of Source/Network/RTMPSession.swift: an option set
    over fifteen flags whose raw value is the sum of the flags' powers of
    two. The session's guards compare that raw value numerically, so the
    model keeps both views and relates them. */
module Status {

  datatype Flag =
    | Unconnect | Connected | HandshakeStarted | HandshakeC0 | HandshakeC1
    | HandshakeS0 | HandshakeS1 | HandshakeS2 | HandshakeC2 | HandshakeComplete
    | FcPublish | Ready | Start | Error | Disconnected

  /** The flags in bit order: flag i is the one with raw value 1 << i. */
  const AllFlags: seq<Flag> := [
    Unconnect, Connected, HandshakeStarted, HandshakeC0, HandshakeC1,
    HandshakeS0, HandshakeS1, HandshakeS2, HandshakeC2, HandshakeComplete,
    FcPublish, Ready, Start, Error, Disconnected]

  const FlagCount: nat := 15

  /** The bit each flag occupies. */
  function Bit(f: Flag): (b: nat)
    ensures b < FlagCount && AllFlags[b] == f
  {
    match f
    case Unconnect => 0
    case Connected => 1
    case HandshakeStarted => 2
    case HandshakeC0 => 3
    case HandshakeC1 => 4
    case HandshakeS0 => 5
    case HandshakeS1 => 6
    case HandshakeS2 => 7
    case HandshakeC2 => 8
    case HandshakeComplete => 9
    case FcPublish => 10
    case Ready => 11
    case Start => 12
    case Error => 13
    case Disconnected => 14
  }

  type Status = set<Flag>

  function Pow2(k: nat): (p: nat)
    ensures p >= 1
  {
    if k == 0 then 1 else 2 * Pow2(k - 1)
  }

  /** The part of the raw value contributed by the flags below bit k. */
  function RawBelow(s: Status, k: nat): nat
    requires k <= FlagCount
  {
    if k == 0 then 0
    else RawBelow(s, k - 1) + (if AllFlags[k - 1] in s then Pow2(k - 1) else 0)
  }

  /** The option set's `rawValue`. */
  function RawValue(s: Status): nat
  {
    RawBelow(s, FlagCount)
  }

  /** The flags below bit k contribute less than 2^k. */
  lemma {:induction false} RawBelowBound(s: Status, k: nat)
    requires k <= FlagCount
    ensures RawBelow(s, k) < Pow2(k)
  {
    if k > 0 {
      RawBelowBound(s, k - 1);
    }
  }

  /** Only flags below bit k contribute to RawBelow(s, k). */
  lemma {:induction false} RawBelowIgnoresHigher(s: Status, t: Status, k: nat)
    requires k <= FlagCount
    requires forall i :: 0 <= i < k ==> (AllFlags[i] in s <==> AllFlags[i] in t)
    ensures RawBelow(s, k) == RawBelow(t, k)
  {
    if k > 0 {
      RawBelowIgnoresHigher(s, t, k - 1);
    }
  }

  /** A flag at bit b below k contributes its whole power of two. */
  lemma {:induction false} RawBelowAtLeast(s: Status, f: Flag, k: nat)
    requires k <= FlagCount && f in s && Bit(f) < k
    ensures RawBelow(s, k) >= Pow2(Bit(f))
  {
    if Bit(f) < k - 1 {
      RawBelowAtLeast(s, f, k - 1);
    }
  }

  /** Every flag set at bit k or above contributes nothing below k, so the
      raw value stays below 2^k exactly when no such flag is set. */
  lemma {:induction false} RawBelowPow2(s: Status, k: nat)
    requires k <= FlagCount
    ensures RawValue(s) < Pow2(k) <==> forall f :: f in s ==> Bit(f) < k
  {
    if forall f :: f in s ==> Bit(f) < k {
      RawBelowAll(s, k);
      RawBelowBound(s, k);
    } else {
      var f :| f in s && Bit(f) >= k;
      RawBelowAtLeast(s, f, FlagCount);
      Pow2Monotone(k, Bit(f));
    }
  }

  /** With no flag at bit k or above, RawBelow(s, k) is already the whole raw
      value. */
  lemma {:induction false} RawBelowAll(s: Status, k: nat)
    requires k <= FlagCount
    requires forall f :: f in s ==> Bit(f) < k
    ensures RawValue(s) == RawBelow(s, k)
    decreases FlagCount - k
  {
    if k < FlagCount {
      assert Bit(AllFlags[k]) == k;
      assert AllFlags[k] !in s;
      RawBelowAll(s, k + 1);
    }
  }

  lemma {:induction false} Pow2Monotone(a: nat, b: nat)
    requires a <= b
    ensures Pow2(a) <= Pow2(b)
    decreases b
  {
    if a < b {
      Pow2Monotone(a, b - 1);
    }
  }

  /** The raw value of a single flag is the constant the source gives it. */
  lemma RawOfFlag(f: Flag)
    ensures RawValue({f}) == Pow2(Bit(f))
  {
    RawBelowAll({f}, Bit(f) + 1);
    RawBelowIgnoresHigher({f}, {}, Bit(f));
    RawBelowZero(Bit(f));
  }

  lemma {:induction false} RawBelowZero(k: nat)
    requires k <= FlagCount
    ensures RawBelow({}, k) == 0
  {
    if k > 0 {
      RawBelowZero(k - 1);
    }
  }

  /** Distinct sets have distinct raw values: the raw value is a faithful
      encoding of the option set. */
  lemma {:induction false} RawValueInjective(s: Status, t: Status)
    requires RawValue(s) == RawValue(t)
    ensures s == t
  {
    RawBelowEqual(s, t, FlagCount);
    forall f | f in s ensures f in t {
      assert AllFlags[Bit(f)] == f;
    }
    forall f | f in t ensures f in s {
      assert AllFlags[Bit(f)] == f;
    }
  }

  lemma {:induction false} RawBelowEqual(s: Status, t: Status, k: nat)
    requires k <= FlagCount && RawBelow(s, k) == RawBelow(t, k)
    ensures forall i :: 0 <= i < k ==> (AllFlags[i] in s <==> AllFlags[i] in t)
  {
    if k > 0 {
      RawBelowBound(s, k - 1);
      RawBelowBound(t, k - 1);
      var top := AllFlags[k - 1];
      assert (top in s) == (top in t);
      RawBelowEqual(s, t, k - 1);
    }
  }

  /** The raw value is 0 exactly for the empty set. */
  lemma RawZeroIffEmpty(s: Status)
    ensures RawValue(s) == 0 <==> s == {}
  {
    RawBelowZero(FlagCount);
    if RawValue(s) == 0 {
      RawValueInjective(s, {});
    }
  }
}
