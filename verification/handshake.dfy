/** The publishing session of Source/Network/RTMPSession.swift, inbound
    side: the client half of the simple RTMP handshake (section 5.2 of the
    RTMP Specification 1.0), the loop that stages received bytes in the ring
    buffer and reacts to S0, S1 and S2, and the reaction to transport events.
    The bytes the transport holds are given as one stream, of which each
    read takes what the staging buffer has room for; the random part of C1
    is a parameter. */
module RtmpHandshake {
  import opened Wire
  import opened Status
  import opened RtmpTypes
  import RingBuffer
  import opened RtmpSession

  /** The status `streamSession(_:didChangeStatus:)` sets when the transport
      opens: connected, handshake started, and every C and S step pending. */
  const Armed: set<Flag> := {Connected, HandshakeStarted, HandshakeC0, HandshakeC1, HandshakeC2,
                             HandshakeS0, HandshakeS1, HandshakeS2}

  /** The random bytes of C1: the signature less its 8-byte time-and-zero
      prefix. */
  const RandomSize: nat := SignatureSize - 8

  /** The handshake guard: the raw status lies strictly between the raw
      values of `handshakeStarted` (4) and `handshakeComplete` (512). */
  predicate Handshaking(status: set<Flag>)
  {
    4 < RawValue(status) < 512
  }

  /** C1: eight zero bytes (time 0, then the zero field) and the random bytes. */
  function C1(random: seq<uint8>): (c1: seq<uint8>)
    requires |random| == RandomSize
    ensures |c1| == SignatureSize && c1[8..] == random
    ensures forall i :: 0 <= i < 8 ==> c1[i] == 0
  {
    RingBuffer.Zeros(8) + random
  }

  /** C2 as evidently intended: an echo of S1 whose second 4-byte field (the
      peer's time2) is zeroed. */
  function C2(s1: seq<uint8>): (c2: seq<uint8>)
    requires |s1| == SignatureSize
    ensures |c2| == |s1|
    ensures forall i :: 0 <= i < |s1| ==> c2[i] == if 4 <= i < 8 then 0 else s1[i]
  {
    s1[..4] + RingBuffer.Zeros(4) + s1[8..]
  }

  /** C2 as written: four bytes are copied from the address of a one-byte
      zero, so only byte 4 is known to be zero and bytes 5..7 are whatever
      follows that variable in memory, given here as `adjacent`. */
  function C2AsWritten(s1: seq<uint8>, adjacent: seq<uint8>): (c2: seq<uint8>)
    requires |s1| == SignatureSize && |adjacent| == 3
    ensures |c2| == |s1| && c2[4] == 0 && c2[5..8] == adjacent
    ensures forall i :: 0 <= i < |s1| && !(4 <= i < 8) ==> c2[i] == s1[i]
  {
    s1[..4] + [0] + adjacent + s1[8..]
  }

  /** The two agree exactly when the bytes next to the zero happen to be
      zero: any other memory content leaks into C2's time2 field. */
  lemma C2AsWrittenLeaks(s1: seq<uint8>, adjacent: seq<uint8>)
    requires |s1| == SignatureSize && |adjacent| == 3
    ensures C2AsWritten(s1, adjacent) == C2(s1) <==> adjacent == [0, 0, 0]
  {
    var w := C2AsWritten(s1, adjacent);
    if adjacent == [0, 0, 0] {
      assert forall i :: 0 <= i < |s1| ==> w[i] == C2(s1)[i];
    } else {
      assert w[5..8] == adjacent;
      assert C2(s1)[5..8] == [0, 0, 0];
    }
  }

  /** `handshakeSendC2`: with S1 stored, queue C2, mark the handshake
      complete and drop S1; without it, nothing. */
  function SendC2(s: Session, now: Instant): (s': Session)
    requires Valid(s)
    ensures Valid(s') && s'.inBuffer == s.inBuffer
    ensures s.s1.None? ==> s' == s
    ensures s.s1.Some? ==>
      s'.status == {HandshakeComplete} && s'.s1 == None && s'.queue == s.queue + [Frame(C2(s.s1.value), now, now)]
  {
    match s.s1
    case None => s
    case Some(sig) => Write(s, C2(sig), false, now, now).(status := {HandshakeComplete}, s1 := None)
  }

  /** The S flags still pending, as a count; receiving only ever lowers it. */
  function PendingS(status: set<Flag>): nat
  {
    (if HandshakeS0 in status then 1 else 0) + (if HandshakeS1 in status then 1 else 0)
    + (if HandshakeS2 in status then 1 else 0)
  }

  /** `handshake`: inside the guard, send the first pending C step: C0 (the
      version byte 3) and then, at once, C1; or C1 alone; or C2 once S2 is no
      longer awaited. Each step clears its flag, so none is sent twice. */
  function Handshake(s: Session, random: seq<uint8>, now: Instant): (s': Session)
    requires Valid(s) && |random| == RandomSize
    ensures Valid(s') && s'.inBuffer == s.inBuffer && s.queue <= s'.queue
    ensures s'.status <= s.status || s'.status == {HandshakeComplete}
    ensures PendingS(s'.status) <= PendingS(s.status)
    ensures !Handshaking(s.status) ==> s' == s
    ensures Handshaking(s.status) && HandshakeC0 in s.status ==>
      |s'.queue| > |s.queue| && s'.queue[|s.queue|] == Frame([3], now, now) && HandshakeC0 !in s'.status
    ensures Handshaking(s.status) && HandshakeC0 !in s.status && HandshakeC1 in s.status ==>
      s'.queue == s.queue + [Frame(C1(random), now, now)] && s'.status == s.status - {HandshakeC1}
    ensures Handshaking(s.status) && HandshakeC0 !in s.status && HandshakeC1 !in s.status ==>
      if HandshakeC2 in s.status && HandshakeS2 !in s.status then s' == SendC2(s, now) else s' == s
    decreases if HandshakeC0 in s.status then 1 else 0
  {
    if !Handshaking(s.status) then s
    else if HandshakeC0 in s.status then
      var sent := Write(s, [3], false, now, now);
      Handshake(sent.(status := s.status - {HandshakeC0}), random, now)
    else if HandshakeC1 in s.status then
      Write(s, C1(random), false, now, now).(status := s.status - {HandshakeC1})
    else if HandshakeC2 in s.status && HandshakeS2 !in s.status then SendC2(s, now)
    else s
  }

  /** A status holding some C step (bits 3 to 8) and nothing from bit 9 up
      is inside the handshake guard. */
  lemma HandshakingWhen(status: set<Flag>, f: Flag)
    requires f in status && 3 <= Bit(f) <= 8
    requires forall g :: g in status ==> Bit(g) < 9
    ensures Handshaking(status)
  {
    RawBelowAtLeast(status, f, FlagCount);
    Pow2Monotone(3, Bit(f));
    RawBelowPow2(status, 9);
  }

  /** The raw value is below 2 exactly when no flag but `unconnect` is set. */
  lemma UnconnectedRaw(status: set<Flag>)
    ensures RawValue(status) < 2 <==> status <= {Unconnect}
  {
    RawBelowPow2(status, 1);
    assert Pow2(1) == 2;
    if RawValue(status) < 2 {
      forall f | f in status ensures f == Unconnect {
        assert Bit(f) < 1;
      }
    }
  }

  /** The inner receive loop of `dataReceived`, one pass per step: S0 takes
      one byte and is cleared when that byte is the version 3; S1 waits for
      a whole signature, stores it and runs the handshake; S2 waits for a
      whole signature, clears its flag without consuming it and runs the
      handshake; with no S step left the message parser, which accepts
      nothing, stops the loop. Returns the session and whether the parser
      stopped it. */
  function Pump(s: Session, random: seq<uint8>, now: Instant): (res: (Session, bool))
    requires Valid(s) && |random| == RandomSize
    ensures Valid(res.0) && s.queue <= res.0.queue
    ensures PendingS(res.0.status) <= PendingS(s.status)
    ensures res.1 ==> PendingS(res.0.status) == 0 && res.0.inBuffer.MaxBytesAvailable() > 0
    ensures !res.1 ==>
      (|| res.0.inBuffer.MaxBytesAvailable() == 0
       || ((HandshakeS1 in res.0.status || HandshakeS2 in res.0.status)
           && res.0.inBuffer.MaxBytesAvailable() < SignatureSize))
    decreases PendingS(s.status), s.inBuffer.MaxBytesAvailable()
  {
    var avail := s.inBuffer.MaxBytesAvailable();
    if avail == 0 then (s, false)
    else if HandshakeS0 in s.status then
      var (ring, s0) := RingBuffer.Get(s.inBuffer, 1, false);
      RingBuffer.GetTakesOldest(s.inBuffer, 1, false);
      var status := if s0[0] == 3 then s.status - {HandshakeS0} else s.status;
      Pump(s.(inBuffer := ring, status := status), random, now)
    else if HandshakeS1 in s.status then
      if avail >= SignatureSize then
        var (ring, signature) := RingBuffer.Get(s.inBuffer, SignatureSize, false);
        var stored := s.(inBuffer := ring, s1 := Some(signature), status := s.status - {HandshakeS1});
        Pump(Handshake(stored, random, now), random, now)
      else (s, false)
    else if HandshakeS2 in s.status then
      if avail >= SignatureSize then
        Pump(Handshake(s.(status := s.status - {HandshakeS2}), random, now), random, now)
      else (s, false)
    else (s, true)
  }

  /** One read of `dataReceived` as written: the transport is asked for as
      many bytes as the staging buffer reports free, and `put` stores what it
      returns. A buffer whose `ring` flag is clear queues them behind its
      unread bytes; a full one reports its whole capacity as free and the
      put overwrites (see `RingBuffer.FullPutOverwrites`). Returns the buffer
      and the bytes still in the transport. */
  function Stage(r: RingBuffer.Ring, incoming: seq<uint8>): (res: (RingBuffer.Ring, seq<uint8>))
    requires r.Valid()
    ensures res.0.Valid() && res.0.Capacity() == r.Capacity()
    ensures var n := |incoming| - |res.1|;
      && n == RingBuffer.Min(|incoming|, r.MaxSpacesAvailable())
      && res.1 == incoming[n..]
      && (!r.ring ==> RingBuffer.Unread(res.0) == RingBuffer.Unread(r) + incoming[..n])
  {
    var n := RingBuffer.Min(|incoming|, r.MaxSpacesAvailable());
    var ring := RingBuffer.Put(r, incoming[..n], n).0;
    if r.ring then (ring, incoming[n..])
    else
      RingBuffer.PutAppends(r, incoming[..n], n);
      (ring, incoming[n..])
  }

  /** One read with the free space as evidently intended: a full buffer asks
      for nothing, so no byte is overwritten and none is lost. */
  function StageChecked(r: RingBuffer.Ring, incoming: seq<uint8>): (res: (RingBuffer.Ring, seq<uint8>))
    requires r.Valid()
    ensures res.0.Valid() && res.0.Capacity() == r.Capacity()
    ensures var n := |incoming| - |res.1|;
      && n == RingBuffer.Min(|incoming|, RingBuffer.FreeSpace(r))
      && res.1 == incoming[n..]
      && RingBuffer.Unread(res.0) == RingBuffer.Unread(r) + incoming[..n]
  {
    var n := RingBuffer.Min(|incoming|, RingBuffer.FreeSpace(r));
    var ring := RingBuffer.PutChecked(r, incoming[..n], n).0;
    (ring, incoming[n..])
  }

  /** The passes of `dataReceived` over the bytes the transport holds: each
      pass reads (with `Stage`, or with `StageChecked` when `corrected`) and
      runs the inner loop; passes continue while the transport still has
      bytes and the parser has not stopped. The first pass always reads, even
      when the transport holds nothing. A pass that can read nothing would
      repeat unchanged in the source; the model ends there. Returns the
      session and the bytes left in the transport. */
  function Receive(s: Session, incoming: seq<uint8>, random: seq<uint8>, now: Instant, corrected: bool): (res: (Session, seq<uint8>))
    requires Valid(s) && |random| == RandomSize
    ensures Valid(res.0) && s.queue <= res.0.queue
    ensures PendingS(res.0.status) <= PendingS(s.status)
    ensures SuffixOf(res.1, incoming)
    decreases |incoming|
  {
    var (pumped, left, stop) := Pass(s, incoming, random, now, corrected);
    if stop || |left| == 0 || |left| == |incoming| then (pumped, left)
    else
      var (s', rest) := Receive(pumped, left, random, now, corrected);
      SuffixOfSuffix(incoming, left, rest);
      (s', rest)
  }

  /** One pass: a read, then the inner loop. Returns the session, the bytes
      left in the transport and whether the parser stopped. */
  function Pass(s: Session, incoming: seq<uint8>, random: seq<uint8>, now: Instant, corrected: bool): (res: (Session, seq<uint8>, bool))
    requires Valid(s) && |random| == RandomSize
    ensures Valid(res.0) && s.queue <= res.0.queue
    ensures PendingS(res.0.status) <= PendingS(s.status)
    ensures SuffixOf(res.1, incoming)
  {
    var (ring, left) := if corrected then StageChecked(s.inBuffer, incoming) else Stage(s.inBuffer, incoming);
    var (pumped, stop) := Pump(s.(inBuffer := ring), random, now);
    (pumped, left, stop)
  }

  /** Whether b is what remains of a once some of its front is taken. */
  predicate SuffixOf(b: seq<uint8>, a: seq<uint8>)
  {
    |b| <= |a| && b == a[|a| - |b|..]
  }

  lemma SuffixOfSuffix(a: seq<uint8>, b: seq<uint8>, c: seq<uint8>)
    requires SuffixOf(b, a) && SuffixOf(c, b)
    ensures SuffixOf(c, a)
  {
  }

  /** `dataReceived` as written: reads staged with the source's `put`. */
  function DataReceived(s: Session, incoming: seq<uint8>, random: seq<uint8>, now: Instant): (res: (Session, seq<uint8>))
    requires Valid(s) && |random| == RandomSize
    ensures Valid(res.0) && s.queue <= res.0.queue
    ensures PendingS(res.0.status) <= PendingS(s.status)
    ensures |res.1| <= |incoming| && res.1 == incoming[|incoming| - |res.1|..]
  {
    Receive(s, incoming, random, now, false)
  }

  /** `dataReceived` with the corrected free space: a full staging buffer
      leaves the transport's bytes where they are. */
  function DataReceivedChecked(s: Session, incoming: seq<uint8>, random: seq<uint8>, now: Instant): (res: (Session, seq<uint8>))
    requires Valid(s) && |random| == RandomSize
    ensures Valid(res.0) && s.queue <= res.0.queue
    ensures PendingS(res.0.status) <= PendingS(s.status)
    ensures |res.1| <= |incoming| && res.1 == incoming[|incoming| - |res.1|..]
  {
    Receive(s, incoming, random, now, true)
  }

  /** The transport events the session reacts to. */
  datatype StreamEvent = OpenCompleted | HasBytesAvailable | HasSpaceAvailable | EndEncountered | ErrorOccurred

  /** `streamSession(_:didChangeStatus:)`, for one notification carrying a
      set of events, handled in the source's order: opening arms the
      handshake only from the unconnected state (raw value below 2); readable
      bytes are received from what the transport holds (what the reads leave
      is not carried to the next event);
      writable space drives the handshake until it is
      complete (afterwards it only wakes the writer); end of stream and error
      overwrite the status. */
  function OnEvent(s: Session, events: set<StreamEvent>, incoming: seq<uint8>, random: seq<uint8>, now: Instant): (s': Session)
    requires Valid(s) && |random| == RandomSize
    ensures Valid(s') && s.queue <= s'.queue
    ensures ErrorOccurred in events ==> s'.status == {Error}
    ensures EndEncountered in events && ErrorOccurred !in events ==> s'.status == {Disconnected}
    ensures events == {OpenCompleted} ==> s' == if s.status <= {Unconnect} then s.(status := Armed) else s
  {
    UnconnectedRaw(s.status);
    var armedState := if OpenCompleted in events && RawValue(s.status) < 2 then s.(status := Armed) else s;
    var received := if HasBytesAvailable in events then DataReceived(armedState, incoming, random, now).0 else armedState;
    var written :=
      if HasSpaceAvailable in events && RawValue(received.status) < 512 then Handshake(received, random, now)
      else received;
    var ended := if EndEncountered in events then written.(status := {Disconnected}) else written;
    if ErrorOccurred in events then ended.(status := {Error}) else ended
  }
}
