/** Properties of the handshake as a whole: the exchange from opening the
    transport to a complete handshake, what a repeated writable event does,
    a bad version byte, and reconnecting after the transport closed. */
module HandshakeProps {
  import opened Wire
  import opened Status
  import opened RtmpTypes
  import RingBuffer
  import opened RtmpSession
  import opened RtmpHandshake

  /** The status once C0 and C1 are out: C2 and every S step pending. */
  const AwaitingServer: set<Flag> := {Connected, HandshakeStarted, HandshakeC2, HandshakeS0, HandshakeS1, HandshakeS2}

  /** From the armed status a handshake call sends C0 (the version byte 3)
      and C1 in that order, and clears both flags. */
  lemma ArmedSendsC0C1(s: Session, random: seq<uint8>, now: Instant)
    requires Valid(s) && s.status == Armed && |random| == RandomSize
    ensures Handshake(s, random, now).queue == s.queue + [Frame([3], now, now), Frame(C1(random), now, now)]
    ensures Handshake(s, random, now).status == AwaitingServer
  {
    ArmedFlags();
    HandshakingWhen(Armed, HandshakeC0);
    var mid := Write(s, [3], false, now, now).(status := Armed - {HandshakeC0});
    assert Handshake(s, random, now) == Handshake(mid, random, now);
    HandshakingWhen(mid.status, HandshakeC1);
    assert mid.queue == s.queue + [Frame([3], now, now)];
  }

  /** While S2 is awaited a further writable event sends nothing: C0 and C1
      are not repeated and C2 waits. */
  lemma WritableWhileAwaitingIsQuiet(s: Session, random: seq<uint8>, now: Instant)
    requires Valid(s) && s.status == AwaitingServer && |random| == RandomSize
    ensures OnEvent(s, {HasSpaceAvailable}, [], random, now) == s
  {
    HandshakingWhen(AwaitingServer, HandshakeC2);
    OnWritable(s, [], random, now);
    AwaitingServerFlags();
    assert Handshake(s, random, now) == s;
  }

  /** What the status awaiting the server holds: C2 and S2 but neither C0
      nor C1. */
  lemma AwaitingServerFlags()
    ensures HandshakeC0 !in AwaitingServer && HandshakeC1 !in AwaitingServer
    ensures HandshakeC2 in AwaitingServer && HandshakeS2 in AwaitingServer
  {
  }

  /** The armed status is inside the handshake guard's range of bits: it
      holds C0 and nothing from bit 9 up. */
  lemma ArmedFlags()
    ensures HandshakeC0 in Armed && HandshakeC1 in Armed - {HandshakeC0}
    ensures HandshakeC0 !in Armed - {HandshakeC0}
    ensures forall g :: g in Armed ==> Bit(g) < 9
    ensures Armed - {HandshakeC0} - {HandshakeC1} == AwaitingServer
  {
  }

  /** The server's reply S0 S1 S2 arriving in one read completes the
      handshake: C2 (S1 with its time2 field zeroed) is queued, the status
      becomes `handshakeComplete`, S1 is dropped, and S2, never consumed,
      is left unread in the staging buffer. */
  lemma ServerReplyCompletes(s: Session, random: seq<uint8>, now: Instant, s1: seq<uint8>, s2: seq<uint8>)
    requires Valid(s) && s.status == AwaitingServer && |random| == RandomSize
    requires s.inBuffer.MaxBytesAvailable() == 0 && !s.inBuffer.ring
    requires |s1| == SignatureSize && |s2| == SignatureSize
    ensures var (s', left) := DataReceived(s, [3] + s1 + s2, random, now);
      && left == []
      && s'.status == {HandshakeComplete} && s'.s1 == None
      && s'.queue == s.queue + [Frame(C2(s1), now, now)]
      && RingBuffer.Unread(s'.inBuffer) == s2
  {
    var chunk := [3] + s1 + s2;
    var (r1, left) := Stage(s.inBuffer, chunk);
    assert |left| == 0 && chunk[..|chunk|] == chunk;
    var a := s.(inBuffer := r1);
    var e := ReplyPumps(a, random, now, s1, s2);
    assert DataReceived(s, chunk, random, now) == (e, left);
  }

  /** The receive loop run over a staged S0 S1 S2: it completes the
      handshake and stops at the parser with S2 still unread. */
  lemma ReplyPumps(a: Session, random: seq<uint8>, now: Instant, s1: seq<uint8>, s2: seq<uint8>) returns (e: Session)
    requires Valid(a) && a.status == AwaitingServer && |random| == RandomSize
    requires |s1| == SignatureSize && |s2| == SignatureSize
    requires RingBuffer.Unread(a.inBuffer) == [3] + s1 + s2
    ensures Pump(a, random, now) == (e, true)
    ensures e.status == {HandshakeComplete} && e.s1 == None
    ensures e.queue == a.queue + [Frame(C2(s1), now, now)]
    ensures RingBuffer.Unread(e.inBuffer) == s2
  {
    assert ([3] + s1 + s2)[1..] == s1 + s2;
    var b := VersionStep(a, random, now);
    assert (s1 + s2)[..SignatureSize] == s1 && (s1 + s2)[SignatureSize..] == s2;
    var c := SignatureStep(b, random, now);
    e := EchoStep(c, random, now);
    ParserStops(e, random, now);
  }

  /** With no S step pending and bytes unread, the message parser, which
      accepts nothing, stops the receive loop at once. */
  lemma ParserStops(e: Session, random: seq<uint8>, now: Instant)
    requires Valid(e) && |random| == RandomSize
    requires HandshakeS0 !in e.status && HandshakeS1 !in e.status && HandshakeS2 !in e.status
    requires e.inBuffer.MaxBytesAvailable() > 0
    ensures Pump(e, random, now) == (e, true)
  {
  }

  /** S0 step: a version byte 3 at the head of the unread bytes is consumed
      and clears S0. */
  lemma VersionStep(a: Session, random: seq<uint8>, now: Instant) returns (b: Session)
    requires Valid(a) && a.status == AwaitingServer && |random| == RandomSize
    requires |RingBuffer.Unread(a.inBuffer)| > 0 && RingBuffer.Unread(a.inBuffer)[0] == 3
    ensures Valid(b) && Pump(a, random, now) == Pump(b, random, now)
    ensures b.status == AwaitingServer - {HandshakeS0}
    ensures RingBuffer.Unread(b.inBuffer) == RingBuffer.Unread(a.inBuffer)[1..]
    ensures b.queue == a.queue && b.s1 == a.s1
  {
    var (r2, v) := RingBuffer.Get(a.inBuffer, 1, false);
    RingBuffer.GetTakesOldest(a.inBuffer, 1, false);
    assert v[0] == 3;
    b := a.(inBuffer := r2, status := a.status - {HandshakeS0});
  }

  /** S1 step: a whole signature is taken into S1 and the handshake call
      that follows sends nothing while S2 is awaited. */
  lemma SignatureStep(b: Session, random: seq<uint8>, now: Instant) returns (c: Session)
    requires Valid(b) && b.status == AwaitingServer - {HandshakeS0} && |random| == RandomSize
    requires |RingBuffer.Unread(b.inBuffer)| >= SignatureSize
    ensures Valid(c) && Pump(b, random, now) == Pump(c, random, now)
    ensures c.status == {Connected, HandshakeStarted, HandshakeC2, HandshakeS2}
    ensures c.s1 == Some(RingBuffer.Unread(b.inBuffer)[..SignatureSize])
    ensures RingBuffer.Unread(c.inBuffer) == RingBuffer.Unread(b.inBuffer)[SignatureSize..]
    ensures c.queue == b.queue
  {
    var (r3, signature) := RingBuffer.Get(b.inBuffer, SignatureSize, false);
    RingBuffer.GetTakesOldest(b.inBuffer, SignatureSize, false);
    c := b.(inBuffer := r3, s1 := Some(signature), status := b.status - {HandshakeS1});
    assert c.status == {Connected, HandshakeStarted, HandshakeC2, HandshakeS2};
    HandshakingWhen(c.status, HandshakeC2);
    assert Handshake(c, random, now) == c;
  }

  /** S2 step: with a whole signature available S2 is cleared without
      consuming it, and the handshake call sends C2 and completes. */
  lemma EchoStep(c: Session, random: seq<uint8>, now: Instant) returns (e: Session)
    requires Valid(c) && c.status == {Connected, HandshakeStarted, HandshakeC2, HandshakeS2}
    requires |random| == RandomSize && c.s1.Some?
    requires |RingBuffer.Unread(c.inBuffer)| >= SignatureSize
    ensures Valid(e) && Pump(c, random, now) == Pump(e, random, now)
    ensures e.status == {HandshakeComplete} && e.s1 == None
    ensures e.queue == c.queue + [Frame(C2(c.s1.value), now, now)]
    ensures e.inBuffer == c.inBuffer
  {
    var d := c.(status := c.status - {HandshakeS2});
    assert d.status == {Connected, HandshakeStarted, HandshakeC2};
    HandshakingWhen(d.status, HandshakeC2);
    e := Handshake(d, random, now);
    assert e == SendC2(d, now);
    assert c.inBuffer.MaxBytesAvailable() >= SignatureSize;
    assert HandshakeS0 !in c.status && HandshakeS1 !in c.status && HandshakeS2 in c.status;
    assert Pump(c, random, now) == Pump(e, random, now);
  }

  /** The whole client handshake on a fresh connection: opening arms it, the
      first writable event sends C0 and C1, and the server's reply makes it
      send C2 and complete; the write queue gets exactly C0, C1, C2. */
  lemma PublishHandshake(s: Session, random: seq<uint8>, now: Instant, s1: seq<uint8>, s2: seq<uint8>)
    requires Valid(s) && s.status == {Unconnect} && |random| == RandomSize
    requires s.inBuffer.MaxBytesAvailable() == 0 && !s.inBuffer.ring
    requires |s1| == SignatureSize && |s2| == SignatureSize
    ensures OnEvent(s, {OpenCompleted}, [], random, now).status == Armed
    ensures var armed := OnEvent(s, {OpenCompleted}, [], random, now);
      OnEvent(armed, {HasSpaceAvailable}, [], random, now).status == AwaitingServer
    ensures var armed := OnEvent(s, {OpenCompleted}, [], random, now);
      var writable := OnEvent(armed, {HasSpaceAvailable}, [], random, now);
      OnEvent(writable, {HasBytesAvailable}, [3] + s1 + s2, random, now).status == {HandshakeComplete}
    ensures var armed := OnEvent(s, {OpenCompleted}, [], random, now);
      var writable := OnEvent(armed, {HasSpaceAvailable}, [], random, now);
      var done := OnEvent(writable, {HasBytesAvailable}, [3] + s1 + s2, random, now);
      done.queue == s.queue + [Frame([3], now, now), Frame(C1(random), now, now), Frame(C2(s1), now, now)]
  {
    var armed := OnEvent(s, {OpenCompleted}, [], random, now);
    assert armed == s.(status := Armed);
    ArmedFlags();
    HandshakingWhen(Armed, HandshakeC0);
    ArmedSendsC0C1(armed, random, now);
    OnWritable(armed, [], random, now);
    var writable := Handshake(armed, random, now);
    assert OnEvent(armed, {HasSpaceAvailable}, [], random, now) == writable;
    ServerReplyCompletes(writable, random, now, s1, s2);
    OnReadable(writable, [3] + s1 + s2, random, now);
    var done := DataReceived(writable, [3] + s1 + s2, random, now).0;
    assert done.queue == writable.queue + [Frame(C2(s1), now, now)];
    assert writable.queue == s.queue + [Frame([3], now, now), Frame(C1(random), now, now)];
    AppendThird(s.queue, Frame([3], now, now), Frame(C1(random), now, now), Frame(C2(s1), now, now));
  }

  /** Appending a third frame after two. */
  lemma AppendThird<T>(q: seq<T>, a: T, b: T, c: T)
    ensures (q + [a, b]) + [c] == q + [a, b, c]
  {
  }

  /** A writable event alone, before the handshake completes, runs the
      handshake and nothing else. */
  lemma OnWritable(s: Session, incoming: seq<uint8>, random: seq<uint8>, now: Instant)
    requires Valid(s) && |random| == RandomSize && RawValue(s.status) < 512
    ensures OnEvent(s, {HasSpaceAvailable}, incoming, random, now) == Handshake(s, random, now)
  {
    var events := {HasSpaceAvailable};
    assert OpenCompleted !in events && HasBytesAvailable !in events;
    assert EndEncountered !in events && ErrorOccurred !in events;
  }

  /** A readable event alone runs the receive loop and nothing else. */
  lemma OnReadable(s: Session, incoming: seq<uint8>, random: seq<uint8>, now: Instant)
    requires Valid(s) && |random| == RandomSize
    ensures OnEvent(s, {HasBytesAvailable}, incoming, random, now) == DataReceived(s, incoming, random, now).0
  {
    var events := {HasBytesAvailable};
    assert OpenCompleted !in events && HasSpaceAvailable !in events;
    assert EndEncountered !in events && ErrorOccurred !in events;
  }

  /** A first byte other than the version 3 is consumed, and S0 stays
      pending for the next byte. */
  lemma WrongVersionKeepsWaiting(s: Session, random: seq<uint8>, now: Instant, version: uint8)
    requires Valid(s) && s.status == AwaitingServer && |random| == RandomSize
    requires s.inBuffer.MaxBytesAvailable() == 0 && !s.inBuffer.ring && version != 3
    ensures var (s', left) := DataReceived(s, [version], random, now);
      && left == []
      && s'.status == AwaitingServer && s'.inBuffer.MaxBytesAvailable() == 0 && s'.queue == s.queue
  {
    var (r1, left) := Stage(s.inBuffer, [version]);
    assert RingBuffer.Unread(r1) == [version] && left == [];
    var a := s.(inBuffer := r1);
    var (r2, v) := RingBuffer.Get(r1, 1, false);
    RingBuffer.GetTakesOldest(r1, 1, false);
    assert v == [version];
    assert Pump(a, random, now) == Pump(a.(inBuffer := r2), random, now);
    assert RingBuffer.Unread(r2) == [];
  }

  /** As written, a full staging buffer (`ring` set, cursors equal) after
      the handshake asks the transport for a whole buffer's worth, and a
      4096-byte read replaces every unread byte: the parser then sees only
      the new bytes, and the old ones are lost. */
  lemma FullStagingOverwritten(s: Session, incoming: seq<uint8>, random: seq<uint8>, now: Instant)
    requires Valid(s) && |random| == RandomSize
    requires HandshakeS0 !in s.status && HandshakeS1 !in s.status && HandshakeS2 !in s.status
    requires s.inBuffer.ring && s.inBuffer.write == s.inBuffer.read && |incoming| == BufferSize
    ensures var (s', left) := DataReceived(s, incoming, random, now);
      && left == [] && RingBuffer.Unread(s'.inBuffer) == incoming
      && s'.status == s.status && s'.queue == s.queue
  {
    var (r1, left) := Stage(s.inBuffer, incoming);
    RingBuffer.FullPutReplaces(s.inBuffer, incoming);
    assert incoming[..|incoming|] == incoming;
    var a := s.(inBuffer := r1);
    ParserStops(a, random, now);
  }

  /** With the corrected free space the same read takes nothing: the staging
      buffer and the session are untouched and every byte stays with the
      transport. */
  lemma FullStagingKept(s: Session, incoming: seq<uint8>, random: seq<uint8>, now: Instant)
    requires Valid(s) && |random| == RandomSize
    requires HandshakeS0 !in s.status && HandshakeS1 !in s.status && HandshakeS2 !in s.status
    requires s.inBuffer.ring && s.inBuffer.write == s.inBuffer.read && |incoming| == BufferSize
    ensures DataReceivedChecked(s, incoming, random, now) == (s, incoming)
  {
    var (r1, left) := StageChecked(s.inBuffer, incoming);
    assert r1 == s.inBuffer;
    ParserStops(s, random, now);
  }

  /** After the transport reports end of stream the status is exactly
      `disconnected`. Connecting again does not reset it (connect only resets
      a session with some flag other than unconnect and disconnected set),
      and the open handler arms the handshake only below raw value 2, so the
      reopened transport never starts a handshake. */
  lemma ReconnectAfterDisconnectStalls(s: Session, url: Url, random: seq<uint8>, now: Instant, later: Instant)
    requires Valid(s) && |random| == RandomSize
    ensures var closed := OnEvent(s, {EndEncountered}, [], random, now);
      var reconnected := Connect(closed, url, later).0;
      && closed.status == {Disconnected}
      && reconnected.status == {Disconnected}
      && OnEvent(reconnected, {OpenCompleted}, [], random, later).status == {Disconnected}
  {
    var closed := OnEvent(s, {EndEncountered}, [], random, now);
    assert closed.status - {Unconnect, Disconnected} == {};
  }
}
