/** The publishing session of Source/Network/RTMPSession.swift, outbound
    side: connecting, resetting, and the write path with its congestion
    accounting. The session is a value; each operation returns the updated
    session. The transport (StreamSession) is outside the model: `Connect`
    returns the endpoint the transport is asked to open, and the writer loop
    receives, as a list, how many bytes each successive transport write
    accepts. The clock is a parameter. */
module RtmpSession {
  import opened Wire
  import opened Status
  import opened RtmpTypes
  import RingBuffer
  import Congestion
  import ByteRate

  type Instant = Congestion.Instant

  /** A write waiting on the serial write queue: the bytes still to send, the
      `date` the caller passed (compared with the keyframe boundary) and the
      instant the write was accounted for. */
  datatype Frame = Frame(data: seq<uint8>, date: Instant, stamp: Instant)

  datatype Session = Session(
    status: set<Flag>,
    urlString: Option<string>,
    inBuffer: RingBuffer.Ring,
    s1: Option<seq<uint8>>,
    rate: Option<ByteRate.Manager>,
    account: Congestion.Account,
    shouldClearCongestionBuffer: bool,
    clearCongestionBufferDate: Option<Instant>,
    queue: seq<Frame>)

  /** What every reachable session satisfies: the staging buffer is a valid
      4096-byte ring and a stored S1 is a whole signature. */
  predicate Valid(s: Session)
  {
    && s.inBuffer.Valid() && s.inBuffer.Capacity() == BufferSize
    && (s.s1.Some? ==> |s.s1.value| == SignatureSize)
  }

  /** `init`: unconnected, an empty 4096-byte staging buffer, a 10 MiB
      congestion ceiling, nothing queued. */
  function Init(): (s: Session)
    ensures Valid(s) && s.status == {Unconnect} && s.inBuffer.MaxBytesAvailable() == 0
    ensures s.account.bufferSize == 0 && s.account.maxCongestionSize == 10 * 1024 * 1024
    ensures s.queue == [] && s.s1 == None && s.rate == None && !s.shouldClearCongestionBuffer
  {
    Session({Unconnect}, None, RingBuffer.Create(BufferSize), None, None,
            Congestion.Init(Congestion.DefaultMaxCongestionSize), false, None, [])
  }

  /** `detectByteRate(withCallback:)`: a fresh, started byte-rate manager
      holding the callback as given, which may be absent. */
  function DetectByteRate(s: Session, hasCallback: bool): (s': Session)
    ensures s'.rate.Some? && s'.rate.value.started && !s'.rate.value.stopUpdate
    ensures s'.rate.value.didSent == [] && s'.rate.value.willSend == []
    ensures s'.rate.value.hasCallback == hasCallback
    ensures s' == s.(rate := s'.rate)
  {
    s.(rate := Some(ByteRate.Start(ByteRate.Init().(hasCallback := hasCallback))))
  }

  /** The byte-rate manager after `clear`, when there is one. */
  function ClearRate(rate: Option<ByteRate.Manager>): (r: Option<ByteRate.Manager>)
    ensures r.Some? <==> rate.Some?
    ensures r.Some? ==> r.value == ByteRate.Init().(hasCallback := rate.value.hasCallback)
  {
    match rate
    case None => None
    case Some(m) => Some(ByteRate.Clear(m))
  }

  /** `reset`: back to unconnected, the URL forgotten, the staging buffer
      emptied, S1 dropped, the byte-rate manager cleared, the congestion
      count zeroed with `now` as the new reset boundary. The write queue and
      the keyframe state are left as they are. */
  function Reset(s: Session, now: Instant): (s': Session)
    requires Valid(s)
    ensures Valid(s') && s'.status == {Unconnect} && s'.urlString == None && s'.s1 == None
    ensures s'.inBuffer.MaxBytesAvailable() == 0 && s'.inBuffer.MaxSpacesAvailable() == BufferSize
    ensures s'.rate.Some? <==> s.rate.Some?
    ensures s'.rate.Some? ==> s'.rate.value == ByteRate.Init().(hasCallback := s.rate.value.hasCallback)
    ensures s'.account.bufferSize == 0 && s'.account.clearDate == Some(now)
    ensures s'.account.maxCongestionSize == s.account.maxCongestionSize
    ensures s'.queue == s.queue && s'.shouldClearCongestionBuffer == s.shouldClearCongestionBuffer
    ensures s'.clearCongestionBufferDate == s.clearCongestionBufferDate
  {
    s.(status := {Unconnect}, urlString := None, inBuffer := RingBuffer.Clear(s.inBuffer), s1 := None,
       rate := ClearRate(s.rate), account := Congestion.Clear(s.account, now))
  }

  /** The parts of a URL the session reads: Foundation parses them. */
  datatype Url = Url(text: string, scheme: Option<string>, host: Option<string>, port: Option<int>)

  /** Where the transport is asked to connect. */
  datatype Endpoint = Endpoint(host: string, port: int)

  /** ASCII lower-casing of one character. */
  function LowerChar(c: char): (d: char)
    ensures 'A' <= c <= 'Z' ==> d as int == c as int + 32
    ensures !('A' <= c <= 'Z') ==> d == c
  {
    if 'A' <= c <= 'Z' then (c as int + 32) as char else c
  }

  function Lower(s: string): (r: string)
    ensures |r| == |s| && forall i :: 0 <= i < |s| ==> r[i] == LowerChar(s[i])
  {
    if |s| == 0 then [] else [LowerChar(s[0])] + Lower(s[1..])
  }

  /** Whether `connect` resets first: some flag other than unconnect and
      disconnected is set. */
  predicate Busy(status: set<Flag>)
  {
    RawValue(status - {Unconnect, Disconnected}) > 0
  }

  /** `connect(withUrlString:)`: resets a session that is anywhere but
      unconnected or disconnected, then asks the transport to open the URL's
      host and port (1935 when the URL names none), provided the URL has a
      host and a scheme that lower-cases to "rtmp". */
  function Connect(s: Session, url: Url, now: Instant): (res: (Session, Option<Endpoint>))
    requires Valid(s)
    ensures var (s', endpoint) := res;
      && Valid(s')
      && (Busy(s.status) <==> s.status - {Unconnect, Disconnected} != {})
      && s'.status == (if Busy(s.status) then {Unconnect} else s.status)
      && (endpoint.Some? <==> url.scheme.Some? && url.host.Some? && Lower(url.scheme.value) == "rtmp")
      && (endpoint.Some? ==> endpoint.value.host == url.host.value && s'.urlString == Some(url.text))
      && (endpoint.Some? && url.port.Some? ==> endpoint.value.port == url.port.value)
      && (endpoint.Some? && url.port.None? ==> endpoint.value.port == 1935)
      && s'.queue == s.queue
      // Apart from the URL, the session is the reset one when busy and the
      // original otherwise; a refused URL leaves the URL as it was then.
      && (var base := if Busy(s.status) then Reset(s, now) else s;
          && s' == base.(urlString := s'.urlString)
          && (endpoint.None? ==> s'.urlString == base.urlString))
  {
    RawZeroIffEmpty(s.status - {Unconnect, Disconnected});
    var s1 := if Busy(s.status) then Reset(s, now) else s;
    if url.scheme.None? || url.host.None? then (s1, None)
    else if Lower(url.scheme.value) != Scheme then (s1, None)
    else
      var port := if url.port.Some? then url.port.value else DefaultPort;
      (s1.(urlString := Some(url.text)), Some(Endpoint(url.host.value, port)))
  }

  /** `write`: an empty write does nothing. Otherwise the size is accounted
      at `now`, the byte-rate manager learns the new queued total, the
      congestion-drop flag is set exactly when the count has reached the
      ceiling and this write is a keyframe, a keyframe's date becomes the
      drop boundary, and the bytes join the write queue. */
  function Write(s: Session, data: seq<uint8>, isKeyFrame: bool, date: Instant, now: Instant): (s': Session)
    ensures |data| == 0 ==> s' == s
    ensures |data| > 0 ==>
      && s'.queue == s.queue + [Frame(data, date, now)]
      && (Congestion.Stale(s.account, now) ==> s'.account == s.account)
      && (!Congestion.Stale(s.account, now) ==> s'.account == s.account.(bufferSize := s.account.bufferSize + |data|))
      && (s'.shouldClearCongestionBuffer <==>
            s'.account.bufferSize >= s.account.maxCongestionSize && isKeyFrame)
      && s'.clearCongestionBufferDate == (if isKeyFrame then Some(date) else s.clearCongestionBufferDate)
      && (s'.rate.Some? <==> s.rate.Some?)
      && (s'.rate.Some? ==> s'.rate.value.willSend == [s'.account.bufferSize]
                            && s'.rate.value.didSent == s.rate.value.didSent)
      && s' == s.(queue := s'.queue, account := s'.account, rate := s'.rate,
                  shouldClearCongestionBuffer := s'.shouldClearCongestionBuffer,
                  clearCongestionBufferDate := s'.clearCongestionBufferDate)
  {
    if |data| == 0 then s
    else
      var account := Congestion.Increase(s.account, |data|, now);
      var rate := if s.rate.Some? then Some(ByteRate.WillSendBuffer(s.rate.value, account.bufferSize)) else None;
      s.(account := account, rate := rate,
         shouldClearCongestionBuffer := account.bufferSize >= account.maxCongestionSize && isKeyFrame,
         clearCongestionBufferDate := if isKeyFrame then Some(date) else s.clearCongestionBufferDate,
         queue := s.queue + [Frame(data, date, now)])
  }

  /** The sum of the transport's offers. */
  function SumN(xs: seq<nat>): nat
  {
    if |xs| == 0 then 0 else SumN(xs[..|xs| - 1]) + xs[|xs| - 1]
  }

  /** The byte counts the writer loop reports, one per transport write it
      makes on a frame of `size` bytes: each offer accepts what it can of
      what is left, and no write is made once nothing is left. */
  function Sends(offers: seq<nat>, size: nat): seq<int>
  {
    if |offers| == 0 then []
    else
      var init := offers[..|offers| - 1];
      var done := RingBuffer.Min(SumN(init), size);
      Sends(init, size) + (if done < size then [RingBuffer.Min(offers[|offers| - 1], size - done)] else [])
  }

  /** The transport's writes report every byte that left: their counts add up
      to what the offers could take of the frame. */
  lemma {:induction false} SendsTotal(offers: seq<nat>, size: nat)
    ensures ByteRate.Sum(Sends(offers, size)) == RingBuffer.Min(SumN(offers), size)
  {
    if |offers| > 0 {
      var init := offers[..|offers| - 1];
      SendsTotal(init, size);
      var tail := if RingBuffer.Min(SumN(init), size) < size
                  then [RingBuffer.Min(offers[|offers| - 1], size - RingBuffer.Min(SumN(init), size))] else [];
      SumAppend(Sends(init, size), tail);
    }
  }

  lemma {:induction false} SumAppend(xs: seq<int>, ys: seq<int>)
    ensures ByteRate.Sum(xs + ys) == ByteRate.Sum(xs) + ByteRate.Sum(ys)
    decreases |ys|
  {
    if |ys| == 0 {
      assert xs + ys == xs;
    } else {
      assert (xs + ys)[..|xs + ys| - 1] == xs + ys[..|ys| - 1];
      assert (xs + ys)[|xs + ys| - 1] == ys[|ys| - 1];
      SumAppend(xs, ys[..|ys| - 1]);
    }
  }

  /** The byte-rate manager after the writer reported `sends` and then the
      queued total `bufferSize`. */
  function RecordSends(rate: Option<ByteRate.Manager>, sends: seq<int>, bufferSize: int): (r: Option<ByteRate.Manager>)
    ensures r.Some? <==> rate.Some?
  {
    match rate
    case None => None
    case Some(m) => Some(m.(didSent := m.didSent + sends, willSend := if |sends| > 0 then [bufferSize] else m.willSend))
  }

  lemma RecordNone(rate: Option<ByteRate.Manager>, bufferSize: int)
    ensures RecordSends(rate, [], bufferSize) == rate
  {
    if rate.Some? {
      assert rate.value.didSent + [] == rate.value.didSent;
    }
  }

  /** One more reported write, then the new queued total. */
  lemma RecordOneMore(rate: Option<ByteRate.Manager>, sends: seq<int>, n: int, bufferSize: int)
    ensures var r := RecordSends(rate, sends, bufferSize);
      RecordSends(rate, sends + [n], bufferSize) ==
        if r.Some? then Some(ByteRate.WillSendBuffer(ByteRate.DidSentBuffer(r.value, n), bufferSize)) else None
  {
    if rate.Some? {
      assert rate.value.didSent + (sends + [n]) == (rate.value.didSent + sends) + [n];
    }
  }

  /** Whether the writer drops the head frame: a keyframe crossed the
      ceiling and this frame is not that keyframe. */
  predicate Abandons(s: Session)
    requires |s.queue| > 0
  {
    s.shouldClearCongestionBuffer && Some(s.queue[0].date) != s.clearCongestionBufferDate
  }

  /** The writer's work on the head frame, as a whole: either the frame is
      dropped and its unsent bytes are taken off the count, or the transport
      takes as much of it as the offers allow, each byte taken off the count
      as it leaves; a frame the offers did not finish stays at the head with
      what is left of it. `stamp` is the instant the count changes are
      stamped with. Returns the session and the bytes that reached the
      transport. */
  function Deliver(s: Session, offers: seq<nat>, stamp: Instant): (res: (Session, seq<uint8>))
    ensures |s.queue| == 0 ==> res == (s, [])
    ensures |s.queue| > 0 ==> var (s', sent) := res; var f := s.queue[0];
      && sent <= f.data
      && (Abandons(s) ==> sent == [] && s'.queue == s.queue[1..])
      && (!Abandons(s) ==> |sent| == RingBuffer.Min(SumN(offers), |f.data|))
      && (|sent| == |f.data| ==> s'.queue == s.queue[1..])
      && (!Abandons(s) && |sent| < |f.data| ==> s'.queue == [Frame(f.data[|sent|..], f.date, f.stamp)] + s.queue[1..])
      && (Congestion.Stale(s.account, stamp) ==> s'.account == s.account)
      && (!Congestion.Stale(s.account, stamp) ==>
            s'.account == s.account.(bufferSize := s.account.bufferSize - (if Abandons(s) then |f.data| else |sent|)))
      && (s'.rate.Some? <==> s.rate.Some?)
      && s' == s.(queue := s'.queue, account := s'.account, rate := s'.rate)
  {
    if |s.queue| == 0 then (s, [])
    else
      var f := s.queue[0];
      if Abandons(s) then
        var account := Congestion.Increase(s.account, -|f.data|, stamp);
        (s.(account := account, rate := RecordSends(s.rate, [0], account.bufferSize), queue := s.queue[1..]), [])
      else
        var n := RingBuffer.Min(SumN(offers), |f.data|);
        var account := Congestion.Increase(s.account, -n, stamp);
        var rest := if n == |f.data| then s.queue[1..] else [Frame(f.data[n..], f.date, f.stamp)] + s.queue[1..];
        (s.(account := account, rate := RecordSends(s.rate, Sends(offers, |f.data|), account.bufferSize),
            queue := rest), f.data[..n])
  }

  /** The writer loop of `write`, run on the head frame of the queue with
      every count change stamped `stamp`: one transport write per offer while
      bytes remain, the drop check first. */
  method WriterLoop(s: Session, offers: seq<nat>, stamp: Instant) returns (s': Session, sent: seq<uint8>)
    ensures (s', sent) == Deliver(s, offers, stamp)
  {
    if |s.queue| == 0 {
      return s, [];
    }
    var f := s.queue[0];
    var size := |f.data|;
    if s.shouldClearCongestionBuffer && Some(f.date) != s.clearCongestionBufferDate {
      var account := Congestion.Increase(s.account, -(size - 0), stamp);
      var rate := s.rate;
      if rate.Some? {
        rate := Some(ByteRate.WillSendBuffer(ByteRate.DidSentBuffer(rate.value, 0), account.bufferSize));
      }
      s' := s.(account := account, rate := rate, queue := s.queue[1..]);
      sent := [];
      return;
    }
    var account, rate;
    account, rate, sent := Transmit(f.data, offers, s.account, s.rate, stamp);
    var rest := if |sent| == size then s.queue[1..] else [Frame(f.data[|sent|..], f.date, f.stamp)] + s.queue[1..];
    s' := s.(account := account, rate := rate, queue := rest);
  }

  /** The transport writes of one frame's bytes `data`, one per offer while
      bytes remain, each taken off the count and reported to the byte-rate
      manager as it leaves. */
  method Transmit(data: seq<uint8>, offers: seq<nat>, account0: Congestion.Account,
                  rate0: Option<ByteRate.Manager>, stamp: Instant)
    returns (account: Congestion.Account, rate: Option<ByteRate.Manager>, sent: seq<uint8>)
    ensures sent == data[..RingBuffer.Min(SumN(offers), |data|)]
    ensures account == Congestion.Increase(account0, -|sent|, stamp)
    ensures rate == RecordSends(rate0, Sends(offers, |data|), account.bufferSize)
  {
    var size := |data|;
    var totalSent := 0;
    account := account0;
    rate := rate0;
    RecordNone(rate0, account.bufferSize);
    sent := [];
    var i := 0;
    while i < |offers|
      invariant 0 <= i <= |offers|
      invariant totalSent == RingBuffer.Min(SumN(offers[..i]), size)
      invariant sent == data[..totalSent]
      invariant account == Congestion.Increase(account0, -totalSent, stamp)
      invariant rate == RecordSends(rate0, Sends(offers[..i], size), account.bufferSize)
    {
      assert offers[..i + 1][..i] == offers[..i];
      ghost var before := Sends(offers[..i], size);
      assert Sends(offers[..i + 1], size) ==
        before + (if totalSent < size then [RingBuffer.Min(offers[i], size - totalSent)] else []);
      if size - totalSent > 0 {
        var n := RingBuffer.Min(offers[i], size - totalSent);
        sent := sent + data[totalSent..totalSent + n];
        totalSent := totalSent + n;
        account := Congestion.Increase(account, -n, stamp);
        RecordOneMore(rate0, before, n, account.bufferSize);
        if rate.Some? {
          rate := Some(ByteRate.WillSendBuffer(ByteRate.DidSentBuffer(rate.value, n), account.bufferSize));
        }
      } else {
        assert before + [] == before;
      }
      i := i + 1;
    }
    assert offers[..|offers|] == offers;
  }

  /** The writer as the source has it: `increase(size:)` defaults its date
      to the current instant, so every count change is stamped `now`. */
  function DrainAsWritten(s: Session, offers: seq<nat>, now: Instant): (res: (Session, seq<uint8>))
    ensures |s.queue| > 0 && !Congestion.Stale(s.account, now) && !Abandons(s) ==>
      res.0.account.bufferSize == s.account.bufferSize - |res.1|
  {
    Deliver(s, offers, now)
  }

  /** The writer with each count change stamped with the instant its frame
      was accounted, so a reset also discards the decrements of frames
      accounted before it. */
  function Drain(s: Session, offers: seq<nat>): (res: (Session, seq<uint8>))
    ensures Accounted(s) ==> Accounted(res.0)
    ensures |s.queue| > 0 ==> res.1 <= s.queue[0].data
  {
    if |s.queue| == 0 then (s, [])
    else
      DeliverKeepsAccounted(s, offers);
      Deliver(s, offers, s.queue[0].stamp)
  }

  /** The bytes of the queued frames accounted at or after the reset
      boundary (all of them when there was no reset). */
  function Pending(queue: seq<Frame>, since: Option<Instant>): int
  {
    if |queue| == 0 then 0
    else
      var last := queue[|queue| - 1];
      Pending(queue[..|queue| - 1], since) + (if since.Some? && since.value > last.stamp then 0 else |last.data|)
  }

  /** The writer, stamping with the frame's own instant, keeps the count
      equal to the bytes pending. */
  lemma DeliverKeepsAccounted(s: Session, offers: seq<nat>)
    requires |s.queue| > 0
    ensures Accounted(s) ==> Accounted(Deliver(s, offers, s.queue[0].stamp).0)
  {
    var (s', sent) := Deliver(s, offers, s.queue[0].stamp);
    PendingSplit(s.queue, s.account.clearDate);
    if |s'.queue| > 0 && s'.queue != s.queue[1..] {
      PendingSplit(s'.queue, s.account.clearDate);
      assert s'.queue[1..] == s.queue[1..];
    }
  }

  /** Pending counted from the front. */
  lemma {:induction false} PendingSplit(queue: seq<Frame>, since: Option<Instant>)
    requires |queue| > 0
    ensures Pending(queue, since) ==
      (if since.Some? && since.value > queue[0].stamp then 0 else |queue[0].data|) + Pending(queue[1..], since)
  {
    if |queue| > 1 {
      PendingSplit(queue[..|queue| - 1], since);
      assert queue[..|queue| - 1][1..] == queue[1..][..|queue[1..]| - 1];
    }
  }

  /** The congestion count is the number of queued bytes accounted since the
      last reset. */
  predicate Accounted(s: Session)
  {
    s.account.bufferSize == Pending(s.queue, s.account.clearDate)
  }

  /** A write keeps the count equal to the bytes accounted since the reset. */
  lemma WriteKeepsAccounted(s: Session, data: seq<uint8>, isKeyFrame: bool, date: Instant, now: Instant)
    requires Accounted(s)
    ensures Accounted(Write(s, data, isKeyFrame, date, now))
  {
    var s' := Write(s, data, isKeyFrame, date, now);
    if |data| > 0 {
      assert s'.queue[..|s'.queue| - 1] == s.queue;
    }
  }

  /** A reset after every queued frame was accounted starts the count from
      zero with nothing pending. */
  lemma ResetKeepsAccounted(s: Session, now: Instant)
    requires Valid(s)
    requires forall i :: 0 <= i < |s.queue| ==> s.queue[i].stamp < now
    ensures Accounted(Reset(s, now))
  {
    NothingPendingBefore(s.queue, now);
  }

  lemma {:induction false} NothingPendingBefore(queue: seq<Frame>, now: Instant)
    requires forall i :: 0 <= i < |queue| ==> queue[i].stamp < now
    ensures Pending(queue, Some(now)) == 0
  {
    if |queue| > 0 {
      NothingPendingBefore(queue[..|queue| - 1], now);
    }
  }

  /** A 100-byte write accounted at instant 1, a reset at instant 2, and the
      writer sending the frame at instant 3: as written, the decrement is
      stamped 3, passes the reset boundary, and drives the count to -100
      although nothing is queued; stamped with the frame's instant it is
      discarded and the count stays 0. */
  lemma LateDecrementAfterReset(data: seq<uint8>)
    requires |data| == 100
    ensures var s0 := Write(Init(), data, false, 1.0, 1.0);
      var s1 := Reset(s0, 2.0);
      && DrainAsWritten(s1, [100], 3.0).0.account.bufferSize == -100
      && DrainAsWritten(s1, [100], 3.0).0.queue == []
      && !Accounted(DrainAsWritten(s1, [100], 3.0).0)
      && Drain(s1, [100]).0.account.bufferSize == 0
      && Accounted(Drain(s1, [100]).0)
  {
    var s0 := Write(Init(), data, false, 1.0, 1.0);
    assert s0.queue == [Frame(data, 1.0, 1.0)] && !s0.shouldClearCongestionBuffer;
    var s1 := Reset(s0, 2.0);
    assert s1.queue == [Frame(data, 1.0, 1.0)] && !Abandons(s1);
    assert SumN([100]) == 100 by {
      assert [100][..0] == [];
    }
    var late := DrainAsWritten(s1, [100], 3.0).0;
    assert late.account.bufferSize == -100;
    assert late.queue == [];
    assert Pending(late.queue, late.account.clearDate) == 0;
    ResetKeepsAccounted(s0, 2.0);
    var fixed := Drain(s1, [100]).0;
    assert fixed.account.bufferSize == 0;
  }
}
