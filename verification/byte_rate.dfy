/** The byte-rate sampler's bookkeeping (Source/DataLayer/ByteRateManager.swift):
    two accumulator lists filled by the write path and drained once per
    measurement tick. The sampling thread, its two-second wait and the
    division of the sums by the elapsed time are outside the model; a tick
    reports the integer sums. */
module ByteRate {
  import opened Wire

  /** `didSentBufferSize`, `willSendbufferSize`, `stopUpdate`, `started`,
      and whether `callback` is set (the closure itself is outside the
      model). */
  datatype Manager = Manager(didSent: seq<int>, willSend: seq<int>, stopUpdate: bool, started: bool,
                             hasCallback: bool)

  /** The sum of a list, taken front to back. */
  function Sum(xs: seq<int>): int
  {
    if |xs| == 0 then 0 else Sum(xs[..|xs| - 1]) + xs[|xs| - 1]
  }

  /** `reduce(0, +)`, the loop that totals a list. */
  method Reduce(xs: seq<int>) returns (total: int)
    ensures total == Sum(xs)
  {
    total := 0;
    var i := 0;
    while i < |xs|
      invariant 0 <= i <= |xs|
      invariant total == Sum(xs[..i])
    {
      assert xs[..i + 1][..i] == xs[..i];
      total := total + xs[i];
      i := i + 1;
    }
    assert xs[..|xs|] == xs;
  }

  /** A manager before `start`: no samples, not started, updates stopped,
      no callback. */
  function Init(): (m: Manager)
    ensures m.didSent == [] && m.willSend == [] && m.stopUpdate && !m.started && !m.hasCallback
  {
    Manager([], [], true, false, false)
  }

  /** `clear`: both lists emptied, the sampler stopped and marked not
      started, so the manager is back in its initial state except that the
      callback stays registered. */
  function Clear(m: Manager): (m': Manager)
    ensures m' == Init().(hasCallback := m.hasCallback)
  {
    m.(didSent := [], willSend := [], stopUpdate := true, started := false)
  }

  /** `start`: acts only on a manager not yet started, and then marks it
      started and running; the lists are untouched either way. */
  function Start(m: Manager): (m': Manager)
    ensures m.started ==> m' == m
    ensures !m.started ==> m'.started && !m'.stopUpdate
    ensures m'.didSent == m.didSent && m'.willSend == m.willSend && m'.hasCallback == m.hasCallback
  {
    if !m.started then m.(started := true, stopUpdate := false) else m
  }

  /** `didSentBuffer`: records one send result; nothing else changes, and the
      pending total grows by exactly that amount. */
  function DidSentBuffer(m: Manager, size: int): (m': Manager)
    ensures |m'.didSent| == |m.didSent| + 1 && m.didSent <= m'.didSent
    ensures m'.didSent[|m.didSent|] == size && Sum(m'.didSent) == Sum(m.didSent) + size
    ensures m'.willSend == m.willSend && m'.stopUpdate == m.stopUpdate && m'.started == m.started
    ensures m'.hasCallback == m.hasCallback
  {
    var m' := m.(didSent := m.didSent + [size]);
    assert m'.didSent[..|m.didSent|] == m.didSent;
    m'
  }

  /** `willSendBuffer`: replaces the queued-size list by the single latest
      observation, so that list never holds more than one entry. */
  function WillSendBuffer(m: Manager, size: int): (m': Manager)
    ensures |m'.willSend| == 1 && Sum(m'.willSend) == size
    ensures m'.didSent == m.didSent && m'.stopUpdate == m.stopUpdate && m'.started == m.started
    ensures m'.hasCallback == m.hasCallback
  {
    m.(willSend := [size])
  }

  /** What a tick hands the callback, before division by the elapsed time. */
  datatype Report = Report(totalWillSend: int, totalSent: int)

  /** One pass of the sampling loop. A stopped manager does not tick. A
      running one empties the sent list and keeps the queued-size list
      whether or not a callback is registered, and hands the two sums over
      only to a registered callback. */
  function Tick(m: Manager): (res: (Manager, Option<Report>))
    ensures m.stopUpdate ==> res == (m, None)
    ensures res.1.Some? <==> !m.stopUpdate && m.hasCallback
    ensures res.1.Some? ==> res.1.value == Report(Sum(m.willSend), Sum(m.didSent))
    ensures !m.stopUpdate ==>
      && res.0.didSent == [] && res.0.willSend == m.willSend
      && res.0.stopUpdate == m.stopUpdate && res.0.started == m.started
      && res.0.hasCallback == m.hasCallback
  {
    if m.stopUpdate then (m, None)
    else
      var totalSent := Sum(m.didSent);
      var totalWillSend := Sum(m.willSend);
      (m.(didSent := []), if m.hasCallback then Some(Report(totalWillSend, totalSent)) else None)
  }

  /** The calls the write path and the session make on a manager. */
  datatype Call = Sent(size: int) | Queued(size: int) | Ticked | Started | Cleared

  function Step(m: Manager, c: Call): Manager
  {
    match c
    case Sent(size) => DidSentBuffer(m, size)
    case Queued(size) => WillSendBuffer(m, size)
    case Ticked => Tick(m).0
    case Started => Start(m)
    case Cleared => Clear(m)
  }

  function Steps(m: Manager, calls: seq<Call>): Manager
  {
    if |calls| == 0 then m else Step(Steps(m, calls[..|calls| - 1]), calls[|calls| - 1])
  }

  /** Through any sequence of calls from the initial state the queued-size
      list holds at most one entry. */
  lemma {:induction false} WillSendAtMostOne(calls: seq<Call>)
    ensures |Steps(Init(), calls).willSend| <= 1
  {
    if |calls| > 0 {
      WillSendAtMostOne(calls[..|calls| - 1]);
    }
  }

  /** The bytes the sent-calls in `calls` recorded. */
  function SentIn(calls: seq<Call>): int
  {
    if |calls| == 0 then 0
    else SentIn(calls[..|calls| - 1]) + (if calls[|calls| - 1].Sent? then calls[|calls| - 1].size else 0)
  }

  /** The sent totals the ticks among `calls` reported. */
  function ReportedSent(m: Manager, calls: seq<Call>): int
  {
    if |calls| == 0 then 0
    else
      var before := Steps(m, calls[..|calls| - 1]);
      var report := if calls[|calls| - 1].Ticked? then Tick(before).1 else None;
      ReportedSent(m, calls[..|calls| - 1]) + (if report.Some? then report.value.totalSent else 0)
  }

  /** No call changes whether a callback is registered. */
  lemma {:induction false} CallbackKept(m: Manager, calls: seq<Call>)
    ensures Steps(m, calls).hasCallback == m.hasCallback
  {
    if |calls| > 0 {
      CallbackKept(m, calls[..|calls| - 1]);
    }
  }

  /** With a registered callback no byte count is lost or reported twice:
      unless the manager is cleared along the way, what was pending plus
      what was recorded equals what the ticks reported plus what is still
      pending. */
  lemma {:induction false} SentIsConserved(m: Manager, calls: seq<Call>)
    requires m.hasCallback
    requires forall i :: 0 <= i < |calls| ==> !calls[i].Cleared?
    ensures Sum(m.didSent) + SentIn(calls) == ReportedSent(m, calls) + Sum(Steps(m, calls).didSent)
  {
    if |calls| > 0 {
      SentIsConserved(m, calls[..|calls| - 1]);
      CallbackKept(m, calls[..|calls| - 1]);
    }
  }

  /** Without a callback the ticks still drain the sent list but report
      nothing, so whatever they drain is dropped. */
  lemma {:induction false} UnregisteredReportsNothing(m: Manager, calls: seq<Call>)
    requires !m.hasCallback
    ensures ReportedSent(m, calls) == 0
  {
    if |calls| > 0 {
      UnregisteredReportsNothing(m, calls[..|calls| - 1]);
      CallbackKept(m, calls[..|calls| - 1]);
    }
  }
}
