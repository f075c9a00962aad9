/** Congestion accounting (zhiboApp/zhiboApp/other/CongestionManager.swift;
    the session keeps the same three fields and the same `increase`). A
    signed count of bytes queued for sending, and the instant of the last
    reset: accounting stamped before that instant belongs to the previous
    connection and is ignored. */
module Congestion {
  import opened Wire

  /** A Foundation `Date`, as seconds on one clock. */
  type Instant = real

  /** Ten mebibytes, the default ceiling. */
  const DefaultMaxCongestionSize: int := 1024 * 1024 * 10

  datatype Account = Account(maxCongestionSize: int, bufferSize: int, clearDate: Option<Instant>)

  /** A fresh account with the given ceiling. */
  function Init(maxCongestionSize: int): (a: Account)
    ensures a.bufferSize == 0 && a.clearDate == None
    ensures a.maxCongestionSize == maxCongestionSize
  {
    Account(maxCongestionSize, 0, None)
  }

  /** Whether accounting stamped `date` predates the last reset. */
  predicate Stale(a: Account, date: Instant)
  {
    a.clearDate.Some? && a.clearDate.value > date
  }

  /** Adds `size` (which may be negative) to the count unless `date` lies
      strictly before the last reset. Nothing bounds the count below: it can
      go negative. */
  function Increase(a: Account, size: int, date: Instant): (a': Account)
    ensures a'.maxCongestionSize == a.maxCongestionSize && a'.clearDate == a.clearDate
    ensures Stale(a, date) ==> a'.bufferSize == a.bufferSize
    ensures !Stale(a, date) ==> a'.bufferSize == a.bufferSize + size
  {
    if a.clearDate.Some? && a.clearDate.value > date then a
    else a.(bufferSize := a.bufferSize + size)
  }

  /** Zeroes the count and records `now` as the reset boundary. */
  function Clear(a: Account, now: Instant): (a': Account)
    ensures a'.bufferSize == 0 && a'.clearDate == Some(now)
    ensures a'.maxCongestionSize == a.maxCongestionSize
  {
    a.(bufferSize := 0, clearDate := Some(now))
  }

  /** One accounting call: a size and the instant it is stamped with. */
  datatype Event = Event(size: int, date: Instant)

  /** The sum of the sizes stamped at or after `since` (all of them when
      there was no reset). */
  function Counted(events: seq<Event>, since: Option<Instant>): int
  {
    if |events| == 0 then 0
    else
      var last := events[|events| - 1];
      Counted(events[..|events| - 1], since)
      + (if since.Some? && since.value > last.date then 0 else last.size)
  }

  function ApplyAll(a: Account, events: seq<Event>): Account
  {
    if |events| == 0 then a
    else
      var last := events[|events| - 1];
      Increase(ApplyAll(a, events[..|events| - 1]), last.size, last.date)
  }

  /** After any run of increases the count has moved by exactly the sizes
      stamped no earlier than the reset boundary, and the boundary and the
      ceiling are untouched. */
  lemma {:induction false} ApplyAllCounts(a: Account, events: seq<Event>)
    ensures ApplyAll(a, events).bufferSize == a.bufferSize + Counted(events, a.clearDate)
    ensures ApplyAll(a, events).clearDate == a.clearDate
    ensures ApplyAll(a, events).maxCongestionSize == a.maxCongestionSize
  {
    if |events| > 0 {
      ApplyAllCounts(a, events[..|events| - 1]);
    }
  }

  /** Once cleared at `now`, an account ignores every event stamped earlier,
      so a late event from before the reset cannot disturb it. */
  lemma {:induction false} ClearShieldsLateEvents(a: Account, now: Instant, events: seq<Event>)
    requires forall i :: 0 <= i < |events| ==> events[i].date < now
    ensures ApplyAll(Clear(a, now), events).bufferSize == 0
  {
    ApplyAllCounts(Clear(a, now), events);
    NoneCounted(events, now);
  }

  lemma {:induction false} NoneCounted(events: seq<Event>, now: Instant)
    requires forall i :: 0 <= i < |events| ==> events[i].date < now
    ensures Counted(events, Some(now)) == 0
  {
    if |events| > 0 {
      NoneCounted(events[..|events| - 1], now);
    }
  }
}
