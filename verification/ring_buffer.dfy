/** The fixed-capacity circular byte store that stages inbound handshake
    bytes (Source/DataLayer/RingBuffer.swift). The store is a value: every
    operation returns the updated buffer. The internal lock only serialises
    callers and has no counterpart here. */
module RingBuffer {
  import opened Wire

  function Min(a: int, b: int): int
  {
    if a <= b then a else b
  }

  /** `buffer` holds the capacity slots, `write` and `read` are the cursors and
      `ring` tells a full buffer from an empty one when the cursors meet. */
  datatype Ring = Ring(buffer: seq<uint8>, write: int, read: int, ring: bool)
  {
    function Capacity(): nat
    {
      |buffer|
    }

    /** A cursor may rest on `Capacity()` itself: a copy that ends exactly at
        the end of the store does not wrap the cursor back to 0. */
    predicate Valid()
    {
      0 <= write <= |buffer| && 0 <= read <= |buffer|
    }

    /** Number of bytes a put may store. */
    function MaxSpacesAvailable(): (s: int)
      requires Valid()
      ensures 0 <= s <= Capacity()
      ensures ring && write == read ==> s == Capacity()
    {
      if write >= read then |buffer| - write + read else read - write
    }

    /** Number of bytes a get may return. Unless `ring` is set, what can be
        read and what can be written add up to the capacity; with `ring` set
        and the cursors equal, both report the full capacity. */
    function MaxBytesAvailable(): (b: int)
      requires Valid()
      ensures 0 <= b <= Capacity()
      ensures !ring ==> b + MaxSpacesAvailable() == Capacity()
      ensures write == read ==> (b == Capacity() <==> ring || Capacity() == 0)
    {
      if write > read then write - read
      else if write == read then (if ring then |buffer| else 0)
      else |buffer| - read + write
    }
  }

  /** A buffer of the given capacity with both cursors at 0. */
  function Create(capacity: nat): (r: Ring)
    ensures r.Valid() && r.Capacity() == capacity
    ensures r.MaxBytesAvailable() == 0 && r.MaxSpacesAvailable() == capacity
  {
    Ring(seq(capacity, _ => 0), 0, 0, false)
  }

  /** The slot k places after `start`, wrapping once around a store of
      capacity c. */
  function Idx(start: int, k: int, c: int): int
  {
    if start + k < c then start + k else start + k - c
  }

  /** Whether slot i is one of the n slots a copy starting at `start` touches:
      [start, start + n) when that fits, else the tail [start, c) and the head
      [0, start + n - c). */
  predicate InWindow(start: int, n: int, c: int, i: int)
  {
    if start + n <= c then start <= i < start + n
    else start <= i < c || 0 <= i < start + n - c
  }

  /** How far slot i lies after `start`, counting around the wrap. */
  function Offset(start: int, i: int, c: int): int
  {
    if i >= start then i - start else i + c - start
  }

  /** `src` copied over `buf` from slot `start` on. */
  function Overwrite(buf: seq<uint8>, start: nat, src: seq<uint8>): (r: seq<uint8>)
    requires start + |src| <= |buf|
    ensures |r| == |buf|
    ensures forall i :: 0 <= i < |buf| ==>
      r[i] == if start <= i < start + |src| then src[i - start] else buf[i]
  {
    buf[..start] + src + buf[start + |src|..]
  }

  function Zeros(n: nat): (r: seq<uint8>)
    ensures |r| == n && forall i :: 0 <= i < n ==> r[i] == 0
  {
    seq(n, _ => 0)
  }

  /** The two copies of a put: the part of `src` that fits before the end of
      the store goes to [start, ...), the rest to the front of the store. */
  function WrapCopy(buf: seq<uint8>, start: nat, src: seq<uint8>): (r: seq<uint8>)
    requires start <= |buf| && |src| <= |buf|
    ensures |r| == |buf|
    ensures forall i :: 0 <= i < |buf| ==>
      r[i] == if InWindow(start, |src|, |buf|, i) then src[Offset(start, i, |buf|)] else buf[i]
  {
    var realSize := Min(start + |src|, |buf|) - start;
    var head := Overwrite(buf, start, src[..realSize]);
    if realSize < |src| then Overwrite(head, 0, src[realSize..]) else head
  }

  /** Where a cursor lands after moving n slots from `start`: the end of the
      store itself if the move ends there, else the overflow length. */
  function Advance(start: int, n: int, c: int): int
  {
    if start + n <= c then start + n else start + n - c
  }

  /** Stores up to `size` bytes of `data` at the write cursor, wrapping at the
      end of the store, and reports how many it stored. */
  function Put(r: Ring, data: seq<uint8>, size: int): (res: (Ring, int))
    requires r.Valid() && size <= |data|
    ensures res.0.Valid() && res.0.Capacity() == r.Capacity()
    ensures size <= 0 ==> res == (r, 0)
    ensures size > 0 ==> res.1 == Min(size, r.MaxSpacesAvailable())
    ensures res.0.read == r.read
    ensures res.1 > 0 ==> res.0.write == Advance(r.write, res.1, r.Capacity())
    ensures res.1 <= 0 ==> res.0 == r
    ensures forall i :: 0 <= i < r.Capacity() ==>
      res.0.buffer[i] == if InWindow(r.write, res.1, r.Capacity(), i)
                         then data[Offset(r.write, i, r.Capacity())] else r.buffer[i]
    ensures res.0.ring == (r.ring || (res.1 > 0 && res.0.write == r.read))
  {
    if size <= 0 then (r, 0)
    else
      var max := r.MaxSpacesAvailable();
      var dataSize := if size > max then max else size;
      if dataSize > 0 then
        var written := Ring(WrapCopy(r.buffer, r.write, data[..dataSize]),
                            Advance(r.write, dataSize, |r.buffer|), r.read, r.ring);
        (if written.write == written.read then written.(ring := true) else written, dataSize)
      else (r, dataSize)
  }

  /** Takes up to `size` bytes from the read cursor, wrapping at the end of
      the store; with `clear` the consumed slots are zeroed. The result holds
      the updated buffer and the bytes taken, whose length is the count the
      source returns. */
  function Get(r: Ring, size: int, clear: bool): (res: (Ring, seq<uint8>))
    requires r.Valid()
    ensures res.0.Valid() && res.0.Capacity() == r.Capacity()
    ensures size <= 0 ==> res == (r, [])
    ensures size > 0 ==> |res.1| == Min(size, r.MaxBytesAvailable())
    ensures res.0.write == r.write
    ensures |res.1| > 0 ==> res.0.read == Advance(r.read, |res.1|, r.Capacity())
    ensures |res.1| == 0 ==> res.0 == r
    ensures |res.1| > 0 ==> !res.0.ring
    ensures forall j :: 0 <= j < |res.1| ==> res.1[j] == r.buffer[Idx(r.read, j, r.Capacity())]
    ensures forall i :: 0 <= i < r.Capacity() ==>
      res.0.buffer[i] == if clear && InWindow(r.read, |res.1|, r.Capacity(), i) then 0 else r.buffer[i]
  {
    if size <= 0 then (r, [])
    else
      var max := r.MaxBytesAvailable();
      var dataSize := if size > max then max else size;
      if dataSize > 0 then
        var start := r.read;
        var end := Min(start + dataSize, |r.buffer|);
        var realSize := end - start;
        var out := WrapRead(r.buffer, start, dataSize);
        var buffer := if clear then WrapZero(r.buffer, start, dataSize) else r.buffer;
        var read := if realSize < dataSize then dataSize - realSize else r.read + realSize;
        assert read == Advance(r.read, dataSize, r.Capacity());
        (Ring(buffer, r.write, read, false), out)
      else (r, [])
  }

  /** The n slots from `start` on, wrapping at the end of the store, zeroed. */
  function WrapZero(buf: seq<uint8>, start: nat, n: nat): (r: seq<uint8>)
    requires start <= |buf| && n <= |buf|
    ensures |r| == |buf|
    ensures forall i :: 0 <= i < |buf| ==> r[i] == if InWindow(start, n, |buf|, i) then 0 else buf[i]
  {
    WrapCopy(buf, start, Zeros(n))
  }

  /** The two copies of a get: the n slots from `start` to the end of the
      store, then as many from its front as are still wanted. */
  function WrapRead(buf: seq<uint8>, start: nat, n: nat): (out: seq<uint8>)
    requires start <= |buf| && n <= |buf|
    ensures |out| == n
    ensures forall j :: 0 <= j < n ==> out[j] == buf[Idx(start, j, |buf|)]
  {
    var end := Min(start + n, |buf|);
    if end - start < n then buf[start..end] + buf[..n - (end - start)] else buf[start..end]
  }

  /** Rewinds both cursors and forgets `ring`; the stored bytes stay. */
  function Clear(r: Ring): (r': Ring)
    requires r.Valid()
    ensures r'.Valid() && r'.buffer == r.buffer
    ensures r'.MaxBytesAvailable() == 0 && r'.MaxSpacesAvailable() == r.Capacity()
    ensures r'.write == 0 && r'.read == 0 && !r'.ring
  {
    Ring(r.buffer, 0, 0, false)
  }

  /** The unread bytes, oldest first: the MaxBytesAvailable() slots from the
      read cursor on. This is the queue the buffer stands for. */
  ghost function Unread(r: Ring): (q: seq<uint8>)
    requires r.Valid()
    ensures |q| == r.MaxBytesAvailable()
  {
    seq(r.MaxBytesAvailable(), k requires 0 <= k < r.MaxBytesAvailable() =>
      r.buffer[Idx(r.read, k, r.Capacity())])
  }

  /** A get hands out the oldest unread bytes and leaves the rest queued. */
  lemma GetTakesOldest(r: Ring, size: int, clear: bool)
    requires r.Valid()
    ensures var (r', out) := Get(r, size, clear);
      out == Unread(r)[..|out|] && Unread(r') == Unread(r)[|out|..]
  {
    var (r', out) := Get(r, size, clear);
    var c := r.Capacity();
    var n := |out|;
    if n > 0 {
      var b := r.MaxBytesAvailable();
      assert r'.MaxBytesAvailable() == b - n;
      forall k | 0 <= k < b - n
        ensures Unread(r')[k] == Unread(r)[n + k]
      {
        assert Idx(r'.read, k, c) == Idx(r.read, n + k, c);
        assert !InWindow(r.read, n, c, Idx(r.read, n + k, c));
      }
    }
  }

  /** A put while `ring` is clear appends the stored bytes behind the unread
      ones; nothing queued is overwritten. */
  lemma PutAppends(r: Ring, data: seq<uint8>, size: int)
    requires r.Valid() && size <= |data| && !r.ring
    ensures var (r', n) := Put(r, data, size);
      n >= 0 && Unread(r') == Unread(r) + data[..n]
  {
    var (r', n) := Put(r, data, size);
    var c := r.Capacity();
    var b := r.MaxBytesAvailable();
    if n > 0 {
      assert r'.MaxBytesAvailable() == b + n;
      forall k | 0 <= k < b + n
        ensures Unread(r')[k] == (Unread(r) + data[..n])[k]
      {
        if k < b {
          assert !InWindow(r.write, n, c, Idx(r.read, k, c));
        } else {
          assert Idx(r.read, k, c) == Idx(r.write, k - b, c);
          assert InWindow(r.write, n, c, Idx(r.write, k - b, c));
          assert Offset(r.write, Idx(r.write, k - b, c), c) == k - b;
        }
      }
    }
  }

  /** As written, a full buffer (`ring` set, cursors equal) reports its whole
      capacity as free, so a put lands on the oldest unread bytes: here a
      full two-byte buffer holding 1, 2 takes the byte 9 over the 1, and
      afterwards reports 9 as its only unread byte. */
  lemma FullPutOverwrites()
    ensures var full := Ring([1, 2], 0, 0, true);
      var (after, n) := Put(full, [9], 1);
      && Unread(full) == [1, 2] && full.MaxSpacesAvailable() == 2
      && n == 1 && Unread(after) == [9]
      && Unread(after) != Unread(full) + [9][..n]
  {
    var full := Ring([1, 2], 0, 0, true);
    var (after, n) := Put(full, [9], 1);
    assert Unread(full)[0] == 1 && Unread(full)[1] == 2;
    assert after.buffer[0] == 9;
    assert |Unread(after)| == 1;
  }

  /** As written, a put of a whole capacity's worth into a full buffer
      replaces every unread byte: afterwards the unread bytes are exactly the
      new ones and the old ones are gone. */
  lemma FullPutReplaces(r: Ring, data: seq<uint8>)
    requires r.Valid() && r.ring && r.write == r.read && |data| == r.Capacity() > 0
    ensures var (r', n) := Put(r, data, |data|);
      n == |data| && Unread(r') == data
  {
    var (r', n) := Put(r, data, |data|);
    var c := r.Capacity();
    assert r'.MaxBytesAvailable() == c;
    forall k | 0 <= k < c
      ensures Unread(r')[k] == data[k]
    {
      assert InWindow(r.write, c, c, Idx(r.read, k, c));
      assert Offset(r.write, Idx(r.read, k, c), c) == k;
    }
  }

  /** The free space as evidently intended: none while `ring` is set. */
  function FreeSpace(r: Ring): (s: int)
    requires r.Valid()
    ensures r.ring ==> s == 0
    ensures !r.ring ==> s == r.Capacity() - r.MaxBytesAvailable()
  {
    if r.ring then 0 else r.MaxSpacesAvailable()
  }

  /** `put` with the free space as evidently intended: a full buffer takes
      nothing, and whatever is stored goes behind the unread bytes. */
  function PutChecked(r: Ring, data: seq<uint8>, size: int): (res: (Ring, int))
    requires r.Valid() && size <= |data|
    ensures res.0.Valid() && res.0.Capacity() == r.Capacity()
    ensures 0 <= res.1 <= |data| && (size > 0 ==> res.1 == Min(size, FreeSpace(r)))
    ensures Unread(res.0) == Unread(r) + data[..res.1]
  {
    if r.ring then (r, 0)
    else
      PutAppends(r, data, size);
      Put(r, data, size)
  }

  /** One call on the buffer, as a caller issues it. */
  datatype Op = PutOp(data: seq<uint8>) | GetOp(size: int, clear: bool)

  /** The buffer after a run of calls, with every byte the puts accepted and
      every byte the gets returned, each in call order. */
  function Run(r: Ring, ops: seq<Op>): (res: (Ring, seq<uint8>, seq<uint8>))
    requires r.Valid()
    ensures res.0.Valid() && res.0.Capacity() == r.Capacity()
    decreases |ops|
  {
    if |ops| == 0 then (r, [], [])
    else
      match ops[0]
      case PutOp(data) =>
        var (r1, n) := Put(r, data, |data|);
        var (rn, acc, del) := Run(r1, ops[1..]);
        (rn, data[..n] + acc, del)
      case GetOp(size, clear) =>
        var (r1, out) := Get(r, size, clear);
        var (rn, acc, del) := Run(r1, ops[1..]);
        (rn, acc, out + del)
  }

  /** No put is issued while `ring` is set (the one state in which a put can
      overwrite unread bytes). */
  predicate NoPutWhileRing(r: Ring, ops: seq<Op>)
    requires r.Valid()
    decreases |ops|
  {
    if |ops| == 0 then true
    else
      match ops[0]
      case PutOp(data) => !r.ring && NoPutWhileRing(Put(r, data, |data|).0, ops[1..])
      case GetOp(size, clear) => NoPutWhileRing(Get(r, size, clear).0, ops[1..])
  }

  /** FIFO order across any run: what was queued before, followed by what
      the puts accepted, is exactly what the gets returned followed by what is
      still queued. */
  lemma {:induction false} RunIsFifo(r: Ring, ops: seq<Op>)
    requires r.Valid() && NoPutWhileRing(r, ops)
    ensures var res := Run(r, ops);
      Unread(r) + res.1 == res.2 + Unread(res.0)
    decreases |ops|
  {
    if |ops| > 0 {
      match ops[0]
      case PutOp(data) =>
        var r1 := Put(r, data, |data|).0;
        RunIsFifo(r1, ops[1..]);
        FifoPutStep(r, data, ops[1..]);
      case GetOp(size, clear) =>
        var r1 := Get(r, size, clear).0;
        RunIsFifo(r1, ops[1..]);
        FifoGetStep(r, size, clear, ops[1..]);
    }
  }

  lemma FifoPutStep(r: Ring, data: seq<uint8>, rest: seq<Op>)
    requires r.Valid() && !r.ring
    requires var r1 := Put(r, data, |data|).0; var res := Run(r1, rest);
      Unread(r1) + res.1 == res.2 + Unread(res.0)
    ensures var res := Run(r, [PutOp(data)] + rest);
      Unread(r) + res.1 == res.2 + Unread(res.0)
  {
    var ops := [PutOp(data)] + rest;
    var (r1, n) := Put(r, data, |data|);
    var res := Run(r1, rest);
    assert Run(r, ops) == (res.0, data[..n] + res.1, res.2) by {
      assert ops[1..] == rest;
    }
    PutAppends(r, data, |data|);
    Reassociate(Unread(r), data[..n], Unread(r1), res.1, res.2, Unread(res.0));
  }

  lemma Reassociate<T>(u: seq<T>, put: seq<T>, u1: seq<T>, acc: seq<T>, del: seq<T>, rest: seq<T>)
    requires u1 == u + put && u1 + acc == del + rest
    ensures u + (put + acc) == del + rest
  {
    calc {
      u + (put + acc);
      (u + put) + acc;
      del + rest;
    }
  }

  lemma FifoGetStep(r: Ring, size: int, clear: bool, rest: seq<Op>)
    requires r.Valid()
    requires var r1 := Get(r, size, clear).0; var res := Run(r1, rest);
      Unread(r1) + res.1 == res.2 + Unread(res.0)
    ensures var res := Run(r, [GetOp(size, clear)] + rest);
      Unread(r) + res.1 == res.2 + Unread(res.0)
  {
    var ops := [GetOp(size, clear)] + rest;
    var (r1, out) := Get(r, size, clear);
    var res := Run(r1, rest);
    assert Run(r, ops) == (res.0, res.1, out + res.2) by {
      assert ops[1..] == rest;
    }
    assert Unread(r) == out + Unread(r1) by {
      GetTakesOldest(r, size, clear);
      assert Unread(r) == Unread(r)[..|out|] + Unread(r)[|out|..];
    }
    Regroup(Unread(r), out, Unread(r1), res.1, res.2, Unread(res.0));
  }

  lemma Regroup<T>(u: seq<T>, out: seq<T>, u1: seq<T>, acc: seq<T>, del: seq<T>, rest: seq<T>)
    requires u == out + u1 && u1 + acc == del + rest
    ensures u + acc == (out + del) + rest
  {
    calc {
      u + acc;
      (out + u1) + acc;
      out + (u1 + acc);
      out + (del + rest);
      (out + del) + rest;
    }
  }
}
