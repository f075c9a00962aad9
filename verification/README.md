# RTMP publisher core, modelled in Dafny

This project models the core of a small RTMP live-streaming publisher written
in Swift. It covers the parts of the client that decide what goes on the wire
and when:

- **Session status** (`Status`): the `RTMPStatus` option set. It is modelled
  as a set of flags with the raw value as a sum of powers of two. The raw
  value is what the session's guards compare.
- **Staging ring buffer** (`RingBuffer`): the fixed-capacity circular byte
  store. It holds the `write`/`read` cursors and the `ring` flag that tells
  full from empty. Put, get, clear and both capacity queries are modelled.
- **AMF0 encoders** (`Amf0`, `RtmpTypes`): the string encoder, in the current
  form and the older copy. Also the number encoder, the other numeric types
  that go through it, and the type markers and chunk-type bytes.
- **URL accessors** (`UrlPath`): the application name and the play path taken
  from a URL's path.
- **Congestion accounting** (`Congestion`): a signed count of queued bytes. It
  ignores changes dated before the last clear.
- **Byte-rate managers**: `ByteRate` is the session's sampler. `Sampler` is the
  adaptive-bitrate `BufferManager`, with its 30/3/5-entry windows, growth
  score, bitrate vector and pivot average.
- **The publishing session**: `RtmpSession` covers the outbound side: `init`,
  `connect`, `reset`, `write` and the serial writer that drains the queue.
  `RtmpHandshake` covers the inbound side: the C0/C1/C2 handshake, the receive
  loop that stages bytes and reacts to S0/S1/S2, and the transport-event
  handler. `HandshakeProps` states properties of whole exchanges.

Every object is a value. Each operation returns the updated value instead of
mutating it. Where the source writes to a pointer, the model returns the
bytes. Clocks, random bytes and what the transport accepts or delivers are
parameters.

A few places follow the code where its own comments or the surrounding design
suggest otherwise:

- The growth score walks `buffGrowth` newest first, starting from a previous
  value of 0. So queued-byte observations 100, 80, 60 (in time order) score −3,
  not +2 (`Sampler.DrainingExample`). The recommendation is still "increase",
  because any score ≤ 0 allows it.
- The S2 reply is checked for length but never consumed. It stays in the
  staging buffer, and the parser then stops the receive loop
  (`HandshakeProps.ServerReplyCompletes`).
- After the transport reports end of stream, `connect` does not reset the
  `disconnected` status. The open handler arms the handshake only below raw
  value 2, so a reconnect never handshakes
  (`HandshakeProps.ReconnectAfterDisconnectStalls`).

## Model

| member | source | states |
|---|---|---|
| Wire.DecodeEncodeLE | Source/DataLayer/AFM0Encoder.swift:21-26 | a count stored in host (little-endian) byte order in w bytes reads back as itself whenever it fits in w bytes |
| Wire.DecodeEncodeBE | Source/DataLayer/AFM0Encoder.swift:47-52 | a value stored in network (big-endian) order reads back as itself whenever it fits |
| Wire.EncodeBEIsReversedLE | Source/DataLayer/AFM0Encoder.swift:48 | the byte-swapped layout is the host layout in reverse, byte for byte |
| RtmpTypes.ChunkTypeRaw | Source/Network/RTMPType.swift:25-35 | each chunk type's byte has its low six bits clear and carries the fmt value 0..3 in its top two bits |
| RtmpTypes.BasicHeaderRoundTrip | Source/Network/RTMPType.swift:25-54 | a chunk type ORed with a chunk stream id below 64 gives back both the type and the id |
| RtmpTypes.TypeOfMarker | Source/Network/RTMPType.swift:260-280 | a byte is an AMF0 marker exactly when it is 0..17 or 0xFF, and the type found has that marker |
| RtmpTypes.MarkerRoundTrip | Source/Network/RTMPType.swift:260-280 | reading a type's marker gives the type back |
| RtmpTypes.MarkersDistinct | Source/Network/RTMPType.swift:260-280 | no two AMF0 types share a marker |
| Amf0.LengthRoundTrip | Source/DataLayer/AFM0Encoder.swift:21-26 | a length prefix written in either byte order reads back in that same order |
| Amf0.StringLayout | Source/DataLayer/AFM0Encoder.swift:17-41 | where the marker, the 2- or 4-byte length and the UTF-8 bytes land, and that the encoding is all three in order |
| Amf0.AppendString | Source/DataLayer/AFM0Encoder.swift:17-41 | the encoder as written fails exactly above 0xFFFFFFFF bytes; otherwise it extends the data with marker 0x02, a host-order 16-bit length and the bytes (up to 0xFFFF), or with marker 0x0C and a 32-bit length |
| Amf0.AppendStringNetwork | Source/DataLayer/AFM0Encoder.swift:17-41 | the same boundaries and markers, with the length in network order as AMF0 requires |
| Amf0.StringRoundTrip | Source/DataLayer/AFM0Encoder.swift:17-41 | a reader using the writer's byte order gets the string back and the exact count of bytes consumed, whatever follows |
| Amf0.HostOrderPrefixMisread | Source/DataLayer/AFM0Encoder.swift:21-26 | "a" encodes as 02 01 00 61, which a network-order reader rejects; the corrected encoder's bytes read back as "a" |
| Amf0.AppendStringLegacy | Source/Network/RTMPType.swift:227-251 | the older encoder has the same boundaries and markers but appends only the marker and the length |
| Amf0.LegacyOmitsPayload | Source/Network/RTMPType.swift:227-251 | the older encoder's output is the newer one's without the string bytes, so strings of equal length encode alike |
| Amf0.LegacyConfusesStrings | Source/Network/RTMPType.swift:227-251 | "a" and "b" both encode as 02 01 00 under the older encoder |
| Amf0.AppendDouble | Source/DataLayer/AFM0Encoder.swift:44-54 | a number is marker 0x00 followed by the 64-bit pattern in network order: nine bytes added after the data |
| Amf0.NumberRoundTrip | Source/DataLayer/AFM0Encoder.swift:44-54 | every 64-bit pattern reads back from the encoding, whatever follows |
| Amf0.AppendNumeric | Source/DataLayer/AFM0Encoder.swift:56-104 | Float, Int, UInt, Int64 and UInt64 encode as the number their Double conversion gives |
| Status.Bit | Source/Network/RTMPSession.swift:19-33 | each flag owns a distinct bit position 0..14 |
| Status.RawOfFlag | Source/Network/RTMPSession.swift:19-33 | a single flag's raw value is 2 to the power of its bit |
| Status.RawBelowPow2 | Source/Network/RTMPSession.swift:11-34 | the raw value is below 2^k exactly when every flag set sits below bit k |
| Status.RawValueInjective | Source/Network/RTMPSession.swift:11-34 | two statuses with the same raw value hold the same flags |
| Status.RawZeroIffEmpty | Source/Network/RTMPSession.swift:95 | the raw value is 0 exactly when no flag is set |
| RingBuffer.Create | Source/DataLayer/RingBuffer.swift:22-30 | a new buffer has the given capacity, nothing to read and all of it free |
| RingBuffer.Ring.MaxSpacesAvailable | Source/DataLayer/RingBuffer.swift:38-44 | the free space lies in 0..capacity, and it reports the whole capacity when `ring` is set with the cursors equal |
| RingBuffer.Ring.MaxBytesAvailable | Source/DataLayer/RingBuffer.swift:47-59 | readable bytes lie in 0..capacity; without `ring`, readable plus free is the capacity; with equal cursors it is the capacity exactly when `ring` is set |
| RingBuffer.Put | Source/DataLayer/RingBuffer.swift:61-83 | a put stores min(size, free space) bytes in the slots after the write cursor, wrapping, moves only that cursor, and sets `ring` when it lands on the read cursor |
| RingBuffer.Get | Source/DataLayer/RingBuffer.swift:85-115 | a get returns min(size, readable) bytes from the read cursor, wrapping, zeroes them if asked, moves only that cursor, and clears `ring` |
| RingBuffer.WrapRead | Source/DataLayer/RingBuffer.swift:94-102 | the bytes a get copies out are the n slots from the read cursor on, wrapping once to the front of the store |
| RingBuffer.WrapZero | Source/DataLayer/RingBuffer.swift:97-105 | clearing zeroes exactly the slots the get copied out and keeps every other slot |
| RingBuffer.Clear | Source/DataLayer/RingBuffer.swift:117-121 | clearing empties the buffer without touching the stored bytes |
| RingBuffer.GetTakesOldest | Source/DataLayer/RingBuffer.swift:85-115 | a get returns the oldest unread bytes, and what remains unread is the rest of the queue |
| RingBuffer.PutAppends | Source/DataLayer/RingBuffer.swift:61-83 | a put while `ring` is clear queues the stored bytes behind the unread ones |
| RingBuffer.RunIsFifo | Source/DataLayer/RingBuffer.swift:61-115 | over any run of puts and gets with no put while full, the earlier contents followed by what was put equal what was got followed by what is left |
| RingBuffer.FullPutOverwrites | Source/DataLayer/RingBuffer.swift:38-44 | a full buffer reports free space, and a put into it overwrites the oldest unread byte and loses the rest |
| RingBuffer.FullPutReplaces | Source/DataLayer/RingBuffer.swift:38-83 | a put of a whole capacity's worth into a full buffer leaves exactly the new bytes unread: every old one is lost |
| RingBuffer.FreeSpace | Source/DataLayer/RingBuffer.swift:38-44 | the corrected free space: none while full, otherwise the capacity less the readable bytes |
| RingBuffer.PutChecked | Source/DataLayer/RingBuffer.swift:61-83 | the corrected put stores min(size, free space) bytes, and the unread queue grows by exactly those bytes, full buffer included |
| Congestion.Init | zhiboApp/zhiboApp/other/CongestionManager.swift:18-21 | a new account counts 0 bytes under the given ceiling and has never been cleared |
| Congestion.Increase | zhiboApp/zhiboApp/other/CongestionManager.swift:23-31 | a change dated before the last clear is ignored; any other change is added to the count |
| Congestion.Clear | zhiboApp/zhiboApp/other/CongestionManager.swift:33-36 | clearing zeroes the count and makes the current instant the boundary |
| Congestion.ApplyAllCounts | zhiboApp/zhiboApp/other/CongestionManager.swift:23-31 | a run of changes adds exactly the changes dated at or after the boundary |
| Congestion.ClearShieldsLateEvents | zhiboApp/zhiboApp/other/CongestionManager.swift:23-36 | after a clear, changes dated before it leave the count at 0 |
| Congestion.NoneCounted | zhiboApp/zhiboApp/other/CongestionManager.swift:25-27 | changes dated before the boundary count for nothing |
| ByteRate.Reduce | Source/DataLayer/ByteRateManager.swift:71-74 | the `reduce(0, +)` loop computes exactly `Sum`, the total the tick reports |
| ByteRate.Init | Source/DataLayer/ByteRateManager.swift:21-32 | a new manager has no samples and no callback, and is stopped and not started |
| ByteRate.Clear | Source/DataLayer/ByteRateManager.swift:38-43 | clearing restores the initial state, except that a registered callback stays registered |
| ByteRate.Start | Source/DataLayer/ByteRateManager.swift:45-53 | starting acts only once: a started manager is unchanged, otherwise it becomes started and running, and the samples are kept |
| ByteRate.DidSentBuffer | Source/DataLayer/ByteRateManager.swift:90-94 | a send result is appended, and the sent total grows by it |
| ByteRate.WillSendBuffer | Source/DataLayer/ByteRateManager.swift:96-101 | the queued-size record is replaced by the one new value |
| ByteRate.Tick | Source/DataLayer/ByteRateManager.swift:55-85 | a stopped manager does nothing; a running one drains the sent samples and keeps the queued one, and reports exactly when a callback is registered, with the queued and sent totals |
| ByteRate.WillSendAtMostOne | Source/DataLayer/ByteRateManager.swift:96-101 | from a fresh manager, however calls interleave, at most one queued-size value is held |
| ByteRate.SentIsConserved | Source/DataLayer/ByteRateManager.swift:55-94 | with a registered callback, every byte recorded as sent is reported by exactly one tick or still pending: none is lost or counted twice |
| ByteRate.CallbackKept | Source/DataLayer/ByteRateManager.swift:21-101 | no call on the manager registers or drops the callback |
| ByteRate.UnregisteredReportsNothing | Source/DataLayer/ByteRateManager.swift:77-83 | without a callback the ticks report nothing at all, so the send results they drain are dropped |
| Sampler.Init | zhiboApp/zhiboApp/other/File.swift:40-53 | a new sampler is stopped and not started, with empty accumulators and empty throughput, growth and pivot windows, no turndown yet, vector 0, and both the decrease and increase instants at 0 |
| Sampler.Clear | zhiboApp/zhiboApp/other/File.swift:55-68 | clearing restores exactly the initial state |
| Sampler.AddSentBuffer | zhiboApp/zhiboApp/other/File.swift:70-74 | a send result is appended and nothing else changes |
| Sampler.AddBuffer | zhiboApp/zhiboApp/other/File.swift:76-80 | a queued-byte observation is appended and nothing else changes |
| Sampler.Start | zhiboApp/zhiboApp/other/File.swift:89-97 | starting acts only when not yet started, and then makes the sampler started and running |
| Sampler.PushFront | zhiboApp/zhiboApp/other/File.swift:124-127 | insert-at-front then drop-last: the new entry leads, the old ones follow in order, and the window never exceeds its capacity |
| Sampler.GrowthScore | zhiboApp/zhiboApp/other/File.swift:136-141 | the loop computes the position-wise score of the growth window, which lies between −n and n |
| Sampler.DrainingScore | zhiboApp/zhiboApp/other/File.swift:136-141 | a window of positive observations, each newer one smaller, scores −n |
| Sampler.GrowingScore | zhiboApp/zhiboApp/other/File.swift:136-141 | a window of positive observations, each newer one larger, scores n − 2 |
| Sampler.DrainingExample | zhiboApp/zhiboApp/other/File.swift:136-141 | observations 100, 80, 60 in time order score −3 |
| Sampler.Vector | zhiboApp/zhiboApp/other/File.swift:143-151 | the vector is −1 exactly on a positive score; +1 exactly on a non-positive score with no turndown yet, or more than 30 s since the last decrease and more than 10 s since the last increase; otherwise 0 |
| Sampler.Trend | zhiboApp/zhiboApp/other/File.swift:129-171 | the latest observation leads the 3-entry growth window, the vector follows from its score, a decrease records its instant, and a turn from decreasing pushes the newest sample as a pivot within the 5-entry window; the pivot average returned is taken after that push, and a throughput above it is pushed as a pivot too, otherwise the window is kept |
| Sampler.Turned | zhiboApp/zhiboApp/other/File.swift:153-159 | a turn from decreasing to not decreasing pushes the newest sample as a pivot, within the window; any other step keeps the window |
| Sampler.Report | zhiboApp/zhiboApp/other/File.swift:178-183 | the callback fires exactly when registered, with the vector, pivot average and throughput; an increase it reports records its instant |
| Sampler.Tick | zhiboApp/zhiboApp/other/File.swift:99-185 | a stopped sampler does nothing; otherwise the throughput is pushed in front of the old 30-entry window, both accumulators are drained, the windows stay bounded, the callback fires exactly when registered, no observation means a hold with the trend untouched and average 0; otherwise the latest observation is pushed in front of the old 3-entry growth window, the vector follows from that window, the reported pivot average is the one taken after the turn push, and a throughput above it becomes a pivot |
| Sampler.TicksStayBounded | zhiboApp/zhiboApp/other/File.swift:124-168 | over any run of ticks each window stays within 30, 3 and 5 entries, and the latest throughput leads its window |
| Sampler.StopUpdateKept | zhiboApp/zhiboApp/other/File.swift:99-185 | ticks never start or stop the sampler |
| Sampler.NoIncreaseWhileSettling | zhiboApp/zhiboApp/other/File.swift:143-151 | within 30 s of a decrease no tick recommends an increase |
| UrlPath.FirstComponent | Source/Network/StringExtension.swift:37 | the first component is a prefix with no '/', followed by '/' or the end of the text |
| UrlPath.Components | Source/Network/StringExtension.swift:37 | splitting on '/' always gives at least one piece |
| UrlPath.JoinComponents | Source/Network/StringExtension.swift:37 | joining the pieces with '/' gives the text back |
| UrlPath.ComponentsHaveNoSlash | Source/Network/StringExtension.swift:37 | no piece of the split holds a '/' |
| UrlPath.FirstOfComponents | Source/Network/StringExtension.swift:37 | the first piece of the split is the first component |
| UrlPath.App | Source/Network/StringExtension.swift:30-38 | the application name is absent exactly when there is no path; otherwise it is the first component after one leading '/' |
| UrlPath.PlayPath | Source/Network/StringExtension.swift:54-64 | the play path exists exactly when the path starts with "/app/", and "/app/" followed by it is the path |
| UrlPath.PathRoundTrip | Source/Network/StringExtension.swift:30-65 | a path "/app/playPath" with a '/'-free app gives back that app and that play path |
| UrlPath.AppOnlyHasNoPlayPath | Source/Network/StringExtension.swift:54-64 | a path "/app" has that app name and no play path |
| UrlPath.FirstComponentOf | Source/Network/StringExtension.swift:37 | the first component of "a/rest" is a when a holds no '/' |
| UrlPath.NoSlashIsOneComponent | Source/Network/StringExtension.swift:37 | a text without '/' is its own first component |
| RtmpSession.Init | Source/Network/RTMPSession.swift:54-65 | a new session is unconnected, with an empty 4096-byte staging buffer, a 10 MiB ceiling, a zero count and nothing queued |
| RtmpSession.DetectByteRate | Source/Network/RTMPSession.swift:113-117 | a fresh, started byte-rate manager holding the callback as given, present or not, replaces any previous one, and nothing else changes |
| RtmpSession.ClearRate | Source/Network/RTMPSession.swift:128 | a present byte-rate manager is cleared to its initial state with its callback kept; an absent one stays absent |
| RtmpSession.Reset | Source/Network/RTMPSession.swift:123-131 | reset makes the status unconnected, drops the URL and S1, empties the staging buffer, clears the rate manager, and zeroes the count with now as the boundary; the write queue and keyframe state stay |
| RtmpSession.Lower | Source/Network/RTMPSession.swift:104 | lower-casing maps A..Z to a..z and keeps every other character |
| RtmpSession.Connect | Source/Network/RTMPSession.swift:94-111 | the session resets exactly when a flag other than unconnect or disconnected is set; an endpoint is opened exactly when the URL has a scheme lower-casing to "rtmp" and a host, at its port or 1935, and then the URL is kept; apart from the URL the result is the reset session when busy and the original session otherwise, and a refused URL leaves the URL of that session |
| RtmpSession.Write | Source/Network/RTMPSession.swift:144-152 | an empty write does nothing; otherwise the size is counted at now, the rate manager gets the new count, the drop flag is set exactly when the count reached the ceiling on a keyframe, a keyframe's date becomes the boundary, and the frame is queued |
| RtmpSession.SendsTotal | Source/Network/RTMPSession.swift:156-169 | the transport writes deliver min(total offered, frame size) bytes in all |
| RtmpSession.Deliver | Source/Network/RTMPSession.swift:152-175 | the head frame is either dropped, with its unsent bytes taken off the count, or sent as far as the offers allow, with exactly the sent bytes taken off; an unfinished frame stays at the head with its remainder |
| RtmpSession.WriterLoop | Source/Network/RTMPSession.swift:152-175 | the writer loop, one transport write per offer, computes exactly the whole-frame result |
| RtmpSession.Transmit | Source/Network/RTMPSession.swift:156-174 | the transport writes of one frame send the first min(total offered, frame size) bytes in order, take exactly those off the count, and report one send per write made |
| RtmpSession.DrainAsWritten | Source/Network/RTMPSession.swift:159-169 | with decrements stamped at the current instant, the count drops by exactly the bytes sent |
| RtmpSession.Drain | Source/Network/RTMPSession.swift:159-169 | with decrements stamped at the frame's accounting instant, the count keeps matching the queued bytes, and the bytes sent are a prefix of the head frame |
| RtmpSession.DeliverKeepsAccounted | Source/Network/RTMPSession.swift:134-175 | stamped with the frame's instant, the writer keeps the count equal to the queued bytes accounted since the boundary |
| RtmpSession.WriteKeepsAccounted | Source/Network/RTMPSession.swift:144-151 | a write keeps the count equal to the queued bytes accounted since the boundary |
| RtmpSession.ResetKeepsAccounted | Source/Network/RTMPSession.swift:123-142 | a reset after every queued write keeps the count equal to the queued bytes accounted since the boundary, that is 0 |
| RtmpSession.LateDecrementAfterReset | Source/Network/RTMPSession.swift:123-169 | write at 1, reset at 2, send at 3: as written the count ends at −100 with nothing queued; corrected it ends at 0 |
| RtmpHandshake.C1 | Source/Network/RTMPSession.swift:259-269 | C1 is 1536 bytes: eight zeros, then the random bytes |
| RtmpHandshake.C2 | Source/Network/RTMPSession.swift:271-290 | C2 echoes S1 with bytes 4..7 zeroed |
| RtmpHandshake.C2AsWritten | Source/Network/RTMPSession.swift:278-283 | as written, byte 4 is zero, bytes 5..7 are whatever memory follows the one-byte zero, and the rest echoes S1 |
| RtmpHandshake.C2AsWrittenLeaks | Source/Network/RTMPSession.swift:280-283 | the as-written C2 is the intended one exactly when the neighbouring bytes are zero |
| RtmpHandshake.SendC2 | Source/Network/RTMPSession.swift:271-290 | with S1 stored, C2 is queued, the status becomes handshakeComplete and S1 is dropped; without S1 nothing happens |
| RtmpHandshake.Handshake | Source/Network/RTMPSession.swift:239-269 | outside raw values 5..511 nothing happens; otherwise C0 (byte 3, the intended byte; see RtmpSession.Write under Left out) goes out first, C1 next, and C2 once S2 is no longer awaited; each step clears its flag, and S flags are never added |
| RtmpHandshake.HandshakingWhen | Source/Network/RTMPSession.swift:241 | a status holding some C step and nothing from bit 9 up passes the handshake guard |
| RtmpHandshake.UnconnectedRaw | Source/Network/RTMPSession.swift:427 | the raw value is below 2 exactly when no flag but unconnect is set |
| RtmpHandshake.Pump | Source/Network/RTMPSession.swift:195-234 | the receive loop never adds an S flag; it stops through the parser only with no S step left and bytes unread; otherwise it leaves the buffer empty or is waiting for a whole signature |
| RtmpHandshake.Stage | Source/Network/RTMPSession.swift:190-192 | a read takes min(pending, reported free space) bytes from the front of what the transport holds and leaves the rest there; with `ring` clear the taken bytes queue behind the unread ones |
| RtmpHandshake.StageChecked | Source/Network/RTMPSession.swift:190-192 | with the corrected free space a read takes min(pending, free) bytes and the unread queue grows by exactly those bytes, full buffer included |
| RtmpHandshake.Pass | Source/Network/RTMPSession.swift:190-234 | one read and the inner loop keep the session valid, only append to the write queue, never add an S flag, and leave a suffix of the transport's bytes |
| RtmpHandshake.Receive | Source/Network/RTMPSession.swift:179-236 | the passes keep the session valid, only append to the write queue, never add an S flag, and leave a suffix of the transport's bytes there |
| RtmpHandshake.DataReceived | Source/Network/RTMPSession.swift:179-236 | receiving with the source's `put` keeps the session valid, only appends to the write queue, never adds an S flag, and what the reads leave is the tail of the transport's bytes |
| RtmpHandshake.DataReceivedChecked | Source/Network/RTMPSession.swift:179-236 | the same loop with the corrected free space has the same guarantees |
| RtmpHandshake.OnEvent | Source/Network/RTMPSession.swift:426-450 | an error sets the status to error; end of stream sets it to disconnected; opening arms the handshake exactly from an unconnected session |
| HandshakeProps.ArmedSendsC0C1 | Source/Network/RTMPSession.swift:243-269 | from the armed status one handshake call queues C0 and then C1 and leaves C2 and the S steps pending |
| HandshakeProps.WritableWhileAwaitingIsQuiet | Source/Network/RTMPSession.swift:435-441 | while the server reply is awaited, a writable event changes nothing |
| HandshakeProps.VersionStep | Source/Network/RTMPSession.swift:196-203 | a version byte 3 is consumed and clears S0 |
| HandshakeProps.SignatureStep | Source/Network/RTMPSession.swift:204-213 | a whole signature is consumed into S1, clearing S1, and nothing is sent |
| HandshakeProps.EchoStep | Source/Network/RTMPSession.swift:214-227 | with a whole signature available S2 is cleared without consuming it, C2 is sent and the handshake completes |
| HandshakeProps.ServerReplyCompletes | Source/Network/RTMPSession.swift:195-234 | S0, S1 and S2 in one read complete the handshake: C2 from that S1 is queued, S1 is dropped, and S2 stays unread |
| HandshakeProps.ReplyPumps | Source/Network/RTMPSession.swift:195-234 | the receive loop over a staged S0 S1 S2 completes the handshake, queues C2 and stops at the parser with S2 unread |
| HandshakeProps.PublishHandshake | Source/Network/RTMPSession.swift:426-441 | open, writable, then the server reply: the queue gets exactly C0, C1 and C2 and the handshake completes |
| HandshakeProps.OnWritable | Source/Network/RTMPSession.swift:435-441 | a writable event alone, before the handshake completes, runs the handshake and nothing else |
| HandshakeProps.OnReadable | Source/Network/RTMPSession.swift:431-433 | a readable event alone runs the receive loop and nothing else |
| HandshakeProps.WrongVersionKeepsWaiting | Source/Network/RTMPSession.swift:196-203 | a first byte other than 3 is consumed and S0 stays pending |
| HandshakeProps.FullStagingOverwritten | Source/Network/RTMPSession.swift:190-193 | after the handshake, a full staging buffer and a 4096-byte read: the read is taken whole and the unread bytes become exactly the new ones, the old ones lost |
| HandshakeProps.FullStagingKept | Source/Network/RTMPSession.swift:190-193 | with the corrected free space the same read takes nothing: the session is unchanged and every byte stays with the transport |
| HandshakeProps.ReconnectAfterDisconnectStalls | Source/Network/RTMPSession.swift:426-450 | after end of stream the status stays disconnected through a new connect and a new open |

## Left out

- The transport (StreamSession): its sockets, run loop and `-1` error
  returns. What it holds for reading is given as one byte stream, each read
  taking as much as it is asked for, and each write is given as the count it
  accepts. Every count is taken to be non-negative.
- RtmpSession.Write: the frame's bytes are taken at the call. The source
  copies them later, inside the writer queue's closure, through the caller's
  pointer (RTMPSession.swift:153-155). For C0 that pointer is to the local
  `c0` of `handshakeSendC0` (RTMPSession.swift:252-255), whose lifetime has
  ended by then, so the byte actually sent is not determined by the source;
  the model sends the intended 3.
- RtmpHandshake.OnEvent: returns the session only. The bytes a readable
  event's reads leave with the transport (the second result of
  `DataReceived`) are not carried over; each event is given what the
  transport holds at that point.
- RtmpHandshake.Receive: a pass that can read nothing while the parser has
  not stopped would repeat forever in the source; the model ends the event
  there, leaving the bytes with the transport. With a 4096-byte buffer the
  as-written loop never reaches that state.
- Threads, locks, the writer's dispatch queue and its one-second semaphore
  wait. A drain of the head frame is atomic against concurrent writes.
  Interleaving happens only between drains.
- The session's `stop` flag. Only deinitialization sets it, so the writer
  never sees it set while the session lives.
- Floating point. Times, throughputs and the pivot average are exact reals,
  so rounding and a division by a zero elapsed time are not modelled.
- Sampler.Tick: the measured throughput (sent bytes divided by the elapsed
  time) is an input of the tick, not computed from the accumulated send
  results.
- ByteRate.Tick: the predicted and detected rates are reported as byte
  totals; the division by the elapsed time is floating point.
- URL parsing is Foundation's. `Connect` receives the parsed scheme, host and
  port, and `UrlPath` receives the parsed path.
- RtmpSession.Lower: lower-cases ASCII only, not all of Unicode.
- UrlPath.App: the path is taken to be ASCII. The source moves past the
  leading '/' with an index taken from the URL string and applied to the
  path (StringExtension.swift:35); only for ASCII does that index equal a
  character offset.
- UrlPath.PlayPath: likewise ASCII; the source applies `appPath.endIndex` to
  the path (StringExtension.swift:61).
- RandomData: the random bytes of C1 are a parameter.
- `sendConnectPacket`, chunk framing, `RTMPChunk`/`RTMPMessage` and the
  command messages are empty or commented out in the source, so they have
  no behaviour to model. The S2 branch calls `sendConnectPacket`, and here it
  sends nothing.
- The delegate notification on every status change, and the `debugPrint`
  diagnostics.
- The ring buffer initializes only its first slot. The model starts from an
  all-zero store. No stored byte is ever read before it is written, so this
  does not matter.
- The session keeps its own byte count in `increase`
  (RTMPSession.swift:134-142). That logic is the same as
  `CongestionManager`'s, so both are modelled by `Congestion`.

## Findings

| source | as written | input that shows it | evidently intended | confidence | as-written member | corrected member |
|---|---|---|---|---|---|---|
| Source/DataLayer/AFM0Encoder.swift:21-35 | the string length prefix is stored in host byte order, which is little-endian on every Apple target | the string "a" encodes as 02 01 00 61, which an AMF0 reader takes as length 256 | the length in network (big-endian) order, as AMF0 requires: 02 00 01 61 | high, not executed | Amf0.AppendString (shown by Amf0.HostOrderPrefixMisread) | Amf0.AppendStringNetwork (proved by Amf0.StringRoundTrip) |
| Source/Network/RTMPType.swift:227-251 | the older string encoder appends the marker and the length but never the string bytes | "a" and "b" both encode as 02 01 00 | marker, length, then the UTF-8 bytes | high, not executed | Amf0.AppendStringLegacy (shown by Amf0.LegacyConfusesStrings) | Amf0.AppendStringNetwork (proved by Amf0.StringRoundTrip) |
| Source/Network/RTMPSession.swift:280-283 | C2's time2 field is filled by copying four bytes from the address of a one-byte zero | any S1; bytes 5..7 of C2 come from the memory next to the variable | bytes 4..7 of C2 set to zero | medium, not executed | RtmpHandshake.C2AsWritten (shown by RtmpHandshake.C2AsWrittenLeaks) | RtmpHandshake.C2 (used by RtmpHandshake.SendC2) |
| Source/Network/RTMPSession.swift:159-169 | the writer's decrements call `increase` with the default date, the current instant, so they always pass the reset boundary | a 100-byte write at instant 1, a reset at 2, and the frame sent at 3 leave the count at −100 with nothing queued | decrements of a frame accounted before the reset are discarded, as its increment was, keeping the count equal to the queued bytes | high, not executed | RtmpSession.DrainAsWritten (shown by RtmpSession.LateDecrementAfterReset) | RtmpSession.Drain (proved by RtmpSession.DeliverKeepsAccounted and RtmpSession.WriteKeepsAccounted) |
| Source/DataLayer/RingBuffer.swift:38-44 | with `ring` set and the cursors equal, the free space is computed as capacity − write + read, that is the whole capacity | a full two-byte buffer holding 1, 2 takes a put of 9 over the 1 and then reports 9 as its only unread byte; in the session, S2 is never consumed and the parser takes nothing, so server bytes after the handshake fill the staging buffer, and the next 4096-byte read replaces all of them | no free space while full, so a read asks for nothing and a put stores nothing | high, not executed | RingBuffer.Put (shown by RingBuffer.FullPutOverwrites, and in the receive loop RtmpHandshake.DataReceived by HandshakeProps.FullStagingOverwritten) | RingBuffer.PutChecked (used by RtmpHandshake.DataReceivedChecked, proved by HandshakeProps.FullStagingKept) |
