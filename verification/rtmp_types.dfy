/** Protocol constants and the raw values of the RTMP chunk types and AMF0
    type markers. */
module RtmpTypes {
  import opened Wire

  /** URL scheme a publish URL must carry. */
  const Scheme: string := "rtmp"
  /** Port used when the URL names none. */
  const DefaultPort: nat := 1935
  /** Capacity of the inbound staging buffer. */
  const BufferSize: nat := 4096
  /** Length of C1/S1/C2/S2 (section 5.2.3 of the RTMP Specification 1.0). */
  const SignatureSize: nat := 1536

  /** Chunk header formats 0..3 (section 5.3.1.1 of the RTMP Specification
      1.0); the raw value is the first basic-header byte with a zero
      chunk-stream id. */
  datatype ChunkType = Type00 | Type01 | Type10 | Type11

  /** The 2-bit fmt field each chunk type stands for. */
  function Fmt(t: ChunkType): nat
  {
    match t
    case Type00 => 0
    case Type01 => 1
    case Type10 => 2
    case Type11 => 3
  }

  /** The raw value the source assigns to each chunk type. */
  function ChunkTypeRaw(t: ChunkType): (b: bv8)
    ensures b & 0x3F == 0
    ensures (b >> 6) as nat == Fmt(t)
  {
    match t
    case Type00 => 0x00
    case Type01 => 0x40
    case Type10 => 0x80
    case Type11 => 0xC0
  }

  /** Reading the chunk type back from the top two bits of a basic-header
      byte. */
  function ChunkTypeOf(header: bv8): ChunkType
  {
    var fmt := header >> 6;
    if fmt == 0 then Type00 else if fmt == 1 then Type01 else if fmt == 2 then Type10 else Type11
  }

  /** A basic header combining a chunk type with a chunk-stream id below 64
      keeps both: the type comes back from the top two bits and the id from
      the low six. */
  lemma BasicHeaderRoundTrip(t: ChunkType, csid: bv8)
    requires csid < 64
    ensures ChunkTypeOf(ChunkTypeRaw(t) | csid) == t
    ensures (ChunkTypeRaw(t) | csid) & 0x3F == csid
  {
  }

  /** The reserved chunk-stream ids 0, 1 and 2. */
  const Csid0: bv8 := 0x0
  const Csid1: bv8 := 0x1
  const Csid2: bv8 := 0x2

  /** AMF0 type markers (Adobe's AMF0 specification, section 2.1). */
  datatype Amf0Type =
    | Number | Boolean | String | Object | MovieClip | Null | Undefined
    | Reference | EcmaArray | ObjectEnd | StrictArray | Date | LongString
    | Unsupported | RecordSet | Xml | TypedObject | AvmPlus | Invalid

  /** The marker byte of each AMF0 type. */
  function Marker(t: Amf0Type): uint8
  {
    match t
    case Number => 0
    case Boolean => 1
    case String => 2
    case Object => 3
    case MovieClip => 4
    case Null => 5
    case Undefined => 6
    case Reference => 7
    case EcmaArray => 8
    case ObjectEnd => 9
    case StrictArray => 10
    case Date => 11
    case LongString => 12
    case Unsupported => 13
    case RecordSet => 14
    case Xml => 15
    case TypedObject => 16
    case AvmPlus => 17
    case Invalid => 0xFF
  }

  /** The failable raw-value initialiser every Swift enum with raw values
      has: the type whose marker is b, if any. */
  function TypeOfMarker(b: uint8): (r: Option<Amf0Type>)
    ensures r.Some? <==> (b <= 17 || b == 0xFF)
    ensures r.Some? ==> Marker(r.value) == b
  {
    if b == 0 then Some(Number)
    else if b == 1 then Some(Boolean)
    else if b == 2 then Some(String)
    else if b == 3 then Some(Object)
    else if b == 4 then Some(MovieClip)
    else if b == 5 then Some(Null)
    else if b == 6 then Some(Undefined)
    else if b == 7 then Some(Reference)
    else if b == 8 then Some(EcmaArray)
    else if b == 9 then Some(ObjectEnd)
    else if b == 10 then Some(StrictArray)
    else if b == 11 then Some(Date)
    else if b == 12 then Some(LongString)
    else if b == 13 then Some(Unsupported)
    else if b == 14 then Some(RecordSet)
    else if b == 15 then Some(Xml)
    else if b == 16 then Some(TypedObject)
    else if b == 17 then Some(AvmPlus)
    else if b == 0xFF then Some(Invalid)
    else None
  }

  /** Every marker reads back as its own type, so no two types share a
      marker. */
  lemma MarkerRoundTrip(t: Amf0Type)
    ensures TypeOfMarker(Marker(t)) == Some(t)
  {
  }

  lemma MarkersDistinct(a: Amf0Type, b: Amf0Type)
    ensures Marker(a) == Marker(b) ==> a == b
  {
    MarkerRoundTrip(a);
    MarkerRoundTrip(b);
  }
}
