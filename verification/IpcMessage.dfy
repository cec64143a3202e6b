/**
 The frames of src/core/ipc/message.cpp: the header's layout, the four-lane checksum modulo 2^64,
 and the two functions between a message and its bytes.
 */
module IpcMessage {
  import opened Integers
  import opened Wrappers

  const LANE_FACTOR: int := 1315423911
  const KEY_FACTOR: int := 2654435761

  const HEADER_SIZE: nat := 56
  const TAG_START: nat := 24
  const MAGIC: U32 := 0x564B4C50
  const VERSION: U16 := 1

  /** `padding` is the four bytes the compiler leaves between `payloadSize` and `correlationId`. */
  datatype Header = Header(
    magic: U32, version: U16, kind: U16, payloadSize: U32, padding: seq<byte>, correlationId: U64, tag: seq<byte>)
  {
    predicate Valid() {
      |padding| == 4 && |tag| == 32
    }
  }

  datatype Message = Message(header: Header, payload: seq<byte>)

  datatype Error = TooSmall | BadMagic | UnsupportedVersion | Truncated | TagMismatch

  // ---------------------------------------------------------------- little-endian numbers

  function Pow256(n: nat): nat {
    if n == 0 then 1 else 256 * Pow256(n - 1)
  }

  function ToBytes(v: nat, n: nat): (bytes: seq<byte>)
    ensures |bytes| == n
  {
    if n == 0 then [] else [v % 256] + ToBytes(v / 256, n - 1)
  }

  function FromBytes(bytes: seq<byte>): nat {
    if bytes == [] then 0 else bytes[0] + 256 * FromBytes(bytes[1..])
  }

  lemma {:induction false} NumberRoundTrips(v: nat, n: nat)
    requires v < Pow256(n)
    ensures FromBytes(ToBytes(v, n)) == v
  {
    if n > 0 {
      NumberRoundTrips(v / 256, n - 1);
      assert ToBytes(v, n)[1..] == ToBytes(v / 256, n - 1);
    }
  }

  lemma {:induction false} BytesBound(bytes: seq<byte>)
    ensures FromBytes(bytes) < Pow256(|bytes|)
  {
    if bytes != [] {
      BytesBound(bytes[1..]);
    }
  }

  lemma Powers()
    ensures Pow256(2) == 0x1_0000 && Pow256(4) == TWO_TO_THE_32 && Pow256(8) == TWO_TO_THE_64
  {
  }

  function Number16(bytes: seq<byte>): U16
    requires |bytes| == 2
  {
    Powers(); BytesBound(bytes);
    FromBytes(bytes)
  }

  function Number32(bytes: seq<byte>): U32
    requires |bytes| == 4
  {
    Powers(); BytesBound(bytes);
    FromBytes(bytes)
  }

  function Number64(bytes: seq<byte>): U64
    requires |bytes| == 8
  {
    Powers(); BytesBound(bytes);
    FromBytes(bytes)
  }

  // ---------------------------------------------------------------- the header

  function EncodeHeader(h: Header): (bytes: seq<byte>)
    requires h.Valid()
    ensures |bytes| == HEADER_SIZE
  {
    ToBytes(h.magic, 4) + ToBytes(h.version, 2) + ToBytes(h.kind, 2) + ToBytes(h.payloadSize, 4)
    + h.padding + ToBytes(h.correlationId, 8) + h.tag
  }

  function DecodeHeader(bytes: seq<byte>): (h: Header)
    requires |bytes| >= HEADER_SIZE
    ensures h.Valid()
  {
    Header(Number32(bytes[..4]), Number16(bytes[4..6]), Number16(bytes[6..8]), Number32(bytes[8..12]),
           bytes[12..16], Number64(bytes[16..24]), bytes[24..56])
  }

  lemma HeaderRoundTrips(h: Header, rest: seq<byte>)
    requires h.Valid()
    ensures DecodeHeader(EncodeHeader(h) + rest) == h
  {
    var bytes := EncodeHeader(h) + rest;
    assert bytes[..4] == ToBytes(h.magic, 4);
    assert bytes[4..6] == ToBytes(h.version, 2) && bytes[6..8] == ToBytes(h.kind, 2);
    assert bytes[8..12] == ToBytes(h.payloadSize, 4) && bytes[12..16] == h.padding;
    assert bytes[16..24] == ToBytes(h.correlationId, 8) && bytes[24..56] == h.tag;
    Powers();
    NumberRoundTrips(h.magic, 4);
    NumberRoundTrips(h.version, 2);
    NumberRoundTrips(h.kind, 2);
    NumberRoundTrips(h.payloadSize, 4);
    NumberRoundTrips(h.correlationId, 8);
  }

  // ---------------------------------------------------------------- the checksum

  const ZEROS: seq<byte> :=
    [0, 0, 0, 0, 0, 0, 0, 0, 0, 0, 0, 0, 0, 0, 0, 0, 0, 0, 0, 0, 0, 0, 0, 0, 0, 0, 0, 0, 0, 0, 0, 0]

  type Key = k: seq<byte> | |k| == 32 witness ZEROS

  function Mix(acc: U64, d: byte, k: byte): U64 {
    (acc * LANE_FACTOR + d + k * KEY_FACTOR) % TWO_TO_THE_64
  }

  /** The value of one of the four lanes after the first `n` bytes. */
  function Lane(key: Key, data: seq<byte>, lane: nat, n: nat): U64
    requires n <= |data|
  {
    if n == 0 then 0
    else
      var before := Lane(key, data, lane, n - 1);
      if (n - 1) % 4 == lane then Mix(before, data[n - 1], key[(n - 1) % 32]) else before
  }

  function Tag(key: Key, data: seq<byte>): (tag: seq<byte>)
    ensures |tag| == 32
  {
    ToBytes(Lane(key, data, 0, |data|), 8) + ToBytes(Lane(key, data, 1, |data|), 8)
    + ToBytes(Lane(key, data, 2, |data|), 8) + ToBytes(Lane(key, data, 3, |data|), 8)
  }

  // ---------------------------------------------------------------- messages and frames

  function WithTag(bytes: seq<byte>, tag: seq<byte>): (r: seq<byte>)
    requires |bytes| >= HEADER_SIZE && |tag| == 32
    ensures |r| == |bytes|
  {
    bytes[..TAG_START] + tag + bytes[HEADER_SIZE..]
  }

  /** The frame before its tag is filled in. */
  function Untagged(msg: Message): (bytes: seq<byte>)
    requires msg.header.Valid()
    ensures |bytes| == HEADER_SIZE + |msg.payload|
  {
    EncodeHeader(msg.header.(payloadSize := |msg.payload| % TWO_TO_THE_32, tag := ZEROS)) + msg.payload
  }

  function Serialize(msg: Message, key: Key): (bytes: seq<byte>)
    requires msg.header.Valid()
    ensures |bytes| == HEADER_SIZE + |msg.payload|
  {
    WithTag(Untagged(msg), Tag(key, Untagged(msg)))
  }

  function Deserialize(bytes: seq<byte>, key: Key): Result<Message, Error> {
    if |bytes| < HEADER_SIZE then Err(TooSmall)
    else
      var header := DecodeHeader(bytes);
      if header.magic != MAGIC then Err(BadMagic)
      else if header.version != VERSION then Err(UnsupportedVersion)
      else if |bytes| < HEADER_SIZE + header.payloadSize then Err(Truncated)
      else if Tag(key, WithTag(bytes, ZEROS)) != header.tag then Err(TagMismatch)
      else Ok(Message(header, bytes[HEADER_SIZE..HEADER_SIZE + header.payloadSize]))
  }

  // ---------------------------------------------------------------- round trip

  lemma SerializedShape(msg: Message, key: Key)
    requires msg.header.Valid()
    ensures var frame := Serialize(msg, key);
      var header := msg.header.(payloadSize := |msg.payload| % TWO_TO_THE_32, tag := Tag(key, Untagged(msg)));
      && frame == EncodeHeader(header) + msg.payload
      && WithTag(frame, ZEROS) == Untagged(msg)
      && frame[TAG_START..HEADER_SIZE] == Tag(key, Untagged(msg))
  {
  }

  /** What is to come back of a message: its size and payload cut to 32 bits, and the tag filled in. */
  function Returned(msg: Message, tag: seq<byte>): Result<Message, Error> {
    var size := |msg.payload| % TWO_TO_THE_32;
    if msg.header.magic != MAGIC then Err(BadMagic)
    else if msg.header.version != VERSION then Err(UnsupportedVersion)
    else Ok(Message(msg.header.(payloadSize := size, tag := tag), msg.payload[..size]))
  }

  lemma DeserializeSerialized(msg: Message, key: Key)
    requires msg.header.Valid()
    ensures Deserialize(Serialize(msg, key), key) == Returned(msg, Tag(key, Untagged(msg)))
  {
    hide Serialize, Tag, EncodeHeader, DecodeHeader, Untagged, WithTag;
    var size := |msg.payload| % TWO_TO_THE_32;
    var header := msg.header.(payloadSize := size, tag := Tag(key, Untagged(msg)));
    SerializedShape(msg, key);
    HeaderRoundTrips(header, msg.payload);
    var frame := Serialize(msg, key);
    assert frame[HEADER_SIZE..HEADER_SIZE + size] == msg.payload[..size];
  }

  /** The payload survives exactly when its length fits the 32-bit size field. */
  lemma PayloadSurvivesExactly(msg: Message, key: Key)
    requires msg.header.Valid() && msg.header.magic == MAGIC && msg.header.version == VERSION
    ensures Deserialize(Serialize(msg, key), key).Ok?
    ensures var back := Deserialize(Serialize(msg, key), key).value;
      && (back.payload == msg.payload <==> |msg.payload| < TWO_TO_THE_32)
      && back.header.correlationId == msg.header.correlationId && back.header.kind == msg.header.kind
  {
    hide Deserialize, Serialize, Tag, Untagged, EncodeHeader, DecodeHeader, WithTag, ToBytes, FromBytes, Lane;
    DeserializeSerialized(msg, key);
    TakesAll(msg.payload, |msg.payload| % TWO_TO_THE_32);
  }

  const PLAIN: Header := Header(MAGIC, VERSION, 0, 0, [0, 0, 0, 0], 0, ZEROS)

  /** A payload of 2^32 bytes comes back empty, and the answer is ok. */
  lemma HugePayloadComesBackEmpty(key: Key, b: byte)
    ensures var msg := Message(PLAIN, seq(TWO_TO_THE_32, _ => b));
      var back := Deserialize(Serialize(msg, key), key);
      back.Ok? && back.value.payload == [] && msg.payload != []
  {
    var msg := Message(PLAIN, seq(TWO_TO_THE_32, _ => b));
    hide Deserialize, Serialize, Tag, Untagged;
    DeserializeSerialized(msg, key);
    assert |msg.payload| % TWO_TO_THE_32 == 0;
  }

  lemma TakesAll(s: seq<byte>, n: nat)
    requires n == |s| % TWO_TO_THE_32
    ensures n <= |s| && (s[..n] == s <==> |s| < TWO_TO_THE_32)
  {
  }

  // ---------------------------------------------------------------- detection

  /** The lane factor is odd, hence a unit modulo 2^64; this is its inverse. */
  const LANE_INVERSE: int := 17277697729899102487

  lemma LaneFactorIsAUnit(a: int, b: int, c: int)
    requires (a * LANE_FACTOR + c) % TWO_TO_THE_64 == (b * LANE_FACTOR + c) % TWO_TO_THE_64
    requires 0 <= a < TWO_TO_THE_64 && 0 <= b < TWO_TO_THE_64
    ensures a == b
  {
    assert LANE_FACTOR * LANE_INVERSE == 1 + 1232060066 * TWO_TO_THE_64;
    var t := (a * LANE_FACTOR + c) / TWO_TO_THE_64 - (b * LANE_FACTOR + c) / TWO_TO_THE_64;
    assert (a - b) * LANE_FACTOR == t * TWO_TO_THE_64;
    var q := t * LANE_INVERSE - (a - b) * 1232060066;
    assert a - b == q * TWO_TO_THE_64;
  }

  lemma MixKeepsDifference(a: U64, b: U64, d: byte, k: byte)
    requires a != b
    ensures Mix(a, d, k) != Mix(b, d, k)
  {
    if Mix(a, d, k) == Mix(b, d, k) {
      LaneFactorIsAUnit(a, b, d + k * KEY_FACTOR);
    }
  }

  lemma MixSeesByte(a: U64, d: byte, e: byte, k: byte)
    requires d != e
    ensures Mix(a, d, k) != Mix(a, e, k)
  {
  }

  /** Two texts that differ within a lane at one position only have different values in that lane. */
  lemma {:induction false} LaneSeesOneByte(key: Key, a: seq<byte>, b: seq<byte>, lane: nat, i: nat, n: nat)
    requires |a| == |b| && n <= |a| && i < |a| && i % 4 == lane && a[i] != b[i]
    requires forall j :: 0 <= j < |a| && j % 4 == lane && j != i ==> a[j] == b[j]
    ensures Lane(key, a, lane, n) == Lane(key, b, lane, n) <==> n <= i
  {
    if n > 0 {
      LaneSeesOneByte(key, a, b, lane, i, n - 1);
      var k := key[(n - 1) % 32];
      if n - 1 == i {
        MixSeesByte(Lane(key, a, lane, n - 1), a[i], b[i], k);
      } else if n - 1 > i && (n - 1) % 4 == lane {
        MixKeepsDifference(Lane(key, a, lane, n - 1), Lane(key, b, lane, n - 1), a[n - 1], k);
      }
    }
  }

  /** Where the tag holds a lane. */
  function TagOf(frame: seq<byte>, lane: nat): (bytes: seq<byte>)
    requires |frame| >= HEADER_SIZE && lane < 4
    ensures |bytes| == 8
  {
    frame[TAG_START + 8 * lane..TAG_START + 8 * lane + 8]
  }

  lemma TagHoldsLane(key: Key, data: seq<byte>, frame: seq<byte>, lane: nat)
    requires |frame| >= HEADER_SIZE && lane < 4 && frame[TAG_START..HEADER_SIZE] == Tag(key, data)
    ensures FromBytes(TagOf(frame, lane)) == Lane(key, data, lane, |data|)
  {
    var n := |data|;
    Powers();
    NumberRoundTrips(Lane(key, data, lane, n), 8);
    var tag := frame[TAG_START..HEADER_SIZE];
    hide ToBytes, Lane, FromBytes, Pow256;
    forall j | 0 <= j < 8 ensures TagOf(frame, lane)[j] == ToBytes(Lane(key, data, lane, n), 8)[j] {
      assert TagOf(frame, lane)[j] == tag[8 * lane + j];
    }
    assert TagOf(frame, lane) == ToBytes(Lane(key, data, lane, n), 8);
  }

  predicate InTag(i: nat) {
    TAG_START <= i < HEADER_SIZE
  }

  lemma AcceptedMeansTagMatches(frame: seq<byte>, key: Key)
    requires Deserialize(frame, key).Ok?
    ensures |frame| >= HEADER_SIZE && frame[TAG_START..HEADER_SIZE] == Tag(key, WithTag(frame, ZEROS))
  {
  }

  lemma ZeroedAt(frame: seq<byte>, i: nat)
    requires i < |frame| && |frame| >= HEADER_SIZE
    ensures WithTag(frame, ZEROS)[i] == if InTag(i) then 0 else frame[i]
  {
  }

  /**
   A frame is rejected when some lane of its bytes outside the tag differs from the sent frame at one
   position only, and the tag's bytes for that lane arrived unchanged. No other difference matters.
   */
  lemma OneByteOfALaneIsDetected(msg: Message, key: Key, frame: seq<byte>, i: nat)
    requires msg.header.Valid() && |frame| == |Serialize(msg, key)| && i < |frame| && !InTag(i)
    requires frame[i] != Serialize(msg, key)[i]
    requires forall j :: 0 <= j < |frame| && j % 4 == i % 4 && !InTag(j) && j != i ==>
               frame[j] == Serialize(msg, key)[j]
    requires TagOf(frame, i % 4) == TagOf(Serialize(msg, key), i % 4)
    ensures Deserialize(frame, key).Err?
  {
    var sent := Serialize(msg, key);
    SerializedShape(msg, key);
    hide Serialize, Untagged;
    if Deserialize(frame, key).Ok? {
      AcceptedMeansTagMatches(frame, key);
      hide Deserialize;
      var a, b := WithTag(sent, ZEROS), WithTag(frame, ZEROS);
      forall j | 0 <= j < |frame|
        ensures a[j] == (if InTag(j) then 0 else sent[j]) && b[j] == (if InTag(j) then 0 else frame[j])
      {
        ZeroedAt(sent, j);
        ZeroedAt(frame, j);
      }
      hide WithTag, Tag;
      LaneSeesOneByte(key, a, b, i % 4, i, |frame|);
      TagHoldsLane(key, a, sent, i % 4);
      TagHoldsLane(key, b, frame, i % 4);
    }
  }

  lemma OnlyTheTagDiffers(msg: Message, key: Key, frame: seq<byte>)
    requires msg.header.Valid() && |frame| == |Serialize(msg, key)| && frame != Serialize(msg, key)
    requires forall j :: 0 <= j < |frame| && !InTag(j) ==> frame[j] == Serialize(msg, key)[j]
    ensures Deserialize(frame, key).Err?
  {
    var sent := Serialize(msg, key);
    SerializedShape(msg, key);
    hide Serialize, Untagged, Tag;
    assert WithTag(frame, ZEROS) == WithTag(sent, ZEROS);
    assert sent == sent[..TAG_START] + sent[TAG_START..HEADER_SIZE] + sent[HEADER_SIZE..];
    assert frame == frame[..TAG_START] + frame[TAG_START..HEADER_SIZE] + frame[HEADER_SIZE..];
    assert frame[..TAG_START] == sent[..TAG_START] && frame[HEADER_SIZE..] == sent[HEADER_SIZE..];
    assert frame[TAG_START..HEADER_SIZE] != Tag(key, WithTag(frame, ZEROS));
    if Deserialize(frame, key).Ok? {
      AcceptedMeansTagMatches(frame, key);
    }
  }

  /**
   Every frame that differs from a sent one, and only within four consecutive bytes, is rejected:
   header, padding, tag and payload alike, for payloads of any length.
   */
  lemma BurstIsDetected(msg: Message, key: Key, frame: seq<byte>, k: nat)
    requires msg.header.Valid() && |frame| == |Serialize(msg, key)| && frame != Serialize(msg, key)
    requires forall j :: 0 <= j < |frame| && frame[j] != Serialize(msg, key)[j] ==> k <= j < k + 4
    ensures Deserialize(frame, key).Err?
  {
    hide Serialize, Deserialize, EncodeHeader, WithTag, Untagged, Tag;
    var sent := Serialize(msg, key);
    if i :| 0 <= i < |frame| && !InTag(i) && frame[i] != sent[i] {
      forall j | 0 <= j < |frame| && j % 4 == i % 4 && !InTag(j) && j != i ensures frame[j] == sent[j] {
        DistinctResidues(i, j);
      }
      SameTagPart(frame, sent, i, k);
      OneByteOfALaneIsDetected(msg, key, frame, i);
    } else {
      OnlyTheTagDiffers(msg, key, frame);
    }
  }

  lemma SameTagPart(frame: seq<byte>, sent: seq<byte>, i: nat, k: nat)
    requires |frame| == |sent| >= HEADER_SIZE && i < |frame| && !InTag(i) && k <= i < k + 4
    requires forall j :: 0 <= j < |frame| && frame[j] != sent[j] ==> k <= j < k + 4
    ensures TagOf(frame, i % 4) == TagOf(sent, i % 4)
  {
  }

  lemma DistinctResidues(i: nat, j: nat)
    requires i != j && i % 4 == j % 4
    ensures j - i >= 4 || i - j >= 4
  {
  }

  // ---------------------------------------------------------------- the buffers

  /** `computeHmac`: the loop over the four accumulators. */
  method ComputeTag(key: Key, data: array<byte>) returns (out: seq<byte>)
    ensures out == Tag(key, data[..])
  {
    var acc := new U64[4](_ => 0);
    for i := 0 to data.Length
      invariant acc.Length == 4
      invariant forall lane: nat :: lane < 4 ==> acc[lane] == Lane(key, data[..], lane, i)
    {
      var lane := i % 4;
      acc[lane] := Mix(acc[lane], data[i], key[i % 32]);
    }
    assert |data[..]| == data.Length;
    out := ToBytes(acc[0], 8) + ToBytes(acc[1], 8) + ToBytes(acc[2], 8) + ToBytes(acc[3], 8);
  }

  /** `memcpy` into a buffer. */
  method Copy(to: array<byte>, at: nat, from: seq<byte>)
    requires at + |from| <= to.Length
    modifies to
    ensures to[..] == old(to[..at]) + from + old(to[at + |from|..])
  {
    for i := 0 to |from|
      invariant forall k :: 0 <= k < i ==> to[at + k] == from[k]
      invariant forall k :: 0 <= k < to.Length && !(at <= k < at + i) ==> to[k] == old(to[k])
    {
      to[at + i] := from[i];
    }
    var n := at + |from|;
    assert to[..at] == old(to[..at]) && to[n..] == old(to[n..]) && to[at..n] == from;
    assert to[..] == to[..at] + to[at..n] + to[n..];
  }

  /** `serialize`. */
  method SerializeInto(msg: Message, key: Key) returns (bytes: array<byte>)
    requires msg.header.Valid()
    ensures fresh(bytes) && bytes[..] == Serialize(msg, key)
  {
    var header := msg.header.(payloadSize := |msg.payload| % TWO_TO_THE_32, tag := ZEROS);
    bytes := new byte[HEADER_SIZE + |msg.payload|](_ => 0);
    Copy(bytes, 0, EncodeHeader(header));
    Copy(bytes, HEADER_SIZE, msg.payload);
    hide EncodeHeader, Tag, ToBytes;
    assert bytes[..] == Untagged(msg);
    var tag := ComputeTag(key, bytes);
    Copy(bytes, TAG_START, tag);
  }

  /** `deserialize`: it checks a scratch copy and leaves the received bytes alone. */
  method DeserializeFrom(bytes: array<byte>, key: Key) returns (out: Result<Message, Error>)
    ensures out == Deserialize(bytes[..], key)
  {
    if bytes.Length < HEADER_SIZE { return Err(TooSmall); }
    var header := DecodeHeader(bytes[..]);
    if header.magic != MAGIC { return Err(BadMagic); }
    if header.version != VERSION { return Err(UnsupportedVersion); }
    if bytes.Length < HEADER_SIZE + header.payloadSize { return Err(Truncated); }
    var scratch := new byte[bytes.Length](_ => 0);
    Copy(scratch, 0, bytes[..]);
    assert scratch[..] == bytes[..];
    Copy(scratch, TAG_START, ZEROS);
    var computed := ComputeTag(key, scratch);
    if computed != header.tag { return Err(TagMismatch); }
    out := Ok(Message(header, bytes[HEADER_SIZE..HEADER_SIZE + header.payloadSize]));
  }
}
