/**
 IPC frames byte by byte: when a frame is refused, and one frame in full, which fixes the layout, the byte order
 and the constants of the checksum in numbers.
 */
module IpcBytes {
  import opened Integers
  import opened IpcMessage
  import opened Wrappers

  // ---------------------------------------------------------------- numbers

  lemma {:induction false} BytesRoundTrip(bytes: seq<byte>)
    ensures ToBytes(FromBytes(bytes), |bytes|) == bytes
  {
    if bytes != [] {
      BytesRoundTrip(bytes[1..]);
    }
  }

  lemma FirstDigit(b: byte, rest: seq<byte>)
    ensures FromBytes([b] + rest) == b + 256 * FromBytes(rest) && FromBytes([]) == 0
  {
    assert ([b] + rest)[1..] == rest;
  }

  lemma TwoDigits(a: byte, b: byte)
    ensures FromBytes([a, b]) == a + 256 * b && ToBytes(a + 256 * b, 2) == [a, b]
  {
    hide FromBytes, ToBytes;
    FirstDigit(b, []);
    FirstDigit(a, [b]);
    assert [a] + [b] == [a, b] && [b] + [] == [b];
    BytesRoundTrip([a, b]);
  }

  lemma FourDigits(a: byte, b: byte, c: byte, d: byte)
    ensures FromBytes([a, b, c, d]) == a + 256 * (b + 256 * (c + 256 * d))
    ensures ToBytes(a + 256 * (b + 256 * (c + 256 * d)), 4) == [a, b, c, d]
  {
    hide FromBytes, ToBytes;
    TwoDigits(c, d);
    FirstDigit(b, [c, d]);
    FirstDigit(a, [b, c, d]);
    assert [a] + [b, c, d] == [a, b, c, d] && [b] + [c, d] == [b, c, d];
    BytesRoundTrip([a, b, c, d]);
  }

  lemma EightDigits(a: byte, b: byte, c: byte, d: byte, e: byte, f: byte, g: byte, h: byte)
    ensures ToBytes(a + 256 * (b + 256 * (c + 256 * (d + 256 * (e + 256 * (f + 256 * (g + 256 * h)))))), 8)
         == [a, b, c, d, e, f, g, h]
  {
    hide FromBytes, ToBytes;
    FourDigits(e, f, g, h);
    FirstDigit(d, [e, f, g, h]);
    FirstDigit(c, [d, e, f, g, h]);
    FirstDigit(b, [c, d, e, f, g, h]);
    FirstDigit(a, [b, c, d, e, f, g, h]);
    assert [d] + [e, f, g, h] == [d, e, f, g, h] && [c] + [d, e, f, g, h] == [c, d, e, f, g, h];
    assert [b] + [c, d, e, f, g, h] == [b, c, d, e, f, g, h];
    assert [a] + [b, c, d, e, f, g, h] == [a, b, c, d, e, f, g, h];
    BytesRoundTrip([a, b, c, d, e, f, g, h]);
  }

  // ---------------------------------------------------------------- refusals

  function Size(bytes: seq<byte>): nat
    requires |bytes| >= HEADER_SIZE
  {
    var a: int, b: int, c: int, d: int := bytes[8], bytes[9], bytes[10], bytes[11];
    a + 256 * (b + 256 * (c + 256 * d))
  }

  lemma HeaderNumbers(bytes: seq<byte>)
    requires |bytes| >= HEADER_SIZE
    ensures var header := DecodeHeader(bytes);
      && (header.magic == MAGIC <==> bytes[..4] == [80, 76, 75, 86])
      && (header.version == VERSION <==> bytes[4..6] == [1, 0])
      && header.payloadSize == Size(bytes) && header.tag == bytes[24..56]
  {
    hide FromBytes, ToBytes;
    FourDigits(bytes[0], bytes[1], bytes[2], bytes[3]);
    TwoDigits(bytes[4], bytes[5]);
    FourDigits(bytes[8], bytes[9], bytes[10], bytes[11]);
    FourDigits(80, 76, 75, 86);
    TwoDigits(1, 0);
    assert bytes[..4] == [bytes[0], bytes[1], bytes[2], bytes[3]] && bytes[4..6] == [bytes[4], bytes[5]];
    assert bytes[8..12] == [bytes[8], bytes[9], bytes[10], bytes[11]];
    BytesRoundTrip(bytes[..4]);
    BytesRoundTrip(bytes[4..6]);
  }

  /** Each refusal exactly when its own test fails and those before it do not, in terms of the bytes received. */
  lemma RefusedExactly(bytes: seq<byte>, key: Key)
    ensures Deserialize(bytes, key) == Err(TooSmall) <==> |bytes| < 56
    ensures |bytes| >= 56 ==>
      var out, magic, version := Deserialize(bytes, key), bytes[..4] == [80, 76, 75, 86], bytes[4..6] == [1, 0];
      && (out == Err(BadMagic) <==> !magic)
      && (out == Err(UnsupportedVersion) <==> magic && !version)
      && (out == Err(Truncated) <==> magic && version && |bytes| < 56 + Size(bytes))
      && (out.Ok? <==>
            magic && version && |bytes| >= 56 + Size(bytes) && Tag(key, WithTag(bytes, ZEROS)) == bytes[24..56])
      && (out.Ok? ==> out.value.payload == bytes[56..56 + Size(bytes)])
  {
    hide DecodeHeader, Tag, WithTag, Size;
    if |bytes| >= 56 {
      HeaderNumbers(bytes);
    }
  }

  // ---------------------------------------------------------------- one frame

  function Counting(): (bytes: seq<byte>)
    ensures |bytes| == 32
  {
    seq(32, i requires 0 <= i < 32 => i + 1)
  }

  /** The bytes from 1 to 32. */
  const KEY: Key := Counting()

  /** A Pong with a payload of two bytes. */
  const PONG: Message :=
    Message(Header(0x564B4C50, 1, 4, 0, [161, 162, 163, 164], 0x0102_0304_0506_0708, ZEROS), [9, 10])

  const START: seq<byte> := [80, 76, 75, 86, 1, 0, 4, 0, 2, 0, 0, 0, 161, 162, 163, 164, 8, 7, 6, 5, 4, 3, 2, 1]

  const TAG: seq<byte> :=
    [18, 35, 124, 247, 126, 238, 75, 151]
    + [62, 61, 203, 138, 249, 214, 244, 118]
    + [84, 170, 5, 70, 213, 127, 179, 178]
    + [190, 125, 154, 20, 105, 35, 111, 60]

  lemma StartNumbers()
    ensures ToBytes(0x564B4C50, 4) == [80, 76, 75, 86] && ToBytes(1, 2) == [1, 0]
    ensures ToBytes(4, 2) == [4, 0] && ToBytes(2, 4) == [2, 0, 0, 0]
    ensures ToBytes(0x0102_0304_0506_0708, 8) == [8, 7, 6, 5, 4, 3, 2, 1]
  {
    hide ToBytes;
    FourDigits(80, 76, 75, 86);
    TwoDigits(1, 0);
    TwoDigits(4, 0);
    FourDigits(2, 0, 0, 0);
    EightDigits(8, 7, 6, 5, 4, 3, 2, 1);
  }

  lemma StartIs()
    ensures EncodeHeader(PONG.header.(payloadSize := 2)) == START + ZEROS
  {
    hide ToBytes;
    StartNumbers();
    assert START == [80, 76, 75, 86] + [1, 0] + [4, 0] + [2, 0, 0, 0] + [161, 162, 163, 164] + [8, 7, 6, 5, 4, 3, 2, 1];
  }

  // ---------------------------------------------------------------- the lanes, step by step

  const DATA: seq<byte> := START + ZEROS + [9, 10]

  lemma DataIs()
    ensures Untagged(PONG) == DATA
  {
    hide EncodeHeader;
    StartIs();
  }

  /** The lane has this value once it has taken the `n`-th byte. */
  predicate Reached(n: nat, value: U64)
    requires n < 58
  {
    Lane(KEY, DATA, n % 4, n + 1) == value
  }

  function ByteAt(n: nat): byte
    requires n < 58
  {
    if n < 24 then START[n] else if n < 56 then 0 else n - 47
  }

  lemma ByteIs(n: nat)
    requires n < 58
    ensures |DATA| == 58 && DATA[n] == ByteAt(n) && KEY[n % 32] == n % 32 + 1
  {
  }

  lemma FirstStep(key: Key, data: seq<byte>, n: nat)
    requires n < 4 && n < |data| && Lane(key, data, n, n) == 0
    ensures Lane(key, data, n, n + 1) == (data[n] + key[n] * KEY_FACTOR) % TWO_TO_THE_64
  {
  }

  lemma First(n: nat, value: U64)
    requires n < 4 && value == ByteAt(n) + (n + 1) * KEY_FACTOR
    ensures Reached(n, value)
  {
    hide ByteAt, Lane, Counting;
    ByteIs(n);
    NothingYet(n);
    FirstStep(KEY, DATA, n);
  }

  lemma NothingYet(n: nat)
    requires n < 4
    ensures forall m: nat :: m <= n ==> Lane(KEY, DATA, n, m) == 0
  {
    assert Lane(KEY, DATA, n, 0) == 0;
    assert n >= 1 ==> Lane(KEY, DATA, n, 1) == 0;
    assert n >= 2 ==> Lane(KEY, DATA, n, 2) == 0;
    assert n >= 3 ==> Lane(KEY, DATA, n, 3) == 0;
  }

  lemma Waits(n: nat, m: nat)
    requires n < m <= 58 && m <= n + 4
    ensures Lane(KEY, DATA, n % 4, m) == Lane(KEY, DATA, n % 4, n + 1)
  {
    hide DATA, KEY, Mix;
    if m > n + 1 {
      Waits(n, m - 1);
    }
  }

  lemma MixIs(before: U64, d: byte, k: byte, quotient: nat, after: U64)
    requires before * LANE_FACTOR + d + k * KEY_FACTOR == quotient * TWO_TO_THE_64 + after
    ensures Mix(before, d, k) == after
  {
  }

  lemma SameLane(n: nat)
    ensures (n + 4) % 4 == n % 4
  {
  }

  lemma OneMore(key: Key, data: seq<byte>, n: nat)
    requires n < |data|
    ensures Lane(key, data, n % 4, n + 1) == Mix(Lane(key, data, n % 4, n), data[n], key[n % 32])
  {
    hide Mix;
  }

  lemma Next(n: nat, quotient: nat, before: U64, after: U64)
    requires n < 54 && Reached(n, before)
    requires before * LANE_FACTOR + ByteAt(n + 4) + ((n + 4) % 32 + 1) * KEY_FACTOR == quotient * TWO_TO_THE_64 + after
    ensures Reached(n + 4, after)
  {
    hide DATA, KEY, ByteAt, Lane, Mix, Counting;
    ByteIs(n + 4);
    Waits(n, n + 4);
    SameLane(n);
    OneMore(KEY, DATA, n + 4);
    MixIs(before, ByteAt(n + 4), (n + 4) % 32 + 1, quotient, after);
  }

  lemma Ends(n: nat, value: U64)
    requires 54 <= n < 58 && Reached(n, value)
    ensures Lane(KEY, DATA, n % 4, 58) == value
  {
    Waits(n, 58);
  }

  lemma Lane0()
    ensures Lane(KEY, DATA, 0, 58) == 10902069552065815314
  {
    hide Reached, Lane, DATA, KEY;
    First(0, 2654435841);
    Next(0, 0, 2654435841, 3491708388738972957);
    Next(4, 248991187, 3491708388738972957, 1588371439004488486);
    Next(8, 113265612, 1588371439004488486, 13499896751284424808);
    Next(12, 962667824, 13499896751284424808, 5347882737259788449);
    Next(16, 381353630, 5347882737259788449, 11625531325925388944);
    Next(20, 829008188, 11625531325925388944, 5156097061800902201);
    Next(24, 367677533, 5156097061800902201, 9625853456839521852);
    Next(28, 686412612, 9625853456839521852, 18378219682494857941);
    Next(32, 1310537486, 18378219682494857941, 8719849814391928680);
    Next(36, 621806151, 8719849814391928680, 15224658352687799313);
    Next(40, 1085659320, 15224658352687799313, 6653860683865776916);
    Next(44, 474481968, 6653860683865776916, 12733809803866386125);
    Next(48, 908038720, 12733809803866386125, 17273257712560214336);
    Next(52, 1231743451, 17273257712560214336, 10902069552065815314);
    Ends(56, 10902069552065815314);
  }

  lemma Lane1()
    ensures Lane(KEY, DATA, 1, 58) == 8571712358056672574
  {
    hide Reached, Lane, DATA, KEY;
    First(1, 5308871598);
    Next(1, 0, 5308871598, 6983416656364594344);
    Next(5, 497982365, 6983416656364594344, 9882040923632065154);
    Next(9, 704681155, 9882040923632065154, 575091539748601630);
    Next(13, 41009359, 575091539748601630, 12299240096745844491);
    Next(17, 877049871, 12299240096745844491, 172460455465969510);
    Next(21, 12298029, 172460455465969510, 13247828805915718532);
    Next(25, 944693042, 13247828805915718532, 6147965946796635610);
    Next(29, 438406982, 6147965946796635610, 13348658272513159320);
    Next(33, 951883118, 13348658272513159320, 5601094028987096398);
    Next(37, 399409943, 5601094028987096398, 14473033929433412300);
    Next(41, 1032061529, 14473033929433412300, 1706628716190225090);
    Next(45, 121698453, 1706628716190225090, 3818484552647120640);
    Next(49, 272293357, 3818484552647120640, 14785931641069794870);
    Next(53, 1054374037, 14785931641069794870, 8571712358056672574);
    Ends(57, 8571712358056672574);
  }

  lemma Lane2()
    ensures Lane(KEY, DATA, 2, 58) == 12876776313561918036
  {
    hide Reached, Lane, DATA, KEY;
    First(2, 7963307358);
    Next(2, 0, 7963307358, 10475124927936487469);
    Next(6, 746973544, 10475124927936487469, 4919986538018817526);
    Next(10, 350840663, 4919986538018817526, 12896483223072639356);
    Next(14, 919638844, 12896483223072639356, 3929993909299748877);
    Next(18, 280245008, 3929993909299748877, 17866569117850887524);
    Next(22, 1274052056, 17866569117850887524, 11539764670108029415);
    Next(26, 822892230, 11539764670108029415, 7318991626279506976);
    Next(30, 521911972, 7318991626279506976, 13127774014342663667);
    Next(34, 936132022, 13127774014342663667, 7632557158584344412);
    Next(38, 544272102, 7632557158584344412, 16422124983485011871);
    Next(42, 1171049795, 16422124983485011871, 6771629455590065176);
    Next(46, 482879974, 6771629455590065176, 3617562029107364811);
    Next(50, 257965718, 3617562029107364811, 12876776313561918036);
    Ends(54, 12876776313561918036);
  }

  lemma Lane3()
    ensures Lane(KEY, DATA, 3, 58) == 4354738298914766270
  {
    hide Reached, Lane, DATA, KEY;
    First(3, 10617743130);
    Next(3, 0, 10617743130, 13966833215293467518);
    Next(7, 995964724, 13966833215293467518, 2275268855739058046);
    Next(11, 162247768, 2275268855739058046, 3966164342819517158);
    Next(15, 282824296, 3966164342819517158, 5361318035925817827);
    Next(19, 382311692, 5361318035925817827, 221506460698025390);
    Next(23, 15795464, 221506460698025390, 12909671853808631774);
    Next(27, 920579315, 12909671853808631774, 16307722203041469426);
    Next(31, 1162891816, 16307722203041469426, 4663007482877613474);
    Next(35, 332515674, 4663007482877613474, 1374098635718833718);
    Next(39, 97985974, 1374098635718833718, 16305874369346426246);
    Next(43, 1162760048, 16305874369346426246, 10610100793778702714);
    Next(47, 756598575, 10610100793778702714, 2698243929090362474);
    Next(51, 192409813, 2698243929090362474, 4354738298914766270);
    Ends(55, 4354738298914766270);
  }

  // ---------------------------------------------------------------- the whole frame

  lemma TagNumbers()
    ensures ToBytes(10902069552065815314, 8) == [18, 35, 124, 247, 126, 238, 75, 151]
    ensures ToBytes(8571712358056672574, 8) == [62, 61, 203, 138, 249, 214, 244, 118]
    ensures ToBytes(12876776313561918036, 8) == [84, 170, 5, 70, 213, 127, 179, 178]
    ensures ToBytes(4354738298914766270, 8) == [190, 125, 154, 20, 105, 35, 111, 60]
  {
    hide ToBytes;
    EightDigits(18, 35, 124, 247, 126, 238, 75, 151);
    EightDigits(62, 61, 203, 138, 249, 214, 244, 118);
    EightDigits(84, 170, 5, 70, 213, 127, 179, 178);
    EightDigits(190, 125, 154, 20, 105, 35, 111, 60);
  }

  lemma TagIs()
    ensures Tag(KEY, DATA) == TAG
  {
    hide ToBytes, Lane, DATA, KEY;
    ByteIs(0);
    Lane0();
    Lane1();
    Lane2();
    Lane3();
    TagNumbers();
  }

  lemma AroundTheTag()
    ensures DATA[..TAG_START] == START && DATA[HEADER_SIZE..] == [9, 10]
  {
  }

  /** The frame of this message under this key, in every byte. */
  lemma FrameIs()
    ensures Serialize(PONG, KEY) == START + TAG + [9, 10]
  {
    hide Tag, DATA, KEY, Untagged;
    DataIs();
    TagIs();
    AroundTheTag();
  }
}
