/**
 What the checksum of module IpcMessage makes of the key: a frame sent under one key and opened under another
 that differs in a byte is refused, unless the payload is longer than any memory.
 */
module IpcKeys {
  import opened Integers
  import opened IpcMessage
  import opened Wrappers

  // ---------------------------------------------------------------- divisibility by powers of two

  /** `a` is a multiple of the `p`-th power of two. */
  predicate Even(p: nat, a: int) {
    p == 0 || (a % 2 == 0 && Even(p - 1, a / 2))
  }

  function Pow(x: int, n: nat): int {
    if n == 0 then 1 else Pow(x, n - 1) * x
  }

  lemma {:induction false} EvenIsMultiple(p: nat, a: int) returns (q: int)
    requires Even(p, a)
    ensures a == q * Pow(2, p)
  {
    if p == 0 {
      q := a;
    } else {
      q := EvenIsMultiple(p - 1, a / 2);
      assert a == 2 * (q * Pow(2, p - 1)) == q * (Pow(2, p - 1) * 2);
    }
  }

  lemma {:induction false} MultipleIsEven(p: nat, q: int)
    ensures Even(p, q * Pow(2, p))
  {
    if p > 0 {
      MultipleIsEven(p - 1, q);
      var half := q * Pow(2, p - 1);
      assert q * Pow(2, p) == 2 * half;
    }
  }

  lemma {:induction false} PowSum(x: int, k: nat, h: nat)
    ensures Pow(x, k + h) == Pow(x, k) * Pow(x, h)
  {
    if h > 0 {
      PowSum(x, k, h - 1);
      Associative(Pow(x, k), Pow(x, h - 1), x);
    }
  }

  lemma Associative(a: int, b: int, c: int)
    ensures (a * b) * c == a * (b * c)
  {
  }

  lemma PowOfTwo()
    ensures Pow(2, 64) == TWO_TO_THE_64
  {
    assert Pow(2, 2) == 4;
    PowSum(2, 2, 2);
    PowSum(2, 4, 4);
    PowSum(2, 8, 8);
    PowSum(2, 16, 16);
    PowSum(2, 32, 32);
  }

  lemma EvenExactly(a: int)
    ensures Even(64, a) <==> a % TWO_TO_THE_64 == 0
  {
    PowOfTwo();
    hide Even, Pow;
    if Even(64, a) {
      var q := EvenIsMultiple(64, a);
      assert a == q * TWO_TO_THE_64;
    }
    if a % TWO_TO_THE_64 == 0 {
      MultipleIsEven(64, a / TWO_TO_THE_64);
    }
  }

  lemma Parity(a: int, u: int)
    requires u % 2 == 1
    ensures (a * u) % 2 == a % 2
  {
    var h := u / 2;
    assert a * u == 2 * (a * h) + a;
  }

  lemma Halved(a: int, u: int)
    requires a % 2 == 0
    ensures (a * u) / 2 == (a / 2) * u
  {
    assert a * u == 2 * ((a / 2) * u);
  }

  /** An odd factor does not matter. */
  lemma {:induction false} OddFactor(p: nat, a: int, u: int)
    requires u % 2 == 1
    ensures Even(p, a * u) <==> Even(p, a)
  {
    if p > 0 {
      Parity(a, u);
      if a % 2 == 0 {
        Halved(a, u);
        OddFactor(p - 1, a / 2, u);
      }
    }
  }

  // ---------------------------------------------------------------- geometric sums

  /** 1 + x + ... with `m` terms. */
  function Geometric(x: int, m: nat): int {
    if m == 0 then 0 else Geometric(x, m - 1) * x + 1
  }

  lemma Distribute(g: int, p: int, r: int, x: int)
    ensures (g * p + r) * x + 1 == g * (p * x) + (r * x + 1)
  {
  }

  lemma {:induction false} GeometricSum(x: int, k: nat, h: nat)
    ensures Geometric(x, k + h) == Geometric(x, k) * Pow(x, h) + Geometric(x, h)
  {
    if h > 0 {
      GeometricSum(x, k, h - 1);
      Distribute(Geometric(x, k), Pow(x, h - 1), Geometric(x, h - 1), x);
    }
  }

  lemma ModFour(a: int, b: int)
    requires a % 4 == 1 && b % 4 == 1
    ensures (a * b) % 4 == 1
  {
    var i, j := a / 4, b / 4;
    assert a * b == 4 * (4 * (i * j) + i + j) + 1;
  }

  lemma {:induction false} PowModFour(x: int, n: nat)
    requires x % 4 == 1
    ensures Pow(x, n) % 4 == 1
  {
    if n > 0 {
      PowModFour(x, n - 1);
      ModFour(Pow(x, n - 1), x);
    }
  }

  lemma NextParity(a: int, m: nat)
    requires m > 0 && a % 2 == (m - 1) % 2
    ensures (a + 1) % 2 == m % 2
  {
  }

  lemma {:induction false} GeometricParity(x: int, m: nat)
    requires x % 2 == 1
    ensures Geometric(x, m) % 2 == m % 2
  {
    if m > 0 {
      GeometricParity(x, m - 1);
      Parity(Geometric(x, m - 1), x);
      NextParity(Geometric(x, m - 1) * x, m);
    }
  }

  lemma HalfOf(power: int) returns (u: int)
    requires power % 4 == 1
    ensures u % 2 == 1 && power + 1 == 2 * u
  {
    u := 2 * (power / 4) + 1;
  }

  lemma OneMore(g: int, power: int, u: int)
    requires power + 1 == 2 * u
    ensures g * power + g == 2 * u * g
  {
    assert g * power + g == g * (power + 1);
  }

  lemma TwiceAsMany(x: int, h: nat) returns (u: int)
    requires x % 4 == 1
    ensures u % 2 == 1 && Geometric(x, 2 * h) == 2 * u * Geometric(x, h)
  {
    hide Geometric, Pow;
    GeometricSum(x, h, h);
    PowModFour(x, h);
    u := HalfOf(Pow(x, h));
    OneMore(Geometric(x, h), Pow(x, h), u);
    assert h + h == 2 * h;
  }

  lemma Rearranged(a: int, u: int, g: int, h: int)
    ensures a * (2 * u * g) == 2 * a * u * g && 2 * a * u * h == a * (2 * h) * u
  {
    Associative(2 * a, u, g);
    Associative(a, 2 * u, g);
    assert 2 * a * u == a * (2 * u);
    assert 2 * a * u * h == a * (2 * u) * h;
    Associative(a, 2 * u, h);
    Associative(a, 2 * h, u);
    assert (2 * u) * h == (2 * h) * u;
  }

  lemma TwiceAsManyTerms(p: nat, a: int, g: int, twice: int, u: int, h: nat)
    requires twice == 2 * u * g && u % 2 == 1
    requires Even(p, (2 * a * u) * g) <==> Even(p, (2 * a * u) * h)
    ensures Even(p, a * twice) <==> Even(p, a * (2 * h))
  {
    hide Even;
    Rearranged(a, u, g, h);
    OddFactor(p, a * (2 * h), u);
  }

  lemma OddFactors(p: nat, a: int, u: int, v: int)
    requires u % 2 == 1 && v % 2 == 1
    ensures Even(p, a * u) <==> Even(p, a * v)
  {
    hide Even;
    OddFactor(p, a, u);
    OddFactor(p, a, v);
  }

  lemma OddlyMany(x: int, m: nat)
    requires x % 4 == 1 && m % 2 == 1
    ensures Geometric(x, m) % 2 == 1
  {
    hide Geometric;
    assert x == 2 * (2 * (x / 4)) + 1;
    GeometricParity(x, m);
  }

  /** A geometric sum is as even as the number of its terms. */
  lemma {:induction false} AsEvenAsCount(p: nat, a: int, x: int, m: nat)
    requires x % 4 == 1
    ensures Even(p, a * Geometric(x, m)) <==> Even(p, a * m)
    decreases m, 1
  {
    hide Even, Pow;
    if m == 0 {
      assert Geometric(x, m) == 0;
    } else if m % 2 == 1 {
      OddlyMany(x, m);
      OddFactors(p, a, Geometric(x, m), m);
    } else {
      HalfAsMany(p, a, x, m / 2);
      assert m == 2 * (m / 2);
    }
  }

  lemma {:induction false} HalfAsMany(p: nat, a: int, x: int, h: nat)
    requires x % 4 == 1 && h > 0
    ensures Even(p, a * Geometric(x, 2 * h)) <==> Even(p, a * (2 * h))
    decreases 2 * h, 0
  {
    hide Even, Pow, Geometric;
    var u := TwiceAsMany(x, h);
    AsEvenAsCount(p, 2 * a * u, x, h);
    TwiceAsManyTerms(p, a, Geometric(x, h), Geometric(x, 2 * h), u, h);
  }

  // ---------------------------------------------------------------- how often a byte of the key is used

  /** The `j`-th byte of the key goes with every 32nd byte of the data, this many times in the first `n`. */
  function Uses(j: nat, n: nat): nat {
    if n <= j then 0 else (n - 1 - j) / 32 + 1
  }

  /** The steps of the lane since the last use. */
  function Since(j: nat, n: nat): nat {
    if n <= j then 0 else (n - 1 - j) % 32 / 4
  }

  /** What one more in the `j`-th byte of the key adds to its lane, but for the key factor. */
  function Spread(j: nat, n: nat): int {
    if n == 0 then 0
    else if (n - 1) % 4 == j % 4 then Spread(j, n - 1) * LANE_FACTOR + if (n - 1) % 32 == j then 1 else 0
    else Spread(j, n - 1)
  }

  lemma NextOf32(r: int)
    ensures (r + 1) / 32 == r / 32 + (if r % 32 == 31 then 1 else 0)
    ensures (r + 1) % 32 == if r % 32 == 31 then 0 else r % 32 + 1
  {
    var q, s := r / 32, r % 32;
    assert r + 1 == 32 * q + (s + 1);
    if s == 31 {
      assert r + 1 == 32 * (q + 1);
    }
  }

  lemma ModOf4(n: int, q: int, r: int)
    requires n == 4 * q + r && 0 <= r < 4
    ensures n % 4 == r
  {
  }

  lemma ModOf32(n: int, q: int, r: int)
    requires n == 32 * q + r && 0 <= r < 32
    ensures n % 32 == r
  {
  }

  lemma KeyLane(n: int)
    ensures n % 32 % 4 == n % 4 && 0 <= n % 32 < 32
  {
    var s := n % 32;
    ModOf4(n, 8 * (n / 32) + s / 4, s % 4);
  }

  lemma SameLane(n: int, j: int)
    ensures n % 4 == j % 4 <==> (n - j) % 32 % 4 == 0
  {
    var q, s := (n - j) / 32, (n - j) % 32;
    var r, carry := j % 4 + s % 4, 8 * q + j / 4 + s / 4;
    assert n == 4 * carry + r;
    ModOf4(n, if r < 4 then carry else carry + 1, if r < 4 then r else r - 4);
  }

  lemma SameKeyByte(n: int, j: int)
    requires 0 <= j < 32
    ensures n % 32 == j <==> (n - j) % 32 == 0
  {
    var q, s := (n - j) / 32, (n - j) % 32;
    ModOf32(n, if j + s < 32 then q else q + 1, if j + s < 32 then j + s else j + s - 32);
  }

  lemma UsesStep(j: nat, n: nat)
    requires j < 32
    ensures n % 4 != j % 4 ==> Uses(j, n + 1) == Uses(j, n) && Since(j, n + 1) == Since(j, n) && n % 32 != j
    ensures n % 4 == j % 4 && n % 32 != j && Uses(j, n) > 0 ==>
      Uses(j, n + 1) == Uses(j, n) && Since(j, n + 1) == Since(j, n) + 1
    ensures n % 4 == j % 4 && n % 32 != j && Uses(j, n) == 0 ==> Uses(j, n + 1) == 0
    ensures n % 32 == j ==>
      && n % 4 == j % 4 && Uses(j, n + 1) == Uses(j, n) + 1 && Since(j, n + 1) == 0
      && (Uses(j, n) > 0 ==> Since(j, n) == 7)
  {
    SameLane(n, j);
    SameKeyByte(n, j);
    NextOf32(n - 1 - j);
    if n < j {
      assert (n - j) % 32 != 0;
    }
  }

  const EIGHT_STEPS: int := LANE_FACTOR * LANE_FACTOR * LANE_FACTOR * LANE_FACTOR
                          * LANE_FACTOR * LANE_FACTOR * LANE_FACTOR * LANE_FACTOR

  lemma EightSteps()
    ensures Pow(LANE_FACTOR, 7) * LANE_FACTOR == EIGHT_STEPS && EIGHT_STEPS % 4 == 1
  {
  }

  lemma {:induction false} SpreadIs(j: nat, n: nat)
    requires j < 32
    ensures Spread(j, n) == Geometric(EIGHT_STEPS, Uses(j, n)) * Pow(LANE_FACTOR, Since(j, n))
    decreases n
  {
    if n > 0 {
      SpreadIs(j, n - 1);
      UsesStep(j, n - 1);
      SpreadStep(j, n);
    }
  }

  lemma SpreadStep(j: nat, n: nat)
    requires j < 32 && n > 0
    requires Spread(j, n - 1) == Geometric(EIGHT_STEPS, Uses(j, n - 1)) * Pow(LANE_FACTOR, Since(j, n - 1))
    ensures Spread(j, n) == Geometric(EIGHT_STEPS, Uses(j, n)) * Pow(LANE_FACTOR, Since(j, n))
  {
    UsesStep(j, n - 1);
    hide Uses, Since;
    var g, c := Geometric(EIGHT_STEPS, Uses(j, n - 1)), Since(j, n - 1);
    if (n - 1) % 32 == j {
      EightSteps();
      Associative(g, Pow(LANE_FACTOR, 7), LANE_FACTOR);
    } else if (n - 1) % 4 == j % 4 {
      Associative(g, Pow(LANE_FACTOR, c), LANE_FACTOR);
    }
  }

  // ---------------------------------------------------------------- lanes under two keys

  /** On the lane of byte `j`, the keys differ in that byte only. */
  predicate DifferAt(a: Key, b: Key, j: nat)
    requires j < 32
  {
    a[j] != b[j] && forall i :: 0 <= i < 32 && i % 4 == j % 4 && i != j ==> a[i] == b[i]
  }

  lemma MixDifference(x: U64, y: U64, d: byte, k: byte, l: byte, e: int, q: int) returns (r: int)
    requires x - y == e + q * TWO_TO_THE_64
    ensures Mix(x, d, k) - Mix(y, d, l) == e * LANE_FACTOR + (k - l) * KEY_FACTOR + r * TWO_TO_THE_64
  {
    var p := (x * LANE_FACTOR + d + k * KEY_FACTOR) / TWO_TO_THE_64;
    r := q * LANE_FACTOR - p + (y * LANE_FACTOR + d + l * KEY_FACTOR) / TWO_TO_THE_64;
  }

  lemma SpreadTimes(d: int, s: int, used: int)
    ensures (d * s) * LANE_FACTOR + d * used == d * (s * LANE_FACTOR + used)
  {
    Associative(d, s, LANE_FACTOR);
  }

  lemma LaneDifferenceStep(a: Key, b: Key, data: seq<byte>, j: nat, n: nat, i: nat, d: int, q: int) returns (r: int)
    requires j < 32 && DifferAt(a, b, j) && d == (a[j] as int) - (b[j] as int)
    requires 0 < n <= |data| && (n - 1) % 4 == j % 4 && i == (n - 1) % 32 < 32 && i % 4 == j % 4
    requires Lane(a, data, j % 4, n - 1) - Lane(b, data, j % 4, n - 1)
          == d * KEY_FACTOR * Spread(j, n - 1) + q * TWO_TO_THE_64
    ensures Lane(a, data, j % 4, n) - Lane(b, data, j % 4, n) == d * KEY_FACTOR * Spread(j, n) + r * TWO_TO_THE_64
  {
    var used, s := if i == j then 1 else 0, Spread(j, n - 1);
    var x, y := Lane(a, data, j % 4, n - 1), Lane(b, data, j % 4, n - 1);
    assert (a[i] - b[i]) * KEY_FACTOR == d * KEY_FACTOR * used;
    assert Spread(j, n) == s * LANE_FACTOR + used;
    assert Lane(a, data, j % 4, n) == Mix(x, data[n - 1], a[i]) && Lane(b, data, j % 4, n) == Mix(y, data[n - 1], b[i]);
    hide Mix, Lane, Spread;
    SpreadTimes(d * KEY_FACTOR, s, used);
    r := MixDifference(x, y, data[n - 1], a[i], b[i], d * KEY_FACTOR * s, q);
  }

  /** Modulo 2^64 the difference of the keys is spread over the lane. */
  lemma {:induction false} LaneDifference(a: Key, b: Key, data: seq<byte>, j: nat, n: nat) returns (q: int)
    requires j < 32 && DifferAt(a, b, j) && n <= |data|
    ensures Lane(a, data, j % 4, n) - Lane(b, data, j % 4, n)
         == (a[j] - b[j]) * KEY_FACTOR * Spread(j, n) + q * TWO_TO_THE_64
  {
    hide Mix;
    if n == 0 {
      q := 0;
    } else {
      q := LaneDifference(a, b, data, j, n - 1);
      if (n - 1) % 4 == j % 4 {
        KeyLane(n - 1);
        q := LaneDifferenceStep(a, b, data, j, n, (n - 1) % 32, (a[j] as int) - (b[j] as int), q);
      }
    }
  }

  lemma EqualExactly(x: U64, y: U64, e: int, q: int)
    requires x - y == e + q * TWO_TO_THE_64
    ensures x == y <==> e % TWO_TO_THE_64 == 0
  {
  }

  lemma {:induction false} OddPow(x: int, n: nat)
    requires x % 2 == 1
    ensures Pow(x, n) % 2 == 1
  {
    if n > 0 {
      OddPow(x, n - 1);
      Parity(Pow(x, n - 1), x);
    }
  }

  lemma Regroup(d: int, g: int, p: int)
    ensures d * KEY_FACTOR * (g * p) == (d * g) * (KEY_FACTOR * p)
  {
    Associative(d * KEY_FACTOR, g, p);
    assert (d * KEY_FACTOR) * g == (d * g) * KEY_FACTOR;
    Associative(d * g, KEY_FACTOR, p);
  }

  lemma SpreadIsAsEvenAsUses(d: int, j: nat, n: nat)
    requires j < 32
    ensures Even(64, d * KEY_FACTOR * Spread(j, n)) <==> Even(64, d * Uses(j, n))
  {
    hide Even, Pow, Geometric, Spread, Uses, Since;
    var g, p := Geometric(EIGHT_STEPS, Uses(j, n)), Pow(LANE_FACTOR, Since(j, n));
    SpreadIs(j, n);
    Regroup(d, g, p);
    OddPow(LANE_FACTOR, Since(j, n));
    Parity(KEY_FACTOR, p);
    OddFactor(64, d * g, KEY_FACTOR * p);
    EightSteps();
    AsEvenAsCount(64, d, EIGHT_STEPS, Uses(j, n));
  }

  /** The lane of byte `j` is the same under both keys exactly when their difference, once for every use, is 0. */
  lemma LaneSeesKeyByte(a: Key, b: Key, data: seq<byte>, j: nat)
    requires j < 32 && DifferAt(a, b, j)
    ensures Lane(a, data, j % 4, |data|) == Lane(b, data, j % 4, |data|)
       <==> ((a[j] - b[j]) * Uses(j, |data|)) % TWO_TO_THE_64 == 0
  {
    hide Even, Lane, Spread, Uses;
    var d, n: int := (a[j] as int) - (b[j] as int), |data|;
    var q := LaneDifference(a, b, data, j, n);
    EqualExactly(Lane(a, data, j % 4, n), Lane(b, data, j % 4, n), d * KEY_FACTOR * Spread(j, n), q);
    EvenExactly(d * KEY_FACTOR * Spread(j, n));
    EvenExactly(d * Uses(j, n));
    SpreadIsAsEvenAsUses(d, j, n);
  }

  // ---------------------------------------------------------------- frames under two keys

  lemma AcceptedExactly(msg: Message, a: Key, b: Key)
    requires msg.header.Valid() && msg.header.magic == MAGIC && msg.header.version == VERSION
    ensures var out := Deserialize(Serialize(msg, a), b);
      && (out.Ok? <==> Tag(a, Untagged(msg)) == Tag(b, Untagged(msg)))
      && (out.Err? ==> out == Err(TagMismatch))
  {
    DeserializeSerialized(msg, a);
    SerializedShape(msg, a);
    var header := msg.header.(payloadSize := |msg.payload| % TWO_TO_THE_32, tag := Tag(a, Untagged(msg)));
    HeaderRoundTrips(header, msg.payload);
    hide Tag, EncodeHeader, DecodeHeader, WithTag, Untagged;
  }

  lemma SameTagSameLanes(a: Key, b: Key, data: seq<byte>, lane: nat)
    requires lane < 4 && Tag(a, data) == Tag(b, data)
    ensures Lane(a, data, lane, |data|) == Lane(b, data, lane, |data|)
  {
    hide Tag, Lane;
    var frame := ZEROS[..TAG_START] + Tag(a, data);
    TagHoldsLane(a, data, frame, lane);
    TagHoldsLane(b, data, frame, lane);
  }

  lemma {:induction false} SameKeySameLane(a: Key, b: Key, data: seq<byte>, lane: nat, n: nat)
    requires lane < 4 && n <= |data| && forall i :: 0 <= i < 32 && i % 4 == lane ==> a[i] == b[i]
    ensures Lane(a, data, lane, n) == Lane(b, data, lane, n)
  {
    if n > 0 {
      SameKeySameLane(a, b, data, lane, n - 1);
      KeyLane(n - 1);
      hide Mix;
    }
  }

  /**
   A frame sent under one key and opened under another that differs in one byte is accepted only when the payload is
   so long that the difference, once for every use of the byte, comes to a multiple of 2^64.
   */
  lemma WrongKeyByteExactly(msg: Message, a: Key, b: Key, j: nat)
    requires msg.header.Valid() && msg.header.magic == MAGIC && msg.header.version == VERSION
    requires j < 32 && a[j] != b[j] && forall i :: 0 <= i < 32 && i != j ==> a[i] == b[i]
    ensures var out := Deserialize(Serialize(msg, a), b);
      && (out.Ok? <==> ((a[j] - b[j]) * Uses(j, HEADER_SIZE + |msg.payload|)) % TWO_TO_THE_64 == 0)
      && (out.Err? ==> out == Err(TagMismatch))
  {
    hide Serialize, Deserialize, Tag, Lane, Uses;
    var data := Untagged(msg);
    AcceptedExactly(msg, a, b);
    hide Untagged;
    LaneSeesKeyByte(a, b, data, j);
    if Tag(a, data) == Tag(b, data) {
      SameTagSameLanes(a, b, data, j % 4);
    }
    if Lane(a, data, j % 4, |data|) == Lane(b, data, j % 4, |data|) {
      forall lane: nat | lane < 4 ensures Lane(a, data, lane, |data|) == Lane(b, data, lane, |data|) {
        if lane != j % 4 { SameKeySameLane(a, b, data, lane, |data|); }
      }
      SameLanesSameTag(a, b, data);
    }
  }

  lemma SameLanesSameTag(a: Key, b: Key, data: seq<byte>)
    requires forall lane: nat :: lane < 4 ==> Lane(a, data, lane, |data|) == Lane(b, data, lane, |data|)
    ensures Tag(a, data) == Tag(b, data)
  {
    hide Lane;
  }

  /**
   Any other key is refused that differs in a single byte of some lane, whatever it does to the other lanes, for
   every payload of less than 2^60 bytes.
   */
  lemma WrongKeyIsRefused(msg: Message, a: Key, b: Key, j: nat)
    requires msg.header.Valid() && msg.header.magic == MAGIC && msg.header.version == VERSION
    requires j < 32 && DifferAt(a, b, j) && |msg.payload| < 0x1000_0000_0000_0000
    ensures Deserialize(Serialize(msg, a), b) == Err(TagMismatch)
  {
    hide Serialize, Deserialize, Tag, Lane;
    AcceptedExactly(msg, a, b);
    LaneSeesKeyByte(a, b, Untagged(msg), j);
    FewUses(a[j], b[j], j, HEADER_SIZE + |msg.payload|);
    if Tag(a, Untagged(msg)) == Tag(b, Untagged(msg)) {
      SameTagSameLanes(a, b, Untagged(msg), j % 4);
    }
  }

  lemma FewUses(k: byte, l: byte, j: nat, n: nat)
    requires k != l && j < 32 && HEADER_SIZE <= n < 0x1000_0000_0000_0000 + HEADER_SIZE
    ensures ((k - l) * Uses(j, n)) % TWO_TO_THE_64 != 0
  {
    var d, m: int := k - l, Uses(j, n);
    assert 1 <= m <= 0x80_0000_0000_0002;
    hide Uses;
    Bounded(d, m);
  }

  lemma Bounded(d: int, m: int)
    requires -255 <= d <= 255 && d != 0 && 1 <= m <= 0x80_0000_0000_0002
    ensures (d * m) % TWO_TO_THE_64 != 0
  {
    if d > 0 {
      Product(d, m);
    } else {
      Product(-d, m);
      assert d * m == -((-d) * m);
    }
  }

  lemma Product(d: int, m: int)
    requires 1 <= d <= 255 && m >= 1
    ensures 1 <= d * m <= 255 * m
  {
    assert 255 * m - d * m == (255 - d) * m;
  }

  /** The empty message, sent under one key and opened under another. */
  lemma OtherKeyIsRefused()
    ensures Deserialize(Serialize(Message(PLAIN, []), ZEROS), ZEROS[24 := 1]) == Err(TagMismatch)
  {
    hide Serialize, Deserialize;
    assert DifferAt(ZEROS, ZEROS[24 := 1], 24);
    WrongKeyIsRefused(Message(PLAIN, []), ZEROS, ZEROS[24 := 1], 24);
  }
}
