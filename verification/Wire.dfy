/**
 The byte-level vocabulary of a column object: unsigned LEB128 (section 7.6 of DWARF Version 4), its
 zigzag signed form, fixed little-endian words, and int64 arithmetic with wraparound.
 */
module Wire {

  type byte = x: int | 0 <= x < 256
  type Bytes = seq<byte>
  type uint32 = x: int | 0 <= x < 0x1_0000_0000

  const TWO63: int := 0x8000_0000_0000_0000
  const TWO64: int := 0x1_0000_0000_0000_0000
  const MAX_VARINT_LEN := 10

  datatype Option<+T> = None | Some(value: T)

  datatype Result<+T> = Ok(value: T) | Err

  /** A decoded field and the number of bytes it took. */
  datatype Read<+T> = Read(value: T, n: nat)

  // ---------------------------------------------------------------- uvarint

  function PutUvarint(v: nat): (b: Bytes)
    ensures |b| >= 1
    decreases v
  {
    if v < 128 then [v] else [128 + v % 128] + PutUvarint(v / 128)
  }

  /** The number of bytes a uvarint takes, computed by shifting. */
  method VarintLen(v: nat) returns (n: nat)
    ensures n == |PutUvarint(v)|
  {
    n := 1;
    var w := v;
    while w >= 128
      invariant |PutUvarint(v)| == n - 1 + |PutUvarint(w)|
      decreases w
    {
      w := w / 128;
      n := n + 1;
    }
  }

  /** One past the largest value a uvarint tail starting at byte i can hold: 2^(64-7i). */
  function Room(i: nat): nat
    requires i <= 9
    decreases 9 - i
  {
    if i == 9 then 2 else 128 * Room(i + 1)
  }

  lemma RoomIsUint64()
    ensures Room(0) == TWO64
  {
    assert Room(9) == 2;
    assert Room(8) == 128 * Room(9);
    assert Room(7) == 128 * Room(8);
    assert Room(6) == 128 * Room(7);
    assert Room(5) == 128 * Room(6);
    assert Room(4) == 128 * Room(5);
    assert Room(3) == 128 * Room(4);
    assert Room(2) == 128 * Room(3);
    assert Room(1) == 128 * Room(2);
  }

  lemma {:induction false} RoomIsWide(i: nat)
    requires i < 9
    ensures Room(i) >= 256
    decreases 9 - i
  {
    if i < 8 {
      RoomIsWide(i + 1);
    } else {
      assert Room(9) == 2;
    }
  }

  /** Byte i onward of a uvarint: too short, or past 64 bits, is an error. */
  function UvarintAt(b: Bytes, i: nat): (r: Result<Read<nat>>)
    requires i <= 10
    ensures r.Ok? ==> 1 <= r.value.n <= |b| && i + r.value.n <= 10
    decreases 10 - i
  {
    if b == [] || i == 10 then Err
    else if b[0] < 128 then
      if i == 9 && b[0] > 1 then Err else Ok(Read(b[0], 1))
    else
      match UvarintAt(b[1..], i + 1)
      case Err => Err
      case Ok(Read(v, n)) => Ok(Read(b[0] - 128 + 128 * v, n + 1))
  }

  function Uvarint(b: Bytes): (r: Result<Read<nat>>)
    ensures r.Ok? ==> 1 <= r.value.n <= |b| && r.value.n <= MAX_VARINT_LEN
  {
    UvarintAt(b, 0)
  }

  lemma {:induction false} UvarintAtFits(b: Bytes, i: nat)
    requires i <= 9
    ensures UvarintAt(b, i).Ok? ==> UvarintAt(b, i).value.value < Room(i)
    decreases 9 - i
  {
    if b != [] && b[0] >= 128 {
      if i < 9 {
        UvarintAtFits(b[1..], i + 1);
        assert Room(i) == 128 * Room(i + 1);
      } else {
        assert UvarintAt(b[1..], 10) == Err;
      }
    } else if i < 9 {
      RoomIsWide(i);
    }
  }

  /** No buffer decodes to more than 64 bits. */
  lemma UvarintFits(b: Bytes)
    ensures Uvarint(b).Ok? ==> Uvarint(b).value.value < TWO64
  {
    UvarintAtFits(b, 0);
    RoomIsUint64();
  }

  lemma {:induction false} UvarintRoundTripAt(v: nat, rest: Bytes, i: nat)
    requires i <= 9 && v < Room(i)
    ensures UvarintAt(PutUvarint(v) + rest, i) == Ok(Read(v, |PutUvarint(v)|))
    ensures i + |PutUvarint(v)| <= 10
    decreases 9 - i
  {
    hide PutUvarint; hide UvarintAt;
    if v < 128 {
      LastByte(v, rest, i);
    } else {
      UvarintRoundTripAt(v / 128, rest, i + 1);
      MoreBytes(v, rest, i);
    }
  }

  lemma LastByte(v: nat, rest: Bytes, i: nat)
    requires i <= 9 && v < 128 && (i == 9 ==> v < 2)
    ensures UvarintAt(PutUvarint(v) + rest, i) == Ok(Read(v, 1)) && |PutUvarint(v)| == 1
  {
  }

  lemma MoreBytes(v: nat, rest: Bytes, i: nat)
    requires i < 9 && v >= 128 && UvarintAt(PutUvarint(v / 128) + rest, i + 1) == Ok(Read(v / 128, |PutUvarint(v / 128)|))
    ensures UvarintAt(PutUvarint(v) + rest, i) == Ok(Read(v, |PutUvarint(v)|)) && |PutUvarint(v)| == 1 + |PutUvarint(v / 128)|
  {
    var b := PutUvarint(v) + rest;
    assert b[1..] == PutUvarint(v / 128) + rest;
  }

  /** Every uint64 survives the trip, whatever follows it, in at most ten bytes. */
  lemma UvarintRoundTrip(v: nat, rest: Bytes)
    requires v < TWO64
    ensures Uvarint(PutUvarint(v) + rest) == Ok(Read(v, |PutUvarint(v)|))
    ensures |PutUvarint(v)| <= MAX_VARINT_LEN
  {
    RoomIsUint64();
    UvarintRoundTripAt(v, rest, 0);
  }

  lemma {:induction false} UvarintMonotone(v: nat, w: nat)
    requires v <= w
    ensures |PutUvarint(v)| <= |PutUvarint(w)|
    decreases w
  {
    if v >= 128 {
      UvarintMonotone(v / 128, w / 128);
    }
  }

  // ---------------------------------------------------------------- varint and int64

  predicate IsInt64(x: int) { -TWO63 <= x < TWO63 }

  /** What a Go int64 expression holds once it has wrapped. */
  function Wrap64(x: int): (r: int)
    ensures IsInt64(r)
  {
    (x + TWO63) % TWO64 - TWO63
  }

  /** Delta coding survives overflow: adding back a wrapped difference is exact. */
  lemma WrapDelta(x: int, base: int)
    requires IsInt64(x)
    ensures Wrap64(base + Wrap64(x - base)) == x
  {
    var d := x - base + TWO63;
    assert d == d / TWO64 * TWO64 + d % TWO64;
    var q := d / TWO64;
    assert base + Wrap64(x - base) + TWO63 == (x + TWO63) - q * TWO64;
    ModShift(x + TWO63, q);
  }

  lemma ModShift(a: int, q: int)
    requires 0 <= a < TWO64
    ensures (a - q * TWO64) % TWO64 == a
  {
    var b := a - q * TWO64;
    assert b == b / TWO64 * TWO64 + b % TWO64;
    assert (q + b / TWO64) * TWO64 == a - b % TWO64;
  }

  function Zigzag(x: int): (u: nat)
    requires IsInt64(x)
    ensures u < TWO64
  {
    if x >= 0 then 2 * x else -2 * x - 1
  }

  function Unzigzag(u: nat): int {
    if u % 2 == 0 then u / 2 else -(u / 2) - 1
  }

  function PutVarint(x: int): (b: Bytes)
    requires IsInt64(x)
    ensures |b| >= 1
  {
    PutUvarint(Zigzag(x))
  }

  function Varint(b: Bytes): (r: Result<Read<int>>)
    ensures r.Ok? ==> 1 <= r.value.n <= |b|
  {
    match Uvarint(b)
    case Err => Err
    case Ok(Read(u, n)) => Ok(Read(Unzigzag(u), n))
  }

  lemma VarintRoundTrip(x: int, rest: Bytes)
    requires IsInt64(x)
    ensures Varint(PutVarint(x) + rest) == Ok(Read(x, |PutVarint(x)|))
    ensures |PutVarint(x)| <= MAX_VARINT_LEN
  {
    UvarintRoundTrip(Zigzag(x), rest);
  }

  // ---------------------------------------------------------------- fixed words

  function PutU32(v: uint32): (b: Bytes)
    ensures |b| == 4
  {
    [v % 256, v / 256 % 256, v / 65536 % 256, v / 16777216]
  }

  function U32(b: Bytes): (v: uint32)
    requires |b| >= 4
  {
    var b0: int, b1: int, b2: int, b3: int := b[0], b[1], b[2], b[3];
    b0 + 256 * b1 + 65536 * b2 + 16777216 * b3
  }

  lemma U32RoundTrip(v: uint32, rest: Bytes)
    ensures U32(PutU32(v) + rest) == v
  {
    var a, c := v / 256, v / 65536;
    assert v == 256 * a + v % 256;
    assert c == a / 256 && a == 256 * c + a % 256;
    assert v / 16777216 == c / 256 && c == 256 * (c / 256) + c % 256;
  }
}
