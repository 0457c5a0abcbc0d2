/**
 * QuickXorHash: the in-place byte-and-shift update against a bit-level definition.
 *
 * State bit `j` is bit `j % 8` of state byte `j / 8`.
 */
module QuickXor {
  import opened Numbers

  const WIDTH_BITS: nat := 160
  const BIT_SHIFT: nat := 11

  // ---------------------------------------------------------------- operations on a byte

  /** `a ^ b` */
  function Xor(a: byte, b: byte): (r: byte)
    ensures forall k :: 0 <= k < 8 ==> r[k] == (a[k] != b[k])
  {
    seq(8, k requires 0 <= k < 8 => a[k] != b[k])
  }

  /** `b << s`: bits pushed past the top are lost. */
  function Shl(b: byte, s: nat): (r: byte)
    requires s < 8
    ensures forall k :: 0 <= k < 8 ==> r[k] == (s <= k && b[k - s])
  {
    seq(8, k requires 0 <= k < 8 => s <= k && b[k - s])
  }

  /** `b >> s`: zeros come in at the top. */
  function Shr(b: byte, s: nat): (r: byte)
    requires s <= 8
    ensures forall k :: 0 <= k < 8 ==> r[k] == (k + s < 8 && b[k + s])
  {
    seq(8, k requires 0 <= k < 8 => k + s < 8 && b[k + s])
  }

  // ---------------------------------------------------------------- the definition

  /** XOR, over `k < n` with `(11*i + k) mod 160 == j`, of bit `k` of byte `b` at position `i`. */
  predicate ByteParity(b: byte, i: nat, j: nat, n: nat)
    requires n <= 8
  {
    if n == 0 then false
    else ByteParity(b, i, j, n - 1) != ((11 * i + (n - 1)) % 160 == j && b[n - 1])
  }

  /** XOR of bit `k` of byte `i` of `input` over all `(i, k)` with `(11*i + k) mod 160 == j`. */
  predicate Parity(input: seq<byte>, j: nat)
  {
    if input == [] then false
    else Parity(input[..|input| - 1], j) != ByteParity(input[|input| - 1], |input| - 1, j, 8)
  }

  predicate StateBit(d: seq<byte>, j: nat)
    requires |d| == 20 && j < WIDTH_BITS
  {
    d[j / 8][j % 8]
  }

  /** `d` is the accumulator state after `input`. */
  ghost predicate IsState(input: seq<byte>, d: seq<byte>)
  {
    |d| == 20 && forall j :: 0 <= j < WIDTH_BITS ==> StateBit(d, j) == Parity(input, j)
  }

  /** Byte `i` of the little-endian form of `length`. */
  function LengthByte(length: nat, i: nat): byte
  {
    seq(8, k requires 0 <= k < 8 => length / Pow2(8 * i + k) % 2 == 1)
  }

  /** The number whose bits, from the lowest on, are the first `n` bits of the length bytes. */
  function LengthValue(length: nat, n: nat): nat
    requires n <= 64
  {
    if n == 0 then 0
    else LengthValue(length, n - 1) + if LengthByte(length, (n - 1) / 8)[(n - 1) % 8] then Pow2(n - 1) else 0
  }

  lemma Quotient(x: nat, m: nat, q: nat, r: nat)
    requires r < m && x == m * q + r
    ensures x / m == q
  {
    var d, e := x / m, x % m;
    assert x == m * d + e && 0 <= e < m;
    if d < q {
      Spread(m, d, q - d);
    } else if d > q {
      Spread(m, q, d - q);
    }
  }

  lemma Spread(m: nat, d: nat, k: nat)
    requires k > 0
    ensures m * (d + k) == m * d + m * k && m * k >= m
  {
  }

  /** The next bit splits off the rest. */
  lemma NextBit(x: nat, m: nat)
    requires m > 0
    ensures x / (2 * m) == x / m / 2
    ensures m * (x / m) == 2 * m * (x / (2 * m)) + if x / m % 2 == 1 then m else 0
  {
    var q, r := x / m, x % m;
    assert x == m * q + r;
    Halves(m, q / 2);
    Quotient(x, 2 * m, q / 2, if q % 2 == 1 then m + r else r);
  }

  lemma Halves(m: nat, half: nat)
    ensures m * (2 * half) == 2 * m * half && m * (2 * half + 1) == 2 * m * half + m
  {
  }

  lemma {:induction false} LengthValueIs(length: nat, n: nat)
    requires n <= 64
    ensures LengthValue(length, n) + Pow2(n) * (length / Pow2(n)) == length
  {
    if n > 0 {
      LengthValueIs(length, n - 1);
      NextBit(length, Pow2(n - 1));
      assert 8 * ((n - 1) / 8) + (n - 1) % 8 == n - 1;
      assert Pow2(n) == 2 * Pow2(n - 1);
    }
  }

  lemma {:induction false} Pow2Adds(m: nat, n: nat)
    ensures Pow2(m + n) == Pow2(m) * Pow2(n)
  {
    if n > 0 {
      Pow2Adds(m, n - 1);
    }
  }

  /** The length bytes are the length, little-endian. */
  lemma {:induction false} LengthBytesAreLength(length: nat)
    requires length < U64_LIMIT
    ensures LengthValue(length, 64) == length
  {
    hide Pow2, LengthValue;
    LengthValueIs(length, 64);
    WordSize();
    Quotient(length, U64_LIMIT, 0, length);
  }

  lemma PowOfOne()
    ensures Pow2(1) == 2
  {
    assert Pow2(0) == 1;
  }

  lemma WordSize()
    ensures Pow2(64) == U64_LIMIT
  {
    hide Pow2;
    assert Pow2(1) == 2 by { PowOfOne(); }
    Pow2Adds(1, 1);
    Pow2Adds(2, 2);
    Pow2Adds(4, 4);
    Pow2Adds(8, 8);
    Pow2Adds(16, 16);
    Pow2Adds(32, 32);
  }

  /** `d` is the digest of `input`: its state with the length XORed into the last eight bytes. */
  ghost predicate IsDigest(input: seq<byte>, d: seq<byte>)
  {
    && |d| == 20
    && forall j :: 0 <= j < WIDTH_BITS ==>
         StateBit(d, j) ==
         (Parity(input, j) != (j >= 96 && LengthByte(|input| % U64_LIMIT, j / 8 - 12)[j % 8]))
  }

  /** What the first `n` steps of finalisation XOR into state byte `m`. */
  function Addend(length: nat, m: nat, n: nat): byte
  {
    if 12 <= m < 12 + n then LengthByte(length, m - 12) else ZERO
  }

  /** The last eight state bytes hold the bits from 96 on. */
  lemma ByteOfBit(j: nat)
    requires j < WIDTH_BITS
    ensures j / 8 < 20 && j % 8 < 8 && (12 <= j / 8 <==> j >= 96)
  {
  }

  lemma LengthGivesDigest(input: seq<byte>, state: seq<byte>, digest: seq<byte>)
    requires IsState(input, state) && |digest| == 20
    requires forall m :: 0 <= m < 20 ==> digest[m] == Xor(state[m], Addend(|input| % U64_LIMIT, m, 8))
    ensures IsDigest(input, digest)
  {
    hide Parity, LengthByte, Pow2;
    forall j | 0 <= j < WIDTH_BITS
      ensures StateBit(digest, j) ==
        (Parity(input, j) != (j >= 96 && LengthByte(|input| % U64_LIMIT, j / 8 - 12)[j % 8]))
    {
      ByteOfBit(j);
      assert StateBit(state, j) == Parity(input, j);
      assert digest[j / 8] == Xor(state[j / 8], Addend(|input| % U64_LIMIT, j / 8, 8));
    }
  }

  lemma StateBitsDetermine(c: seq<byte>, d: seq<byte>)
    requires |c| == |d| == 20
    requires forall j :: 0 <= j < WIDTH_BITS ==> StateBit(c, j) == StateBit(d, j)
    ensures c == d
  {
    forall m | 0 <= m < 20 ensures c[m] == d[m] {
      forall k | 0 <= k < 8 ensures c[m][k] == d[m][k] {
        assert StateBit(c, 8 * m + k) == StateBit(d, 8 * m + k);
      }
    }
  }

  /** One input has one digest, so the way it was cut into updates cannot matter. */
  lemma DigestIsUnique(input: seq<byte>, c: seq<byte>, d: seq<byte>)
    requires IsDigest(input, c) && IsDigest(input, d)
    ensures c == d
  {
    StateBitsDetermine(c, d);
  }

  // ---------------------------------------------------------------- one byte

  /** From position `at`, exactly one bit distance below the width lands on `j`. */
  lemma LandsOn(at: nat, k: nat, j: nat)
    requires k < WIDTH_BITS && j < WIDTH_BITS
    ensures (at + k) % WIDTH_BITS == j <==> k == (j + WIDTH_BITS - at % WIDTH_BITS) % WIDTH_BITS
  {
    var q, r := at / WIDTH_BITS, at % WIDTH_BITS;
    assert at + k == WIDTH_BITS * q + (r + k);
    if r + k < WIDTH_BITS {
      assert (at + k) % WIDTH_BITS == r + k;
    } else {
      assert at + k == WIDTH_BITS * (q + 1) + (r + k - WIDTH_BITS);
      assert (at + k) % WIDTH_BITS == r + k - WIDTH_BITS;
    }
  }

  /** Where byte `i` leaves its bits: the recurrence picks the one `k` that lands on `j`. */
  lemma {:induction false} ByteParityClosed(b: byte, i: nat, j: nat, n: nat)
    requires n <= 8 && j < WIDTH_BITS
    ensures
      var k := (j + WIDTH_BITS - BIT_SHIFT * i % WIDTH_BITS) % WIDTH_BITS;
      ByteParity(b, i, j, n) == (k < n && b[k])
  {
    if n > 0 {
      ByteParityClosed(b, i, j, n - 1);
      LandsOn(BIT_SHIFT * i, n - 1, j);
    }
  }

  /** The in-place step: spread `b` over two neighbouring state bytes. */
  function Absorb(d: seq<byte>, b: byte, shift: nat): (r: seq<byte>)
    requires |d| == 20 && shift < WIDTH_BITS
    ensures |r| == 20
  {
    var at, s := shift / 8, shift % 8;
    var d1 := d[at := Xor(d[at], Shl(b, s))];
    if s > 0 then
      var next := (at + 1) % 20;
      d1[next := Xor(d1[next], Shr(b, 8 - s))]
    else d1
  }

  /** The distance from bit `shift` to bit `j`, around the state, in terms of bytes and bits. */
  lemma Distance(shift: nat, j: nat)
    requires shift < WIDTH_BITS && j < WIDTH_BITS
    ensures
      var k := (j + WIDTH_BITS - shift) % WIDTH_BITS;
      var at, s, m, t := shift / 8, shift % 8, j / 8, j % 8;
      && (m == at ==> if s <= t then k == t - s else k >= 8)
      && (m == (at + 1) % 20 ==> k == 8 + t - s)
      && (m != at && m != (at + 1) % 20 ==> k >= 8)
  {
    Around(shift, j);
    BytesApart(shift / 8, shift % 8, j / 8, j % 8);
  }

  lemma Around(shift: nat, j: nat)
    requires shift < WIDTH_BITS && j < WIDTH_BITS
    ensures (j + WIDTH_BITS - shift) % WIDTH_BITS == if j >= shift then j - shift else j + WIDTH_BITS - shift
  {
  }

  /** Distances around the state, byte by byte. */
  lemma BytesApart(at: nat, s: nat, m: nat, t: nat)
    requires at < 20 && m < 20 && s < 8 && t < 8
    ensures
      var shift, j := 8 * at + s, 8 * m + t;
      var k := if j >= shift then j - shift else j + 160 - shift;
      && (m == at ==> if s <= t then k == t - s else k >= 8)
      && (m == (at + 1) % 20 ==> k == 8 + t - s)
      && (m != at && m != (at + 1) % 20 ==> k >= 8)
  {
    if at < 19 {
      assert (at + 1) % 20 == at + 1;
    }
  }

  lemma AbsorbFlips(d: seq<byte>, b: byte, shift: nat, j: nat)
    requires |d| == 20 && shift < WIDTH_BITS && j < WIDTH_BITS
    ensures
      var k := (j + WIDTH_BITS - shift) % WIDTH_BITS;
      StateBit(Absorb(d, b, shift), j) == (StateBit(d, j) != (k < 8 && b[k]))
  {
    var at, s, m, t := shift / 8, shift % 8, j / 8, j % 8;
    Distance(shift, j);
  }

  lemma {:induction false} ParityOfLast(input: seq<byte>, b: byte, j: nat)
    requires j < WIDTH_BITS
    ensures Parity(input + [b], j) == (Parity(input, j) != ByteParity(b, |input|, j, 8))
  {
    assert (input + [b])[..|input|] == input;
  }

  lemma ShiftAdvances(n: nat)
    ensures (BIT_SHIFT * n % WIDTH_BITS + BIT_SHIFT) % WIDTH_BITS == BIT_SHIFT * (n + 1) % WIDTH_BITS
  {
    var at := BIT_SHIFT * n;
    assert BIT_SHIFT * (n + 1) == at + BIT_SHIFT;
    var k := (at % WIDTH_BITS + BIT_SHIFT) % WIDTH_BITS;
    LandsOn(at, BIT_SHIFT, k);
    LandsOn(at % WIDTH_BITS, BIT_SHIFT, k);
  }

  lemma {:induction false} AbsorbExtendsBit(input: seq<byte>, d: seq<byte>, b: byte, shift: nat, j: nat)
    requires |d| == 20 && j < WIDTH_BITS && StateBit(d, j) == Parity(input, j)
    requires shift == BIT_SHIFT * |input| % WIDTH_BITS
    ensures StateBit(Absorb(d, b, shift), j) == Parity(input + [b], j)
  {
    hide Absorb, ByteParity, Parity, StateBit;
    AbsorbFlips(d, b, shift, j);
    ByteParityClosed(b, |input|, j, 8);
    ParityOfLast(input, b, j);
  }

  lemma AbsorbExtends(input: seq<byte>, d: seq<byte>, b: byte, shift: nat)
    requires IsState(input, d) && shift == BIT_SHIFT * |input| % WIDTH_BITS
    ensures IsState(input + [b], Absorb(d, b, shift))
    ensures (shift + BIT_SHIFT) % WIDTH_BITS == BIT_SHIFT * |input + [b]| % WIDTH_BITS
  {
    hide Absorb, Parity, StateBit;
    forall j: nat | j < WIDTH_BITS
      ensures StateBit(Absorb(d, b, shift), j) == Parity(input + [b], j)
    {
      AbsorbExtendsBit(input, d, b, shift, j);
    }
    ShiftAdvances(|input|);
  }

  /** Counting modulo the word size, it does not matter when one wraps around. */
  lemma WrapTwice(m: nat, n: nat)
    ensures (m % U64_LIMIT + n) % U64_LIMIT == (m + n) % U64_LIMIT
  {
    var q, r := m / U64_LIMIT, m % U64_LIMIT;
    var x, y := (r + n) / U64_LIMIT, (r + n) % U64_LIMIT;
    assert m + n == U64_LIMIT * (q + x) + y;
  }

  // ---------------------------------------------------------------- the hasher

  class QuickXorHasher {
    const data: array<byte>
    var lengthSoFar: nat
    var shift: nat
    ghost var fed: seq<byte>  // everything fed so far

    ghost predicate Valid()
      reads this, data
    {
      && data.Length == 20
      && shift == BIT_SHIFT * |fed| % WIDTH_BITS
      && lengthSoFar == |fed| % U64_LIMIT
      && IsState(fed, data[..])
    }

    constructor ()
      ensures Valid() && fresh(data) && fed == []
    {
      data := new byte[20](_ => ZERO);
      lengthSoFar, shift, fed := 0, 0, [];
      new;
      forall j | 0 <= j < WIDTH_BITS ensures !StateBit(data[..], j) {
        assert data[..][j / 8] == ZERO;
      }
    }

    /** Spreads one byte over the state, in place. */
    method AbsorbByte(b: byte)
      requires data.Length == 20 && shift < WIDTH_BITS
      modifies data
      ensures data[..] == Absorb(old(data[..]), b, shift)
    {
      var byteIndex := shift / 8;
      var bitInByte := shift % 8;
      data[byteIndex] := Xor(data[byteIndex], Shl(b, bitInByte));
      if bitInByte > 0 {
        var nextByte := (byteIndex + 1) % 20;
        data[nextByte] := Xor(data[nextByte], Shr(b, 8 - bitInByte));
      }
    }

    /** Feeds bytes into the hasher. */
    method Update(input: seq<byte>)
      requires Valid()
      modifies this, data
      ensures Valid() && fed == old(fed) + input
    {
      hide IsState, Absorb;
      ghost var fed0 := fed;
      var i := 0;
      while i < |input|
        invariant 0 <= i <= |input| && fed == fed0 + input[..i] && data.Length == 20
        invariant shift == BIT_SHIFT * |fed| % WIDTH_BITS && lengthSoFar == |fed0| % U64_LIMIT
        invariant IsState(fed, data[..])
      {
        AbsorbExtends(fed, data[..], input[i], shift);
        AbsorbByte(input[i]);
        shift := (shift + BIT_SHIFT) % WIDTH_BITS;
        fed := fed + [input[i]];
        i := i + 1;
      }
      lengthSoFar := (lengthSoFar + |input|) % U64_LIMIT;
      WrapTwice(|fed0|, |input|);
    }

    /** Adds the length to the state and hands out the digest; the hasher is used up. */
    method Finalize() returns (digest: seq<byte>)
      requires Valid()
      modifies data
      ensures IsDigest(fed, digest)
    {
      var i := 0;
      while i < 8
        invariant 0 <= i <= 8
        invariant forall m :: 0 <= m < 20 ==> data[m] == Xor(old(data[m]), Addend(lengthSoFar, m, i))
      {
        data[12 + i] := Xor(data[12 + i], LengthByte(lengthSoFar, i));
        i := i + 1;
      }
      digest := data[..];
      LengthGivesDigest(fed, old(data[..]), digest);
    }
  }
}
