/**
 * Bytes and C# `int` arithmetic: the 32-bit two's-complement sequence counter of the
 * KLAP cipher, its unchecked increment, and its big-endian byte form.
 */
module Binary {

  type byte = b: int | 0 <= b < 256

  /** A C# `int`. */
  type int32 = x: int | -0x8000_0000 <= x < 0x8000_0000

  const TWO32: int := 0x1_0000_0000

  /** The C# value of an integer cast to `int` in an unchecked context. */
  function Wrap32(x: int): (r: int32)
    ensures (x - r) % TWO32 == 0
    ensures -0x8000_0000 <= x < 0x8000_0000 ==> r == x
  {
    var m := x % TWO32;
    if m >= 0x8000_0000 then m - TWO32 else m
  }

  /** `_sequence++` on a C# `int` in the default unchecked context. */
  function Increment(x: int32): (r: int32)
    ensures r == Wrap32(x + 1)
    ensures x < 0x7fff_ffff ==> r == x + 1
  {
    if x == 0x7fff_ffff then -0x8000_0000 else x + 1
  }

  /** The counter after `n` increments. */
  function IncrementN(x: int32, n: nat): int32
    decreases n
  {
    if n == 0 then x else IncrementN(Increment(x), n - 1)
  }

  lemma Wrap32Congruent(x: int, y: int)
    requires (x - y) % TWO32 == 0
    ensures Wrap32(x) == Wrap32(y)
  {
    var k := (x - y) / TWO32;
    assert x == y + k * TWO32;
    assert x % TWO32 == y % TWO32 by {
      ModShift(y, k);
    }
  }

  lemma ModShift(y: int, k: int)
    ensures (y + k * TWO32) % TWO32 == y % TWO32
  {
  }

  /** `n` increments of the counter land on `x + n` taken modulo 2^32: consecutive values, with wrap-around. */
  lemma {:induction false} IncrementNWraps(x: int32, n: nat)
    ensures IncrementN(x, n) == Wrap32(x + n)
    decreases n
  {
    if n == 0 {
    } else {
      var y := Increment(x);
      IncrementNWraps(y, n - 1);
      assert ((y + (n - 1)) - (x + n)) % TWO32 == 0 by {
        assert (x + 1 - y) % TWO32 == 0;
        assert (y + (n - 1)) - (x + n) == -(x + 1 - y);
      }
      Wrap32Congruent(y + (n - 1), x + n);
    }
  }

  /** Without overflow, `n` increments add exactly `n`: the counter has no gaps. */
  lemma IncrementNNoOverflow(x: int32, n: nat)
    requires x + n < 0x8000_0000
    ensures IncrementN(x, n) == x + n
  {
    IncrementNWraps(x, n);
  }

  /** `BitConverter.GetBytes(x)` reversed to network order on a little-endian host. */
  function ToBigEndian(x: int32): (b: seq<byte>)
    ensures |b| == 4
  {
    var u := if x < 0 then x + TWO32 else x;
    [u / 0x100_0000, (u / 0x1_0000) % 256, (u / 0x100) % 256, u % 256]
  }

  /** `BitConverter.ToInt32` of four bytes read in network order. */
  function FromBigEndian(b: seq<byte>): int32
    requires |b| == 4
  {
    var u: int := b[0] as int * 0x100_0000 + b[1] as int * 0x1_0000 + b[2] as int * 0x100 + b[3] as int;
    if u >= 0x8000_0000 then u - TWO32 else u
  }

  lemma Digits(u: nat)
    requires u < TWO32
    ensures u / 0x100_0000 < 256
    ensures u == (u / 0x100_0000) * 0x100_0000 + ((u / 0x1_0000) % 256) * 0x1_0000
                 + ((u / 0x100) % 256) * 0x100 + u % 256
  {
    var w, r := u / 0x1_0000, u % 0x1_0000;
    var a, b := w / 256, w % 256;
    DivideOut(a, b * 0x1_0000 + r, 0x100_0000);
    var c, d := r / 256, r % 256;
    DivideOut(w * 256 + c, d, 256);
    DivideOut(w, c, 256);
  }

  lemma {:induction false} FromToBigEndian(x: int32)
    ensures FromBigEndian(ToBigEndian(x)) == x
  {
    var u := if x < 0 then x + TWO32 else x;
    Digits(u);
  }

  /** Euclidean division undoes a multiplication plus a smaller remainder. */
  lemma DivideOut(q: int, r: int, m: int)
    requires m > 0 && 0 <= r < m
    ensures (q * m + r) / m == q && (q * m + r) % m == r
  {
    var n := q * m + r;
    var d, e := n / m, n % m;
    assert (q - d) * m == e - r;
    if q - d >= 1 {
      MultiplyAtLeast(q - d, m);
    } else if d - q >= 1 {
      MultiplyAtLeast(d - q, m);
    }
  }

  lemma MultiplyAtLeast(k: int, m: int)
    requires k >= 1 && m > 0
    ensures k * m >= m
  {
    assert k * m == (k - 1) * m + m;
  }

  lemma {:induction false} ToFromBigEndian(b: seq<byte>)
    requires |b| == 4
    ensures ToBigEndian(FromBigEndian(b)) == b
  {
    var b0, b1, b2, b3: int := b[0], b[1], b[2], b[3];
    var u: int := b0 * 0x100_0000 + b1 * 0x1_0000 + b2 * 0x100 + b3;
    DivideOut(b0, b1 * 0x1_0000 + b2 * 0x100 + b3, 0x100_0000);
    DivideOut(b0 * 0x100 + b1, b2 * 0x100 + b3, 0x1_0000);
    DivideOut(b0, b1, 0x100);
    DivideOut(b0 * 0x1_0000 + b1 * 0x100 + b2, b3, 0x100);
    DivideOut(b0 * 0x100 + b1, b2, 0x100);
    assert FromBigEndian(b) == (if u >= 0x8000_0000 then u - TWO32 else u);
  }

  /** Two counters with the same big-endian bytes are the same counter. */
  lemma ToBigEndianInjective(x: int32, y: int32)
    requires ToBigEndian(x) == ToBigEndian(y)
    ensures x == y
  {
    FromToBigEndian(x);
    FromToBigEndian(y);
  }
}
