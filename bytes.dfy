/**
 * Byte-level vocabulary shared by the encoder, the parser and the client:
 * bytes, Go's `int64` with its wrap-around, and the little-endian layout that
 * `binary.Write(buf, binary.LittleEndian, v)` produces for an `int64`.
 */
module Bytes {

  newtype byte = x: int | 0 <= x < 256

  newtype int64 = x: int | -0x8000_0000_0000_0000 <= x < 0x8000_0000_0000_0000

  const TWO_TO_64: int := 0x1_0000_0000_0000_0000

  /** The value Go's int64 arithmetic yields for the mathematical value `x` (two's complement). */
  function WrapInt64(x: int): (r: int64)
    ensures (r as int - x) % TWO_TO_64 == 0
    ensures -0x8000_0000_0000_0000 <= x < 0x8000_0000_0000_0000 ==> r as int == x
  {
    ((x + 0x8000_0000_0000_0000) % TWO_TO_64 - 0x8000_0000_0000_0000) as int64
  }

  function Pow256(n: nat): (p: int)
    ensures p > 0
  {
    if n == 0 then 1 else 256 * Pow256(n - 1)
  }

  /**
   * The `n` low-order bytes of the two's-complement representation of `x`,
   * least significant first. `LittleEndian(x, 8)` is what `binary.Write`
   * puts in the buffer for an `int64`; Dafny's Euclidean `%` and `/` give the
   * right bytes for negative `x` too.
   */
  function LittleEndian(x: int, n: nat): (r: seq<byte>)
    ensures |r| == n
    decreases n
  {
    if n == 0 then [] else [(x % 256) as byte] + LittleEndian(x / 256, n - 1)
  }

  /** The unsigned number a little-endian byte sequence denotes. */
  function LEValue(bs: seq<byte>): (v: int)
    ensures 0 <= v < Pow256(|bs|)
  {
    if bs == [] then 0 else bs[0] as int + 256 * LEValue(bs[1..])
  }

  lemma MulAtLeast(k: int, t: int)
    requires k > 0 && t >= 1
    ensures k * t >= k
  {
    assert k * t == k + k * (t - 1);
  }

  lemma DivModUnique(x: int, k: int, q: int, r: int)
    requires k > 0 && x == k * q + r && 0 <= r < k
    ensures x / k == q && x % k == r
  {
    var q', r' := x / k, x % k;
    assert x == k * q' + r';
    if q > q' {
      MulAtLeast(k, q - q');
    } else if q < q' {
      MulAtLeast(k, q' - q);
    }
  }

  lemma MulMonotone(d: int, a: int, b: int)
    requires d > 0 && a <= b
    ensures d * a <= d * b
  {
    assert d * b - d * a == d * (b - a);
  }

  /** Splitting a modulus `d * m` into a digit of base `d` and the rest. */
  lemma ModSplit(x: int, d: int, m: int)
    requires d > 0 && m > 0
    ensures x % (d * m) == x % d + d * ((x / d) % m)
  {
    var q, r := x / d, x % d;
    var q2, r2 := q / m, q % m;
    assert x == d * q + r;
    assert q == m * q2 + r2;
    assert d * q == d * (m * q2) + d * r2 by {
      assert d * (m * q2 + r2) == d * (m * q2) + d * r2;
    }
    assert d * (m * q2) == (d * m) * q2;
    MulMonotone(d, r2, m - 1);
    assert d * (m - 1) == d * m - d;
    DivModUnique(x, d * m, q2, d * r2 + r);
  }

  /** Keeping `n` little-endian bytes keeps exactly the value modulo 256^n. */
  lemma {:induction false} LittleEndianValue(x: int, n: nat)
    ensures LEValue(LittleEndian(x, n)) == x % Pow256(n)
    decreases n
  {
    if n > 0 {
      var bs := LittleEndian(x, n);
      LittleEndianValue(x / 256, n - 1);
      assert bs[1..] == LittleEndian(x / 256, n - 1);
      ModSplit(x, 256, Pow256(n - 1));
    }
  }

  /** Every byte sequence is the little-endian image of the value it denotes. */
  lemma {:induction false} LittleEndianOfValue(bs: seq<byte>)
    ensures LittleEndian(LEValue(bs), |bs|) == bs
  {
    if bs != [] {
      var v := LEValue(bs);
      var rest := LEValue(bs[1..]);
      DivModUnique(v, 256, rest, bs[0] as int);
      LittleEndianOfValue(bs[1..]);
    }
  }

  /** Truncating a wider little-endian buffer to its first `m` bytes is the `m`-byte encoding. */
  lemma {:induction false} LittleEndianPrefix(x: int, n: nat, m: nat)
    requires m <= n
    ensures LittleEndian(x, n)[..m] == LittleEndian(x, m)
    decreases m
  {
    if m > 0 {
      LittleEndianPrefix(x / 256, n - 1, m - 1);
      assert LittleEndian(x, n)[..m] == [(x % 256) as byte] + LittleEndian(x / 256, n - 1)[..m - 1];
    }
  }

  /** Two values with the same residue modulo 256^n have the same `n` low bytes. */
  lemma LittleEndianCongruent(x: int, y: int, n: nat)
    requires x % Pow256(n) == y % Pow256(n)
    ensures LittleEndian(x, n) == LittleEndian(y, n)
  {
    LittleEndianValue(x, n);
    LittleEndianValue(y, n);
    LittleEndianOfValue(LittleEndian(x, n));
    LittleEndianOfValue(LittleEndian(y, n));
  }

  /** Values that agree modulo 2^64 agree modulo 2^16: the low 2 bytes survive int64 wrap-around. */
  lemma WrapKeepsLow16(x: int, y: int)
    requires (x - y) % TWO_TO_64 == 0
    ensures x % 65536 == y % 65536
  {
    var q := (x - y) / TWO_TO_64;
    assert x - y == TWO_TO_64 * q;
    assert TWO_TO_64 * q == 65536 * (0x1_0000_0000_0000 * q);
    DivModUnique(x, 65536, y / 65536 + 0x1_0000_0000_0000 * q, y % 65536);
  }
}
