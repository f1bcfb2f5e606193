/**
 * Java's signed 8-bit `byte` and the bit arithmetic the driver performs on it:
 * the narrowing cast `(byte) x`, the unsigned reading of a byte on the wire,
 * the arithmetic right shift `b >>= 1` and bit `i` of a value.
 */
module JavaBytes {

  /** A Java `byte`: two's complement, -128..127. */
  newtype int8 = x: int | -128 <= x < 128

  /** Java's narrowing conversion `(byte) x`: keeps the low eight bits and reads them as two's complement. */
  function ToByte(x: int): (b: int8)
    ensures (b as int - x) % 256 == 0
    ensures -128 <= x < 128 ==> b as int == x
  {
    ((x + 128) % 256 - 128) as int8
  }

  /** The eight bits of `b` read as an unsigned number, as they appear on the wire. */
  function Unsigned(b: int8): (u: int)
    ensures 0 <= u < 256
    ensures (u - b as int) % 256 == 0
    ensures 0 <= b ==> u == b as int
  {
    (b as int) % 256
  }

  function Pow2(n: nat): (p: nat)
    ensures p >= 1
  {
    if n == 0 then 1 else 2 * Pow2(n - 1)
  }

  /**
   * `x >> n` in Java: an arithmetic shift, i.e. `n` halvings rounded towards
   * minus infinity (Dafny's `/` by a positive divisor rounds the same way).
   */
  function Shr(x: int, n: nat): int
    decreases n
  {
    if n == 0 then x else Shr(x / 2, n - 1)
  }

  /** Bit `i` of `x` in two's complement: the low bit after `i` right shifts, as `(x >> i) & 1`. */
  function Bit(x: int, i: nat): (r: int)
    ensures r == 0 || r == 1
  {
    Shr(x, i) % 2
  }

  /** Dropping the low bit and taking the remainder commute: `x mod 2m` is rebuilt from `(x / 2) mod m` and the low bit. */
  lemma DivModStep(x: int, m: int)
    requires m > 0
    ensures x % (2 * m) == 2 * ((x / 2) % m) + x % 2
  {
    var q, r := x / 2, x % 2;
    var k, s := q / m, q % m;
    assert x == 2 * m * k + (2 * s + r) by {
      assert x == 2 * q + r;
      assert q == m * k + s;
    }
    ModUnique(x, 2 * m, k, 2 * s + r);
  }

  /** Euclidean division has exactly one quotient/remainder pair. */
  lemma ModUnique(x: int, d: int, k: int, r: int)
    requires d > 0 && 0 <= r < d && x == d * k + r
    ensures x % d == r && x / d == k
  {
    var k', r' := x / d, x % d;
    assert d * (k - k') == r' - r;
    MulGrows(d, k - k');
  }

  /** A nonzero multiple of a positive `d` is at least `d` away from zero. */
  lemma MulGrows(d: int, t: int)
    requires d > 0
    ensures t >= 1 ==> d * t >= d
    ensures t <= -1 ==> d * t <= -d
  {
  }

  /** Bit `i` of `x` only depends on the low `k` bits of `x`, for `i < k`. */
  lemma {:induction false} BitOfLowBits(x: int, i: nat, k: nat)
    requires i < k
    ensures Bit(x, i) == Bit(x % Pow2(k), i)
    decreases i
  {
    var m := Pow2(k - 1);
    assert Pow2(k) == 2 * m;
    DivModStep(x, m);
    // the low bit and the halving of `x % 2m` are those of `x`
    ModUnique(x % Pow2(k), 2, (x / 2) % m, x % 2);
    if i > 0 {
      BitOfLowBits(x / 2, i - 1, k - 1);
    }
  }

  /** Bit `i < 8` of a signed byte is bit `i` of its unsigned reading: the sign extension of `>>` never reaches the low eight bits. */
  lemma ByteBit(b: int8, i: nat)
    requires i < 8
    ensures Bit(b as int, i) == Bit(Unsigned(b), i)
  {
    assert Pow2(8) == 256;
    BitOfLowBits(b as int, i, 8);
  }

  /** Adding `2^k` to `x` adds `2^(k-i)` to `x >> i`, for `i <= k`. */
  lemma {:induction false} ShrAddPow(x: int, i: nat, k: nat)
    requires i <= k
    ensures Shr(x + Pow2(k), i) == Shr(x, i) + Pow2(k - i)
    decreases i
  {
    if i > 0 {
      assert (x + Pow2(k)) / 2 == x / 2 + Pow2(k - 1);
      ShrAddPow(x / 2, i - 1, k - 1);
    }
  }

  /** A number below `2^k` is cleared by `k` right shifts. */
  lemma {:induction false} ShrSmall(x: int, k: nat)
    requires 0 <= x < Pow2(k)
    ensures Shr(x, k) == 0
    decreases k
  {
    if k > 0 {
      ShrSmall(x / 2, k - 1);
    }
  }

  /**
   * Adding `2^k` to a value below `2^(k+1)` flips bit `k` and leaves bits
   * `0..k-1` alone; bit `k` ends up set exactly when it was clear.
   */
  lemma AddPowFlipsBit(x: int, k: nat)
    requires 0 <= x < Pow2(k)
    ensures Bit(x + Pow2(k), k) == 1 && Bit(x, k) == 0
    ensures forall j :: 0 <= j < k ==> Bit(x + Pow2(k), j) == Bit(x, j)
  {
    ShrAddPow(x, k, k);
    ShrSmall(x, k);
    forall j | 0 <= j < k
      ensures Bit(x + Pow2(k), j) == Bit(x, j)
    {
      ShrAddPow(x, j, k);
      var a, c := Shr(x, j), Pow2(k - j - 1);
      assert Pow2(k - j) == 2 * c;
      ModUnique(a + 2 * c, 2, a / 2 + c, a % 2);
    }
  }
}
