/** Fixed-width machine words, written out over the unbounded integers. */
module Words {
  type Byte = x: int | 0 <= x < 0x100
  type U16 = x: int | 0 <= x < 0x1_0000
  type U32 = x: int | 0 <= x < 0x1_0000_0000
  type U64 = x: int | 0 <= x < 0x1_0000_0000_0000_0000
  type S32 = x: int | -0x8000_0000 <= x < 0x8000_0000

  function Min(a: int, b: int): int {
    if a <= b then a else b
  }

  function Zeros(n: nat): (z: seq<Byte>)
    ensures |z| == n && forall i :: 0 <= i < n ==> z[i] == 0
  {
    seq(n, _ => 0)
  }

  function Low32(x: U64): U32 {
    x % 0x1_0000_0000
  }

  function High32(x: U64): U32 {
    x / 0x1_0000_0000
  }

  /** A signed 32-bit immediate widened to 64 bits. */
  function SignExtend(i: S32): U64 {
    if i < 0 then i + 0x1_0000_0000_0000_0000 else i
  }

  /** The same immediate as a 32-bit word. */
  function Word(i: S32): U32 {
    if i < 0 then i + 0x1_0000_0000 else i
  }

  lemma LowOfSignExtend(i: S32)
    ensures Low32(SignExtend(i)) == Word(i)
  {
    var x := SignExtend(i);
    var q := if i < 0 then 0xffff_ffff else 0;
    assert x == 0x1_0000_0000 * q + Word(i);
  }

  /** A 64-bit word read as a two's complement number. */
  function Signed(x: U64): int {
    if x < 0x8000_0000_0000_0000 then x else x - 0x1_0000_0000_0000_0000
  }

  lemma Halves(x: U64)
    ensures x == 0x1_0000_0000 * High32(x) + Low32(x)
  {
  }

  /** Widening keeps the number, and the two readings of a word differ by 2^64 or not at all. */
  lemma SignExtendKeeps(i: S32, x: U64)
    ensures Signed(SignExtend(i)) == i
    ensures -0x8000_0000_0000_0000 <= Signed(x) < 0x8000_0000_0000_0000
    ensures x - Signed(x) in {0, 0x1_0000_0000_0000_0000}
  {
  }

  function Pow2(n: nat): (p: nat)
    ensures p >= 1
  {
    if n == 0 then 1 else 2 * Pow2(n - 1)
  }

  // ---- shifts, one bit at a time ----

  function Shr(x: nat, n: nat): (r: nat)
    ensures r <= x
  {
    if n == 0 then x else Shr(x / 2, n - 1)
  }

  function Shl32(x: U32, n: nat): U32
    decreases n
  {
    if n == 0 then x
    else Shl32(if x < 0x8000_0000 then 2 * x else 2 * x - 0x1_0000_0000, n - 1)
  }

  /** Doubling loses the bit that leaves the word. */
  function Twice64(x: U64): (r: U64)
    ensures r == (2 * x) % 0x1_0000_0000_0000_0000
  {
    if x < 0x8000_0000_0000_0000 then 2 * x else 2 * x - 0x1_0000_0000_0000_0000
  }

  function Shl64(x: U64, n: nat): U64
    decreases n
  {
    if n == 0 then x
    else Shl64(Twice64(x), n - 1)
  }

  /** The n lowest bits of h are zero. */
  predicate LowBitsZero(h: nat, n: nat) {
    n == 0 || (h % 2 == 0 && LowBitsZero(h / 2, n - 1))
  }

  lemma {:induction false} ShrSum(x: nat, m: nat, n: nat)
    ensures Shr(x, m + n) == Shr(Shr(x, m), n)
    decreases m
  {
    if m > 0 {
      ShrSum(x / 2, m - 1, n);
    }
  }

  lemma {:induction false} Shl64Sum(x: U64, m: nat, n: nat)
    ensures Shl64(x, m + n) == Shl64(Shl64(x, m), n)
    decreases m
  {
    if m > 0 {
      Shl64Sum(Twice64(x), m - 1, n);
    }
  }

  /** A right shift divides by a power of two and rounds down. */
  lemma {:induction false} ShrDivides(x: nat, n: nat)
    ensures Shr(x, n) * Pow2(n) <= x < (Shr(x, n) + 1) * Pow2(n)
    decreases n
  {
    if n > 0 {
      ShrDivides(x / 2, n - 1);
      Doubled(Shr(x / 2, n - 1), Pow2(n - 1));
      Doubled(Shr(x / 2, n - 1) + 1, Pow2(n - 1));
    }
  }

  lemma Doubled(q: int, p: int)
    ensures q * (2 * p) == 2 * (q * p)
  {
  }

  /** A left shift multiplies by a power of two and drops multiples of 2^64. */
  lemma {:induction false} Shl64Multiplies(x: U64, n: nat) returns (k: nat)
    ensures x * Pow2(n) == Shl64(x, n) + k * 0x1_0000_0000_0000_0000
    decreases n
  {
    k := 0;
    if n > 0 {
      var lost := if x < 0x8000_0000_0000_0000 then 0 else 1;
      var p := Pow2(n - 1);
      k := Shl64Multiplies(Twice64(x), n - 1);
      Spread(x, Twice64(x), p, lost, 0x1_0000_0000_0000_0000);
      k := k + lost * p;
    }
  }

  lemma {:induction false} Shl32Multiplies(x: U32, n: nat) returns (k: nat)
    ensures x * Pow2(n) == Shl32(x, n) + k * 0x1_0000_0000
    decreases n
  {
    k := 0;
    if n > 0 {
      var lost := if x < 0x8000_0000 then 0 else 1;
      var p, twice := Pow2(n - 1), if x < 0x8000_0000 then 2 * x else 2 * x - 0x1_0000_0000;
      k := Shl32Multiplies(twice, n - 1);
      Spread(x, twice, p, lost, 0x1_0000_0000);
      k := k + lost * p;
    }
  }

  lemma Spread(x: int, twice: int, p: int, lost: int, size: int)
    requires 2 * x == twice + lost * size
    ensures x * (2 * p) == twice * p + lost * p * size
  {
    assert x * (2 * p) == (2 * x) * p == (twice + lost * size) * p;
    assert (twice + lost * size) * p == twice * p + (lost * size) * p;
    assert (lost * size) * p == lost * p * size;
  }

  /** The lowest n bits are zero exactly when shifting them out loses nothing. */
  lemma {:induction false} LowBitsZeroExactly(h: nat, n: nat)
    ensures LowBitsZero(h, n) <==> Shr(h, n) * Pow2(n) == h
    decreases n
  {
    if n > 0 {
      LowBitsZeroExactly(h / 2, n - 1);
      Doubled(Shr(h / 2, n - 1), Pow2(n - 1));
    }
  }

  /** Numbers 2^k apart stay 2^(k-n) apart. */
  lemma {:induction false} ShrKeepsDistance(a: nat, b: nat, k: nat, n: nat)
    requires n <= k && a + Pow2(k) <= b
    ensures Shr(a, n) + Pow2(k - n) <= Shr(b, n)
    decreases n
  {
    if n > 0 {
      ShrKeepsDistance(a / 2, b / 2, k - 1, n - 1);
    }
  }

  lemma {:induction false} ShrMonotone(a: nat, b: nat, n: nat)
    requires a <= b
    ensures Shr(a, n) <= Shr(b, n)
    decreases n
  {
    if n > 0 {
      ShrMonotone(a / 2, b / 2, n - 1);
    }
  }

  /** Halving a word moves the lowest bit of the high half into the low half. */
  lemma HalfOfLow(x: U64)
    ensures High32(x / 2) == High32(x) / 2
    ensures Low32(x / 2) == Low32(x) / 2 + 0x8000_0000 * (High32(x) % 2)
  {
    var h: int, l: int := High32(x), Low32(x);
    assert x == 0x1_0000_0000 * h + l;
    assert h == 2 * (h / 2) + h % 2;
    assert l == 2 * (l / 2) + l % 2;
    assert x / 2 == 0x1_0000_0000 * (h / 2) + (0x8000_0000 * (h % 2) + l / 2);
  }

  lemma {:induction false} ShiftNeverGains(x: U64, s: nat)
    requires s <= 32
    ensures Shr(Low32(x), s) <= Low32(Shr(x, s))
    decreases s
  {
    if s > 0 {
      HalfOfLow(x);
      ShrMonotone(Low32(x) / 2, Low32(x / 2), s - 1);
      ShiftNeverGains(x / 2, s - 1);
    }
  }

  lemma HalfWordPow2()
    ensures Pow2(31) == 0x8000_0000
  {
    assert Pow2(8) == 0x100;
    assert Pow2(16) == 0x1_0000;
    assert Pow2(24) == 0x100_0000;
  }

  /**
   Truncating before a right shift agrees with truncating after it exactly when the s
   lowest bits of the high half are zero.
   */
  lemma {:induction false} TruncateAndShift(x: U64, s: nat)
    requires s <= 32
    ensures Shr(Low32(x), s) == Low32(Shr(x, s)) <==> LowBitsZero(High32(x), s)
    decreases s
  {
    if s > 0 {
      HalfOfLow(x);
      if High32(x) % 2 == 0 {
        TruncateAndShift(x / 2, s - 1);
      } else {
        HalfWordPow2();
        ShrKeepsDistance(Low32(x) / 2, Low32(x / 2), 31, s - 1);
        ShiftNeverGains(x / 2, s - 1);
      }
    }
  }

  // ---- little-endian byte order ----

  function Le2(n: U16): (b: seq<Byte>)
    ensures |b| == 2
  {
    [n % 0x100, n / 0x100]
  }

  function FromLe2(b: seq<Byte>): U16
    requires |b| == 2
  {
    var lo: int, hi: int := b[0], b[1];
    lo + 0x100 * hi
  }

  function Le4(n: U32): (b: seq<Byte>)
    ensures |b| == 4
  {
    Le2(n % 0x1_0000) + Le2(n / 0x1_0000)
  }

  function FromLe4(b: seq<Byte>): U32
    requires |b| == 4
  {
    var lo: int, hi: int := FromLe2(b[..2]), FromLe2(b[2..]);
    lo + 0x1_0000 * hi
  }

  function Le8(n: U64): (b: seq<Byte>)
    ensures |b| == 8
  {
    Le4(Low32(n)) + Le4(High32(n))
  }

  /** Byte i of a word counts 256^i. */
  lemma LittleEndian(a: Byte, b: Byte, c: Byte, d: Byte)
    ensures FromLe2([a, b]) == a + 0x100 * b
    ensures FromLe4([a, b, c, d]) == a + 0x100 * b + 0x1_0000 * c + 0x100_0000 * d
  {
    assert [a, b, c, d][..2] == [a, b] && [a, b, c, d][2..] == [c, d];
  }

  lemma Le8RoundTrip(n: U64)
    ensures FromLe4(Le8(n)[..4]) == Low32(n) && FromLe4(Le8(n)[4..]) == High32(n)
  {
    Le4RoundTrip(Low32(n));
    Le4RoundTrip(High32(n));
    assert Le8(n)[..4] == Le4(Low32(n)) && Le8(n)[4..] == Le4(High32(n));
  }

  lemma Le4RoundTrip(n: U32)
    ensures FromLe4(Le4(n)) == n
  {
    var lo, hi := Le2(n % 0x1_0000), Le2(n / 0x1_0000);
    assert Le4(n)[..2] == lo && Le4(n)[2..] == hi;
  }
}
