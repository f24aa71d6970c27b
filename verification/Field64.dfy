/** Unsigned 64-bit machine words: the wrap-around primitives of math/bits and bitwise tests. */
module Word64 {
  import opened Prime

  const B64: int := 0x1_0000_0000_0000_0000

  type u64 = x: int | 0 <= x < B64

  /** x + y + carry mod 2^64, and the carry out. */
  function Add64(x: u64, y: u64, carry: u64): (u64, u64)
    requires carry <= 1
  {
    ((x + y + carry) % B64, (x + y + carry) / B64)
  }

  /** x - y - borrow mod 2^64, and the borrow out. */
  function Sub64(x: u64, y: u64, borrow: u64): (u64, u64)
    requires borrow <= 1
  {
    ((x - y - borrow) % B64, if x < y + borrow then 1 else 0)
  }

  /** The 128-bit product as (high word, low word). */
  function Mul64(x: u64, y: u64): (r: (u64, u64))
    ensures r.0 * B64 + r.1 == x * y
  {
    var z := x * y;
    MulBound(x, y);
    (z / B64, z % B64)
  }

  lemma MulBound(x: u64, y: u64)
    ensures 0 <= x * y <= (B64 - 1) * (B64 - 1)
  {
    MulMono(0, x, y);
    MulMono(x, B64 - 1, y);
    MulMono(y, B64 - 1, B64 - 1);
  }

  lemma MulMono(a: int, b: int, c: nat)
    requires a <= b
    ensures a * c <= b * c
  {
  }

  /** Bitwise conjunction of two unsigned integers. */
  function And(x: nat, y: nat): nat {
    if x == 0 || y == 0 then 0 else (x % 2) * (y % 2) + 2 * And(x / 2, y / 2)
  }

  predicate IsPow2(n: nat) {
    n == 1 || (n > 0 && n % 2 == 0 && IsPow2(n / 2))
  }

  lemma {:induction false} AndSelf(x: nat)
    ensures And(x, x) == x
  {
    if x > 0 {
      AndSelf(x / 2);
      BitSquare(x % 2);
    }
  }

  lemma BitSquare(b: nat)
    requires b < 2
    ensures b * b == b
  {}

  /** The test n & (n-1) == 0 recognises the powers of two. */
  lemma {:induction false} AndPred(n: nat)
    requires n > 0
    ensures And(n, n - 1) == 0 <==> IsPow2(n)
  {
    if n % 2 == 1 {
      assert (n - 1) / 2 == n / 2;
      AndSelf(n / 2);
    } else {
      assert (n - 1) / 2 == n / 2 - 1;
      AndPred(n / 2);
    }
  }

  /** The test e & (1 << i) != 0 reads bit i of e. */
  lemma {:induction false} AndBit(e: nat, i: nat)
    ensures And(e, Pow2(i)) != 0 <==> (e / Pow2(i)) % 2 == 1
  {
    if e == 0 {
      ZeroDiv(Pow2(i));
    } else if i > 0 {
      AndBit(e / 2, i - 1);
      DivDiv(e, Pow2(i - 1));
      AndDouble(e, Pow2(i - 1));
    } else {
      AndDouble(e, 0);
      assert And(e, 1) == e % 2 + 2 * And(e / 2, 0);
    }
  }

  lemma AndDouble(e: nat, m: nat)
    ensures And(e, 2 * m) == 2 * And(e / 2, m)
  {}

  lemma ZeroDiv(m: int)
    requires m > 0
    ensures 0 / m == 0
  {}

  lemma DivDiv(e: nat, m: nat)
    requires m > 0
    ensures e / 2 / m == e / (2 * m)
  {
    var q := e / 2 / m;
    var r := e / 2 % m;
    assert e / 2 == q * m + r;
    assert e == q * (2 * m) + (2 * r + e % 2);
    DivUnique(e, q, 2 * r + e % 2, 2 * m);
  }

  lemma DivUnique(x: nat, q: int, r: int, m: int)
    requires m > 0 && 0 <= r < m && x == q * m + r
    ensures x / m == q
  {
    SmallMultiple(x / m - q, m);
  }

  lemma SmallMultiple(d: int, m: int)
    requires -m < d * m < m
    ensures d == 0
  {}
}

/** Field64: the field operations as the implementation computes them on machine words. */
module Field64 {
  import opened Prime
  import opened Word64
  import Fp

  type Elt = Fp.Elt
  const MODULUS: u64 := 0xFFFF_FFFF_0000_0001
  const EPSILON: u64 := 0xFFFF_FFFF
  const GEN_ORDER: u64 := 0x1_0000_0000

  datatype Result<T> = Ok(value: T) | Err(reason: string)

  function New(x: u64): (r: Elt)
    ensures r == x % Fp.P
    ensures x < Fp.P ==> r == x
  {
    if x >= MODULUS then x - MODULUS else x
  }

  function Add(a: Elt, b: Elt): (r: Elt)
    ensures r == Fp.Add(a, b)
  {
    var (s0, carry) := Add64(a, b, 0);
    assert carry <= 1 && s0 == a + b - carry * B64;
    var (s1, carry2) := Add64(s0, (carry * EPSILON) % B64, 0);
    assert carry2 == 0 && s1 == s0 + carry * EPSILON;
    var s2 := (s1 + carry2 * EPSILON) % B64;
    if s2 >= MODULUS then s2 - MODULUS else s2
  }

  function Sub(a: Elt, b: Elt): (r: Elt)
    ensures r == Fp.Sub(a, b)
  {
    var (d, borrow) := Sub64(a, b, 0);
    (d - borrow * EPSILON) % B64
  }

  function Neg(a: Elt): (r: Elt)
    ensures r == Fp.Neg(a)
  {
    Sub(0, a)
  }

  lemma ModUnique(x: int, k: int, r: Elt)
    requires x == r + k * Fp.P
    ensures x % Fp.P == r
  {}

  /** The 2^96 = -1 contribution: lo - x, corrected by p when it borrows. */
  function SubFold(lo: u64, x: u64): (r: (u64, u64))
    requires x < 0x1_0000_0000
    ensures r.1 <= 1 && r.0 == lo - x + r.1 * Fp.P
  {
    var (d, borrow) := Sub64(lo, x, 0);
    ((d - borrow * EPSILON) % B64, borrow)
  }

  /** a + b, corrected by p when it carries; b is small enough for one correction. */
  function AddFold(a: u64, b: u64): (r: (u64, u64))
    requires b <= 0xFFFF_FFFF * 0xFFFF_FFFF
    ensures r.1 <= 1 && r.0 == a + b - r.1 * Fp.P
  {
    var (s, carry) := Add64(a, b, 0);
    assert carry <= 1 && s == a + b - carry * B64;
    ((s + carry * EPSILON) % B64, carry)
  }

  /** Reduces a 128-bit value by 2^64 = 2^32 - 1 and 2^96 = -1 (mod p), tracking every wrap. */
  function Reduce(hi: u64, lo: u64): (r: Elt)
    ensures r == (hi * B64 + lo) % Fp.P
  {
    hide SubFold, AddFold;
    var hiHi, hiLo := hi / 0x1_0000_0000, hi % 0x1_0000_0000;
    var (t0, borrow) := SubFold(lo, hiHi);
    var t1 := (hiLo * EPSILON) % B64;
    assert t1 == hiLo * 0xFFFF_FFFF;
    var (res, carry) := AddFold(t0, t1);
    var r := if res >= MODULUS then res - MODULUS else res;
    ModUnique(hi * B64 + lo, hiHi * 0x1_0000_0001 + hiLo - borrow + carry + (if res >= MODULUS then 1 else 0), r);
    r
  }

  /** Multiplication for every pair of words, canonical or not. */
  function Mul(a: u64, b: u64): (r: Elt)
    ensures r == (a * b) % Fp.P
    ensures a < Fp.P && b < Fp.P ==> r == Fp.Mul(a, b)
  {
    var (hi, lo) := Mul64(a, b);
    Reduce(hi, lo)
  }

  /** Square-and-multiply over all 64 bits of the exponent. */
  method Pow(a: Elt, e: u64) returns (r: Elt)
    ensures r == Fp.Pow(a, e)
  {
    hide Fp.Mul, Fp.Pow, And, Pow2, Fp.Add;
    r := 1;
    var base := a;
    ghost var rest: nat := e;
    PowStart(a, e);
    for i := 0 to 64
      invariant rest == e / Pow2(i)
      invariant Fp.Mul(r, Fp.Pow(base, rest)) == Fp.Pow(a, e)
    {
      PowBit(base, rest, r);
      AndBit(e, i);
      if And(e, Pow2(i)) != 0 {
        r := Mul(r, base);
      }
      base := Mul(base, base);
      ShiftOnce(e, i);
      rest := rest / 2;
    }
    P64();
    PowEnd(e, Pow2(64), r, base);
  }

  lemma PowStart(a: Elt, e: nat)
    ensures e == e / Pow2(0) && Fp.Mul(1, Fp.Pow(a, e)) == Fp.Pow(a, e)
  {
    Fp.MulOne(Fp.Pow(a, e));
  }

  lemma PowBit(base: Elt, rest: nat, r: Elt)
    ensures rest % 2 == 1 ==>
      Fp.Mul(Fp.Mul(r, base), Fp.Pow(Fp.Mul(base, base), rest / 2)) == Fp.Mul(r, Fp.Pow(base, rest))
    ensures rest % 2 == 0 ==>
      Fp.Mul(r, Fp.Pow(Fp.Mul(base, base), rest / 2)) == Fp.Mul(r, Fp.Pow(base, rest))
  {
    hide Fp.Mul, Fp.Pow;
    var h := rest / 2;
    Fp.PowMulBase(base, base, h);
    Fp.PowAdd(base, h, h);
    if rest % 2 == 1 {
      assert rest == h + h + 1;
      Fp.PowSucc(base, h + h);
      Fp.MulAssoc(r, base, Fp.Pow(base, h + h));
    } else {
      assert rest == h + h;
    }
  }

  lemma ShiftOnce(e: nat, i: nat)
    ensures e / Pow2(i) / 2 == e / Pow2(i + 1)
  {
    HalfQuotient(e, Pow2(i));
  }

  lemma HalfQuotient(e: nat, m: nat)
    requires m > 0
    ensures e / m / 2 == e / (2 * m)
  {
    var q, r := e / m, e % m;
    assert e == q * m + r;
    HalfProduct(q, m);
    DivUnique(e, q / 2, q % 2 * m + r, 2 * m);
  }

  lemma HalfProduct(q: nat, m: nat)
    ensures q * m == q / 2 * (2 * m) + q % 2 * m
  {
    assert q == q / 2 * 2 + q % 2;
  }

  lemma PowEnd(e: u64, m: nat, r: Elt, base: Elt)
    requires m == B64
    ensures Fp.Mul(r, Fp.Pow(base, e / m)) == r
  {
    assert e / m == 0;
    Fp.PowSucc(base, 0);
    Fp.MulOne(r);
  }

  lemma P64()
    ensures Pow2(64) == B64
  {
    hide Pow2;
    P32();
    Pow2Add(32, 32);
  }

  /** a^(p-2): the inverse of every nonzero element, and zero for zero. */
  method Inv(a: Elt) returns (r: Elt)
    ensures r == Fp.Inv(a)
    ensures a != 0 ==> Fp.Mul(a, r) == 1
    ensures a == 0 ==> r == 0
  {
    hide Fp.Mul, Fp.Pow;
    r := Pow(a, MODULUS - 2);
    FermatInverse(a);
  }

  method Generator() returns (r: Elt)
    ensures r == GEN
  {
    r := Pow(7, 4294967295);
    SevenChain();
  }

  method NthRoot(n: u64) returns (r: Result<Elt>)
    ensures r.Ok? <==> IsPow2(n) && n <= GEN_ORDER
    ensures r.Ok? ==> r.value == Fp.Pow(GEN, GEN_ORDER / n)
  {
    hide Fp.Mul, Fp.Pow;
    if n > 0 { AndPred(n); }
    if n == 0 || n > GEN_ORDER || And(n, n - 1) != 0 {
      return Err("nth root requires a power of two in [1, 2^32]");
    }
    var g := Generator();
    var x := Pow(g, GEN_ORDER / n);
    r := Ok(x);
  }
}
