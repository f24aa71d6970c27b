/** p = 2^64 - 2^32 + 1 is prime, so every nonzero residue has an inverse and Fermat's little theorem holds. */
module Prime {
  import opened Fp

  function Pow2(k: nat): (r: nat)
    ensures r >= 1
  {
    if k == 0 then 1 else 2 * Pow2(k - 1)
  }

  lemma {:induction false} Pow2Add(i: nat, j: nat)
    ensures Pow2(i + j) == Pow2(i) * Pow2(j)
  {
    if i > 0 { Pow2Add(i - 1, j); }
  }

  /** 7^(2^32 - 1), the generator of the multiplicative subgroup of order 2^32. */
  const GEN: Elt := 1753635133440165772

  lemma SevenStep(k: nat, v: Elt, sq: Elt, w: Elt)
    requires Pow(7, Pow2(k) - 1) == v
    requires v * v % P == sq && 7 * sq % P == w
    ensures Pow(7, Pow2(k + 1) - 1) == w
  {
    var e := Pow2(k) - 1;
    PowAdd(7, e, e);
    assert Pow(7, e + e + 1) == Mul(7, Pow(7, e + e));
  }

  lemma GenStep(k: nat, v: Elt, w: Elt)
    requires Pow(GEN, Pow2(k)) == v
    requires v * v % P == w
    ensures Pow(GEN, Pow2(k + 1)) == w
  {
    PowAdd(GEN, Pow2(k), Pow2(k));
  }

  lemma P32()
    ensures Pow2(32) == 0x1_0000_0000
  {
    assert Pow2(8) == 256;
    Pow2Add(8, 8);
    Pow2Add(16, 16);
  }

  lemma SevenZero()
    ensures Pow(7, Pow2(0) - 1) == 1
  {}

  lemma GenZero()
    ensures Pow(GEN, Pow2(0)) == GEN
  {
    assert Pow(GEN, 0) == 1;
  }

  lemma SevenChainLow()
    ensures Pow(7, Pow2(16) - 1) == 12134830135347446949
  {
    hide Pow, Pow2, Mul;
    SevenZero();
    SevenStep(0, 1, 1, 7);
    SevenStep(1, 7, 49, 343);
    SevenStep(2, 343, 117649, 823543);
    SevenStep(3, 823543, 678223072849, 4747561509943);
    SevenStep(4, 4747561509943, 1582037354089406189, 11074261478625843323);
    SevenStep(5, 11074261478625843323, 14911712358349047125, 12148266161370408270);
    SevenStep(6, 12148266161370408270, 14177331716484271384, 7007601668316978083);
    SevenStep(7, 7007601668316978083, 1160753142525841411, 8125271997680889877);
    SevenStep(8, 8125271997680889877, 10915923311382173605, 2624486902016877951);
    SevenStep(9, 2624486902016877951, 1179017105118043277, 8253119735826302939);
    SevenStep(10, 8253119735826302939, 13682469552810377440, 3543566522599720475);
    SevenStep(11, 3543566522599720475, 12252646851770615269, 11981551684735969599);
    SevenStep(12, 11981551684735969599, 9343193256669382154, 10062120588441922115);
    SevenStep(13, 10062120588441922115, 4133221502128927102, 10485806445487905393);
    SevenStep(14, 10485806445487905393, 5861853314594190514, 4139485063330164956);
    SevenStep(15, 4139485063330164956, 7004045467739516513, 12134830135347446949);
  }

  lemma SevenChain()
    ensures Pow(7, 0xFFFF_FFFF) == GEN
  {
    hide Pow, Pow2, Mul;
    SevenChainLow();
    assert Pow2(32) == 0x1_0000_0000 by { P32(); }
    SevenStep(16, 12134830135347446949, 618113109518621269, 4326791766630348883);
    SevenStep(17, 4326791766630348883, 13205783127219969319, 206761543466863628);
    SevenStep(18, 206761543466863628, 14617186517222294718, 10086585273483141421);
    SevenStep(19, 10086585273483141421, 5535602650859329748, 1855730417186139594);
    SevenStep(20, 1855730417186139594, 3724741596018185032, 7626447102712710903);
    SevenStep(21, 7626447102712710903, 11653985196031332500, 7790920094560990216);
    SevenStep(22, 7790920094560990216, 16654626667483233145, 5901922255895126089);
    SevenStep(23, 5901922255895126089, 9182212999444825067, 8935258787870022506);
    SevenStep(24, 8935258787870022506, 17682034324931514088, 13093775858033092690);
    SevenStep(25, 13093775858033092690, 9511995656157268947, 11243737384857129666);
    SevenStep(26, 11243737384857129666, 16106297366990222687, 2063617152444052883);
    SevenStep(27, 2063617152444052883, 4501656151559876649, 13064848991504552222);
    SevenStep(28, 13064848991504552222, 2370486178716065012, 16593403251012455084);
    SevenStep(29, 16593403251012455084, 14013264900002007546, 5859133952941131217);
    SevenStep(30, 5859133952941131217, 10142762553374040318, 15659105665374529263);
    SevenStep(31, 15659105665374529263, 16062014221418238814, 1753635133440165772);
  }

  lemma GenChainLow()
    ensures Pow(GEN, Pow2(16)) == 6115771955107415310
  {
    hide Pow, Pow2, Mul;
    GenZero();
    GenStep(0, 1753635133440165772, 4614640910117430873);
    GenStep(1, 4614640910117430873, 9123114210336311365);
    GenStep(2, 9123114210336311365, 16116352524544190054);
    GenStep(3, 16116352524544190054, 6414415596519834757);
    GenStep(4, 6414415596519834757, 1213594585890690845);
    GenStep(5, 1213594585890690845, 17096174751763063430);
    GenStep(6, 17096174751763063430, 5456943929260765144);
    GenStep(7, 5456943929260765144, 9713644485405565297);
    GenStep(8, 9713644485405565297, 16905767614792059275);
    GenStep(9, 16905767614792059275, 5416168637041100469);
    GenStep(10, 5416168637041100469, 17654865857378133588);
    GenStep(11, 17654865857378133588, 3511170319078647661);
    GenStep(12, 3511170319078647661, 18146160046829613826);
    GenStep(13, 18146160046829613826, 9306717745644682924);
    GenStep(14, 9306717745644682924, 12380578893860276750);
    GenStep(15, 12380578893860276750, 6115771955107415310);
  }

  lemma GenChain()
    ensures Pow(GEN, Pow2(31)) == P - 1
  {
    hide Pow, Pow2, Mul;
    GenChainLow();
    GenStep(16, 6115771955107415310, 17776499369601055404);
    GenStep(17, 17776499369601055404, 16207902636198568418);
    GenStep(18, 16207902636198568418, 1532612707718625687);
    GenStep(19, 1532612707718625687, 17492915097719143606);
    GenStep(20, 17492915097719143606, 455906449640507599);
    GenStep(21, 455906449640507599, 11353340290879379826);
    GenStep(22, 11353340290879379826, 1803076106186727246);
    GenStep(23, 1803076106186727246, 13797081185216407910);
    GenStep(24, 13797081185216407910, 17870292113338400769);
    GenStep(25, 17870292113338400769, 549755813888);
    GenStep(26, 549755813888, 70368744161280);
    GenStep(27, 70368744161280, 17293822564807737345);
    GenStep(28, 17293822564807737345, 18446744069397807105);
    GenStep(29, 18446744069397807105, 281474976710656);
    GenStep(30, 281474976710656, 18446744069414584320);
  }

  // ---------- no proper divisor ----------

  function Times(a: int, b: int): int { a * b }

  ghost predicate Divides(d: int, x: int) { exists q :: Times(q, d) == x }

  lemma DividesComb(d: int, x: int, y: int, a: int, b: int)
    requires Divides(d, x) && Divides(d, y)
    ensures Divides(d, a * x + b * y)
  {
    var q :| Times(q, d) == x;
    var r :| Times(r, d) == y;
    calc { a * x + b * y; a * (q * d) + b * (r * d); (a * q) * d + (b * r) * d; (a * q + b * r) * d; }
    assert Times(a * q + b * r, d) == a * x + b * y;
  }

  /** The residues divisible by a divisor of p form an ideal of the ring. */
  lemma IdealMul(d: int, a: Elt, b: Elt)
    requires Divides(d, P) && Divides(d, a)
    ensures Divides(d, Mul(a, b))
  {
    var q := (a * b) / P;
    DividesComb(d, a, P, b, -q);
    assert a * b == b * a;
  }

  lemma IdealAdd(d: int, a: Elt, b: Elt)
    requires Divides(d, P) && Divides(d, a) && Divides(d, b)
    ensures Divides(d, Add(a, b))
  {
    DividesComb(d, a, b, 1, 1);
    DividesComb(d, a + b, P, 1, -1);
  }

  lemma {:induction false} IdealPow(d: int, e: Elt, c: nat)
    requires Divides(d, P) && Divides(d, Sub(e, 1))
    ensures Divides(d, Sub(Pow(e, c), 1))
  {
    hide Add, Sub, Mul, Divides;
    if c == 0 {
      assert Sub(1, 1) == 0 by { AddZero(1); }
      IdealMul(d, Sub(e, 1), 0);
      MulOne(Sub(e, 1));
    } else {
      IdealPow(d, e, c - 1);
      var y := Pow(e, c - 1);
      IdealMul(d, Sub(y, 1), e);
      IdealAdd(d, Mul(Sub(y, 1), e), Sub(e, 1));
      assert Add(Mul(Sub(y, 1), e), Sub(e, 1)) == Sub(Mul(e, y), 1) by { Telescope(e, y); }
    }
  }

  lemma Telescope(e: Elt, y: Elt)
    ensures Add(Mul(Sub(y, 1), e), Sub(e, 1)) == Sub(Mul(e, y), 1)
  {
    hide *;
    Ring();
  }

  /** Every 0 < m < 2^(k+1) has a multiple of the form 2^k * odd. */
  lemma {:induction false} OddMultiple(m: nat, k: nat) returns (c: nat, u: nat)
    requires 0 < m < Pow2(k + 1)
    ensures m * c == Pow2(k) * (2 * u + 1)
  {
    if m % 2 == 1 {
      c, u := Pow2(k), m / 2;
    } else {
      assert k > 0;
      c, u := OddMultiple(m / 2, k - 1);
      calc { m * c; 2 * (m / 2) * c; 2 * ((m / 2) * c); 2 * (Pow2(k - 1) * (2 * u + 1)); Pow2(k) * (2 * u + 1); }
    }
  }

  lemma {:induction false} MinusOneOdd(u: nat)
    ensures Pow(P - 1, 2 * u + 1) == P - 1
  {
    if u == 0 {
      assert Pow(P - 1, 0) == 1;
    } else {
      MinusOneOdd(u - 1);
      assert Mul(P - 1, P - 1) == 1;
      assert Mul(P - 1, 1) == P - 1;
      assert 2 * u + 1 == 2 * (u - 1) + 1 + 1 + 1;
    }
  }

  lemma GenOrder()
    ensures Pow(GEN, Pow2(32)) == 1
  {
    hide Pow, Pow2, Mul;
    GenChain();
    GenStep(31, P - 1, 1);
  }

  /** Modulo any divisor d > 1 of p, the 2^32 powers of the generator are pairwise distinct. */
  lemma PowersDistinct(d: int, i: nat, j: nat)
    requires d > 1 && Divides(d, P)
    requires i < j < Pow2(32)
    ensures !Divides(d, Sub(Pow(GEN, j), Pow(GEN, i)))
  {
    hide Pow, Pow2, Divides, Mul, Sub, Add;
    if Divides(d, Sub(Pow(GEN, j), Pow(GEN, i))) {
      var em := Pow(GEN, j - i);
      ShiftDown(d, i, j);
      var c, u := OddMultiple(j - i, 31);
      IdealPow(d, em, c);
      PowPow(GEN, j - i, c);
      PowPow(GEN, Pow2(31), 2 * u + 1);
      GenChain();
      MinusOneOdd(u);
      AddIsMod(P - 1, 1);
      DividesComb(d, P, P - 2, 1, -1);
      NotTwo(d);
      assert false;
    }
  }

  lemma ShiftDown(d: int, i: nat, j: nat)
    requires Divides(d, P)
    requires i < j < Pow2(32)
    requires Divides(d, Sub(Pow(GEN, j), Pow(GEN, i)))
    ensures Divides(d, Sub(Pow(GEN, j - i), 1))
  {
    hide Pow, Pow2, Divides, Mul, Add, Sub;
    var n := Pow2(32);
    var b := Pow(GEN, n - i);
    IdealMul(d, Sub(Pow(GEN, j), Pow(GEN, i)), b);
    PowAdd(GEN, n - i, j);
    PowAdd(GEN, n - i, i);
    PowAdd(GEN, n, j - i);
    GenOrder();
    assert n - i + j == n + (j - i);
    SubMul(Pow(GEN, j), Pow(GEN, i), b);
    MulOne(Pow(GEN, j - i));
  }

  lemma SubMul(a: Elt, b: Elt, c: Elt)
    ensures Mul(Sub(a, b), c) == Sub(Mul(c, a), Mul(c, b))
  {
    hide *;
    Ring();
  }

  lemma NotTwo(d: int)
    requires d > 1 && Divides(d, P)
    ensures !Divides(d, 2)
  {}

  // ---------- pigeonhole ----------

  lemma {:induction false} RangeCard(s: set<int>, n: nat)
    requires forall x :: x in s ==> 0 <= x < n
    ensures |s| <= n
  {
    if n == 0 {
      assert forall x :: x !in s;
      assert s == {};
    } else {
      RangeCard(s - {n - 1}, n - 1);
    }
  }

  function ResidueOfPower(d: int, i: nat): int
    requires d > 1
  {
    Pow(GEN, i) % d
  }

  lemma {:induction false} ResidueCard(d: int, n: nat) returns (s: set<int>)
    requires d > 1 && Divides(d, P) && n <= Pow2(32)
    ensures |s| == n
    ensures forall x :: x in s <==> exists i :: 0 <= i < n && ResidueOfPower(d, i) == x
  {
    if n == 0 {
      s := {};
    } else {
      hide Pow, Pow2, Divides, ResidueOfPower;
      var t := ResidueCard(d, n - 1);
      var y := ResidueOfPower(d, n - 1);
      forall i: nat | i < n - 1 ensures ResidueOfPower(d, i) != y { ResidueDistinct(d, i, n - 1); }
      s := t + {y};
    }
  }

  lemma ResidueDistinct(d: int, i: nat, j: nat)
    requires d > 1 && Divides(d, P) && i < j < Pow2(32)
    ensures ResidueOfPower(d, i) != ResidueOfPower(d, j)
  {
    hide Pow, Pow2;
    var a, b := Pow(GEN, i), Pow(GEN, j);
    if a % d == b % d {
      var q := b / d - a / d;
      assert b == b / d * d + b % d && a == a / d * d + a % d;
      assert b - a == q * d;
      assert Times(q, d) == b - a;
      DividesComb(d, b - a, P, 1, if b < a then 1 else 0);
      assert Divides(d, Sub(b, a));
      PowersDistinct(d, i, j);
      assert false;
    }
  }

  lemma LargeDivisor(d: int)
    requires d > 1 && Divides(d, P)
    ensures d >= 0x1_0000_0000
  {
    hide Pow, Divides, Pow2;
    var s := ResidueCard(d, Pow2(32));
    forall x | x in s ensures 0 <= x < d { ResidueRange(d, x, s); }
    RangeCard(s, d);
    P32();
  }

  lemma ResidueRange(d: int, x: int, s: set<int>)
    requires d > 1 && exists i: nat :: ResidueOfPower(d, i) == x
    ensures 0 <= x < d
  {}

  /** p is prime. */
  lemma NoFactors(r: int, s: int)
    requires r > 1 && s > 1
    ensures r * s != P
  {
    if r * s == P {
      assert Times(s, r) == P && Times(r, s) == P;
      LargeDivisor(r);
      LargeDivisor(s);
      assert false;
    }
  }

  lemma DivisorOfP(g: int)
    requires g > 1 && Divides(g, P)
    ensures g == P
  {
    var q :| Times(q, g) == P;
    if q > 1 {
      NoFactors(g, q);
      assert false;
    }
  }

  lemma DividesLe(g: int, a: int)
    requires g > 0 && a > 0 && Divides(g, a)
    ensures g <= a
  {}

  // ---------- inverses and Fermat's little theorem ----------

  lemma {:induction false} Bezout(a: nat, b: nat) returns (g: nat, x: int, y: int)
    requires a > 0
    ensures g > 0 && g == x * a + y * b
    ensures Divides(g, a) && Divides(g, b)
    decreases b
  {
    if b == 0 {
      g, x, y := a, 1, 0;
      assert Times(1, g) == a && Times(0, g) == b;
    } else {
      var q := a / b;
      var x', y';
      g, x', y' := Bezout(b, a % b);
      DividesComb(g, b, a % b, q, 1);
      x, y := y', x' - q * y';
      assert q * b + a % b == a;
      calc { g; x' * b + y' * (a - q * b); y' * a + (x' - q * y') * b; }
    }
  }

  lemma Inverse(a: Elt) returns (b: Elt)
    requires a != 0
    ensures Mul(a, b) == 1
  {
    var g, x, y := Bezout(a, P);
    DividesLe(g, a);
    if g > 1 {
      DivisorOfP(g);
      assert false;
    }
    b := x % P;
    BezoutInverse(a, x, y);
  }

  lemma BezoutInverse(a: Elt, x: int, y: int)
    requires x * a + y * P == 1
    ensures Mul(a, x % P) == 1
  {
    ModMul(x, a);
    MulComm(a, x % P);
    assert x * a == 1 + (-y) * P;
    ModAddMul(1, -y);
  }

  lemma NoZeroDivisors(a: Elt, b: Elt)
    requires Mul(a, b) == 0
    ensures a == 0 || b == 0
  {
    hide *;
    if a != 0 {
      var c := Inverse(a);
      Ring();
      assert Mul(Mul(a, c), b) == Mul(c, Mul(a, b));
    }
  }

  lemma Cancel(a: Elt, b: Elt, c: Elt)
    requires a != 0 && Mul(a, b) == Mul(a, c)
    ensures b == c
  {
    hide *;
    var d := Inverse(a);
    Ring();
    assert Mul(Mul(a, d), b) == Mul(d, Mul(a, b)) == Mul(d, Mul(a, c)) == Mul(Mul(a, d), c);
  }

  ghost function Product(s: set<Elt>): Elt {
    if s == {} then 1 else
      var x :| x in s;
      Mul(x, Product(s - {x}))
  }

  lemma {:induction false} ProductRemove(s: set<Elt>, y: Elt)
    requires y in s
    ensures Product(s) == Mul(y, Product(s - {y}))
    decreases s
  {
    hide Mul;
    var x :| x in s && Product(s) == Mul(x, Product(s - {x}));
    if x != y {
      ProductRemove(s - {x}, y);
      ProductRemove(s - {y}, x);
      assert s - {x} - {y} == s - {y} - {x};
      Shuffle(x, y, Product(s - {x} - {y}));
    }
  }

  lemma {:induction false} ProductNonzero(s: set<Elt>)
    requires 0 !in s
    ensures Product(s) != 0
    decreases s
  {
    hide Mul;
    if s != {} {
      var x :| x in s;
      ProductRemove(s, x);
      ProductNonzero(s - {x});
      if Product(s) == 0 { NoZeroDivisors(x, Product(s - {x})); }
    }
  }

  ghost function Scaled(a: Elt, s: set<Elt>): set<Elt> { set x | x in s :: Mul(a, x) }

  /** Multiplication by a nonzero a maps a set of residues injectively, scaling its product by a^|s|. */
  lemma {:induction false} ProductScaled(a: Elt, s: set<Elt>)
    requires a != 0
    ensures |Scaled(a, s)| == |s|
    ensures Product(Scaled(a, s)) == Mul(Pow(a, |s|), Product(s))
    decreases s
  {
    hide Mul, Add, Scaled, Pow, Product;
    if s == {} {
      NothingScaled(a);
    } else {
      var x :| x in s;
      var s', y := s - {x}, Mul(a, x);
      ProductScaled(a, s');
      ScaledStep(a, s, x);
      ProductRemove(s, x);
      ProductRemove(Scaled(a, s), y);
      assert Scaled(a, s) - {y} == Scaled(a, s');
      PowSucc(a, |s'|);
      Interchange(a, x, Pow(a, |s'|), Product(s'));
    }
  }

  lemma NothingScaled(a: Elt)
    ensures Scaled(a, {}) == {} && Product({}) == Mul(Pow(a, 0), Product({}))
  {
    hide Mul;
    MulOne(1);
  }

  lemma ScaledStep(a: Elt, s: set<Elt>, x: Elt)
    requires a != 0 && x in s
    ensures Mul(a, x) !in Scaled(a, s - {x})
    ensures Scaled(a, s) == Scaled(a, s - {x}) + {Mul(a, x)}
  {
    hide Mul;
    forall z: Elt | z in s - {x} ensures Mul(a, z) != Mul(a, x) { if Mul(a, z) == Mul(a, x) { Cancel(a, z, x); } }
  }

  lemma {:induction false} FullCard(n: nat) returns (s: set<Elt>)
    requires n < P
    ensures |s| == n && forall x: Elt :: x in s <==> 1 <= x <= n
  {
    if n == 0 {
      s := {};
    } else {
      s := FullCard(n - 1);
      s := s + {n};
    }
  }

  lemma SubsetSameCard(t: set<Elt>, s: set<Elt>)
    requires t <= s && |t| == |s|
    ensures t == s
  {
    if exists x :: x in s && x !in t {
      var x :| x in s && x !in t;
      assert t <= s - {x};
      CardMono(t, s - {x});
    }
  }

  lemma {:induction false} CardMono<T(!new)>(t: set<T>, s: set<T>)
    requires t <= s
    ensures |t| <= |s|
  {
    if t != {} {
      var x :| x in t;
      CardMono(t - {x}, s - {x});
    }
  }

  /** Fermat's little theorem. */
  lemma Fermat(a: Elt)
    requires a != 0
    ensures Pow(a, P - 1) == 1
  {
    hide Mul, Pow, Product, Add;
    var s := FullCard(P - 1);
    ScaledUnits(a, s);
    ProductScaled(a, s);
    ProductNonzero(s);
    MulOne(Product(s));
    MulComm(Pow(a, P - 1), Product(s));
    Cancel(Product(s), Pow(a, P - 1), 1);
  }

  lemma ScaledUnits(a: Elt, s: set<Elt>)
    requires a != 0 && forall x: Elt :: x in s <==> 1 <= x <= P - 1
    ensures Scaled(a, s) == s
  {
    hide Mul, Add, Product;
    forall x | x in s ensures Mul(a, x) != 0 { if Mul(a, x) == 0 { NoZeroDivisors(a, x); } }
    ProductScaled(a, s);
    SubsetSameCard(Scaled(a, s), s);
  }

  /** a^(p-2) inverts every nonzero a, and sends zero to zero. */
  lemma FermatInverse(a: Elt)
    ensures a != 0 ==> Mul(a, Inv(a)) == 1
    ensures a == 0 ==> Inv(a) == 0
  {
    assert Pow(a, P - 1) == Mul(a, Pow(a, P - 2));
    if a != 0 {
      Fermat(a);
    } else {
      assert Pow(a, P - 2) == Mul(a, Pow(a, P - 3));
    }
  }
}
