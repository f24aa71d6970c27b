/** The prime field GF(p) as a mathematical object: canonical residues, the ring laws, and powers. */
module Fp {
  const P: int := 0xFFFF_FFFF_0000_0001

  type Elt = x: int | 0 <= x < P

  function Add(a: Elt, b: Elt): Elt { if a + b < P then a + b else a + b - P }
  function Sub(a: Elt, b: Elt): Elt { if a < b then a - b + P else a - b }
  function Neg(a: Elt): Elt { Sub(0, a) }
  function Mul(a: Elt, b: Elt): Elt { (a * b) % P }

  function Pow(a: Elt, e: nat): Elt {
    if e == 0 then 1 else Mul(a, Pow(a, e - 1))
  }

  /** The inverse of a nonzero element, by Fermat's little theorem; zero for zero. */
  function Inv(a: Elt): Elt { Pow(a, P - 2) }

  lemma ModAddMul(x: int, k: int)
    ensures (x + k * P) % P == x % P
  {}

  lemma ModMul(a: int, b: int)
    ensures ((a % P) * b) % P == (a * b) % P
  {
    var q := a / P;
    calc { a * b; (q * P + a % P) * b; (a % P) * b + (q * b) * P; }
    ModAddMul((a % P) * b, q * b);
  }

  lemma AddIsMod(a: Elt, b: Elt)
    ensures Add(a, b) == (a + b) % P && Sub(a, b) == (a - b) % P
  {}

  lemma AddComm(a: Elt, b: Elt)
    ensures Add(a, b) == Add(b, a)
  {}

  lemma AddAssoc(a: Elt, b: Elt, c: Elt)
    ensures Add(Add(a, b), c) == Add(a, Add(b, c))
  {}

  lemma AddZero(a: Elt)
    ensures Add(a, 0) == a == Add(0, a) && Sub(a, a) == 0 && Sub(a, 0) == a
  {}

  lemma SubAsAdd(a: Elt, b: Elt)
    ensures Sub(a, b) == Add(a, Neg(b))
    ensures Add(Sub(a, b), b) == a
    ensures Sub(Add(a, b), b) == a
  {}

  lemma MulComm(a: Elt, b: Elt)
    ensures Mul(a, b) == Mul(b, a)
  {}

  lemma MulOne(a: Elt)
    ensures Mul(a, 1) == a == Mul(1, a) && Mul(a, 0) == 0 == Mul(0, a)
  {}

  lemma MulAssoc(a: Elt, b: Elt, c: Elt)
    ensures Mul(Mul(a, b), c) == Mul(a, Mul(b, c))
  {
    ModMul(a * b, c);
    ModMul(b * c, a);
    var ab, bc := (a * b) % P, (b * c) % P;
    assert (a * b) * c == (b * c) * a;
    assert bc * a == a * bc;
  }

  lemma AddMod(x: int, y: int)
    ensures Add(x % P, y % P) == (x + y) % P
  {
    var k := if x % P + y % P < P then 0 else 1;
    assert x + y == (x % P + y % P - k * P) + (x / P + y / P + k) * P;
    ModAddMul(x % P + y % P - k * P, x / P + y / P + k);
  }

  lemma Distrib(a: Elt, b: Elt, c: Elt)
    ensures Mul(a, Add(b, c)) == Add(Mul(a, b), Mul(a, c))
  {
    hide Add;
    AddIsMod(b, c);
    ModMul(b + c, a);
    calc {
      Mul(a, Add(b, c));
      ((b + c) % P * a) % P;
      ((b + c) * a) % P;
      { assert (b + c) * a == a * b + a * c; }
      (a * b + a * c) % P;
      { AddMod(a * b, a * c); }
      Add(Mul(a, b), Mul(a, c));
    }
  }

  lemma MulNeg(a: Elt, b: Elt)
    ensures Mul(a, Neg(b)) == Neg(Mul(a, b))
  {
    Distrib(a, b, Neg(b));
    AddMulNeg(Mul(a, b), Mul(a, Neg(b)), Mul(a, 0), b);
  }

  lemma AddMulNeg(x: Elt, y: Elt, z: Elt, b: Elt)
    requires Add(x, y) == z == 0
    ensures y == Neg(x)
  {}

  /** Commutativity and associativity of both operations, as rewriting rules. */
  lemma AC()
    ensures forall a: Elt, b: Elt {:trigger Mul(a, b)} :: Mul(a, b) == Mul(b, a)
    ensures forall a: Elt, b: Elt, c: Elt {:trigger Mul(Mul(a, b), c)} :: Mul(Mul(a, b), c) == Mul(a, Mul(b, c))
    ensures forall a: Elt, b: Elt {:trigger Add(a, b)} :: Add(a, b) == Add(b, a)
    ensures forall a: Elt, b: Elt, c: Elt {:trigger Add(Add(a, b), c)} :: Add(Add(a, b), c) == Add(a, Add(b, c))
  {
    hide *;
    forall a: Elt, b: Elt ensures Mul(a, b) == Mul(b, a) && Add(a, b) == Add(b, a) { MulComm(a, b); AddComm(a, b); }
    forall a: Elt, b: Elt, c: Elt
      ensures Mul(Mul(a, b), c) == Mul(a, Mul(b, c)) && Add(Add(a, b), c) == Add(a, Add(b, c))
    {
      MulAssoc(a, b, c);
      AddAssoc(a, b, c);
    }
  }

  /** All commutative-ring laws as rewriting rules. */
  lemma Ring()
    ensures forall a: Elt, b: Elt {:trigger Mul(a, b)} :: Mul(a, b) == Mul(b, a)
    ensures forall a: Elt, b: Elt, c: Elt {:trigger Mul(Mul(a, b), c)} :: Mul(Mul(a, b), c) == Mul(a, Mul(b, c))
    ensures forall a: Elt, b: Elt {:trigger Add(a, b)} :: Add(a, b) == Add(b, a)
    ensures forall a: Elt, b: Elt, c: Elt {:trigger Add(Add(a, b), c)} :: Add(Add(a, b), c) == Add(a, Add(b, c))
    ensures forall a: Elt, b: Elt, c: Elt {:trigger Mul(a, Add(b, c))} :: Mul(a, Add(b, c)) == Add(Mul(a, b), Mul(a, c))
    ensures forall a: Elt, b: Elt {:trigger Sub(a, b)} :: Sub(a, b) == Add(a, Neg(b))
    ensures forall a: Elt, b: Elt {:trigger Mul(a, Neg(b))} :: Mul(a, Neg(b)) == Neg(Mul(a, b))
    ensures forall a: Elt, b: Elt {:trigger Neg(Add(a, b))} :: Neg(Add(a, b)) == Add(Neg(a), Neg(b))
    ensures forall a: Elt {:trigger Neg(a)} :: Add(a, Neg(a)) == 0
    ensures forall a: Elt {:trigger Add(a, 0)} :: Add(a, 0) == a
    ensures forall a: Elt {:trigger Mul(a, 1)} :: Mul(a, 1) == a
    ensures forall a: Elt {:trigger Mul(a, 0)} :: Mul(a, 0) == 0
    ensures forall a: Elt {:trigger Neg(Neg(a))} :: Neg(Neg(a)) == a
  {
    AC();
    forall a: Elt, b: Elt, c: Elt ensures Mul(a, Add(b, c)) == Add(Mul(a, b), Mul(a, c)) { hide *; Distrib(a, b, c); }
    forall a: Elt, b: Elt ensures Sub(a, b) == Add(a, Neg(b)) { hide *; SubAsAdd(a, b); }
    forall a: Elt, b: Elt ensures Mul(a, Neg(b)) == Neg(Mul(a, b)) { hide *; MulNeg(a, b); }
    forall a: Elt ensures Mul(a, 1) == a && Mul(a, 0) == 0 { hide *; MulOne(a); }
  }

  lemma PowSucc(a: Elt, i: nat)
    ensures Pow(a, i + 1) == Mul(a, Pow(a, i)) && Pow(a, 0) == 1
  {}

  lemma {:induction false} PowAdd(a: Elt, i: nat, j: nat)
    ensures Pow(a, i + j) == Mul(Pow(a, i), Pow(a, j))
  {
    hide Mul;
    if i == 0 {
      MulOne(Pow(a, j));
    } else {
      PowAdd(a, i - 1, j);
      MulAssoc(a, Pow(a, i - 1), Pow(a, j));
    }
  }

  lemma {:induction false} PowPow(a: Elt, i: nat, j: nat)
    ensures Pow(Pow(a, i), j) == Pow(a, i * j)
  {
    hide Add, Mul;
    if j > 0 {
      PowPow(a, i, j - 1);
      assert i * j == i + i * (j - 1);
      PowAdd(a, i, i * (j - 1));
    }
  }

  lemma Shuffle(a: Elt, b: Elt, c: Elt)
    ensures Mul(a, Mul(b, c)) == Mul(b, Mul(a, c))
    ensures Mul(Mul(a, b), c) == Mul(a, Mul(c, b))
  {
    hide *;
    AC();
  }

  lemma Interchange(a: Elt, b: Elt, c: Elt, d: Elt)
    ensures Mul(Mul(a, b), Mul(c, d)) == Mul(Mul(a, c), Mul(b, d))
  {
    hide *;
    AC();
  }

  lemma {:induction false} PowMulBase(a: Elt, b: Elt, i: nat)
    ensures Pow(Mul(a, b), i) == Mul(Pow(a, i), Pow(b, i))
  {
    hide Mul;
    if i == 0 {
      MulOne(1);
    } else {
      PowMulBase(a, b, i - 1);
      Interchange(a, b, Pow(a, i - 1), Pow(b, i - 1));
    }
  }

  lemma {:induction false} PowOne(i: nat)
    ensures Pow(1, i) == 1
  {
    if i > 0 { PowOne(i - 1); }
  }
}
