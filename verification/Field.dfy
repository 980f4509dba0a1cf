/** Arithmetic of the prime field behind the Poseidon hash (src/crypto/poseidon2.ts),
    over an arbitrary modulus p; BN254_P is the modulus the source fixes. */
module Field {
  import opened Arithmetic

  const BN254_P: int :=
    21888242871839275222246405745257275088548364400416034343698204186575808495617

  ghost predicate InField(x: int, p: int) {
    0 <= x < p
  }

  // ----- the source's operations -----

  function AddMod(a: int, b: int, p: int): int {
    var r := a + b;
    if r >= p then r - p else r
  }

  function MulMod(a: int, b: int, p: int): int
    requires p > 0
  {
    JsRem(a * b, p)
  }

  /** The S-box x^5. */
  function Sbox(x: int, p: int): int
    requires p > 0
  {
    var x2 := MulMod(x, x, p);
    var x4 := MulMod(x2, x2, p);
    MulMod(x4, x, p)
  }

  /** The remainder operator of JavaScript bigints: it takes the sign of the dividend. */
  function JsRem(a: int, m: int): int
    requires m > 0
  {
    if a >= 0 then a % m else -(-a % m)
  }

  // ----- what they compute -----

  /** The truncated remainder is the residue in [0, m) of exactly these numbers. */
  lemma JsRemIsResidue(a: int, m: int)
    requires m > 0
    ensures JsRem(a, m) == a % m <==> a >= 0 || Divides(m, a)
  {
    if a < 0 {
      var q, r := -a / m, -a % m;
      assert -a == q * m + r;
      if r == 0 {
        DivModUnique(a, -q, 0, m);
      } else {
        assert a == (-q - 1) * m + (m - r) by { assert (-q - 1) * m == -(q * m) - m; }
        DivModUnique(a, -q - 1, m - r, m);
      }
    }
  }

  lemma JsRemNegate(a: int, m: int)
    requires m > 0
    ensures JsRem(-a, m) == -JsRem(a, m)
  {
    DivModUnique(0, 0, 0, m);
  }

  lemma JsRemMulNonNegative(a: int, b: int, m: int)
    requires m > 0 && a >= 0 && b >= 0
    ensures JsRem(JsRem(a, m) * b, m) == JsRem(a * b, m)
  {
    ModMulLeft(m, a, b);
    assert (a % m) * b >= 0 && a * b >= 0;
  }

  lemma MulNegate(a: int, b: int)
    ensures -a * b == -(a * b) && a * -b == -(a * b)
  {
  }

  lemma JsRemMulNegate(a: int, b: int, m: int)
    requires m > 0 && JsRem(JsRem(a, m) * b, m) == JsRem(a * b, m)
    ensures JsRem(JsRem(-a, m) * b, m) == JsRem(-a * b, m)
  {
    var u := JsRem(a, m);
    JsRemNegate(a, m);
    MulNegate(u, b);
    MulNegate(a, b);
    JsRemNegate(u * b, m);
    JsRemNegate(a * b, m);
  }

  /** Reducing a factor first does not change a truncated remainder. */
  lemma JsRemMul(a: int, b: int, m: int)
    requires m > 0
    ensures JsRem(JsRem(a, m) * b, m) == JsRem(a * b, m)
    decreases a < 0, b < 0
  {
    if a < 0 {
      JsRemMul(-a, b, m);
      JsRemMulNegate(-a, b, m);
    } else if b < 0 {
      var u := JsRem(a, m);
      JsRemMulNonNegative(a, -b, m);
      MulNegate(u, b);
      MulNegate(a, b);
      JsRemNegate(u * b, m);
      JsRemNegate(a * b, m);
    } else {
      JsRemMulNonNegative(a, b, m);
    }
  }

  lemma AddModIsSum(a: int, b: int, p: int)
    requires InField(a, p) && InField(b, p)
    ensures InField(AddMod(a, b, p), p) && AddMod(a, b, p) == (a + b) % p
  {
    DivModUnique(a + b, if a + b >= p then 1 else 0, AddMod(a, b, p), p);
  }

  /** The S-box is the fifth power in the field. */
  lemma SboxIsFifthPower(x: int, p: int)
    requires InField(x, p)
    ensures InField(Sbox(x, p), p) && Sbox(x, p) == Pow(x, 5) % p
  {
    var x2 := x * x % p;
    var x4 := x2 * x2 % p;
    ModMul(p, x * x, x * x);
    assert x4 == (x * x) * (x * x) % p;
    ModMulLeft(p, (x * x) * (x * x), x);
    assert Pow(x, 2) == x * Pow(x, 1) && Pow(x, 1) == x * Pow(x, 0);
    PowAdd(x, 2, 2);
    PowAdd(x, 4, 1);
  }

  /** Square-and-multiply: for every base, every exponent and every modulus above 1 the
      result is the truncated remainder of the power; a negative exponent gives 1. */
  method ModPow(b: int, e: int, m: int) returns (result: int)
    requires m > 1
    ensures result == JsRem(if e < 0 then 1 else Pow(b, e), m)
    ensures e >= 0 ==> (result == Pow(b, e) % m <==> Pow(b, e) >= 0 || Divides(m, Pow(b, e)))
    ensures b >= 0 && e >= 0 ==> result == Pow(b, e) % m
  {
    result := 1;
    var base, exp := JsRem(b, m), e;
    DivModUnique(1, 0, 1, m);
    if e >= 0 {
      JsRemPowAt(b, e, m, 1);
      JsRemIsResidue(Pow(b, e), m);
    }
    if b >= 0 && e >= 0 { PowNonNegative(b, e); }
    while exp > 0
      invariant e >= 0 ==> exp >= 0 && JsRem(result * Pow(base, exp), m) == JsRem(Pow(b, e), m)
      invariant e < 0 ==> exp == e && result == 1
      invariant result == JsRem(result, m)
    {
      if exp % 2 == 1 {
        OddTurn(result, base, exp / 2, m);
        JsRemIdempotent(result * base, m);
        result := JsRem(result * base, m);
      } else {
        SquareEven(result, base, exp / 2, m);
      }
      exp := exp / 2;
      base := JsRem(base * base, m);
    }
  }

  lemma {:induction false} PowNonNegative(b: int, e: nat)
    requires b >= 0
    ensures Pow(b, e) >= 0
  {
    if e > 0 { PowNonNegative(b, e - 1); }
  }

  lemma JsRemSwap(r: int, b: int, q: int, m: int)
    requires m > 0
    ensures JsRem((r * JsRem(b, m)) * q, m) == JsRem(r * (b * q), m)
  {
    var c := JsRem(b, m);
    JsRemMul(b, r * q, m);
    Commute(r, c, q);
    Commute(r, b, q);
  }

  lemma Commute(r: int, c: int, q: int)
    ensures (r * c) * q == c * (r * q) && r * (c * q) == c * (r * q)
  {
    MulAssoc(c, r, q);
    MulAssoc(r, c, q);
    assert r * c == c * r;
  }

  /** Reducing the base of a power does not change the remainder of a multiple of it. */
  lemma {:induction false} JsRemPowAt(b: int, e: nat, m: int, r: int)
    requires m > 0
    ensures JsRem(r * Pow(JsRem(b, m), e), m) == JsRem(r * Pow(b, e), m)
  {
    if e > 0 {
      var c := JsRem(b, m);
      MulAssoc(r, c, Pow(c, e - 1));
      JsRemPowAt(b, e - 1, m, r * c);
      JsRemSwap(r, b, Pow(b, e - 1), m);
    }
  }

  lemma {:induction false} PowSquare(b: int, e: nat)
    ensures Pow(b * b, e) == Pow(b, 2 * e)
  {
    if e > 0 {
      PowSquare(b, e - 1);
      assert Pow(b, 2 * e) == b * Pow(b, 2 * e - 1) && Pow(b, 2 * e - 1) == b * Pow(b, 2 * (e - 1));
    }
  }

  lemma JsRemIdempotent(a: int, m: int)
    requires m > 0
    ensures JsRem(JsRem(a, m), m) == JsRem(a, m)
  {
    JsRemMul(a, 1, m);
  }

  lemma SquareEven(result: int, base: int, h: nat, m: int)
    requires m > 0
    ensures JsRem(result * Pow(JsRem(base * base, m), h), m) == JsRem(result * Pow(base, 2 * h), m)
  {
    PowSquare(base, h);
    JsRemPowAt(base * base, h, m, result);
  }

  lemma SquareOdd(result: int, base: int, h: nat, m: int)
    requires m > 0
    ensures JsRem(JsRem(result * base, m) * Pow(base, 2 * h), m) == JsRem(result * Pow(base, 2 * h + 1), m)
  {
    JsRemMul(result * base, Pow(base, 2 * h), m);
    MulAssoc(result, base, Pow(base, 2 * h));
  }

  /** A turn of the square-and-multiply loop on an odd exponent keeps result * base^exp. */
  lemma OddTurn(result: int, base: int, h: nat, m: int)
    requires m > 0
    ensures JsRem(JsRem(result * base, m) * Pow(JsRem(base * base, m), h), m) == JsRem(result * Pow(base, 2 * h + 1), m)
  {
    SquareEven(JsRem(result * base, m), base, h, m);
    SquareOdd(result, base, h, m);
  }

  /** The modular inverse by Fermat's little theorem; the inverse of zero is an error. */
  method ModInv(a: int, p: int) returns (inverse: Inverse)
    requires IsPrime(p)
    ensures inverse.Undefined? <==> a == 0
    ensures inverse.Defined? && InField(a, p) ==> IsInverse(a, inverse.value, p)
  {
    if a == 0 {
      return Undefined;
    }
    var x := ModPow(a, p - 2, p);
    if InField(a, p) {
      DivModUnique(a, 0, a, p);
      Fermat(p, a);
      ModMulLeft(p, Pow(a, p - 2), a);
      assert Pow(a, p - 1) == a * Pow(a, p - 2);
      assert x * a == a * x && Pow(a, p - 2) * a == a * Pow(a, p - 2);
    }
    return Defined(x);
  }

  datatype Inverse = Undefined | Defined(value: int)

  ghost predicate IsInverse(a: int, x: int, p: int) {
    InField(x, p) && a * x % p == 1
  }

  // ----- the S-box is a permutation of the field -----

  /** An exponent e with 5 * e == 1 + k * (p - 1): raising to it undoes x^5 on units. */
  function RootExponent(p: int): (e: nat)
    requires p > 1 && (p - 1) % 5 != 0
    ensures 5 * e == 1 + RootCofactor(p) * (p - 1)
  {
    var k, r, q := RootCofactor(p), (p - 1) % 5, (p - 1) / 5;
    assert k * (p - 1) == 5 * (k * q) + k * r;
    k * q + (1 + k * r) / 5
  }

  function RootCofactor(p: int): (k: nat)
    requires p > 1 && (p - 1) % 5 != 0
    ensures (1 + k * ((p - 1) % 5)) % 5 == 0
  {
    [0, 4, 2, 3, 1][(p - 1) % 5]
  }

  lemma PowPeriod(x: int, k: nat, p: int)
    requires IsPrime(p) && InField(x, p) && x != 0
    ensures 0 <= (p - 1) * k && Pow(x, (p - 1) * k) % p == 1
  {
    DivModUnique(x, 0, x, p);
    Fermat(p, x);
    PowMul(x, p - 1, k);
    ModPowBase(p, Pow(x, p - 1), k);
    PowOne(k);
    DivModUnique(1, 0, 1, p);
  }

  /** Raising to RootExponent undoes the S-box. */
  lemma SboxRoot(x: int, p: int)
    requires IsPrime(p) && (p - 1) % 5 != 0 && InField(x, p)
    ensures Pow(Sbox(x, p), RootExponent(p)) % p == x
  {
    var e, k := RootExponent(p), RootCofactor(p);
    var n := (p - 1) * k;
    assert n >= 0 && 5 * e == 1 + n;
    SboxIsFifthPower(x, p);
    ModPowBase(p, Pow(x, 5), e);
    PowMul(x, 5, e);
    assert Pow(x, 5 * e) == x * Pow(x, n);
    DivModUnique(x, 0, x, p);
    if x != 0 {
      PowPeriod(x, k, p);
      ModMulLeft(p, Pow(x, n), x);
      assert x * Pow(x, n) == Pow(x, n) * x;
    }
  }

  lemma {:induction false} PowOne(k: nat)
    ensures Pow(1, k) == 1
  {
    if k > 0 { PowOne(k - 1); }
  }

  /** x^5 is injective on a prime field whose unit group has order prime to 5. */
  lemma SboxInjective(x: int, y: int, p: int)
    requires IsPrime(p) && (p - 1) % 5 != 0 && InField(x, p) && InField(y, p)
    requires Sbox(x, p) == Sbox(y, p)
    ensures x == y
  {
    SboxRoot(x, p);
    SboxRoot(y, p);
  }

  lemma AddModInjective(x: int, y: int, c: int, p: int)
    requires InField(x, p) && InField(y, p) && InField(c, p)
    requires AddMod(x, c, p) == AddMod(y, c, p)
    ensures x == y
  {
  }
}
