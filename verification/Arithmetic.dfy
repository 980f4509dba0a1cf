/** Integer arithmetic shared by the models: powers, congruences modulo m, and the
    number theory of a prime modulus up to Fermat's little theorem. */
module Arithmetic {

  function Pow(b: int, e: nat): int {
    if e == 0 then 1 else b * Pow(b, e - 1)
  }

  lemma {:induction false} PowAdd(b: int, x: nat, y: nat)
    ensures Pow(b, x + y) == Pow(b, x) * Pow(b, y)
  {
    if x > 0 {
      PowAdd(b, x - 1, y);
      assert Pow(b, x + y) == b * Pow(b, x - 1 + y);
      MulAssoc(b, Pow(b, x - 1), Pow(b, y));
    }
  }

  lemma {:induction false} PowMul(b: int, x: nat, y: nat)
    ensures 0 <= x * y
    ensures Pow(Pow(b, x), y) == Pow(b, x * y)
  {
    if y == 0 {
      assert x * y == 0;
    } else {
      PowMul(b, x, y - 1);
      assert x * y == x + x * (y - 1);
      PowAdd(b, x, x * (y - 1));
    }
  }

  lemma {:induction false} PowPositive(b: int, e: nat)
    requires b > 0
    ensures Pow(b, e) > 0
  {
    if e > 0 {
      PowPositive(b, e - 1);
      assert b * Pow(b, e - 1) >= 1 * 1 by { MulMono(1, b, Pow(b, e - 1)); }
    }
  }

  lemma MulAssoc(a: int, b: int, c: int)
    ensures a * (b * c) == (a * b) * c
  {
  }

  lemma MulMono(a: int, b: int, c: int)
    requires a <= b && 0 <= c
    ensures a * c <= b * c
  {
    assert (b - a) * c >= 0;
  }

  // ----- division with remainder -----

  /** A quotient and a remainder in range are the quotient and the remainder. */
  lemma DivModUnique(x: int, q: int, r: int, m: int)
    requires m > 0 && 0 <= r < m && x == q * m + r
    ensures x / m == q && x % m == r
  {
    var q', r' := x / m, x % m;
    assert x == m * q' + r';
    assert (q - q') * m == r' - r;
    if q - q' >= 1 {
      MulMono(1, q - q', m);
    } else if q - q' <= -1 {
      MulMono(q - q', -1, m);
    }
  }

  lemma DivMod(v: int, m: int)
    requires m > 0
    ensures v == (v / m) * m + v % m && 0 <= v % m < m
  {
  }

  // ----- congruences -----

  /** m divides x. */
  predicate Divides(m: int, x: int) {
    m > 0 && x % m == 0
  }

  lemma DividesIntro(m: int, k: int, x: int)
    requires m > 0 && x == k * m
    ensures Divides(m, x)
  {
    DivModUnique(x, k, 0, m);
  }

  lemma DividesScale(m: int, x: int, a: int)
    requires Divides(m, x)
    ensures Divides(m, a * x)
  {
    MulAssoc(a, x / m, m);
    DividesIntro(m, a * (x / m), a * x);
  }

  lemma DividesSum(m: int, x: int, y: int)
    requires Divides(m, x) && Divides(m, y)
    ensures Divides(m, x + y) && Divides(m, x - y)
  {
    DividesIntro(m, x / m + y / m, x + y);
    DividesIntro(m, x / m - y / m, x - y);
  }

  lemma DividesSmall(m: int, x: int)
    requires -m < x < m && Divides(m, x)
    ensures x == 0
  {
    DivModUnique(x, if x < 0 then -1 else 0, if x < 0 then x + m else x, m);
  }

  lemma ModCong(m: int, x: int)
    requires m > 0
    ensures Divides(m, x - x % m)
  {
    DividesIntro(m, x / m, x - x % m);
  }

  /** Congruent numbers have the same remainder, and conversely. */
  lemma CongIsModEq(m: int, x: int, y: int)
    requires m > 0
    ensures Divides(m, x - y) <==> x % m == y % m
  {
    if Divides(m, x - y) {
      assert x == ((x - y) / m + y / m) * m + y % m;
      DivModUnique(x, (x - y) / m + y / m, y % m, m);
    }
    if x % m == y % m {
      DividesIntro(m, x / m - y / m, x - y);
    }
  }

  lemma ModMulLeft(m: int, x: int, y: int)
    requires m > 0
    ensures (x % m) * y % m == x * y % m
  {
    var r := x % m;
    ModCong(m, x);
    DividesScale(m, x - r, y);
    MulDifference(x, r, y);
    CongIsModEq(m, x * y, r * y);
  }

  lemma MulDifference(x: int, r: int, y: int)
    ensures y * (x - r) == x * y - r * y
  {
  }

  lemma ModMul(m: int, x: int, y: int)
    requires m > 0
    ensures (x % m) * (y % m) % m == x * y % m
  {
    ModMulLeft(m, x, y % m);
    ModMulLeft(m, y, x);
    assert x * (y % m) == (y % m) * x && x * y == y * x;
  }

  lemma ModAdd(m: int, x: int, y: int)
    requires m > 0
    ensures (x % m + y % m) % m == (x + y) % m
  {
    ModCong(m, x);
    ModCong(m, y);
    DividesSum(m, x - x % m, y - y % m);
    assert (x - x % m) + (y - y % m) == (x + y) - (x % m + y % m);
    CongIsModEq(m, x + y, x % m + y % m);
  }

  lemma {:induction false} ModPowBase(m: int, x: int, e: nat)
    requires m > 0
    ensures Pow(x % m, e) % m == Pow(x, e) % m
  {
    if e > 0 {
      ModPowBase(m, x, e - 1);
      ModMulSame(m, x, Pow(x % m, e - 1), Pow(x, e - 1));
    }
  }

  /** Factors with the same remainder can be exchanged. */
  lemma ModMulSame(m: int, x: int, u: int, v: int)
    requires m > 0 && u % m == v % m
    ensures (x % m) * u % m == x * v % m
  {
    ModMul(m, x % m, u);
    ModMul(m, x, v);
    ModTwice(m, x);
  }

  lemma ModTwice(m: int, x: int)
    requires m > 0
    ensures x % m % m == x % m
  {
    DivModUnique(x % m, 0, x % m, m);
  }

  // ----- primes -----

  ghost predicate IsPrime(p: int) {
    p >= 2 && forall d :: 2 <= d < p ==> !Divides(d, p)
  }

  /** Euclid's lemma for factors in range. */
  lemma {:induction false} EuclidSmall(p: int, a: int, b: int)
    requires IsPrime(p) && 0 < a < p && 0 < b < p
    ensures !Divides(p, a * b)
    decreases a
  {
    if a == 1 {
      if Divides(p, b) { DividesSmall(p, b); }
    } else {
      var q, r := p / a, p % a;
      assert !Divides(a, p);
      assert 0 < r < a && p == q * a + r;
      EuclidSmall(p, r, b);
      assert r * b == b * p - q * (a * b) by {
        assert r * b == p * b - (q * a) * b;
        MulAssoc(q, a, b);
      }
      if Divides(p, a * b) {
        DividesIntro(p, b, b * p);
        DividesScale(p, a * b, q);
        DividesSum(p, b * p, q * (a * b));
      }
    }
  }

  /** Euclid's lemma: a prime that divides a product divides a factor. */
  lemma Euclid(p: int, a: int, b: int)
    requires IsPrime(p) && Divides(p, a * b)
    ensures Divides(p, a) || Divides(p, b)
  {
    ModMul(p, a, b);
    if a % p != 0 && b % p != 0 {
      EuclidSmall(p, a % p, b % p);
    }
  }

  // ----- Fermat's little theorem -----

  /** The integers 1..p-1. */
  function Units(p: int): set<nat>
  {
    if p <= 1 then {} else Units(p - 1) + {p - 1}
  }

  lemma {:induction false} UnitsRange(p: int)
    ensures |Units(p)| == if p <= 1 then 0 else p - 1
    ensures forall x :: x in Units(p) <==> 1 <= x < p
  {
    if p > 1 { UnitsRange(p - 1); }
  }

  ghost function Product(s: set<nat>): int {
    if exists x :: x in s then var x :| x in s; x * Product(s - {x}) else 1
  }

  lemma {:induction false} ProductRemove(s: set<nat>, x: nat)
    requires x in s
    ensures Product(s) == x * Product(s - {x})
    decreases s
  {
    var y :| y in s && Product(s) == y * Product(s - {y});
    if y != x {
      ProductRemove(s - {y}, x);
      ProductRemove(s - {x}, y);
      assert s - {y} - {x} == s - {x} - {y};
      var rest := Product(s - {x} - {y});
      assert y * (x * rest) == x * (y * rest);
    }
  }

  ghost function ScaleMod(x: nat, a: int, p: int): nat
    requires p > 0
  {
    a * x % p
  }

  /** The image of s under multiplication by a modulo p. */
  ghost function Scaled(s: set<nat>, a: int, p: int): set<nat>
    requires p > 0
  {
    set x | x in s :: ScaleMod(x, a, p)
  }

  lemma ScaleInjective(p: int, a: int, x: int, y: int)
    requires IsPrime(p) && !Divides(p, a) && a * x % p == a * y % p
    ensures Divides(p, x - y)
  {
    CongIsModEq(p, a * x, a * y);
    assert a * (x - y) == a * x - a * y;
    Euclid(p, a, x - y);
  }

  lemma ScaledFresh(p: int, a: int, s: set<nat>, x: nat)
    requires IsPrime(p) && !Divides(p, a) && s <= Units(p) && x in Units(p) && x !in s
    ensures ScaleMod(x, a, p) !in Scaled(s, a, p) && ScaleMod(x, a, p) in Units(p)
  {
    UnitsRange(p);
    var y := ScaleMod(x, a, p);
    if y in Scaled(s, a, p) {
      var z :| z in s && y == ScaleMod(z, a, p);
      ScaleInjective(p, a, x, z);
      DividesSmall(p, x - z);
    }
    if y == 0 {
      Euclid(p, a, x);
      DividesSmall(p, x);
    }
  }

  /** Multiplying every element of s by a multiplies the product by a^|s|. */
  lemma ScaledProductStep(p: int, a: int, x: int, n: nat, f: int, g: int)
    requires p > 0 && g % p == Pow(a, n) * f % p
    ensures (a * x % p) * g % p == Pow(a, n + 1) * (x * f) % p
  {
    var t := Pow(a, n) * f;
    calc {
      (a * x % p) * g % p;
      { ModMulLeft(p, a * x, g); }
      (a * x) * g % p;
      { ModMulLeft(p, g, a * x); assert (a * x) * g == g * (a * x); }
      (g % p) * (a * x) % p;
      (t % p) * (a * x) % p;
      { ModMulLeft(p, t, a * x); }
      t * (a * x) % p;
      { Rearrange(a, x, Pow(a, n), f); assert t * (a * x) == (a * x) * t; }
      (a * Pow(a, n)) * (x * f) % p;
    }
  }

  lemma ScaledGrow(p: int, a: int, s: set<nat>, x: nat)
    requires p > 0
    ensures Scaled(s + {x}, a, p) == Scaled(s, a, p) + {ScaleMod(x, a, p)}
  {
  }

  lemma ScaledStep(p: int, a: int, rest: set<nat>, x: nat)
    requires IsPrime(p) && !Divides(p, a) && rest <= Units(p) && x in Units(p) && x !in rest
    requires |Scaled(rest, a, p)| == |rest| && Scaled(rest, a, p) <= Units(p)
    requires Product(Scaled(rest, a, p)) % p == Pow(a, |rest|) * Product(rest) % p
    ensures var s := rest + {x};
            && |Scaled(s, a, p)| == |rest| + 1 && Scaled(s, a, p) <= Units(p)
            && Product(Scaled(s, a, p)) % p == Pow(a, |rest| + 1) * Product(s) % p
  {
    var image, y := Scaled(rest, a, p), ScaleMod(x, a, p);
    ScaledFresh(p, a, rest, x);
    ScaledGrow(p, a, rest, x);
    ProductRemove(image + {y}, y);
    ProductRemove(rest + {x}, x);
    assert image + {y} - {y} == image && rest + {x} - {x} == rest;
    ScaledProductStep(p, a, x, |rest|, Product(rest), Product(image));
  }

  lemma {:induction false} ScaledFacts(p: int, a: int, s: set<nat>)
    requires IsPrime(p) && !Divides(p, a) && s <= Units(p)
    ensures |Scaled(s, a, p)| == |s| && Scaled(s, a, p) <= Units(p)
    ensures Product(Scaled(s, a, p)) % p == Pow(a, |s|) * Product(s) % p
    decreases s
  {
    if s == {} {
      assert Scaled(s, a, p) == {};
    } else {
      var x :| x in s;
      ScaledFacts(p, a, s - {x});
      ScaledStep(p, a, s - {x}, x);
      assert s - {x} + {x} == s;
    }
  }

  lemma Rearrange(a: int, x: int, u: int, v: int)
    ensures (a * x) * (u * v) == (a * u) * (x * v)
  {
    calc {
      (a * x) * (u * v);
      a * (x * (u * v));
      { assert x * (u * v) == u * (x * v); }
      a * (u * (x * v));
      (a * u) * (x * v);
    }
  }

  lemma {:induction false} ProductNotDivisible(p: int, s: set<nat>)
    requires IsPrime(p) && s <= Units(p)
    ensures !Divides(p, Product(s))
    decreases s
  {
    UnitsRange(p);
    if s == {} {
      if Divides(p, 1) { DividesSmall(p, 1); }
    } else {
      var x :| x in s;
      ProductRemove(s, x);
      ProductNotDivisible(p, s - {x});
      if Divides(p, Product(s)) {
        Euclid(p, x, Product(s - {x}));
        DividesSmall(p, x);
      }
    }
  }

  lemma SubsetOfEqualSize(s: set<nat>, t: set<nat>)
    requires s <= t && |s| == |t|
    ensures s == t
  {
    assert t == s + (t - s);
    assert |t| == |s| + |t - s|;
  }

  /** Fermat's little theorem. */
  lemma Fermat(p: int, a: int)
    requires IsPrime(p) && !Divides(p, a)
    ensures Pow(a, p - 1) % p == 1
  {
    var u := Units(p);
    var n, f := Pow(a, p - 1), Product(u);
    UnitsRange(p);
    ScaledFacts(p, a, u);
    SubsetOfEqualSize(Scaled(u, a, p), u);
    ProductNotDivisible(p, u);
    FermatCancel(p, n, f);
  }

  lemma FermatCancel(p: int, n: int, f: int)
    requires IsPrime(p) && !Divides(p, f) && f % p == n * f % p
    ensures n % p == 1
  {
    CongIsModEq(p, n * f, f);
    assert (n - 1) * f == n * f - f;
    Euclid(p, n - 1, f);
    CongIsModEq(p, n, 1);
    DivModUnique(1, 0, 1, p);
  }
}
