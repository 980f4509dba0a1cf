/** The 2-of-3 split of signing-service/src/frost.rs: 32-byte little-endian scalars with
    carry loops that work modulo 2^256, share evaluation and interpolation at zero. */
module Shamir {
  import opened Arithmetic
  import opened Digits

  const LEN := 32

  /** The machine words of the carry loops; every assignment to one is checked to fit. */
  newtype U16 = x: int | 0 <= x < 0x1_0000
  newtype I16 = x: int | -0x8000 <= x < 0x8000

  /** A 32-byte scalar as a value. */
  type Scalar = s: seq<Byte> | |s| == 32 witness seq(32, _ => 0)

  /** 2^256. */
  ghost function Modulus(): (m: int)
    ensures m > 0
  {
    PowPositive(256, LEN);
    Pow(256, LEN)
  }

  ghost function Num(s: seq<Byte>): int {
    Val(s, 256)
  }

  lemma NumRange(s: seq<Byte>)
    ensures 0 <= Num(s) < Pow(256, |s|)
  {
    ValBound(s, 256);
  }

  // ----- the four helpers -----

  /** The bytes written so far and the carry out of them make up the total; a borrow is a
      negative carry. */
  ghost predicate Balanced(r: seq<Byte>, carry: int, total: int) {
    Num(r) + carry * Pow(256, |r|) == total
  }

  lemma CarryIdentity(v: int, p: int, carry: int, t: int, low: int, next: int)
    requires carry + t == low + 256 * next
    ensures (v + p * low) + next * (256 * p) == (v + carry * p) + p * t
  {
    calc {
      (v + p * low) + next * (256 * p);
      v + p * (low + 256 * next);
      v + p * (carry + t);
      (v + carry * p) + p * t;
    }
  }

  /** One more byte: t is what it adds to the total at its place. */
  lemma CarryByte(r: seq<Byte>, carry: int, total: int, t: int, low: Byte, next: int)
    requires Balanced(r, carry, total) && carry + t == low + 256 * next
    ensures Balanced(r + [low], next, total + Pow(256, |r|) * t)
  {
    ValSnoc(r, low, 256);
    CarryIdentity(Num(r), Pow(256, |r|), carry, t, low, next);
  }

  /** After all bytes the carry is dropped, which reduces the total modulo 2^256. */
  lemma BalancedIsResidue(r: seq<Byte>, carry: int, total: int)
    requires |r| == LEN && Balanced(r, carry, total)
    ensures Num(r) == total % Modulus()
  {
    NumRange(r);
    DivModUnique(total, carry, Num(r), Modulus());
  }

  lemma ProductTotal(a: seq<Byte>, b: int, i: nat)
    requires i < |a|
    ensures Num(a[..i + 1]) * b == Num(a[..i]) * b + Pow(256, i) * (a[i] * b)
  {
    ValPrefix(a, i, 256);
    MulAssoc(Pow(256, i), a[i], b);
  }

  lemma SumTotal(a: seq<Byte>, b: seq<Byte>, i: nat)
    requires i < |a| && i < |b|
    ensures var x: int, y: int := a[i], b[i];
            && Num(a[..i + 1]) + Num(b[..i + 1]) == Num(a[..i]) + Num(b[..i]) + Pow(256, i) * (x + y)
            && Num(a[..i + 1]) - Num(b[..i + 1]) == Num(a[..i]) - Num(b[..i]) + Pow(256, i) * (x - y)
  {
    ValPrefix(a, i, 256);
    ValPrefix(b, i, 256);
    Distribute(Pow(256, i), a[i], b[i]);
  }

  lemma Distribute(p: int, x: int, y: int)
    ensures p * (x + y) == p * x + p * y && p * (x - y) == p * x - p * y
  {
  }

  /** The product of two bytes plus a carry fits two bytes. */
  method MultiplyByte(x: Byte, b: Byte, carry: U16) returns (low: Byte, next: U16)
    requires carry < 256
    ensures next < 256 && carry as int + x * b == low + 256 * next as int
  {
    MulMono(x, 255, b);
    MulMono(0, x, b);
    var prod: U16 := (x as U16) * (b as U16) + carry;
    low, next := prod as int % 256, prod / 256;
  }

  /** Multiply by a byte, modulo 2^256. */
  method ScalarMulSmall(a: Scalar, b: Byte) returns (result: array<Byte>)
    ensures fresh(result) && result.Length == LEN
    ensures Num(result[..]) == Num(a) * b % Modulus()
  {
    result := new Byte[LEN](_ => 0);
    var carry: U16 := 0;
    for i := 0 to LEN
      invariant carry < 256 && Balanced(result[..i], carry as int, Num(a[..i]) * b)
    {
      var low, next := MultiplyByte(a[i], b, carry);
      ghost var before := result[..i];
      CarryByte(before, carry as int, Num(a[..i]) * b, a[i] * b, low, next as int);
      ProductTotal(a, b, i);
      result[i] := low;
      carry := next;
      assert result[..i + 1] == before + [low];
    }
    assert result[..LEN] == result[..] && a[..LEN] == a;
    BalancedIsResidue(result[..], carry as int, Num(a) * b);
  }

  method AddBytes(x: Byte, y: Byte, carry: U16) returns (low: Byte, next: U16)
    requires carry <= 1
    ensures next <= 1 && carry as int + (x as int + y as int) == low as int + 256 * next as int
  {
    var sum: U16 := (x as U16) + (y as U16) + carry;
    low, next := sum as int % 256, sum / 256;
  }

  /** Add in place, modulo 2^256. */
  method ScalarAdd(a: array<Byte>, b: Scalar)
    requires a.Length == LEN
    modifies a
    ensures Num(a[..]) == (Num(old(a[..])) + Num(b)) % Modulus()
  {
    ghost var was := a[..];
    var carry: U16 := 0;
    for i := 0 to LEN
      invariant carry <= 1 && forall k :: i <= k < LEN ==> a[k] == was[k]
      invariant Balanced(a[..i], carry as int, Num(was[..i]) + Num(b[..i]))
    {
      var low, next := AddBytes(a[i], b[i], carry);
      ghost var before := a[..i];
      CarryByte(before, carry as int, Num(was[..i]) + Num(b[..i]), was[i] as int + b[i] as int, low, next as int);
      SumTotal(was, b, i);
      a[i] := low;
      carry := next;
      assert a[..i + 1] == before + [low];
    }
    assert a[..LEN] == a[..] && was[..LEN] == was && b[..LEN] == b;
    BalancedIsResidue(a[..], carry as int, Num(was) + Num(b));
  }

  method SubtractBytes(x: Byte, y: Byte, borrow: I16) returns (low: Byte, next: I16)
    requires 0 <= borrow <= 1
    ensures 0 <= next <= 1 && -(borrow as int) + (x as int - y as int) == low as int + 256 * -(next as int)
  {
    var diff: I16 := (x as I16) - (y as I16) - borrow;
    if diff < 0 {
      low, next := (diff + 256) as int, 1;
    } else {
      low, next := diff as int, 0;
    }
  }

  /** Subtract in place, modulo 2^256. */
  method ScalarSub(a: array<Byte>, b: Scalar)
    requires a.Length == LEN
    modifies a
    ensures Num(a[..]) == (Num(old(a[..])) - Num(b)) % Modulus()
  {
    ghost var was := a[..];
    var borrow: I16 := 0;
    for i := 0 to LEN
      invariant 0 <= borrow <= 1 && forall k :: i <= k < LEN ==> a[k] == was[k]
      invariant Balanced(a[..i], -(borrow as int), Num(was[..i]) - Num(b[..i]))
    {
      var low, next := SubtractBytes(a[i], b[i], borrow);
      ghost var before := a[..i];
      CarryByte(before, -(borrow as int), Num(was[..i]) - Num(b[..i]), was[i] as int - b[i] as int,
                low, -(next as int));
      SumTotal(was, b, i);
      a[i] := low;
      borrow := next;
      assert a[..i + 1] == before + [low];
    }
    assert a[..LEN] == a[..] && was[..LEN] == was && b[..LEN] == b;
    BalancedIsResidue(a[..], -(borrow as int), Num(was) - Num(b));
  }

  lemma NumCons(x: Byte, s: seq<Byte>)
    ensures Num([x] + s) == x + 256 * Num(s)
  {
    assert ([x] + s)[1..] == s;
  }

  /** One step of the long division, from the bytes above position i down to position i. */
  lemma DivStep(was: seq<Byte>, i: nat, high: seq<Byte>, d: int, r: int, q: Byte, rem: int)
    requires i < |was| && Num(was[i + 1..]) == d * Num(high) + r && r * 256 + was[i] == d * q + rem
    ensures Num(was[i..]) == d * Num([q] + high) + rem
  {
    NumCons(q, high);
    NumCons(was[i], was[i + 1..]);
    assert was[i..] == [was[i]] + was[i + 1..];
    DivStepIdentity(Num(high), Num(was[i + 1..]), d, r, was[i], q, rem);
  }

  lemma DivStepIdentity(q: int, v: int, d: int, r: int, digit: int, quot: int, rem: int)
    requires r * 256 + digit == d * quot + rem && v == d * q + r
    ensures digit + 256 * v == d * (quot + 256 * q) + rem
  {
    assert d * (quot + 256 * q) == d * quot + 256 * (d * q);
  }

  /** The quotient of the two-digit dividend fits one byte. */
  method DivideByte(remainder: U16, digit: Byte, d: Byte) returns (quotient: Byte, next: U16)
    requires remainder < d as U16
    ensures next < d as U16 && remainder as int * 256 + digit == d * quotient + next as int
  {
    QuotientFits(remainder as int, digit, d);
    var dividend: U16 := remainder * 256 + digit as U16;
    quotient, next := dividend as int / d, (dividend as int % d) as U16;
  }

  /** Floor division in place by a nonzero byte, from the most significant byte down. */
  method ScalarDivSmall(a: array<Byte>, d: Byte)
    requires a.Length == LEN && d > 0
    modifies a
    ensures Num(a[..]) == Num(old(a[..])) / d
  {
    ghost var was := a[..];
    var remainder: U16 := 0;
    for i := LEN downto 0
      invariant remainder < d as U16 && (forall k :: 0 <= k < i ==> a[k] == was[k])
      invariant Num(was[i..]) == d * Num(a[i..]) + remainder as int
    {
      ghost var high := a[i + 1..];
      var quotient, next := DivideByte(remainder, a[i], d);
      DivStep(was, i, high, d, remainder as int, quotient, next as int);
      a[i] := quotient;
      remainder := next;
      assert a[i..] == [quotient] + high;
    }
    assert a[0..] == a[..] && was[0..] == was;
    DivModUnique(Num(was), Num(a[..]), remainder as int, d);
  }

  lemma QuotientFits(r: int, digit: Byte, d: Byte)
    requires 0 <= r < d
    ensures 0 <= r * 256 + digit < 0x1_0000 && 0 <= (r * 256 + digit) / d < 256
  {
    var n := r * 256 + digit as int;
    DivMod(n, d);
    QuotientBelow(n, n / d, n % d, d, 256);
  }

  lemma QuotientBelow(n: int, q: int, r: int, d: int, b: int)
    requires n == q * d + r && 0 <= r < d && 0 <= n < b * d
    ensures 0 <= q < b
  {
    if q >= b { MulMono(b, q, d); }
    if q < 0 { MulMono(q, -1, d); }
  }

  // ----- shares -----

  datatype Interpolated = Unsupported | Secret(value: array<Byte>)

  predicate SupportedPair(x1: int, x2: int) {
    1 <= x1 <= 3 && 1 <= x2 <= 3 && x1 != x2
  }

  /** The share f(x) = secret + a1 * x. */
  method EvaluatePolynomial(secret: Scalar, a1: Scalar, x: Byte) returns (share: array<Byte>)
    ensures fresh(share) && share.Length == LEN
    ensures Num(share[..]) == Share(Num(secret), Num(a1), x)
    ensures Num(share[..]) == (Num(secret) + Num(a1) * x) % Pow(256, 32)
  {
    share := ScalarMulSmall(a1, x);
    ScalarAdd(share, secret);
    ModAddTwice(Modulus(), Num(a1) * x, Num(secret));
  }

  ghost function Share(secret: int, a1: int, x: int): int {
    (secret + a1 * x) % Modulus()
  }

  lemma ModAddTwice(m: int, x: int, y: int)
    requires m > 0
    ensures (x % m + y) % m == (y + x) % m && (x % m - y) % m == (x - y) % m
  {
    ModCong(m, x);
    assert x + y - (x % m + y) == x - x % m && x - y - (x % m - y) == x - x % m;
    CongIsModEq(m, x + y, x % m + y);
    CongIsModEq(m, x - y, x % m - y);
  }

  /** Interpolation at zero; index pairs outside 1..3 are refused. The out-parameter is the
      floor of (y1 * x2 - y2 * x1 mod 2^256) / |x2 - x1|, with the larger index leading. */
  method LagrangeInterpolate(x1: Byte, y1: Scalar, x2: Byte, y2: Scalar) returns (r: Interpolated)
    ensures r.Unsupported? <==> !SupportedPair(x1, x2)
    ensures r.Secret? ==> fresh(r.value) && r.value.Length == LEN
    ensures r.Secret? ==> Num(r.value[..]) == AtZero(x1, Num(y1), x2, Num(y2))
  {
    if !SupportedPair(x1, x2) {
      return Unsupported;
    }
    var diff: Byte := if x2 > x1 then x2 - x1 else x1 - x2;
    var term1 := ScalarMulSmall(y1, x2);
    var term2 := ScalarMulSmall(y2, x1);
    ghost var n1, n2 := Num(y1) * x2, Num(y2) * x1;
    ModSub(Modulus(), n1, n2);
    ModSub(Modulus(), n2, n1);
    if x2 > x1 {
      ScalarSub(term1, term2[..]);
      ScalarDivSmall(term1, diff);
      return Secret(term1);
    } else {
      ScalarSub(term2, term1[..]);
      ScalarDivSmall(term2, diff);
      return Secret(term2);
    }
  }

  lemma ModSub(m: int, x: int, y: int)
    requires m > 0
    ensures (x % m - y % m) % m == (x - y) % m
  {
    ModCong(m, x);
    ModCong(m, y);
    DividesSum(m, x - x % m, y - y % m);
    assert (x - y) - (x % m - y % m) == (x - x % m) - (y - y % m);
    CongIsModEq(m, x - y, x % m - y % m);
  }

  ghost function AtZero(x1: int, y1: int, x2: int, y2: int): int
    requires x1 != x2
  {
    if x2 > x1 then (y1 * x2 - y2 * x1) % Modulus() / (x2 - x1)
    else (y2 * x1 - y1 * x2) % Modulus() / (x1 - x2)
  }

  /** The coefficient cancels: x2 * f(x1) - x1 * f(x2) is (x2 - x1) * f(0). */
  lemma CoefficientCancels(secret: int, a1: int, x1: int, x2: int)
    ensures (Share(secret, a1, x1) * x2 - Share(secret, a1, x2) * x1) % Modulus()
         == secret * (x2 - x1) % Modulus()
  {
    var m, f1, f2 := Modulus(), secret + a1 * x1, secret + a1 * x2;
    ModMulLeft(m, f1, x2);
    ModMulLeft(m, f2, x1);
    ModSub(m, f1 % m * x2, f2 % m * x1);
    ModSub(m, f1 * x2, f2 * x1);
    assert f1 * x2 - f2 * x1 == secret * (x2 - x1) by {
      assert (secret + a1 * x1) * x2 == secret * x2 + (a1 * x1) * x2;
      assert (secret + a1 * x2) * x1 == secret * x1 + (a1 * x2) * x1;
      assert (a1 * x1) * x2 == (a1 * x2) * x1;
    }
  }

  /** Any two shares of one polynomial, in either order, interpolate to the secret exactly
      when the indices are adjacent, and to the secret modulo 2^255 when they are 1 and 3. */
  lemma SharesRecover(secret: int, a1: int, x1: int, x2: int)
    requires SupportedPair(x1, x2) && 0 <= secret < Modulus()
    ensures var r := AtZero(x1, Share(secret, a1, x1), x2, Share(secret, a1, x2));
            r == if x1 + x2 == 4 then secret % (Modulus() / 2) else secret
  {
    CoefficientCancels(secret, a1, x1, x2);
    CoefficientCancels(secret, a1, x2, x1);
    var d := if x2 > x1 then x2 - x1 else x1 - x2;
    if d == 1 {
      DivModUnique(secret, 0, secret, Modulus());
    } else {
      HalfOfDouble(secret);
    }
  }

  lemma PowNext(b: int, n: nat)
    ensures Pow(b, n + 1) == b * Pow(b, n)
  {
  }

  lemma HalfOf(m: int, n: int)
    requires m == 256 * n && n > 0
    ensures m == 2 * (m / 2) && m / 2 > 0 && m % 2 == 0
  {
    DivModUnique(m, 128 * n, 0, 2);
  }

  lemma ModulusEven()
    ensures Modulus() == 2 * (Modulus() / 2) && Modulus() / 2 > 0 && Modulus() % 2 == 0
  {
    PowNext(256, 31);
    PowPositive(256, 31);
    HalfOf(Modulus(), Pow(256, 31));
  }

  lemma HalfOfDouble(secret: int)
    requires 0 <= secret < Modulus()
    ensures secret * 2 % Modulus() / 2 == secret % (Modulus() / 2)
  {
    ModulusEven();
    var h := Modulus() / 2;
    var q, r := secret / h, secret % h;
    assert secret == q * h + r;
    assert secret * 2 == q * Modulus() + 2 * r;
    DivModUnique(secret * 2, q, 2 * r, Modulus());
  }

  /** From shares 1 and 3 the secret comes back exactly when its top bit is clear. */
  lemma OuterSharesExact(secret: int, a1: int, x1: int, x2: int)
    requires SupportedPair(x1, x2) && x1 + x2 == 4 && 0 <= secret < Modulus()
    ensures AtZero(x1, Share(secret, a1, x1), x2, Share(secret, a1, x2)) == secret <==> secret < Modulus() / 2
  {
    SharesRecover(secret, a1, x1, x2);
    ModulusEven();
    if secret < Modulus() / 2 {
      DivModUnique(secret, 0, secret, Modulus() / 2);
    }
  }

  /** A secret that shares 1 and 3 do not recover: the top bit alone comes back as zero. */
  lemma TopBitIsLost(a1: int)
    ensures AtZero(1, Share(Modulus() / 2, a1, 1), 3, Share(Modulus() / 2, a1, 3)) == 0
  {
    ModulusEven();
    SharesRecover(Modulus() / 2, a1, 1, 3);
    DivModUnique(Modulus() / 2, 1, 0, Modulus() / 2);
  }

  // ----- what one share reveals -----

  /** A coefficient that gives the share y. */
  lemma CoefficientFor(secret: int, x: int, y: int, c: int) returns (a1: int)
    requires 0 <= y < Modulus() && Divides(Modulus(), c * x - (y - secret))
    ensures 0 <= a1 < Modulus() && Share(secret, a1, x) == y
  {
    var m := Modulus();
    a1 := c % m;
    ModMulLeft(m, c, x);
    ModAddTwice(m, a1 * x, secret);
    ModAddTwice(m, c * x, secret);
    assert (secret + c * x) - y == c * x - (y - secret);
    CongIsModEq(m, secret + c * x, y);
    DivModUnique(y, 0, y, m);
  }

  lemma {:induction false} PowModThree(n: nat)
    ensures Pow(256, n) % 3 == 1
  {
    if n > 0 {
      PowModThree(n - 1);
      PowNext(256, n - 1);
    }
  }

  /** The inverse of 3 modulo 2^256. */
  ghost function Third(): (t: int)
    ensures 3 * t == 2 * Modulus() + 1
  {
    PowModThree(LEN);
    ThreeDivides(Modulus());
    (2 * Modulus() + 1) / 3
  }

  lemma ThreeDivides(m: int)
    requires m % 3 == 1
    ensures 3 * ((2 * m + 1) / 3) == 2 * m + 1
  {
  }

  lemma ThirdScales(d: int)
    ensures Divides(Modulus(), d * Third() * 3 - d)
  {
    var m, t := Modulus(), Third();
    MulAssoc(d, t, 3);
    assert d * (t * 3) - d == (2 * d) * m by { Distribute(d, 2 * m, 1); MulAssoc(d, 2, m); assert d * 2 == 2 * d; }
    DividesIntro(m, 2 * d, d * t * 3 - d);
  }

  /** A share at an even place keeps the low bit of the secret. */
  lemma ShareTwoParity(secret: int, a1: int)
    ensures Share(secret, a1, 2) % 2 == secret % 2
  {
    ModulusEven();
    DoubleKeepsParity(secret, a1, Modulus());
  }

  lemma DoubleKeepsParity(secret: int, a1: int, m: int)
    requires m > 0 && m % 2 == 0
    ensures (secret + a1 * 2) % m % 2 == secret % 2
  {
    EvenModulusKeepsParity(secret + a1 * 2, m);
    DoubleIsEven(secret, a1);
  }

  lemma DoubleIsEven(x: int, y: int)
    ensures (x + y * 2) % 2 == x % 2
  {
    DivModUnique(x + y * 2, x / 2 + y, x % 2, 2);
  }

  lemma EvenModulusKeepsParity(n: int, m: int)
    requires m > 0 && m % 2 == 0
    ensures n % m % 2 == n % 2
  {
    DivMod(n, m);
    EvenProduct(n / m, m);
    ParityFrom(n, (n / m) * m, n % m);
  }

  lemma ParityFrom(n: int, even: int, r: int)
    requires n == even + r && even % 2 == 0
    ensures r % 2 == n % 2
  {
  }

  lemma EvenProduct(q: int, m: int)
    requires m % 2 == 0
    ensures q * m % 2 == 0
  {
    var h := m / 2;
    TwiceProduct(q, h, m);
  }

  lemma TwiceProduct(q: int, h: int, m: int)
    requires m == 2 * h
    ensures q * m == 2 * (q * h)
  {
  }

  /** Whatever the key, shares 1 and 3 can be any number; share 2 can be exactly the numbers with
      the low bit of the key. */
  lemma ShareReveals(secret: int, x: int, y: int)
    requires 1 <= x <= 3 && 0 <= y < Modulus()
    ensures (exists a1 :: 0 <= a1 < Modulus() && Share(secret, a1, x) == y) <==> (x == 2 ==> y % 2 == secret % 2)
  {
    var d := y - secret;
    if x == 2 {
      forall a1 | Share(secret, a1, x) == y ensures y % 2 == secret % 2 {
        ShareTwoParity(secret, a1);
      }
      if y % 2 == secret % 2 {
        DividesIntro(Modulus(), 0, 0);
        assert d / 2 * 2 == d;
        var a1 := CoefficientFor(secret, 2, y, d / 2);
      }
    } else if x == 1 {
      DividesIntro(Modulus(), 0, 0);
      var a1 := CoefficientFor(secret, 1, y, d);
    } else {
      ThirdScales(d);
      var a1 := CoefficientFor(secret, 3, y, d * Third());
    }
  }

  lemma SameShare(secret: int, a: int, b: int, x: int)
    requires Share(secret, a, x) == Share(secret, b, x)
    ensures Divides(Modulus(), (a - b) * x)
  {
    assert (secret + a * x) - (secret + b * x) == (a - b) * x;
    CongIsModEq(Modulus(), secret + a * x, secret + b * x);
  }

  /** And each of them by one coefficient only, so that a share with an odd index is as likely
      for one key as for any other. */
  lemma OddShareCoefficient(secret: int, a: int, b: int, x: int)
    requires (x == 1 || x == 3) && 0 <= a < Modulus() && 0 <= b < Modulus()
    requires Share(secret, a, x) == Share(secret, b, x)
    ensures a == b
  {
    var m, d := Modulus(), a - b;
    SameShare(secret, a, b, x);
    if x == 3 {
      ThirdScales(d);
      DividesScale(m, d * 3, Third());
      assert Third() * (d * 3) == d * Third() * 3 by { MulAssoc(d, Third(), 3); MulAssoc(Third(), d, 3);
        assert Third() * d == d * Third(); }
      DividesSum(m, Third() * (d * 3), d * Third() * 3 - d);
    }
    DividesSmall(m, d);
  }

  // ----- signing with two shares -----

  datatype KeyShare = KeyShare(index: Byte, bytes: Scalar, publicKey: seq<Byte>)

  /** What sign_with_shares does with the reconstructed key. */
  datatype Signing = Panicked | DifferentKeys | KeyMismatch | SignedWith(key: Scalar)

  /** derive stands for the Ed25519 map from a secret key to its public key. */
  method SignWithShares(s0: KeyShare, s1: KeyShare, derive: Scalar -> seq<Byte>) returns (r: Signing)
    ensures r.DifferentKeys? <==> s0.publicKey != s1.publicKey
    ensures r.Panicked? <==> s0.publicKey == s1.publicKey && !SupportedPair(s0.index, s1.index)
    ensures r.SignedWith? ==> Num(r.key) == AtZero(s0.index, Num(s0.bytes), s1.index, Num(s1.bytes))
    ensures r.SignedWith? ==> derive(r.key) == s0.publicKey
    ensures r.KeyMismatch? ==>
              exists k: Scalar :: Num(k) == AtZero(s0.index, Num(s0.bytes), s1.index, Num(s1.bytes))
                                  && derive(k) != s0.publicKey
  {
    if s0.publicKey != s1.publicKey {
      return DifferentKeys;
    }
    var secret := LagrangeInterpolate(s0.index, s0.bytes, s1.index, s1.bytes);
    if secret.Unsupported? {
      return Panicked;
    }
    var key: Scalar := secret.value[..];
    if derive(key) != s0.publicKey {
      return KeyMismatch;
    }
    return SignedWith(key);
  }

  method GenerateShares(secret: Scalar, a1: Scalar, derive: Scalar -> seq<Byte>) returns (shares: seq<KeyShare>)
    ensures |shares| == 3
    ensures forall i :: 0 <= i < 3 ==> shares[i].index == i + 1 && shares[i].publicKey == derive(secret)
    ensures forall i :: 0 <= i < 3 ==> Num(shares[i].bytes) == Share(Num(secret), Num(a1), i + 1)
  {
    shares := [];
    for i := 1 to 4
      invariant |shares| == i - 1
      invariant forall k :: 0 <= k < i - 1 ==> shares[k].index == k + 1 && shares[k].publicKey == derive(secret)
      invariant forall k :: 0 <= k < i - 1 ==> Num(shares[k].bytes) == Share(Num(secret), Num(a1), k + 1)
    {
      var share := EvaluatePolynomial(secret, a1, i);
      shares := shares + [KeyShare(i, share[..], derive(secret))];
    }
  }

  lemma ScalarUnique(k: Scalar, l: Scalar)
    requires Num(k) == Num(l)
    ensures k == l
  {
    ValUnique(k, l, 256);
  }

  /** The top bit of the highest byte. */
  predicate TopBit(s: Scalar) {
    s[31] >= 128
  }

  function ClearTopBit(s: Scalar): Scalar {
    if TopBit(s) then s[31 := s[31] - 128] else s
  }

  /** The top bit is worth 2^255. */
  lemma TopBitValue(s: Scalar)
    ensures TopBit(s) <==> Num(s) >= Modulus() / 2
    ensures Num(ClearTopBit(s)) == Num(s) % (Modulus() / 2)
  {
    var low, n := ClearTopBit(s), Pow(256, 31);
    ModulusEven();
    PowNext(256, 31);
    assert Modulus() / 2 == n * 128;
    assert s == s[..31] + [s[31]] && low == s[..31] + [low[31]];
    ValSnoc(s[..31], s[31], 256);
    ValSnoc(s[..31], low[31], 256);
    NumRange(s[..31]);
    NumRange(low);
    TopDigit(Num(s[..31]), n, s[31], low[31]);
    assert 0 <= Num(low) < Modulus() / 2;
    DivModUnique(Num(s), if TopBit(s) then 1 else 0, Num(low), Modulus() / 2);
  }

  lemma TopDigit(v: int, n: int, high: int, low: int)
    requires 0 <= v < n && low == (if high >= 128 then high - 128 else high) && 0 <= low < 128
    ensures 0 <= v + n * low < n * 128
    ensures v + n * high == (v + n * low) + (if high >= 128 then n * 128 else 0)
  {
    MulMono(low, 127, n);
    MulMono(0, low, n);
    if high >= 128 { assert n * high == n * low + n * 128; }
  }

  /** Split a key and sign with any two different shares in any order: the signature is made
      with the original key, except from shares 1 and 3 of a key whose top bit is set. Then the
      reconstructed key is the one without that bit, and the signer refuses unless both keys
      derive the same public key. */
  method SplitAndSign(secret: Scalar, a1: Scalar, i: nat, j: nat, derive: Scalar -> seq<Byte>) returns (r: Signing)
    requires i < 3 && j < 3 && i != j
    ensures r == SignedWith(secret) <==> i + j != 2 || !TopBit(secret)
    ensures i + j == 2 && TopBit(secret) ==>
              r == if derive(ClearTopBit(secret)) == derive(secret) then SignedWith(ClearTopBit(secret))
                   else KeyMismatch
  {
    var shares := GenerateShares(secret, a1, derive);
    r := SignWithShares(shares[i], shares[j], derive);
    ghost var key := if i + j == 2 then ClearTopBit(secret) else secret;
    Reconstructed(secret, Num(a1), i + 1, j + 1);
    if r.SignedWith? { ScalarUnique(r.key, key); }
    if r.KeyMismatch? {
      ghost var k: Scalar :| Num(k) == Num(key) && derive(k) != derive(secret);
      ScalarUnique(k, key);
    }
  }

  /** Interpolation gives the key itself, or the key without its top bit. */
  lemma Reconstructed(secret: Scalar, a1: int, x1: int, x2: int)
    requires SupportedPair(x1, x2)
    ensures AtZero(x1, Share(Num(secret), a1, x1), x2, Share(Num(secret), a1, x2))
         == Num(if x1 + x2 == 4 then ClearTopBit(secret) else secret)
  {
    NumRange(secret);
    SharesRecover(Num(secret), a1, x1, x2);
    TopBitValue(secret);
  }
}
