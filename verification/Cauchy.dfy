/** Cauchy matrices over a prime field: the 3x3 matrix of inverses 1 / (x[i] + y[j])
    that src/crypto/poseidon2.ts uses as its mixing layer has a trivial kernel. */
module Cauchy {
  import opened Arithmetic

  /** No two of a, b, c are congruent modulo p. */
  predicate Distinct3(a: int, b: int, c: int, p: int) {
    !Divides(p, a - b) && !Divides(p, a - c) && !Divides(p, b - c)
  }

  /** m is an inverse of s modulo p. */
  predicate Inverts(p: int, m: int, s: int) {
    Divides(p, m * s - 1)
  }

  /** The numerator of row x of the matrix, applied to d, vanishes modulo p. */
  predicate KillsRow(p: int, x: int, y1: int, y2: int, y3: int, d1: int, d2: int, d3: int) {
    Divides(p, d1 * ((x + y2) * (x + y3)) + d2 * ((x + y1) * (x + y3)) + d3 * ((x + y1) * (x + y2)))
  }

  /** Multiplying a term by its denominator s and the rest r of the denominators. */
  lemma ClearTerm(p: int, m: int, s: int, d: int, r: int)
    requires Divides(p, m * s - 1)
    ensures Divides(p, (s * r) * (m * d) - d * r)
  {
    DividesScale(p, m * s - 1, d * r);
    calc {
      (d * r) * (m * s - 1);
      (d * r) * (m * s) - d * r;
      {
        Rearrange(d, r, m, s);
        Rearrange(s, r, m, d);
        assert d * m == m * d && r * s == s * r && d * r == r * d && m * s == s * m;
      }
      (s * r) * (m * d) - d * r;
    }
  }

  /** Clearing the denominators of one row: if the m's invert the s's and the row kills d,
      then so does the numerator. */
  lemma ClearRow(p: int, m1: int, m2: int, m3: int, s1: int, s2: int, s3: int, d1: int, d2: int, d3: int)
    requires Inverts(p, m1, s1) && Inverts(p, m2, s2) && Inverts(p, m3, s3)
    requires Divides(p, m1 * d1 + m2 * d2 + m3 * d3)
    ensures Divides(p, d1 * (s2 * s3) + d2 * (s1 * s3) + d3 * (s1 * s2))
  {
    var e1, e2, e3 := m1 * d1, m2 * d2, m3 * d3;
    var r1, r2, r3 := s2 * s3, s1 * s3, s1 * s2;
    var all := s1 * r1;
    assert all == s2 * r2 && all == s3 * r3;
    DividesScale(p, e1 + e2 + e3, all);
    assert all * (e1 + e2 + e3) == all * e1 + all * e2 + all * e3;
    ClearTerm(p, m1, s1, d1, r1);
    ClearTerm(p, m2, s2, d2, r2);
    ClearTerm(p, m3, s3, d3, r3);
    SumOfFour(p, all * (e1 + e2 + e3), all * e1 - d1 * r1, all * e2 - d2 * r2, all * e3 - d3 * r3);
  }

  lemma SumOfFour(p: int, a: int, b: int, c: int, d: int)
    requires Divides(p, a) && Divides(p, b) && Divides(p, c) && Divides(p, d)
    ensures Divides(p, a - b - c - d)
  {
    DividesSum(p, a, b);
    DividesSum(p, a - b, c);
    DividesSum(p, a - b - c, d);
  }

  /** A quadratic with three roots that are distinct modulo p has zero coefficients. */
  lemma ThreeRoots(p: int, a: int, b: int, c: int, x1: int, x2: int, x3: int)
    requires IsPrime(p) && Distinct3(x1, x2, x3, p)
    requires Divides(p, a * (x1 * x1) + b * x1 + c)
    requires Divides(p, a * (x2 * x2) + b * x2 + c)
    requires Divides(p, a * (x3 * x3) + b * x3 + c)
    ensures Divides(p, a) && Divides(p, b) && Divides(p, c)
  {
    LeadingVanishes(p, a, b, c, x1, x2, x3);
    DropMultiple(p, x1 + x2, a, b, a * (x1 + x2) + b);
    DropMultiple(p, x1 * x1, a, b * x1 + c, a * (x1 * x1) + b * x1 + c);
    DropMultiple(p, x1, b, c, b * x1 + c);
  }

  lemma LeadingVanishes(p: int, a: int, b: int, c: int, x1: int, x2: int, x3: int)
    requires IsPrime(p) && Distinct3(x1, x2, x3, p)
    requires Divides(p, a * (x1 * x1) + b * x1 + c)
    requires Divides(p, a * (x2 * x2) + b * x2 + c)
    requires Divides(p, a * (x3 * x3) + b * x3 + c)
    ensures Divides(p, a) && Divides(p, a * (x1 + x2) + b)
  {
    Slope(p, a, b, c, x1, x2);
    Slope(p, a, b, c, x1, x3);
    DividesSum(p, a * (x1 + x2) + b, a * (x1 + x3) + b);
    SlopeDifference(a, b, x1, x2, x3);
    Euclid(p, a, x2 - x3);
  }

  lemma SlopeDifference(a: int, b: int, x1: int, x2: int, x3: int)
    ensures a * (x2 - x3) == a * (x1 + x2) + b - (a * (x1 + x3) + b)
  {
  }

  /** A multiple of p can be dropped from a sum that p divides. */
  lemma DropMultiple(p: int, k: int, u: int, rest: int, sum: int)
    requires Divides(p, u) && Divides(p, sum) && sum == u * k + rest
    ensures Divides(p, rest)
  {
    DividesScale(p, u, k);
    assert k * u == u * k;
    DividesSum(p, sum, k * u);
  }

  lemma Slope(p: int, a: int, b: int, c: int, x: int, y: int)
    requires IsPrime(p) && !Divides(p, x - y)
    requires Divides(p, a * (x * x) + b * x + c) && Divides(p, a * (y * y) + b * y + c)
    ensures Divides(p, a * (x + y) + b)
  {
    DividesSum(p, a * (x * x) + b * x + c, a * (y * y) + b * y + c);
    assert (x - y) * (a * (x + y) + b) == a * (x * x) + b * x + c - (a * (y * y) + b * y + c);
    Euclid(p, x - y, a * (x + y) + b);
  }

  /** The numerator of a Cauchy row as a quadratic in x. */
  lemma NumeratorIdentity(x: int, y1: int, y2: int, y3: int, d1: int, d2: int, d3: int)
    ensures d1 * ((x + y2) * (x + y3)) + d2 * ((x + y1) * (x + y3)) + d3 * ((x + y1) * (x + y2))
         == (d1 + d2 + d3) * (x * x) + (d1 * (y2 + y3) + d2 * (y1 + y3) + d3 * (y1 + y2)) * x
            + (d1 * (y2 * y3) + d2 * (y1 * y3) + d3 * (y1 * y2))
  {
  }

  /** If every coefficient of the numerator vanishes, so does the first component of d. */
  lemma FirstComponent(p: int, y1: int, y2: int, y3: int, d1: int, d2: int, d3: int)
    requires IsPrime(p) && Distinct3(y1, y2, y3, p)
    requires Divides(p, d1 + d2 + d3)
    requires Divides(p, d1 * (y2 + y3) + d2 * (y1 + y3) + d3 * (y1 + y2))
    requires Divides(p, d1 * (y2 * y3) + d2 * (y1 * y3) + d3 * (y1 * y2))
    ensures Divides(p, d1)
  {
    var a, b, c := d1 + d2 + d3, d1 * (y2 + y3) + d2 * (y1 + y3) + d3 * (y1 + y2),
                   d1 * (y2 * y3) + d2 * (y1 * y3) + d3 * (y1 * y2);
    DividesScale(p, a, y1 * y1);
    DividesScale(p, b, y1);
    DividesSum(p, y1 * y1 * a, y1 * b);
    DividesSum(p, y1 * y1 * a - y1 * b, c);
    EvaluateNumerator(y1, y2, y3, d1, d2, d3);
    Euclid(p, d1, (y1 - y2) * (y1 - y3));
    if !Divides(p, d1) { Euclid(p, y1 - y2, y1 - y3); }
  }

  lemma EvaluateNumerator(y1: int, y2: int, y3: int, d1: int, d2: int, d3: int)
    ensures d1 * ((y1 - y2) * (y1 - y3))
         == y1 * y1 * (d1 + d2 + d3) - y1 * (d1 * (y2 + y3) + d2 * (y1 + y3) + d3 * (y1 + y2))
            + (d1 * (y2 * y3) + d2 * (y1 * y3) + d3 * (y1 * y2))
  {
  }

  lemma Negated(p: int, x: int)
    requires Divides(p, x)
    ensures Divides(p, -x)
  {
    DividesScale(p, x, -1);
  }

  lemma Distinct3Permute(a: int, b: int, c: int, p: int)
    requires Distinct3(a, b, c, p) && p > 0
    ensures Distinct3(b, a, c, p) && Distinct3(c, a, b, p)
  {
    if Divides(p, b - a) { Negated(p, b - a); }
    if Divides(p, c - a) { Negated(p, c - a); }
    if Divides(p, c - b) { Negated(p, c - b); }
  }

  /** A vector whose three cleared rows vanish is zero modulo p. */
  lemma CauchyKernel(p: int, x1: int, x2: int, x3: int, y1: int, y2: int, y3: int, d1: int, d2: int, d3: int)
    requires IsPrime(p) && Distinct3(x1, x2, x3, p) && Distinct3(y1, y2, y3, p)
    requires KillsRow(p, x1, y1, y2, y3, d1, d2, d3)
    requires KillsRow(p, x2, y1, y2, y3, d1, d2, d3)
    requires KillsRow(p, x3, y1, y2, y3, d1, d2, d3)
    ensures Divides(p, d1) && Divides(p, d2) && Divides(p, d3)
  {
    var a, b, c := d1 + d2 + d3, d1 * (y2 + y3) + d2 * (y1 + y3) + d3 * (y1 + y2),
                   d1 * (y2 * y3) + d2 * (y1 * y3) + d3 * (y1 * y2);
    NumeratorIdentity(x1, y1, y2, y3, d1, d2, d3);
    NumeratorIdentity(x2, y1, y2, y3, d1, d2, d3);
    NumeratorIdentity(x3, y1, y2, y3, d1, d2, d3);
    ThreeRoots(p, a, b, c, x1, x2, x3);
    FirstComponent(p, y1, y2, y3, d1, d2, d3);
    Distinct3Permute(y1, y2, y3, p);
    Swapped(d1, d2, d3, y1, y2, y3);
    FirstComponent(p, y2, y1, y3, d2, d1, d3);
    FirstComponent(p, y3, y1, y2, d3, d1, d2);
  }

  lemma Swapped(d1: int, d2: int, d3: int, y1: int, y2: int, y3: int)
    ensures d2 * (y1 + y3) + d1 * (y2 + y3) + d3 * (y2 + y1) == d1 * (y2 + y3) + d2 * (y1 + y3) + d3 * (y1 + y2)
    ensures d3 * (y1 + y2) + d1 * (y3 + y2) + d2 * (y3 + y1) == d1 * (y2 + y3) + d2 * (y1 + y3) + d3 * (y1 + y2)
    ensures d2 * (y1 * y3) + d1 * (y2 * y3) + d3 * (y2 * y1) == d1 * (y2 * y3) + d2 * (y1 * y3) + d3 * (y1 * y2)
    ensures d3 * (y1 * y2) + d1 * (y3 * y2) + d2 * (y3 * y1) == d1 * (y2 * y3) + d2 * (y1 * y3) + d3 * (y1 * y2)
  {
  }

  /** A component of d that is zero gives the numerator the root minus its y. */
  lemma ZeroComponent(p: int, y1: int, y2: int, y3: int, d1: int, d2: int, d3: int)
    requires p > 0
    ensures d1 == 0 ==> KillsRow(p, -y1, y1, y2, y3, d1, d2, d3)
    ensures d2 == 0 ==> KillsRow(p, -y2, y1, y2, y3, d1, d2, d3)
    ensures d3 == 0 ==> KillsRow(p, -y3, y1, y2, y3, d1, d2, d3)
  {
    assert -y1 + y1 == 0 && -y2 + y2 == 0 && -y3 + y3 == 0;
    DividesIntro(p, 0, 0);
  }
}
