/** Positional numbers: the value of a sequence of digits, least significant digit first. */
module Digits {
  import opened Arithmetic

  /** A byte, stored as an integer. */
  type Byte = x: int | 0 <= x < 256

  ghost predicate IsDigits(s: seq<int>, b: int) {
    forall i :: 0 <= i < |s| ==> 0 <= s[i] < b
  }

  /** The number whose base-b digits, least significant first, are s. */
  function Val(s: seq<int>, b: int): int {
    if |s| == 0 then 0 else s[0] + b * Val(s[1..], b)
  }

  lemma {:induction false} ValAppend(s: seq<int>, t: seq<int>, b: int)
    ensures Val(s + t, b) == Val(s, b) + Pow(b, |s|) * Val(t, b)
  {
    if |s| == 0 {
      assert s + t == t;
    } else {
      ValAppend(s[1..], t, b);
      assert (s + t)[0] == s[0] && (s + t)[1..] == s[1..] + t;
      HornerStep(b, Val(s[1..], b), Pow(b, |s| - 1), Val(t, b));
    }
  }

  lemma HornerStep(b: int, u: int, v: int, w: int)
    ensures b * (u + v * w) == b * u + (b * v) * w
  {
    MulAssoc(b, v, w);
  }

  lemma ValSnoc(s: seq<int>, d: int, b: int)
    ensures Val(s + [d], b) == Val(s, b) + Pow(b, |s|) * d
  {
    ValAppend(s, [d], b);
    assert Val([d], b) == d + b * Val([d][1..], b) == d;
  }

  /** Extending a prefix by one digit. */
  lemma ValPrefix(s: seq<int>, i: nat, b: int)
    requires i < |s|
    ensures Val(s[..i + 1], b) == Val(s[..i], b) + Pow(b, i) * s[i]
  {
    assert s[..i + 1] == s[..i] + [s[i]];
    ValSnoc(s[..i], s[i], b);
  }

  lemma {:induction false} ValBound(s: seq<int>, b: int)
    requires b > 0 && IsDigits(s, b)
    ensures 0 <= Val(s, b) < Pow(b, |s|)
  {
    if |s| > 0 {
      ValBound(s[1..], b);
      DigitBound(s[0], Val(s[1..], b), Pow(b, |s| - 1), b);
    }
  }

  lemma DigitBound(d: int, v: int, n: int, b: int)
    requires 0 <= d < b && 0 <= v < n
    ensures 0 <= d + b * v < b * n
  {
    MulMono(v + 1, n, b);
    MulMono(0, v, b);
    assert (v + 1) * b == b * v + b && n * b == b * n && v * b == b * v;
  }

  /** The lowest digit and the rest are the remainder and the quotient by the base. */
  lemma ValSplit(s: seq<int>, b: int)
    requires |s| > 0 && IsDigits(s, b)
    ensures b > 0 && Val(s, b) % b == s[0] && Val(s, b) / b == Val(s[1..], b)
  {
    DivModUnique(Val(s, b), Val(s[1..], b), s[0], b);
  }

  /** Digit sequences of one length are determined by their value. */
  lemma {:induction false} ValUnique(s: seq<int>, t: seq<int>, b: int)
    requires |s| == |t| && IsDigits(s, b) && IsDigits(t, b) && Val(s, b) == Val(t, b)
    ensures s == t
  {
    if |s| > 0 {
      ValSplit(s, b);
      ValSplit(t, b);
      ValUnique(s[1..], t[1..], b);
      assert s == [s[0]] + s[1..] && t == [t[0]] + t[1..];
    }
  }

  /** No zero at the most significant end. */
  predicate Minimal(s: seq<int>) {
    |s| > 0 ==> s[|s| - 1] != 0
  }

  lemma {:induction false} ValPositive(s: seq<int>, b: int)
    requires b > 0 && IsDigits(s, b) && Minimal(s) && |s| > 0
    ensures Val(s, b) > 0
  {
    if |s| == 1 {
      assert Val(s[1..], b) == 0;
    } else {
      ValPositive(s[1..], b);
      MulMono(1, Val(s[1..], b), b);
    }
  }

  /** Minimal digit sequences, of any length, are determined by their value. */
  lemma {:induction false} ValUniqueMinimal(s: seq<int>, t: seq<int>, b: int)
    requires b > 0 && IsDigits(s, b) && IsDigits(t, b) && Minimal(s) && Minimal(t) && Val(s, b) == Val(t, b)
    ensures s == t
  {
    if |s| == 0 {
      if |t| > 0 { ValPositive(t, b); }
    } else if |t| == 0 {
      ValPositive(s, b);
    } else {
      ValSplit(s, b);
      ValSplit(t, b);
      ValUniqueMinimal(s[1..], t[1..], b);
      assert s == [s[0]] + s[1..] && t == [t[0]] + t[1..];
    }
  }

  /** The minimal digits of a number. */
  function ToDigits(n: nat, b: int): (s: seq<int>)
    requires b > 1
    decreases n
  {
    if n == 0 then []
    else
      QuotientSmaller(n, b);
      [n % b] + ToDigits(n / b, b)
  }

  lemma QuotientSmaller(n: nat, b: int)
    requires n > 0 && b > 1
    ensures 0 <= n / b < n
  {
    if n / b >= n {
      MulMono(2, b, n / b);
    }
  }

  lemma {:induction false} ToDigitsValue(n: nat, b: int)
    requires b > 1
    ensures IsDigits(ToDigits(n, b), b) && Minimal(ToDigits(n, b)) && Val(ToDigits(n, b), b) == n
    decreases n
  {
    if n > 0 {
      QuotientSmaller(n, b);
      ToDigitsValue(n / b, b);
      var d, rest := n % b, ToDigits(n / b, b);
      DivMod(n, b);
      assert ([d] + rest)[1..] == rest;
      assert n / b * b == b * (n / b);
      if n / b == 0 {
        assert n == d;
      } else {
        assert |rest| > 0;
      }
    }
  }

  ghost function Reverse<T>(s: seq<T>): (r: seq<T>)
    ensures |r| == |s| && forall i :: 0 <= i < |s| ==> r[i] == s[|s| - 1 - i]
  {
    seq(|s|, i requires 0 <= i < |s| => s[|s| - 1 - i])
  }

  lemma ReverseReverse<T>(s: seq<T>)
    ensures Reverse(Reverse(s)) == s
  {
  }

  // ----- most significant digit first -----

  function BigVal(s: seq<int>, b: int): int {
    if |s| == 0 then 0 else BigVal(s[..|s| - 1], b) * b + s[|s| - 1]
  }

  lemma {:induction false} BigValIsVal(s: seq<int>, b: int)
    ensures BigVal(s, b) == Val(Reverse(s), b)
  {
    if |s| > 0 {
      BigValIsVal(s[..|s| - 1], b);
      assert Reverse(s) == [s[|s| - 1]] + Reverse(s[..|s| - 1]);
      assert Reverse(s)[1..] == Reverse(s[..|s| - 1]);
    }
  }

  lemma BigValSnoc(s: seq<int>, d: int, b: int)
    ensures BigVal(s + [d], b) == BigVal(s, b) * b + d
  {
    assert (s + [d])[..|s|] == s;
  }

  // ----- fixed width -----

  /** The low len bytes of a number, least significant first. */
  function LeBytes(n: nat, len: nat): (s: seq<Byte>)
    ensures |s| == len
    decreases len, n
  {
    if len == 0 then [] else [n % 256] + LeBytes(n / 256, len - 1)
  }

  /** Reading the bytes back gives the number modulo 256^len. */
  lemma {:induction false} LeBytesValue(n: nat, len: nat)
    ensures Pow(256, len) > 0 && Val(LeBytes(n, len), 256) == n % Pow(256, len)
    decreases len
  {
    PowPositive(256, len);
    if len > 0 {
      PowPositive(256, len - 1);
      LeBytesValue(n / 256, len - 1);
      var q, p := n / 256, Pow(256, len - 1);
      assert LeBytes(n, len)[1..] == LeBytes(q, len - 1);
      assert q == (q / p) * p + q % p;
      assert n == (q / p) * (256 * p) + (n % 256 + 256 * (q % p)) by {
        assert 256 * ((q / p) * p) == (q / p) * (256 * p);
      }
      DivModUnique(n, q / p, n % 256 + 256 * (q % p), 256 * p);
    }
  }

  lemma LeBytesExact(n: nat, len: nat)
    requires n < Pow(256, len)
    ensures Val(LeBytes(n, len), 256) == n
  {
    LeBytesValue(n, len);
    DivModUnique(n, 0, n, Pow(256, len));
  }

  /** Adding to one digit adds at its place value. */
  lemma {:induction false} ValBump(s: seq<int>, k: nat, d: int, b: int)
    requires k < |s|
    ensures Val(s[k := s[k] + d], b) == Val(s, b) + d * Pow(b, k)
  {
    var t := s[k := s[k] + d];
    if k == 0 {
      assert t[1..] == s[1..];
    } else {
      assert t[1..] == s[1..][k - 1 := s[1..][k - 1] + d];
      ValBump(s[1..], k - 1, d, b);
      BumpStep(b, Val(s[1..], b), d, Pow(b, k - 1));
    }
  }

  lemma BumpStep(b: int, v: int, d: int, p: int)
    ensures b * (v + d * p) == b * v + d * (b * p)
  {
    MulAssoc(b, d, p);
    MulAssoc(d, b, p);
    assert b * d == d * b;
  }

  lemma LeBytesStep(n: nat, len: nat)
    ensures LeBytes(n, len + 1) == [n % 256] + LeBytes(n / 256, len)
  {
  }
}
