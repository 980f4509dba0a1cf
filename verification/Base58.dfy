/** The base-58 decoder of src/issuers/civic.ts, repeated in skill-cert.ts, and the standard
    encoder it inverts. Both are one conversion between bases that keeps leading zeros. */
module Base58 {
  import opened Arithmetic
  import opened Digits

  /** The characters 1-9, A-H, J-N, P-Z, a-k and m-z, in that order. */
  const ALPHABET: string :=
    Range('1', 9) + Range('A', 8) + Range('J', 5) + Range('P', 11) + Range('a', 11) + Range('m', 14)

  function Range(first: char, n: nat): string
    requires first as int + n < 256
  {
    seq(n, i requires 0 <= i < n => (first as int + i) as char)
  }

  // ----- converting between bases -----

  /** The number of zero digits at the front. */
  function LeadingZeros(s: seq<int>): (z: nat)
    ensures z <= |s| && (forall i :: 0 <= i < z ==> s[i] == 0) && (z < |s| ==> s[z] != 0)
  {
    if |s| > 0 && s[0] == 0 then 1 + LeadingZeros(s[1..]) else 0
  }

  function Zeros(z: nat): (s: seq<int>)
    ensures |s| == z && forall i :: 0 <= i < z ==> s[i] == 0
  {
    seq(z, _ => 0)
  }

  /** Base-a digits to base-b digits, most significant first: leading zeros are kept one for
      one, and what follows is the minimal representation of the same number. */
  ghost function Convert(s: seq<int>, a: int, b: int): seq<int>
    requires a > 1 && b > 1 && IsDigits(s, a)
  {
    var z := LeadingZeros(s);
    RestNonNegative(s, a);
    Zeros(z) + Reverse(ToDigits(BigVal(s[z..], a), b))
  }

  lemma RestNonNegative(s: seq<int>, a: int)
    requires a > 1 && IsDigits(s, a)
    ensures BigVal(s[LeadingZeros(s)..], a) >= 0
  {
    var t := s[LeadingZeros(s)..];
    BigValIsVal(t, a);
    ValBound(Reverse(t), a);
  }

  lemma ConvertDigits(s: seq<int>, a: int, b: int)
    requires a > 1 && b > 1 && IsDigits(s, a)
    ensures IsDigits(Convert(s, a, b), b)
  {
    RestNonNegative(s, a);
    ToDigitsValue(BigVal(s[LeadingZeros(s)..], a), b);
  }

  lemma {:induction false} LeadingZerosOf(z: nat, u: seq<int>)
    requires |u| > 0 ==> u[0] != 0
    ensures LeadingZeros(Zeros(z) + u) == z
  {
    if z == 0 {
      assert Zeros(z) + u == u;
    } else {
      LeadingZerosOf(z - 1, u);
      assert (Zeros(z) + u)[1..] == Zeros(z - 1) + u;
    }
  }

  /** A number without leading zeros is its own minimal representation. */
  lemma FromMinimal(t: seq<int>, a: int)
    requires a > 1 && IsDigits(t, a) && (|t| > 0 ==> t[0] != 0)
    ensures BigVal(t, a) >= 0 && Reverse(ToDigits(BigVal(t, a), a)) == t
  {
    BigValIsVal(t, a);
    ValBound(Reverse(t), a);
    ToDigitsValue(BigVal(t, a), a);
    ValUniqueMinimal(ToDigits(BigVal(t, a), a), Reverse(t), a);
    ReverseReverse(t);
  }

  lemma ToMinimal(n: nat, b: int)
    requires b > 1
    ensures var u := Reverse(ToDigits(n, b));
            IsDigits(u, b) && (|u| > 0 ==> u[0] != 0) && BigVal(u, b) == n
  {
    ToDigitsValue(n, b);
    BigValIsVal(Reverse(ToDigits(n, b)), b);
    ReverseReverse(ToDigits(n, b));
  }

  /** Converting there and back is the identity, in either direction. */
  lemma ConvertRoundTrip(s: seq<int>, a: int, b: int)
    requires a > 1 && b > 1 && IsDigits(s, a)
    ensures IsDigits(Convert(s, a, b), b) && Convert(Convert(s, a, b), b, a) == s
  {
    ConvertDigits(s, a, b);
    RestNonNegative(s, a);
    var z := LeadingZeros(s);
    var t := s[z..];
    var n: nat := BigVal(t, a);
    var u := Reverse(ToDigits(n, b));
    ToMinimal(n, b);
    LeadingZerosOf(z, u);
    assert (Zeros(z) + u)[z..] == u;
    FromMinimal(t, a);
    assert s == Zeros(z) + t;
  }

  // ----- characters -----

  datatype Digit = NotADigit | Digit(value: nat)

  /** The lookup table: the alphabet leaves out 0, I, O and l. */
  function DigitOf(c: char): Digit {
    if '1' <= c <= '9' then Digit((c - '1') as nat)
    else if 'A' <= c <= 'H' then Digit(9 + (c - 'A') as nat)
    else if 'J' <= c <= 'N' then Digit(17 + (c - 'J') as nat)
    else if 'P' <= c <= 'Z' then Digit(22 + (c - 'P') as nat)
    else if 'a' <= c <= 'k' then Digit(33 + (c - 'a') as nat)
    else if 'm' <= c <= 'z' then Digit(44 + (c - 'm') as nat)
    else NotADigit
  }

  /** The table is the position in the alphabet. */
  lemma AlphabetPosition(i: nat)
    requires i < 58
    ensures |ALPHABET| == 58 && DigitOf(ALPHABET[i]) == Digit(i)
  {
  }

  /** The alphabet is the ASCII digits and letters in their order, but for 0, I, O and l. */
  lemma AlphabetIs()
    ensures |ALPHABET| == 58 && forall i, j :: 0 <= i < j < 58 ==> ALPHABET[i] < ALPHABET[j]
    ensures forall c :: DigitOf(c).Digit? <==>
              ('0' <= c <= '9' || 'A' <= c <= 'Z' || 'a' <= c <= 'z') && c != '0' && c != 'I' && c != 'O' && c != 'l'
    ensures forall c :: DigitOf(c).Digit? <==> c in ALPHABET
  {
    forall c ensures DigitOf(c).Digit? <==> c in ALPHABET {
      if DigitOf(c).Digit? {
        DigitOfAlphabet(c);
      }
      if c in ALPHABET {
        var i :| 0 <= i < |ALPHABET| && ALPHABET[i] == c;
        AlphabetPosition(i);
      }
    }
  }

  lemma DigitOfAlphabet(c: char)
    requires DigitOf(c).Digit?
    ensures DigitOf(c).value < 58 == |ALPHABET| && ALPHABET[DigitOf(c).value] == c
  {
    AlphabetPosition(DigitOf(c).value);
  }

  predicate Valid(s: string) {
    forall i :: 0 <= i < |s| ==> DigitOf(s[i]).Digit?
  }

  ghost function DigitsOf(s: string): (d: seq<int>)
    requires Valid(s)
    ensures |d| == |s| && IsDigits(d, 58) && forall i :: 0 <= i < |s| ==> d[i] == DigitOf(s[i]).value
  {
    seq(|s|, i requires 0 <= i < |s| => DigitOf(s[i]).value)
  }

  ghost function Spell(d: seq<int>): (s: string)
    requires IsDigits(d, 58)
    ensures |s| == |d| && forall i :: 0 <= i < |d| ==> s[i] == ALPHABET[d[i]]
  {
    seq(|d|, i requires 0 <= i < |d| => ALPHABET[d[i]])
  }

  // ----- specification of the decoder, and the standard encoder -----

  ghost function Decoding(s: string): seq<int>
    requires Valid(s)
  {
    Convert(DigitsOf(s), 58, 256)
  }

  ghost function Encoding(bytes: seq<int>): string
    requires IsDigits(bytes, 256)
  {
    ConvertDigits(bytes, 256, 58);
    Spell(Convert(bytes, 256, 58))
  }

  /** Decoding inverts the standard encoder on every byte string. */
  lemma DecodeAfterEncode(bytes: seq<int>)
    requires IsDigits(bytes, 256)
    ensures Valid(Encoding(bytes)) && Decoding(Encoding(bytes)) == bytes
  {
    ConvertRoundTrip(bytes, 256, 58);
    var d, s := Convert(bytes, 256, 58), Encoding(bytes);
    forall i | 0 <= i < |s| ensures DigitOf(s[i]) == Digit(d[i]) {
      AlphabetPosition(d[i]);
    }
    assert DigitsOf(s) == d;
  }

  /** Encoding what was decoded gives back every valid string, so no two valid strings
      decode to the same bytes. */
  lemma EncodeAfterDecode(s: string)
    requires Valid(s)
    ensures IsDigits(Decoding(s), 256) && Encoding(Decoding(s)) == s
  {
    ConvertRoundTrip(DigitsOf(s), 58, 256);
    forall i | 0 <= i < |s| ensures ALPHABET[DigitsOf(s)[i]] == s[i] {
      DigitOfAlphabet(s[i]);
    }
    assert Spell(DigitsOf(s)) == s;
  }

  /** The decoding is the number: as many leading zero bytes as leading '1' characters, and the
      big-endian value of the bytes is the base-58 value of the string. No other bytes are so. */
  lemma DecodingIff(s: string, bytes: seq<int>)
    requires Valid(s) && IsDigits(bytes, 256)
    ensures bytes == Decoding(s) <==>
              && LeadingZeros(bytes) == LeadingZeros(DigitsOf(s))
              && BigVal(bytes, 256) == BigVal(DigitsOf(s), 58)
  {
    var d := DigitsOf(s);
    ConvertIs(d, 58, 256);
    if LeadingZeros(bytes) == LeadingZeros(d) && BigVal(bytes, 256) == BigVal(d, 58) {
      SameNumber(bytes, Decoding(s), 256);
    }
  }

  /** The leading zero digits of a string are its leading '1' characters. */
  lemma LeadingZerosAreOnes(s: string)
    requires Valid(s)
    ensures forall i :: 0 <= i < LeadingZeros(DigitsOf(s)) ==> s[i] == '1'
    ensures LeadingZeros(DigitsOf(s)) < |s| ==> s[LeadingZeros(DigitsOf(s))] != '1'
  {
    var d := DigitsOf(s);
    forall i | 0 <= i < LeadingZeros(d) ensures s[i] == '1' {
      assert d[i] == 0;
    }
  }

  lemma {:induction false} ZerosInFront(s: seq<int>, b: int)
    ensures BigVal(s, b) == BigVal(s[LeadingZeros(s)..], b)
    decreases |s|
  {
    if |s| > 0 && s[0] == 0 {
      ZerosInFront(s[1..], b);
      assert s[LeadingZeros(s)..] == s[1..][LeadingZeros(s[1..])..];
      ZeroFirst(s, b);
    } else {
      assert s[0..] == s;
    }
  }

  lemma {:induction false} ZeroFirst(s: seq<int>, b: int)
    requires |s| > 0 && s[0] == 0
    ensures BigVal(s, b) == BigVal(s[1..], b)
    decreases |s|
  {
    if |s| == 1 {
      assert s[..0] == [] && s[1..] == [];
    } else {
      ZeroFirst(s[..|s| - 1], b);
      assert s[..|s| - 1][1..] == s[1..][..|s| - 2];
    }
  }

  lemma ConvertIs(s: seq<int>, a: int, b: int)
    requires a > 1 && b > 1 && IsDigits(s, a)
    ensures IsDigits(Convert(s, a, b), b) && LeadingZeros(Convert(s, a, b)) == LeadingZeros(s)
    ensures BigVal(Convert(s, a, b), b) == BigVal(s, a)
  {
    var z := LeadingZeros(s);
    RestNonNegative(s, a);
    var n: nat := BigVal(s[z..], a);
    var u := Reverse(ToDigits(n, b));
    ConvertDigits(s, a, b);
    ToMinimal(n, b);
    LeadingZerosOf(z, u);
    ZerosInFront(s, a);
    ZerosInFront(Convert(s, a, b), b);
    assert (Zeros(z) + u)[z..] == u;
  }

  lemma SameNumber(x: seq<int>, y: seq<int>, b: int)
    requires b > 1 && IsDigits(x, b) && IsDigits(y, b)
    requires LeadingZeros(x) == LeadingZeros(y) && BigVal(x, b) == BigVal(y, b)
    ensures x == y
  {
    var z := LeadingZeros(x);
    ZerosInFront(x, b);
    ZerosInFront(y, b);
    SameTail(x[z..], y[z..], b);
    SameFront(x, y, z);
  }

  lemma SameTail(x: seq<int>, y: seq<int>, b: int)
    requires b > 1 && IsDigits(x, b) && IsDigits(y, b) && BigVal(x, b) == BigVal(y, b)
    requires (|x| > 0 ==> x[0] != 0) && (|y| > 0 ==> y[0] != 0)
    ensures x == y
  {
    FromMinimal(x, b);
    FromMinimal(y, b);
  }

  lemma SameFront(x: seq<int>, y: seq<int>, z: nat)
    requires z <= |x| && z <= |y| && x[z..] == y[z..] && forall i :: 0 <= i < z ==> x[i] == y[i]
    ensures x == y
  {
    assert x == x[..z] + x[z..] && y == y[..z] + y[z..];
  }

  /** Distinct valid strings decode to distinct bytes. */
  lemma DecodeInjective(s: string, t: string)
    requires Valid(s) && Valid(t) && Decoding(s) == Decoding(t)
    ensures s == t
  {
    EncodeAfterDecode(s);
    EncodeAfterDecode(t);
  }

  // ----- the decoder -----

  datatype Decoded = InvalidCharacter | Bytes(value: seq<Byte>)

  /** One carry step keeps place value, carry and product in balance. */
  lemma CarryStep(v: int, w: int, p: int, d: int, carry: int, lo: int, hi: int, r: int)
    requires v + carry * p == w * 58 + r && carry + d * 58 == lo + 256 * hi
    ensures (v + p * lo) + hi * (256 * p) == (w + p * d) * 58 + r
  {
    calc {
      (v + p * lo) + hi * (256 * p);
      v + p * (lo + 256 * hi);
      v + p * (carry + d * 58);
      v + carry * p + p * (d * 58);
      w * 58 + r + (p * d) * 58;
    }
  }

  /** The first inner loop: multiply every byte by 58 and carry upwards. */
  method CarryPass(was: seq<int>, v: nat) returns (bytes: seq<int>, carry: nat)
    requires IsDigits(was, 256) && v < 58
    ensures |bytes| == |was| && IsDigits(bytes, 256) && carry < 58
    ensures Val(bytes, 256) + carry * Pow(256, |bytes|) == Val(was, 256) * 58 + v
    ensures Minimal(was) && carry == 0 ==> Minimal(bytes)
  {
    bytes := was;
    carry := v;
    for j := 0 to |was|
      invariant |bytes| == |was| && carry < 58 && IsDigits(bytes, 256) && bytes[j..] == was[j..]
      invariant Val(bytes[..j], 256) + carry * Pow(256, j) == Val(was[..j], 256) * 58 + v
      invariant j > 0 && carry == 0 && was[j - 1] != 0 ==> bytes[j - 1] != 0
    {
      assert bytes[j] == was[j] by { assert bytes[j..][0] == was[j..][0]; }
      var sum := carry + bytes[j] * 58;
      CarryStep(Val(bytes[..j], 256), Val(was[..j], 256), Pow(256, j), was[j], carry, sum % 256, sum / 256, v);
      assert sum / 256 == 0 && was[j] != 0 ==> sum % 256 != 0;
      var next := bytes[j := sum % 256];
      ValPrefix(next, j, 256);
      ValPrefix(was, j, 256);
      assert next[..j] == bytes[..j];
      bytes, carry := next, sum / 256;
    }
    assert bytes[..|was|] == bytes && was[..|was|] == was;
  }

  /** The list and the carry out of it make up the total. */
  ghost predicate WithCarry(bytes: seq<int>, carry: int, total: int) {
    Val(bytes, 256) + carry * Pow(256, |bytes|) == total
  }

  lemma PushCarry(bytes: seq<int>, carry: int, total: int)
    requires WithCarry(bytes, carry, total)
    ensures WithCarry(bytes + [carry], 0, total)
  {
    ValSnoc(bytes, carry, 256);
  }

  /** The inner loops: multiply the little-endian list by 58, add v, keep it minimal. */
  method MultiplyAdd(was: seq<int>, v: nat) returns (bytes: seq<int>)
    requires IsDigits(was, 256) && Minimal(was) && v < 58
    ensures IsDigits(bytes, 256) && Minimal(bytes)
    ensures Val(bytes, 256) == Val(was, 256) * 58 + v
  {
    var carry: nat;
    bytes, carry := CarryPass(was, v);
    ghost var total := Val(was, 256) * 58 + v;
    while carry > 0
      invariant carry < 58 && IsDigits(bytes, 256) && (carry == 0 ==> Minimal(bytes))
      invariant WithCarry(bytes, carry, total)
    {
      PushCarry(bytes, carry, total);
      bytes := bytes + [carry % 256];
      carry := carry / 256;
    }
  }

  /** The value of the digits from a position on; the list is little-endian and minimal. */
  method DecodeTail(s: string, zeros: nat) returns (ok: bool, bytes: seq<int>)
    requires zeros <= |s| && Valid(s[..zeros])
    ensures ok <==> Valid(s)
    ensures ok ==> IsDigits(bytes, 256) && Minimal(bytes) && Val(bytes, 256) == BigVal(DigitsOf(s[zeros..]), 58)
  {
    bytes := [];
    for i := zeros to |s|
      invariant Valid(s[..i]) && IsDigits(bytes, 256) && Minimal(bytes)
      invariant Val(bytes, 256) == BigVal(DigitsOf(s[zeros..i]), 58)
    {
      var v := DigitOf(s[i]);
      if v.NotADigit? {
        return false, bytes;
      }
      DigitsGrow(s, zeros, i);
      bytes := MultiplyAdd(bytes, v.value);
    }
    assert s[..|s|] == s && s[zeros..|s|] == s[zeros..];
    return true, bytes;
  }

  lemma DigitsGrow(s: string, zeros: nat, i: nat)
    requires zeros <= i < |s| && Valid(s[..i]) && DigitOf(s[i]).Digit?
    ensures Valid(s[zeros..i]) && Valid(s[zeros..i + 1]) && Valid(s[..i + 1]) && DigitOf(s[i]).value < 58
    ensures BigVal(DigitsOf(s[zeros..i + 1]), 58) == BigVal(DigitsOf(s[zeros..i]), 58) * 58 + DigitOf(s[i]).value
  {
    assert forall k :: zeros <= k < i ==> s[k] == s[..i][k];
    assert s[zeros..i + 1] == s[zeros..i] + [s[i]];
    DigitsSnoc(s[zeros..i], s[i]);
    BigValSnoc(DigitsOf(s[zeros..i]), DigitOf(s[i]).value, 58);
  }

  lemma DigitsSnoc(s: string, c: char)
    requires Valid(s) && DigitOf(c).Digit?
    ensures Valid(s + [c]) && DigitsOf(s + [c]) == DigitsOf(s) + [DigitOf(c).value]
  {
  }

  /** Zero bytes followed by the list in reverse. */
  method Assemble(zeros: nat, bytes: seq<int>) returns (value: seq<Byte>)
    requires IsDigits(bytes, 256)
    ensures value == Zeros(zeros) + Reverse(bytes)
  {
    var out := new Byte[zeros + |bytes|](_ => 0);
    for i := 0 to |bytes|
      invariant forall k :: 0 <= k < zeros ==> out[k] == 0
      invariant forall k :: zeros <= k < zeros + i ==> out[k] == bytes[|bytes| - 1 - (k - zeros)]
    {
      out[zeros + i] := bytes[|bytes| - 1 - i];
    }
    return out[..];
  }

  /** The decoder refuses exactly the strings with a character outside the alphabet, and
      otherwise returns one zero byte per leading '1' followed by the minimal big-endian
      bytes of the base-58 number. */
  method Base58Decode(s: string) returns (r: Decoded)
    ensures r.InvalidCharacter? <==> !Valid(s)
    ensures r.Bytes? ==> r.value == Decoding(s)
  {
    if |s| == 0 {
      return Bytes([]);
    }
    var zeros := 0;
    while zeros < |s| && s[zeros] == '1'
      invariant zeros <= |s| && forall i :: 0 <= i < zeros ==> s[i] == '1'
    {
      zeros := zeros + 1;
    }
    var ok, bytes := DecodeTail(s, zeros);
    if !ok {
      return InvalidCharacter;
    }
    LeadingOnes(s, zeros);
    DecodedValue(DigitsOf(s), bytes);
    var value := Assemble(zeros, bytes);
    return Bytes(value);
  }

  /** Only '1' has digit zero. */
  lemma LeadingOnes(s: string, zeros: nat)
    requires Valid(s) && zeros <= |s| && forall i :: 0 <= i < zeros ==> s[i] == '1'
    requires zeros < |s| ==> s[zeros] != '1'
    ensures LeadingZeros(DigitsOf(s)) == zeros && DigitsOf(s[zeros..]) == DigitsOf(s)[zeros..]
  {
    var d := DigitsOf(s);
    assert forall i :: 0 <= i < zeros ==> d[i] == 0;
    assert zeros < |s| ==> d[zeros] != 0;
  }

  lemma DecodedValue(d: seq<int>, bytes: seq<int>)
    requires IsDigits(d, 58) && IsDigits(bytes, 256) && Minimal(bytes)
    requires Val(bytes, 256) == BigVal(d[LeadingZeros(d)..], 58)
    ensures Convert(d, 58, 256) == Zeros(LeadingZeros(d)) + Reverse(bytes)
  {
    RestNonNegative(d, 58);
    var n: nat := Val(bytes, 256);
    ToDigitsValue(n, 256);
    ValUniqueMinimal(ToDigits(n, 256), bytes, 256);
  }
}
