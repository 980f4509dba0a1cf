/** Bytes, bits and hexadecimal text to and from field elements
    (src/crypto/poseidon2.ts): the two samplers and the commitment encodings. */
module FieldBytes {
  import opened Common
  import opened Arithmetic
  import opened Digits
  import opened GrainLfsr
  import opened Field

  // ----- decoding bytes -----

  /** Little-endian bytes reduced modulo p. The shifted byte never overlaps the bits already
      read, so the source's bitwise or is the addition here. */
  method FromLeBytesModOrder(bytes: seq<Byte>, p: int) returns (r: int)
    requires p > 0
    ensures r == Val(bytes, 256) % p
  {
    var val := 0;
    for i := 0 to |bytes|
      invariant val == Val(bytes[..i], 256) && 0 <= val < Pow(256, i)
    {
      ValPrefix(bytes, i, 256);
      ValBound(bytes[..i + 1], 256);
      val := val + bytes[i] * Pow(256, i);
    }
    assert bytes[..|bytes|] == bytes;
    return val % p;
  }

  method FromBeBytesModOrder(bytes: seq<Byte>, p: int) returns (r: int)
    requires p > 0
    ensures r == BigVal(bytes, 256) % p
  {
    var val := 0;
    for i := 0 to |bytes|
      invariant val == BigVal(bytes[..i], 256)
    {
      assert bytes[..i + 1] == bytes[..i] + [bytes[i]];
      BigValSnoc(bytes[..i], bytes[i], 256);
      val := val * 256 + bytes[i];
    }
    assert bytes[..|bytes|] == bytes;
    return val % p;
  }

  /** Big-endian decoding of the reversed bytes is little-endian decoding. */
  lemma ReversedEndianness(bytes: seq<int>)
    ensures BigVal(Reverse(bytes), 256) == Val(bytes, 256)
  {
    BigValIsVal(Reverse(bytes), 256);
    ReverseReverse(bytes);
  }

  // ----- drawing field elements -----

  /** Bits as binary digits. */
  function BitDigits(bits: seq<bool>): (d: seq<int>)
    ensures |d| == |bits| && IsDigits(d, 2) && forall i :: 0 <= i < |d| ==> d[i] == if bits[i] then 1 else 0
  {
    seq(|bits|, i requires 0 <= i < |bits| => if bits[i] then 1 else 0)
  }

  /** The integer whose binary digits are the next n output bits, first bit drawn highest. */
  ghost function DrawnInteger(seed: seq<bool>, m: nat, n: nat): int
    requires |seed| == SIZE && !AllZero(seed)
  {
    Val(BitDigits(Reverse(Outputs(seed, m, n))), 2)
  }

  /** The first bit drawn is the most significant one. */
  lemma DrawnIsBigEndian(seed: seq<bool>, m: nat, n: nat)
    requires |seed| == SIZE && !AllZero(seed)
    ensures DrawnInteger(seed, m, n) == BigVal(BitDigits(Outputs(seed, m, n)), 2)
  {
    var bits := Outputs(seed, m, n);
    BigValIsVal(BitDigits(bits), 2);
    assert BitDigits(Reverse(bits)) == Reverse(BitDigits(bits));
  }

  method ReverseBits(bits: seq<bool>) returns (r: seq<bool>)
    ensures r == Reverse(bits)
  {
    r := seq(|bits|, i requires 0 <= i < |bits| => bits[|bits| - 1 - i]);
  }

  /** One attempt of the rejection sampler: the drawn integer if it is below p. */
  method RejectionAttempt(reg: Register, n: nat, p: int) returns (r: Option<int>)
    requires reg.Valid()
    modifies reg, reg.state
    ensures reg.Valid() && reg.seed == old(reg.seed) && reg.state == old(reg.state)
    ensures reg.steps + SIZE == Position(reg.seed, old(reg.steps) + SIZE, n)
    ensures var v := DrawnInteger(reg.seed, old(reg.steps) + SIZE, n);
            r == if v < p then Some(v) else None
  {
    var draw := reg.GetBits(n);
    var bits := ReverseBits(draw);
    var val := SumOfBits(bits);
    return if val < p then Some(val) else None;
  }

  method SumOfBits(bits: seq<bool>) returns (val: int)
    ensures val == Val(BitDigits(bits), 2)
  {
    val := 0;
    ghost var d := BitDigits(bits);
    for i := 0 to |bits|
      invariant val == Val(d[..i], 2) && 0 <= val < Pow(2, i)
    {
      ValPrefix(d, i, 2);
      ValBound(d[..i + 1], 2);
      if bits[i] {
        val := val + Pow(2, i);
      }
    }
    assert d[..|bits|] == d;
  }

  /** Setting a bit that may already be set. */
  function SetBit(byte: int, k: nat): int {
    PowPositive(2, k);
    if byte / Pow(2, k) % 2 == 1 then byte else byte + Pow(2, k)
  }

  lemma {:induction false} PlaceOfBit(i: nat)
    ensures Pow(2, i) == Pow(2, i % 8) * Pow(256, i / 8)
    ensures 1 <= Pow(2, i % 8) <= 128
  {
    if i < 8 {
      SmallPowers();
    } else {
      PlaceOfBit(i - 8);
      PowAdd(2, 8, i - 8);
      SmallPowers();
      assert 256 * (Pow(2, i % 8) * Pow(256, i / 8 - 1)) == Pow(2, i % 8) * (256 * Pow(256, i / 8 - 1));
    }
  }

  lemma SmallPowers()
    ensures Pow(2, 0) == 1 && Pow(2, 1) == 2 && Pow(2, 2) == 4 && Pow(2, 3) == 8 && Pow(2, 4) == 16
    ensures Pow(2, 5) == 32 && Pow(2, 6) == 64 && Pow(2, 7) == 128 && Pow(2, 8) == 256
  {
    PowAdd(2, 1, 1);
    PowAdd(2, 2, 2);
    PowAdd(2, 4, 4);
    PowAdd(2, 1, 2);
    PowAdd(2, 4, 1);
    PowAdd(2, 4, 2);
    PowAdd(2, 4, 3);
  }

  /** Packing bits into little-endian bytes keeps the number they spell. */
  method PackBits(bits: seq<bool>) returns (bytes: array<Byte>)
    ensures fresh(bytes) && bytes.Length == (|bits| + 7) / 8
    ensures Val(bytes[..], 256) == Val(BitDigits(bits), 2)
  {
    bytes := new Byte[(|bits| + 7) / 8](_ => 0);
    ghost var d := BitDigits(bits);
    ZeroValue(bytes[..]);
    for i := 0 to |bits|
      invariant Val(bytes[..], 256) == Val(d[..i], 2)
      invariant forall k :: i / 8 < k < bytes.Length ==> bytes[k] == 0
      invariant i / 8 < bytes.Length ==> bytes[i / 8] < Pow(2, i % 8)
    {
      ValPrefix(d, i, 2);
      PlaceOfBit(i);
      NextBitPower(i);
      ghost var was := bytes[..];
      if bits[i] {
        ClearBit(bytes[i / 8], i % 8);
        ValBump(bytes[..], i / 8, Pow(2, i % 8), 256);
        bytes[i / 8] := SetBit(bytes[i / 8], i % 8);
        assert bytes[..] == was[i / 8 := was[i / 8] + Pow(2, i % 8)];
      }
    }
    assert d[..|bits|] == d;
  }

  lemma NextBitPower(i: nat)
    ensures (i + 1) % 8 != 0 ==> (i + 1) / 8 == i / 8 && Pow(2, (i + 1) % 8) == 2 * Pow(2, i % 8)
    ensures (i + 1) % 8 == 0 ==> (i + 1) / 8 == i / 8 + 1 && Pow(2, (i + 1) % 8) == 1
  {
  }

  lemma ClearBit(byte: int, k: nat)
    requires 0 <= byte < Pow(2, k)
    ensures SetBit(byte, k) == byte + Pow(2, k)
  {
    DivModUnique(byte, 0, byte, Pow(2, k));
  }

  lemma {:induction false} ZeroValue(s: seq<Byte>)
    requires forall i :: 0 <= i < |s| ==> s[i] == 0
    ensures Val(s, 256) == 0
  {
    if |s| > 0 { ZeroValue(s[1..]); }
  }

  /** The reducing sampler: on the same draw it returns the rejection sampler's integer
      modulo p. */
  method ModPSample(reg: Register, n: nat, p: int) returns (r: int)
    requires reg.Valid() && p > 0
    modifies reg, reg.state
    ensures reg.Valid() && reg.seed == old(reg.seed) && reg.state == old(reg.state)
    ensures reg.steps + SIZE == Position(reg.seed, old(reg.steps) + SIZE, n)
    ensures r == DrawnInteger(reg.seed, old(reg.steps) + SIZE, n) % p
  {
    var draw := reg.GetBits(n);
    var bits := ReverseBits(draw);
    var bytes := PackBits(bits);
    r := FromLeBytesModOrder(bytes[..], p);
  }

  // ----- hexadecimal commitments -----

  function HexDigit(v: int): char
    requires 0 <= v < 16
  {
    HexCode(v) as char
  }

  function HexValue(c: char): Option<int> {
    HexNumber(c as int)
  }

  /** Two lowercase digits per byte. */
  function ToHex(bytes: seq<Byte>): string {
    if |bytes| == 0 then "" else [HexDigit(bytes[0] / 16), HexDigit(bytes[0] % 16)] + ToHex(bytes[1..])
  }

  /** The two digits of each byte, high digit first, are lowercase. */
  lemma {:induction false} HexAt(bytes: seq<Byte>, i: nat)
    requires i < |bytes|
    ensures |ToHex(bytes)| == 2 * |bytes|
    ensures ToHex(bytes)[2 * i] == "0123456789abcdef"[bytes[i] / 16]
    ensures ToHex(bytes)[2 * i + 1] == "0123456789abcdef"[bytes[i] % 16]
  {
    var rest := ToHex(bytes[1..]);
    assert ToHex(bytes) == [HexDigit(bytes[0] / 16), HexDigit(bytes[0] % 16)] + rest;
    if i > 0 {
      HexAt(bytes[1..], i - 1);
      assert ToHex(bytes)[2 * i] == rest[2 * (i - 1)] && ToHex(bytes)[2 * i + 1] == rest[2 * (i - 1) + 1];
    } else if |bytes| > 1 {
      HexAt(bytes[1..], 0);
    }
  }

  /** Decoding text of whole byte pairs. */
  function FromHex(s: string): Option<seq<Byte>> {
    if |s| == 0 then Some([])
    else if |s| == 1 then None
    else
      var hi, lo, rest := HexValue(s[0]), HexValue(s[1]), FromHex(s[2..]);
      if hi.Some? && lo.Some? && rest.Some? then Some([hi.value * 16 + lo.value] + rest.value) else None
  }

  lemma {:induction false} HexRoundTrip(bytes: seq<Byte>)
    ensures |ToHex(bytes)| == 2 * |bytes| && FromHex(ToHex(bytes)) == Some(bytes)
  {
    if |bytes| > 0 {
      HexRoundTrip(bytes[1..]);
      var s := ToHex(bytes);
      assert s[2..] == ToHex(bytes[1..]);
      assert HexValue(s[0]) == Some(bytes[0] / 16) && HexValue(s[1]) == Some(bytes[0] % 16);
      assert bytes == [bytes[0]] + bytes[1..];
    }
  }

  /** A field element as 64 lowercase hexadecimal characters, low byte first. */
  method BytesToHex32(fr: int, p: int) returns (r: Option<string>)
    ensures r.None? <==> !(0 <= fr < p)
    ensures r.Some? ==> r.value == ToHex(LeBytes(fr, 32)) && |r.value| == 64
    ensures r.Some? ==> forall i :: 0 <= i < 32 ==>
              && r.value[2 * i] == "0123456789abcdef"[LeBytes(fr, 32)[i] / 16]
              && r.value[2 * i + 1] == "0123456789abcdef"[LeBytes(fr, 32)[i] % 16]
  {
    if fr < 0 || fr >= p {
      return None;
    }
    var bytes := ToLeBytes(fr, 32);
    HexRoundTrip(bytes);
    forall i | 0 <= i < 32
      ensures ToHex(bytes)[2 * i] == "0123456789abcdef"[bytes[i] / 16]
      ensures ToHex(bytes)[2 * i + 1] == "0123456789abcdef"[bytes[i] % 16]
    {
      HexAt(bytes, i);
    }
    return Some(ToHex(bytes));
  }

  method ToLeBytes(n: nat, len: nat) returns (bytes: seq<Byte>)
    ensures bytes == LeBytes(n, len)
  {
    bytes := [];
    var val := n;
    for i := 0 to len
      invariant |bytes| == i && val >= 0 && LeBytes(n, len) == bytes + LeBytes(val, len - i)
    {
      LeBytesStep(val, len - i - 1);
      bytes := bytes + [val % 256];
      val := val / 256;
    }
  }

  /** Exactly 32 bytes are accepted, and read as a little-endian number modulo p. */
  method EncodeSalt(salt: seq<Byte>, p: int) returns (r: Option<int>)
    requires p > 0
    ensures r == if |salt| == 32 then Some(Val(salt, 256) % p) else None
  {
    if |salt| != 32 {
      return None;
    }
    var v := FromLeBytesModOrder(salt, p);
    return Some(v);
  }

  /** Decoding the hexadecimal text of a field element as a salt gives the element back. */
  method CommitmentRoundTrip(fr: int, p: int) returns (r: Option<int>)
    requires 0 <= fr < p <= Pow(256, 32)
    ensures r == Some(fr)
  {
    var text := BytesToHex32(fr, p);
    HexRoundTrip(LeBytes(fr, 32));
    r := EncodeSalt(FromHex(text.value).value, p);
    LeBytesExact(fr, 32);
    DivModUnique(fr, 0, fr, p);
  }

  /** The modulus the source fixes fits in 32 bytes. */
  lemma Bn254Fits()
    ensures BN254_P == 0x30644e72e131a029b85045b68181585d2833e84879b9709143e1f593f0000001
    ensures BN254_P <= Pow(256, 32)
  {
    assert Pow(256, 4) == 0x1_0000_0000 by { PowAdd(256, 2, 2); }
    PowAdd(256, 4, 4);
    PowAdd(256, 8, 8);
    PowAdd(256, 16, 16);
  }
}
