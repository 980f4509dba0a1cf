/** UTF-16 text and the leaves of canonical JSON: comparison by code units, decimal integers
    and quoted strings (src/issuers/bank-mock.ts). */
module JsonText {
  import opened Common
  import Digits

  type CodeUnit = x: int | 0 <= x < 0x1_0000
  type Text = seq<CodeUnit>

  // ----- order by code units -----

  /** a precedes b in the order of section 3.2.3 of RFC 8785. */
  predicate Less(a: Text, b: Text) {
    |b| > 0 && (|a| == 0 || a[0] < b[0] || (a[0] == b[0] && Less(a[1..], b[1..])))
  }

  lemma {:induction false} LessIrreflexive(a: Text)
    ensures !Less(a, a)
  {
    if |a| > 0 { LessIrreflexive(a[1..]); }
  }

  lemma {:induction false} LessTransitive(a: Text, b: Text, c: Text)
    requires Less(a, b) && Less(b, c)
    ensures Less(a, c)
  {
    if |a| > 0 && a[0] == b[0] && b[0] == c[0] {
      LessTransitive(a[1..], b[1..], c[1..]);
    }
  }

  lemma {:induction false} LessTotal(a: Text, b: Text)
    ensures Less(a, b) || Less(b, a) || a == b
  {
    if |a| > 0 && |b| > 0 && a[0] == b[0] {
      LessTotal(a[1..], b[1..]);
      assert a == [a[0]] + a[1..] && b == [b[0]] + b[1..];
    }
  }

  lemma LessAsymmetric(a: Text, b: Text)
    requires Less(a, b)
    ensures !Less(b, a) && a != b
  {
    LessIrreflexive(a);
    if Less(b, a) { LessTransitive(a, b, a); }
  }

  /** The comparison after a common prefix is the comparison of the rests. */
  lemma {:induction false} LessAfterPrefix(a: Text, b: Text, i: nat)
    requires i <= |a| && i <= |b| && a[..i] == b[..i]
    ensures Less(a, b) <==> Less(a[i..], b[i..])
  {
    if i > 0 {
      assert a[0] == a[..i][0] == b[..i][0] == b[0];
      assert a[1..][..i - 1] == a[..i][1..] && b[1..][..i - 1] == b[..i][1..];
      LessAfterPrefix(a[1..], b[1..], i - 1);
      assert a[1..][i - 1..] == a[i..] && b[1..][i - 1..] == b[i..];
    } else {
      assert a[0..] == a && b[0..] == b;
    }
  }

  /** The order of section 3.2.3 of RFC 8785 position by position: at the first position where the
      texts differ the smaller code unit comes first, and a proper prefix comes first. */
  ghost predicate Precedes(a: Text, b: Text) {
    || (|a| < |b| && a == b[..|a|])
    || (exists i :: 0 <= i < |a| && i < |b| && FirstDifference(a, b, i) && a[i] < b[i])
  }

  ghost predicate FirstDifference(a: Text, b: Text, i: nat) {
    i < |a| && i < |b| && a[..i] == b[..i] && a[i] != b[i]
  }

  lemma LessAtDifference(a: Text, b: Text, i: nat)
    requires FirstDifference(a, b, i)
    ensures Less(a, b) <==> a[i] < b[i]
  {
    LessAfterPrefix(a, b, i);
  }

  lemma PrefixIsLess(a: Text, b: Text)
    requires |a| < |b| && a == b[..|a|]
    ensures Less(a, b)
  {
    assert a[..|a|] == a;
    LessAfterPrefix(a, b, |a|);
  }

  lemma {:induction false} DifferenceOf(a: Text, b: Text) returns (i: nat)
    requires Less(a, b) && !(|a| < |b| && a == b[..|a|])
    ensures FirstDifference(a, b, i)
  {
    if a[0] != b[0] {
      i := 0;
    } else {
      if |a| < |b| && a[1..] == b[1..][..|a| - 1] { PrefixCons(a, b); }
      var j := DifferenceOf(a[1..], b[1..]);
      i := j + 1;
      assert a[..i] == [a[0]] + a[1..][..i - 1] && b[..i] == [b[0]] + b[1..][..i - 1];
    }
  }

  lemma PrefixCons(a: Text, b: Text)
    requires |a| > 0 && |b| > 0 && a[0] == b[0] && |a| < |b| && a[1..] == b[1..][..|a| - 1]
    ensures a == b[..|a|]
  {
    assert a == [a[0]] + a[1..] && b[..|a|] == [b[0]] + b[1..][..|a| - 1];
  }

  /** The recursive comparison is that order. */
  lemma LessIsPrecedes(a: Text, b: Text)
    ensures Less(a, b) <==> Precedes(a, b)
  {
    if |a| < |b| && a == b[..|a|] {
      PrefixIsLess(a, b);
    } else if Less(a, b) {
      var i := DifferenceOf(a, b);
      LessAtDifference(a, b, i);
    }
    forall i: nat | FirstDifference(a, b, i) && a[i] < b[i] ensures Less(a, b) {
      LessAtDifference(a, b, i);
    }
  }

  /** The comparator passed to the key sort: its sign is a total order on texts. */
  method CompareUtf16(a: Text, b: Text) returns (r: int)
    ensures r < 0 <==> Less(a, b)
    ensures r > 0 <==> Less(b, a)
    ensures r == 0 <==> a == b
    ensures r < 0 <==> Precedes(a, b)
    ensures r > 0 <==> Precedes(b, a)
  {
    LessIsPrecedes(a, b);
    LessIsPrecedes(b, a);
    var len := if |a| < |b| then |a| else |b|;
    LessTotal(a, b);
    if Less(a, b) { LessAsymmetric(a, b); }
    if Less(b, a) { LessAsymmetric(b, a); }
    for i := 0 to len
      invariant a[..i] == b[..i]
    {
      var ca: int, cb: int := a[i], b[i];
      if ca != cb {
        LessAfterPrefix(a, b, i);
        LessAfterPrefix(b, a, i);
        return ca - cb;
      }
      assert a[..i + 1] == a[..i] + [a[i]] && b[..i + 1] == b[..i] + [b[i]];
    }
    LessAfterPrefix(a, b, len);
    LessAfterPrefix(b, a, len);
    if |a| == |b| { assert a == a[..len] && b == b[..len]; }
    return |a| - |b|;
  }

  // ----- integers -----

  predicate IsDigit(c: CodeUnit) {
    0x30 <= c <= 0x39
  }

  predicate StartsWithDigit(t: Text) {
    |t| > 0 && IsDigit(t[0])
  }

  /** The decimal digits of a number, most significant first, zero as one digit. */
  function Spelled(n: nat): (t: Text)
    ensures |t| > 0 && forall i :: 0 <= i < |t| ==> IsDigit(t[i])
  {
    Digits.ToDigitsValue(n, 10);
    var d := Digits.ToDigits(n, 10);
    if n == 0 then [0x30] else seq(|d|, i requires 0 <= i < |d| => 0x30 + d[|d| - 1 - i])
  }

  /** Number.prototype.toString on an integer of magnitude up to 2^53. */
  function Decimal(n: int): Text {
    if n < 0 then [0x2D] + Spelled(-n) else Spelled(n)
  }

  lemma LeadingDigit(n: nat)
    ensures Spelled(n)[0] == 0x30 <==> n == 0
  {
    Digits.ToDigitsValue(n, 10);
    var d := Digits.ToDigits(n, 10);
    if n > 0 { assert Spelled(n)[0] == 0x30 + d[|d| - 1]; }
  }

  /** The digits spell the number, without a leading zero. */
  lemma SpelledValue(n: nat)
    ensures n == 0 ==> Spelled(n) == [0x30]
    ensures n > 0 ==> Spelled(n)[0] != 0x30
    ensures Digits.BigVal(DigitValues(Spelled(n)), 10) == n
  {
    LeadingDigit(n);
    Digits.ToDigitsValue(n, 10);
    var d, v := Digits.ToDigits(n, 10), DigitValues(Spelled(n));
    if n > 0 {
      Digits.BigValIsVal(v, 10);
      assert Digits.Reverse(v) == d;
    } else {
      assert v == [0] && v[..0] == [];
    }
  }

  ghost function DigitValues(t: Text): (d: seq<int>)
    ensures |d| == |t| && forall i :: 0 <= i < |t| ==> d[i] == t[i] as int - 0x30
  {
    seq(|t|, i requires 0 <= i < |t| => t[i] as int - 0x30)
  }

  lemma SpelledInjective(a: nat, b: nat)
    requires Spelled(a) == Spelled(b)
    ensures a == b
  {
    Digits.ToDigitsValue(a, 10);
    Digits.ToDigitsValue(b, 10);
    LeadingDigit(a);
    LeadingDigit(b);
    var c, d := Digits.ToDigits(a, 10), Digits.ToDigits(b, 10);
    if a > 0 && b > 0 {
      forall i | 0 <= i < |c| ensures c[i] == d[i] {
        assert Spelled(a)[|c| - 1 - i] == Spelled(b)[|c| - 1 - i];
      }
      assert c == d;
    }
  }

  function At(t: Text, i: int): CodeUnit {
    if 0 <= i < |t| then t[i] else 0
  }

  /** Digits followed by something that is not a digit can be split in one way only. */
  lemma {:induction false} DigitRun(a: Text, r: Text, b: Text, t: Text)
    requires a + r == b + t && !StartsWithDigit(r) && !StartsWithDigit(t)
    requires forall i :: 0 <= i < |a| ==> IsDigit(a[i])
    requires forall i :: 0 <= i < |b| ==> IsDigit(b[i])
    ensures a == b && r == t
  {
    var x, y := a + r, b + t;
    assert At(x, |a|) == At(r, 0) && At(y, |b|) == At(t, 0);
    assert |a| < |b| ==> At(y, |a|) == At(b, |a|);
    assert |b| < |a| ==> At(x, |b|) == At(a, |b|);
    assert a == x[..|a|] && b == y[..|b|] && r == x[|a|..] && t == y[|b|..];
  }

  lemma DecimalUnambiguous(n: int, r: Text, m: int, t: Text)
    requires Decimal(n) + r == Decimal(m) + t && !StartsWithDigit(r) && !StartsWithDigit(t)
    ensures n == m && r == t
  {
    var a, b := if n < 0 then -n else n, if m < 0 then -m else m;
    DecimalParts(n, r);
    DecimalParts(m, t);
    DigitRun(Spelled(a), r, Spelled(b), t);
    SpelledInjective(a, b);
  }

  lemma DecimalParts(n: int, r: Text)
    ensures n < 0 <==> (Decimal(n) + r)[0] == 0x2D
    ensures n < 0 ==> (Decimal(n) + r)[1..] == Spelled(-n) + r
  {
    if n < 0 {
      assert [0x2D] + Spelled(-n) + r == [0x2D] + (Spelled(-n) + r);
    }
  }

  // ----- strings -----

  predicate IsHigh(c: CodeUnit) {
    0xD800 <= c < 0xDC00
  }

  predicate IsLow(c: CodeUnit) {
    0xDC00 <= c < 0xE000
  }

  function HexDigit(v: int): CodeUnit
    requires 0 <= v < 16
  {
    HexCode(v)
  }

  function HexValue(c: CodeUnit): (v: int)
    ensures 0 <= v < 16
  {
    var n := HexNumber(c);
    if n.Some? then n.value else 0
  }

  /** Backslash, u and four lowercase hexadecimal digits. */
  function UnicodeEscape(c: CodeUnit): Text {
    [0x5C, 0x75, HexDigit(c / 0x1000), HexDigit(c / 0x100 % 16), HexDigit(c / 0x10 % 16), HexDigit(c % 16)]
  }

  /** What JSON.stringify writes for one code unit that is not part of a surrogate pair. */
  function Escape(c: CodeUnit): Text {
    if c == 0x22 || c == 0x5C then [0x5C, c]
    else if c == 0x08 then [0x5C, 0x62]
    else if c == 0x09 then [0x5C, 0x74]
    else if c == 0x0A then [0x5C, 0x6E]
    else if c == 0x0C then [0x5C, 0x66]
    else if c == 0x0D then [0x5C, 0x72]
    else if c < 0x20 || IsHigh(c) || IsLow(c) then UnicodeEscape(c)
    else [c]
  }

  /** The inside of a quoted string: surrogate pairs are kept, lone surrogates escaped. */
  function Escaped(s: Text): Text {
    if |s| == 0 then []
    else if |s| > 1 && IsHigh(s[0]) && IsLow(s[1]) then [s[0], s[1]] + Escaped(s[2..])
    else Escape(s[0]) + Escaped(s[1..])
  }

  function Quote(s: Text): Text {
    [0x22] + Escaped(s) + [0x22]
  }

  /** The escapes of section 3.2.2.2 of RFC 8785: two-character forms for seven characters, four
      lowercase hexadecimal digits for the other control characters. */
  lemma EscapeTable(c: CodeUnit)
    ensures Escape(0x08) == ['\\' as int, 'b' as int] && Escape(0x09) == ['\\' as int, 't' as int]
    ensures Escape(0x0A) == ['\\' as int, 'n' as int] && Escape(0x0C) == ['\\' as int, 'f' as int]
    ensures Escape(0x0D) == ['\\' as int, 'r' as int]
    ensures Escape('"' as int) == ['\\' as int, '"' as int] && Escape('\\' as int) == ['\\' as int, '\\' as int]
    ensures c < 0x20 && c != 0x08 && c != 0x09 && c != 0x0A && c != 0x0C && c != 0x0D ==>
              Escape(c) == ['\\' as int, 'u' as int] + HexDigits(c)
  {
    if c < 0x20 { HexEscape(c); }
  }

  lemma HexEscape(c: CodeUnit)
    ensures UnicodeEscape(c) == ['\\' as int, 'u' as int] + HexDigits(c)
  {
  }

  /** Printable characters other than quote and backslash, and outside surrogates. */
  predicate IsPlain(c: CodeUnit) {
    c >= 0x20 && c != 0x22 && c != 0x5C && !IsHigh(c) && !IsLow(c)
  }

  /** Plain text and surrogate pairs are printed as they are. */
  lemma {:induction false} PlainKept(s: Text, t: Text)
    requires forall i :: 0 <= i < |s| ==> IsPlain(s[i])
    ensures Escaped(s + t) == s + Escaped(t)
  {
    if |s| == 0 {
      assert s + t == t;
    } else {
      PlainKept(s[1..], t);
      FirstPlain(s[0], s[1..] + t);
      ConsApart(s, t);
      ConsApart(s, Escaped(t));
    }
  }

  lemma FirstPlain(c: CodeUnit, t: Text)
    requires IsPlain(c)
    ensures Escaped([c] + t) == [c] + Escaped(t)
  {
    assert ([c] + t)[1..] == t;
  }

  lemma ConsApart(s: Text, t: Text)
    requires |s| > 0
    ensures s + t == [s[0]] + (s[1..] + t)
  {
  }

  lemma PairKept(high: CodeUnit, low: CodeUnit, t: Text)
    requires IsHigh(high) && IsLow(low)
    ensures Escaped([high, low] + t) == [high, low] + Escaped(t)
  {
    assert ([high, low] + t)[2..] == t;
  }

  /** Any other character is printed as its escape; a lone surrogate as four hexadecimal digits. */
  lemma OthersEscaped(c: CodeUnit, t: Text)
    requires !(IsHigh(c) && |t| > 0 && IsLow(t[0]))
    ensures Escaped([c] + t) == Escape(c) + Escaped(t)
    ensures IsHigh(c) || IsLow(c) ==> Escape(c) == ['\\' as int, 'u' as int] + HexDigits(c)
  {
    HexEscape(c);
    ConsFacts(c, t);
    FirstAlone([c] + t);
  }

  lemma ConsFacts(c: CodeUnit, t: Text)
    ensures ([c] + t)[0] == c && ([c] + t)[1..] == t && (|t| > 0 ==> ([c] + t)[1] == t[0])
  {
  }

  lemma FirstAlone(s: Text)
    requires |s| > 0 && !(|s| > 1 && IsHigh(s[0]) && IsLow(s[1]))
    ensures Escaped(s) == Escape(s[0]) + Escaped(s[1..])
  {
  }

  function HexDigits(c: CodeUnit): Text {
    ["0123456789abcdef"[c / 4096] as int, "0123456789abcdef"[c / 256 % 16] as int,
     "0123456789abcdef"[c / 16 % 16] as int, "0123456789abcdef"[c % 16] as int]
  }

  datatype Scanned = Malformed | Scanned(text: Text, rest: Text)

  /** A reader for the inside of a quoted string, up to the closing quote. */
  ghost function Scan(t: Text): Scanned {
    if |t| == 0 then Malformed
    else if t[0] == 0x22 then Scanned([], t[1..])
    else if t[0] != 0x5C then Push(t[0], Scan(t[1..]))
    else if |t| < 2 then Malformed
    else if t[1] == 0x75 then
      if |t| < 6 then Malformed
      else Push(FromHex(t[2], t[3], t[4], t[5]), Scan(t[6..]))
    else Push(Unescape(t[1]), Scan(t[2..]))
  }

  function Push(c: CodeUnit, r: Scanned): Scanned {
    if r.Malformed? then r else Scanned([c] + r.text, r.rest)
  }

  function FromHex(a: CodeUnit, b: CodeUnit, c: CodeUnit, d: CodeUnit): CodeUnit {
    ((HexValue(a) * 16 + HexValue(b)) * 16 + HexValue(c)) * 16 + HexValue(d)
  }

  function Unescape(c: CodeUnit): CodeUnit {
    if c == 0x62 then 0x08 else if c == 0x74 then 0x09 else if c == 0x6E then 0x0A
    else if c == 0x66 then 0x0C else if c == 0x72 then 0x0D else c
  }

  lemma ScanShort(c: CodeUnit, t: Text)
    requires c != 0x75
    ensures Scan([0x5C, c] + t) == Push(Unescape(c), Scan(t))
  {
    assert ([0x5C, c] + t)[2..] == t;
  }

  lemma ScanUnicode(c: CodeUnit, t: Text)
    ensures Scan(UnicodeEscape(c) + t) == Push(c, Scan(t))
  {
    assert (UnicodeEscape(c) + t)[6..] == t;
    HexInverse(c);
  }

  lemma ScanEscape(c: CodeUnit, t: Text)
    ensures Scan(Escape(c) + t) == Push(c, Scan(t))
  {
    var e := Escape(c);
    if |e| == 6 {
      ScanUnicode(c, t);
    } else if |e| == 2 {
      ScanShort(e[1], t);
    } else {
      ScanPlain(c, t);
    }
  }

  lemma Nibbles(c: CodeUnit)
    ensures ((c / 0x1000 * 16 + c / 0x100 % 16) * 16 + c / 0x10 % 16) * 16 + c % 16 == c
  {
    assert c / 0x100 == (c / 0x10) / 0x10 && c / 0x1000 == (c / 0x100) / 0x10;
  }

  lemma HexInverse(c: CodeUnit)
    ensures FromHex(HexDigit(c / 0x1000), HexDigit(c / 0x100 % 16), HexDigit(c / 0x10 % 16), HexDigit(c % 16)) == c
  {
    HexDigitInverse(c / 0x1000);
    HexDigitInverse(c / 0x100 % 16);
    HexDigitInverse(c / 0x10 % 16);
    HexDigitInverse(c % 16);
    Nibbles(c);
  }

  lemma HexDigitInverse(v: int)
    requires 0 <= v < 16
    ensures HexValue(HexDigit(v)) == v
  {
  }

  lemma ScanPlain(c: CodeUnit, t: Text)
    requires c != 0x22 && c != 0x5C
    ensures Scan([c] + t) == Push(c, Scan(t))
  {
    assert ([c] + t)[1..] == t;
  }

  lemma ScanPair(s: Text, tail: Text, r: Text)
    requires |s| > 1 && IsHigh(s[0]) && IsLow(s[1])
    requires Scan(Escaped(s[2..]) + tail) == Scanned(s[2..], r)
    ensures Scan(Escaped(s) + tail) == Scanned(s, r)
  {
    var rest := Escaped(s[2..]) + tail;
    ScanPlain(s[1], rest);
    ScanPlain(s[0], [s[1]] + rest);
    SplitPair(s[0], s[1], Escaped(s[2..]), tail);
    JoinPair(s);
  }

  lemma SplitPair(a: CodeUnit, b: CodeUnit, x: Text, t: Text)
    ensures [a, b] + x + t == [a] + ([b] + (x + t))
  {
  }

  lemma JoinPair(s: Text)
    requires |s| > 1
    ensures [s[0]] + ([s[1]] + s[2..]) == s
  {
  }

  lemma Associate(a: Text, b: Text, c: Text)
    ensures (a + b) + c == a + (b + c)
  {
  }

  lemma ScanJoin(c: CodeUnit, e: Text, rest: Text, tail: Text, u: Text, r: Text)
    requires Scan(e + (rest + tail)) == Push(c, Scan(rest + tail)) && Scan(rest + tail) == Scanned(u, r)
    ensures Scan((e + rest) + tail) == Scanned([c] + u, r)
  {
    Associate(e, rest, tail);
  }

  /** The reader recovers the string and what follows the closing quote. */
  lemma {:induction false} ScanQuoted(s: Text, r: Text)
    ensures Scan(Escaped(s) + ([0x22] + r)) == Scanned(s, r)
  {
    var tail := [0x22] + r;
    if |s| == 0 {
      assert Escaped(s) + tail == tail && tail[1..] == r;
    } else if |s| > 1 && IsHigh(s[0]) && IsLow(s[1]) {
      ScanQuoted(s[2..], r);
      ScanPair(s, tail, r);
    } else {
      ScanQuoted(s[1..], r);
      var e, rest := Escape(s[0]), Escaped(s[1..]);
      ScanEscape(s[0], rest + tail);
      ScanJoin(s[0], e, rest, tail, s[1..], r);
      assert s == [s[0]] + s[1..];
    }
  }

  lemma AfterOpeningQuote(s: Text, r: Text)
    ensures (Quote(s) + r)[1..] == Escaped(s) + ([0x22] + r)
  {
  }

  /** Quoted strings are self-delimiting and quoting is injective. */
  lemma QuoteUnambiguous(s: Text, r: Text, u: Text, t: Text)
    requires Quote(s) + r == Quote(u) + t
    ensures s == u && r == t
  {
    AfterOpeningQuote(s, r);
    AfterOpeningQuote(u, t);
    ScanQuoted(s, r);
    ScanQuoted(u, t);
  }
}
