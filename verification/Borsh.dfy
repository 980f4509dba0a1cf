/** The byte reader of src/utils/borsh-reader.ts and the writers of src/tools/agent.ts and
    src/tools/mcp-program.ts. */
module Borsh {
  import opened Common
  import opened Arithmetic
  import opened Digits

  type Bytes = seq<Byte>

  /** A read either throws, leaving the caller's control flow, or gives a value and the next
      offset. */
  datatype Read<+T> = Thrown | Read(value: T, next: nat) {
    predicate IsFailure() { Thrown? }
    function PropagateFailure<U>(): Read<U> requires Thrown? { Thrown }
    function Extract(): (T, nat) requires Read? { (value, next) }
  }

  // ----- reading at an offset -----

  function U8(b: Bytes, o: nat): Read<int> {
    if o + 1 <= |b| then Read(b[o], o + 1) else Thrown
  }

  function U32(b: Bytes, o: nat): Read<int> {
    if o + 4 <= |b| then Read(Val(b[o..o + 4], 256), o + 4) else Thrown
  }

  /** Two 32-bit halves, low half first. */
  function U64(b: Bytes, o: nat): Read<int> {
    var (lo, o1) :- U32(b, o);
    var (hi, o2) :- U32(b, o1);
    Read(hi * 0x1_0000_0000 + lo, o2)
  }

  function Clamp(o: int, len: nat): nat {
    if o <= 0 then 0 else if o < len then o else len
  }

  /** A slice that runs past the end is cut short without an error; the offset still moves. */
  function Slice(b: Bytes, o: nat, n: nat): Read<Bytes> {
    Read(b[Clamp(o, |b|)..Clamp(o + n, |b|)], o + n)
  }

  /** A length-prefixed vector, or the bytes of a string. */
  function Vec(b: Bytes, o: nat): Read<Bytes> {
    var (n, o1) :- U32(b, o);
    if n < 0 then Thrown else Slice(b, o1, n)
  }

  /** A vector of vectors, as read by a counting loop. */
  function Vecs(b: Bytes, o: nat, n: nat): Read<seq<Bytes>>
    decreases n
  {
    if n == 0 then Read([], o)
    else
      var (x, o1) :- Vec(b, o);
      var (xs, o2) :- Vecs(b, o1, n - 1);
      Read([x] + xs, o2)
  }

  // ----- the reader object -----

  /** The value of a read that may have thrown. */
  function ValueOf<T>(r: Read<T>): Option<T> {
    if r.Read? then Some(r.value) else None
  }

  class BorshReader {
    const buf: Bytes
    var offset: nat

    constructor (b: Bytes)
      ensures buf == b && offset == 0
    {
      buf, offset := b, 0;
    }

    method Skip(n: nat)
      modifies this
      ensures offset == old(offset) + n
    {
      offset := offset + n;
    }

    method ReadU8() returns (r: Option<int>)
      modifies this
      ensures r == ValueOf(U8(buf, old(offset)))
      ensures offset == if r.Some? then U8(buf, old(offset)).next else old(offset)
    {
      if offset + 1 > |buf| {
        return None;
      }
      r := Some(buf[offset]);
      offset := offset + 1;
    }

    method ReadU32() returns (r: Option<int>)
      modifies this
      ensures r == ValueOf(U32(buf, old(offset)))
      ensures offset == if r.Some? then U32(buf, old(offset)).next else old(offset)
    {
      if offset + 4 > |buf| {
        return None;
      }
      r := Some(ReadUInt32LE(buf, offset));
      FourBytes(buf, offset);
      offset := offset + 4;
    }

    method ReadU64() returns (r: Option<int>)
      modifies this
      ensures r == ValueOf(U64(buf, old(offset)))
      ensures offset == if r.Some? then U64(buf, old(offset)).next else old(offset)
    {
      if offset + 8 > |buf| {
        return None;
      }
      FourBytes(buf, offset);
      FourBytes(buf, offset + 4);
      var lo, hi := ReadUInt32LE(buf, offset), ReadUInt32LE(buf, offset + 4);
      offset := offset + 8;
      return Some(hi * 0x1_0000_0000 + lo);
    }

    method ReadBytes(n: nat) returns (r: Bytes)
      modifies this
      ensures r == Slice(buf, old(offset), n).value && offset == old(offset) + n
      ensures old(offset) + n <= |buf| ==> r == buf[old(offset)..old(offset) + n]
      ensures old(offset) <= |buf| < old(offset) + n ==> r == buf[old(offset)..]
      ensures old(offset) > |buf| ==> r == []
    {
      r := buf[Clamp(offset, |buf|)..Clamp(offset + n, |buf|)];
      offset := offset + n;
    }

    method ReadVec() returns (r: Option<Bytes>)
      modifies this
      ensures r == ValueOf(Vec(buf, old(offset)))
      ensures r.Some? ==> offset == Vec(buf, old(offset)).next
    {
      var n := ReadU32();
      if n.None? {
        return None;
      }
      U32Range(buf, old(offset));
      var x := ReadBytes(n.value);
      return Some(x);
    }
  }

  /** Buffer.readUInt32LE. */
  function ReadUInt32LE(b: Bytes, o: nat): int
    requires o + 4 <= |b|
  {
    var x0: int, x1: int, x2: int, x3: int := b[o], b[o + 1], b[o + 2], b[o + 3];
    x0 + 0x100 * x1 + 0x1_0000 * x2 + 0x100_0000 * x3
  }

  lemma FourBytes(b: Bytes, o: nat)
    requires o + 4 <= |b|
    ensures Val(b[o..o + 4], 256) == ReadUInt32LE(b, o)
  {
    var s := b[o..o + 4];
    assert s[1..][1..] == s[2..] && s[2..][1..] == s[3..] && s[3..][1..] == [];
    assert Val(s[3..], 256) == s[3] + 256 * Val([], 256);
    assert Val(s[2..], 256) == s[2] + 256 * Val(s[3..], 256);
    assert Val(s[1..], 256) == s[1] + 256 * Val(s[2..], 256);
  }

  lemma U32Range(b: Bytes, o: nat)
    ensures U32(b, o).Read? ==> 0 <= U32(b, o).value
  {
    if o + 4 <= |b| { ValBound(b[o..o + 4], 256); }
  }

  // ----- the writers -----

  const U32_LIMIT := 0x1_0000_0000
  const U64_LIMIT := 0x1_0000_0000_0000_0000

  class ByteList {
    var bytes: Bytes

    constructor ()
      ensures bytes == []
    {
      bytes := [];
    }

    method WriteU8(v: nat)
      modifies this
      ensures bytes == old(bytes) + [v % 256]
    {
      bytes := bytes + [v % 256];
    }

    method WriteU32LE(v: nat)
      modifies this
      ensures bytes == old(bytes) + LeBytes(v, 4)
    {
      bytes := bytes + [v % 256, v / 0x100 % 256, v / 0x1_0000 % 256, v / 0x100_0000 % 256];
      FourLeBytes(v);
    }

    /** Two halves, each reduced modulo 2^32. */
    method WriteU64LE(v: nat)
      modifies this
      ensures bytes == old(bytes) + LeBytes(v, 8)
    {
      WriteU32LE(v % U32_LIMIT);
      WriteU32LE(v / U32_LIMIT % U32_LIMIT);
      AppendHalves(old(bytes), v);
    }

    method WriteBytes(x: Bytes)
      modifies this
      ensures bytes == old(bytes) + x
    {
      for i := 0 to |x|
        invariant bytes == old(bytes) + x[..i]
      {
        bytes := bytes + [x[i]];
      }
    }

    method WriteVec(x: Bytes)
      modifies this
      ensures bytes == old(bytes) + Prefixed(x)
    {
      WriteU32LE(|x|);
      WriteBytes(x);
    }
  }

  function Prefixed(x: Bytes): Bytes {
    LeBytes(|x|, 4) + x
  }

  lemma FourLeBytes(v: nat)
    ensures LeBytes(v, 4) == [v % 256, v / 0x100 % 256, v / 0x1_0000 % 256, v / 0x100_0000 % 256]
  {
    LeBytesStep(v, 3);
    LeBytesStep(v / 0x100, 2);
    LeBytesStep(v / 0x1_0000, 1);
    LeBytesStep(v / 0x100_0000, 0);
    assert v / 0x100 / 0x100 == v / 0x1_0000 && v / 0x1_0000 / 0x100 == v / 0x100_0000;
  }

  lemma PowersOf256()
    ensures Pow(256, 4) == U32_LIMIT && Pow(256, 8) == U64_LIMIT
  {
    PowAdd(256, 2, 2);
    PowAdd(256, 4, 4);
  }

  lemma SquareIdentity(a: int, m: int, r: int)
    ensures (a * m + r) * m == a * (m * m) + m * r
  {
    MulAssoc(a, m, m);
  }

  lemma ModSplitFrom(v: int, m: int, q2: int, q1: int, q0: int)
    requires m > 0 && 0 <= q0 < m && 0 <= q1 < m && v == (q2 * m + q1) * m + q0
    ensures v % (m * m) == q0 + m * q1
  {
    SquareIdentity(q2, m, q1);
    MulMono(q1, m - 1, m);
    MulMono(0, q1, m);
    MulMono(1, m, m);
    DivModUnique(v, q2, q0 + m * q1, m * m);
  }

  lemma ModSplit(v: nat, m: int)
    requires m > 0
    ensures v % (m * m) == v % m + m * (v / m % m)
  {
    var q := v / m;
    DivMod(v, m);
    DivMod(q, m);
    ModSplitFrom(v, m, q / m, q % m, v % m);
  }

  lemma TwoHalves(v: nat)
    ensures LeBytes(v, 8) == LeBytes(v % U32_LIMIT, 4) + LeBytes(v / U32_LIMIT % U32_LIMIT, 4)
  {
    var lo, hi := v % U32_LIMIT, v / U32_LIMIT % U32_LIMIT;
    PowersOf256();
    LeBytesValue(v, 8);
    LeBytesExact(lo, 4);
    LeBytesExact(hi, 4);
    ValAppend(LeBytes(lo, 4), LeBytes(hi, 4), 256);
    ModSplit(v, U32_LIMIT);
    ValUnique(LeBytes(v, 8), LeBytes(lo, 4) + LeBytes(hi, 4), 256);
  }

  lemma AppendHalves(b: Bytes, v: nat)
    ensures b + LeBytes(v % U32_LIMIT, 4) + LeBytes(v / U32_LIMIT % U32_LIMIT, 4) == b + LeBytes(v, 8)
  {
    TwoHalves(v);
  }

  // ----- reading what was written -----

  lemma SliceShift(pre: Bytes, t: Bytes, o: nat, n: nat)
    ensures Slice(pre + t, |pre| + o, n) == Moved(Slice(t, o, n), |pre|)
  {
    var i, j := Clamp(o, |t|), Clamp(o + n, |t|);
    assert Clamp(|pre| + o, |pre + t|) == |pre| + i && Clamp(|pre| + o + n, |pre + t|) == |pre| + j;
    assert (pre + t)[|pre| + i..|pre| + j] == t[i..j];
  }

  /** Reading depends only on the bytes from the offset on. */
  lemma Shift(pre: Bytes, t: Bytes, o: nat)
    ensures U8(pre + t, |pre| + o) == Moved(U8(t, o), |pre|)
    ensures U32(pre + t, |pre| + o) == Moved(U32(t, o), |pre|)
  {
    if o + 4 <= |t| {
      assert (pre + t)[|pre| + o..|pre| + o + 4] == t[o..o + 4];
    }
  }

  function Moved<T>(r: Read<T>, shift: nat): Read<T> {
    if r.Thrown? then r else Read(r.value, r.next + shift)
  }

  lemma ReadU8Back(pre: Bytes, v: Byte, post: Bytes)
    ensures U8(pre + ([v] + post), |pre|) == Read(v as int, |pre| + 1)
  {
    Shift(pre, [v] + post, 0);
  }

  lemma ReadU32Back(pre: Bytes, v: nat, post: Bytes)
    requires v < U32_LIMIT
    ensures U32(pre + (LeBytes(v, 4) + post), |pre|) == Read(v as int, |pre| + 4)
  {
    var t := LeBytes(v, 4) + post;
    Shift(pre, t, 0);
    assert t[0..4] == LeBytes(v, 4);
    PowersOf256();
    LeBytesExact(v, 4);
  }

  lemma HalvesAround(pre: Bytes, lo: Bytes, hi: Bytes, post: Bytes)
    ensures pre + ((lo + hi) + post) == pre + (lo + (hi + post))
    ensures pre + (lo + (hi + post)) == (pre + lo) + (hi + post)
  {
  }

  /** Every 64-bit number comes back; a larger one comes back modulo 2^64. */
  lemma ReadU64Back(pre: Bytes, v: nat, post: Bytes)
    ensures U64(pre + (LeBytes(v, 8) + post), |pre|) == Read(v % U64_LIMIT, |pre| + 8)
  {
    var lo, hi := v % U32_LIMIT, v / U32_LIMIT % U32_LIMIT;
    TwoHalves(v);
    HalvesAround(pre, LeBytes(lo, 4), LeBytes(hi, 4), post);
    ReadU32Back(pre, lo, LeBytes(hi, 4) + post);
    ReadU32Back(pre + LeBytes(lo, 4), hi, post);
    ModSplit(v, U32_LIMIT);
  }

  lemma ReadSliceBack(pre: Bytes, x: Bytes, post: Bytes)
    ensures Slice(pre + (x + post), |pre|, |x|) == Read(x, |pre| + |x|)
  {
    SliceShift(pre, x + post, 0, |x|);
    assert (x + post)[0..|x|] == x;
  }

  lemma ReadVecBack(pre: Bytes, x: Bytes, post: Bytes)
    requires |x| < U32_LIMIT
    ensures Vec(pre + (Prefixed(x) + post), |pre|) == Read(x, |pre| + |Prefixed(x)|)
  {
    var b := pre + (Prefixed(x) + post);
    assert b == pre + (LeBytes(|x|, 4) + (x + post));
    ReadU32Back(pre, |x|, x + post);
    assert b == (pre + LeBytes(|x|, 4)) + (x + post);
    ReadSliceBack(pre + LeBytes(|x|, 4), x, post);
  }

  /** The vectors one after the other. */
  function PrefixedAll(xs: seq<Bytes>): Bytes {
    if |xs| == 0 then [] else Prefixed(xs[0]) + PrefixedAll(xs[1..])
  }

  lemma VecsCons(b: Bytes, o: nat, xs: seq<Bytes>, o1: nat, o2: nat)
    requires |xs| > 0 && Vec(b, o) == Read(xs[0], o1) && Vecs(b, o1, |xs| - 1) == Read(xs[1..], o2)
    ensures Vecs(b, o, |xs|) == Read(xs, o2)
  {
    assert [xs[0]] + xs[1..] == xs;
  }

  // ----- the same, at any place of a buffer -----

  /** The bytes x stand in b at offset o. */
  predicate At(b: Bytes, o: nat, x: Bytes) {
    o + |x| <= |b| && b[o..o + |x|] == x
  }

  lemma AtSplit(b: Bytes, o: nat, x: Bytes, y: Bytes)
    requires At(b, o, x + y)
    ensures At(b, o, x) && At(b, o + |x|, y)
  {
    assert x == (x + y)[..|x|] && y == (x + y)[|x|..];
  }

  lemma AtStart(x: Bytes, tail: Bytes)
    ensures At(x + tail, 0, x)
  {
  }

  lemma Around(b: Bytes, o: nat, x: Bytes)
    requires At(b, o, x)
    ensures b == b[..o] + (x + b[o + |x|..])
  {
  }

  lemma U8At(b: Bytes, o: nat, v: Byte)
    requires At(b, o, [v])
    ensures U8(b, o) == Read(v as int, o + 1)
  {
  }

  lemma U32At(b: Bytes, o: nat, v: nat)
    requires v < U32_LIMIT && At(b, o, LeBytes(v, 4))
    ensures U32(b, o) == Read(v as int, o + 4)
  {
    Around(b, o, LeBytes(v, 4));
    ReadU32Back(b[..o], v, b[o + 4..]);
  }

  lemma U64At(b: Bytes, o: nat, v: nat)
    requires v < U64_LIMIT && At(b, o, LeBytes(v, 8))
    ensures U64(b, o) == Read(v as int, o + 8)
  {
    Around(b, o, LeBytes(v, 8));
    ReadU64Back(b[..o], v, b[o + 8..]);
    DivModUnique(v, 0, v, U64_LIMIT);
  }

  lemma SliceAt(b: Bytes, o: nat, x: Bytes)
    requires At(b, o, x)
    ensures Slice(b, o, |x|) == Read(x, o + |x|)
  {
    Around(b, o, x);
    ReadSliceBack(b[..o], x, b[o + |x|..]);
  }

  lemma VecAt(b: Bytes, o: nat, x: Bytes)
    requires |x| < U32_LIMIT && At(b, o, Prefixed(x))
    ensures Vec(b, o) == Read(x, o + |Prefixed(x)|)
  {
    Around(b, o, Prefixed(x));
    ReadVecBack(b[..o], x, b[o + |Prefixed(x)|..]);
  }

  lemma {:induction false} VecsSplit(b: Bytes, o: nat, xs: seq<Bytes>)
    requires |xs| > 0 && At(b, o, PrefixedAll(xs))
    ensures At(b, o, Prefixed(xs[0])) && At(b, o + |Prefixed(xs[0])|, PrefixedAll(xs[1..]))
    ensures |PrefixedAll(xs)| == |Prefixed(xs[0])| + |PrefixedAll(xs[1..])|
  {
    AtSplit(b, o, Prefixed(xs[0]), PrefixedAll(xs[1..]));
  }

  lemma {:induction false} VecsAt(b: Bytes, o: nat, xs: seq<Bytes>)
    requires (forall i :: 0 <= i < |xs| ==> |xs[i]| < U32_LIMIT) && At(b, o, PrefixedAll(xs))
    ensures Vecs(b, o, |xs|) == Read(xs, o + |PrefixedAll(xs)|)
    decreases |xs|
  {
    if |xs| > 0 {
      var o1 := o + |Prefixed(xs[0])|;
      VecsSplit(b, o, xs);
      VecAt(b, o, xs[0]);
      VecsAt(b, o1, xs[1..]);
      VecsCons(b, o, xs, o1, o + |PrefixedAll(xs)|);
    }
  }

  // ----- reading vectors one by one -----

  function Prepend(xs: seq<Bytes>, r: Read<seq<Bytes>>): Read<seq<Bytes>> {
    if r.Thrown? then Thrown else Read(xs + r.value, r.next)
  }

  lemma PrependNothing(r: Read<seq<Bytes>>)
    ensures Prepend([], r) == r
  {
    if r.Read? { assert [] + r.value == r.value; }
  }

  lemma VecsStep(b: Bytes, o: nat, n: nat, xs: seq<Bytes>)
    requires n > 0
    ensures var x := Vec(b, o);
            Prepend(xs, Vecs(b, o, n)) == if x.Thrown? then Thrown else Prepend(xs + [x.value], Vecs(b, x.next, n - 1))
  {
    var x := Vec(b, o);
    if x.Read? {
      var rest := Vecs(b, x.next, n - 1);
      if rest.Read? { assert xs + ([x.value] + rest.value) == xs + [x.value] + rest.value; }
    }
  }

  // ----- any sequence of fields -----

  datatype Field = U8Field(n: nat) | U32Field(n: nat) | U64Field(n: nat) | VecField(bytes: Bytes)
  datatype Kind = U8Kind | U32Kind | U64Kind | VecKind

  function KindOf(f: Field): Kind {
    match f
    case U8Field(_) => U8Kind
    case U32Field(_) => U32Kind
    case U64Field(_) => U64Kind
    case VecField(_) => VecKind
  }

  function KindsOf(fs: seq<Field>): seq<Kind> {
    if |fs| == 0 then [] else [KindOf(fs[0])] + KindsOf(fs[1..])
  }

  /** What writing a field keeps of it: integers are reduced to their width. */
  function Kept(f: Field): Field {
    match f
    case U8Field(n) => U8Field(n % 256)
    case U32Field(n) => U32Field(n % U32_LIMIT)
    case U64Field(n) => U64Field(n % U64_LIMIT)
    case VecField(_) => f
  }

  function KeptAll(fs: seq<Field>): seq<Field> {
    if |fs| == 0 then [] else [Kept(fs[0])] + KeptAll(fs[1..])
  }

  function Written(f: Field): Bytes {
    match f
    case U8Field(n) => [n % 256]
    case U32Field(n) => LeBytes(n, 4)
    case U64Field(n) => LeBytes(n, 8)
    case VecField(x) => Prefixed(x)
  }

  function WrittenAll(fs: seq<Field>): Bytes {
    if |fs| == 0 then [] else Written(fs[0]) + WrittenAll(fs[1..])
  }

  function NonNegative(r: Read<int>): Read<nat> {
    if r.Thrown? || r.value < 0 then Thrown else Read(r.value, r.next)
  }

  function ReadField(b: Bytes, o: nat, k: Kind): Read<Field> {
    match k
    case U8Kind => var (n, o1) :- NonNegative(U8(b, o)); Read(U8Field(n), o1)
    case U32Kind => var (n, o1) :- NonNegative(U32(b, o)); Read(U32Field(n), o1)
    case U64Kind => var (n, o1) :- NonNegative(U64(b, o)); Read(U64Field(n), o1)
    case VecKind => var (x, o1) :- Vec(b, o); Read(VecField(x), o1)
  }

  function ReadFields(b: Bytes, o: nat, ks: seq<Kind>): Read<seq<Field>>
    decreases |ks|
  {
    if |ks| == 0 then Read([], o)
    else
      var (f, o1) :- ReadField(b, o, ks[0]);
      var (fs, o2) :- ReadFields(b, o1, ks[1..]);
      Read([f] + fs, o2)
  }

  /** The writers, called one after the other. */
  method WriteFields(out: ByteList, fs: seq<Field>)
    modifies out
    ensures out.bytes == old(out.bytes) + WrittenAll(fs)
  {
    for i := 0 to |fs|
      invariant out.bytes + WrittenAll(fs[i..]) == old(out.bytes) + WrittenAll(fs)
    {
      assert fs[i..][1..] == fs[i + 1..];
      AppendWritten(out.bytes, fs[i..]);
      WriteField(out, fs[i]);
    }
  }

  lemma {:induction false} AppendWritten(b: Bytes, fs: seq<Field>)
    requires |fs| > 0
    ensures (b + Written(fs[0])) + WrittenAll(fs[1..]) == b + WrittenAll(fs)
  {
    Associate(b, Written(fs[0]), WrittenAll(fs[1..]));
  }

  lemma Associate(a: Bytes, b: Bytes, c: Bytes)
    ensures (a + b) + c == a + (b + c)
  {
  }

  method WriteField(out: ByteList, f: Field)
    modifies out
    ensures out.bytes == old(out.bytes) + Written(f)
  {
    match f
    case U8Field(n) => out.WriteU8(n);
    case U32Field(n) => out.WriteU32LE(n);
    case U64Field(n) => out.WriteU64LE(n);
    case VecField(x) => out.WriteVec(x);
  }

  lemma U32ModAt(b: Bytes, o: nat, v: nat)
    requires At(b, o, LeBytes(v, 4))
    ensures U32(b, o) == Read(v % U32_LIMIT, o + 4)
  {
    LeBytesValue(v, 4);
    PowersOf256();
  }

  lemma U64ModAt(b: Bytes, o: nat, v: nat)
    requires At(b, o, LeBytes(v, 8))
    ensures U64(b, o) == Read(v % U64_LIMIT, o + 8)
  {
    Around(b, o, LeBytes(v, 8));
    ReadU64Back(b[..o], v, b[o + 8..]);
  }

  lemma FieldAt(b: Bytes, o: nat, f: Field)
    requires At(b, o, Written(f)) && (f.VecField? ==> |f.bytes| < U32_LIMIT)
    ensures ReadField(b, o, KindOf(f)) == Read(Kept(f), o + |Written(f)|)
  {
    match f
    case U8Field(n) => U8At(b, o, n % 256);
    case U32Field(n) => U32ModAt(b, o, n);
    case U64Field(n) => U64ModAt(b, o, n);
    case VecField(x) => VecAt(b, o, x);
  }

  lemma {:induction false} FieldsSplit(b: Bytes, o: nat, fs: seq<Field>)
    requires |fs| > 0 && At(b, o, WrittenAll(fs))
    ensures At(b, o, Written(fs[0])) && At(b, o + |Written(fs[0])|, WrittenAll(fs[1..]))
    ensures |WrittenAll(fs)| == |Written(fs[0])| + |WrittenAll(fs[1..])|
    ensures |KindsOf(fs)| > 0 && KindsOf(fs)[0] == KindOf(fs[0]) && KindsOf(fs)[1..] == KindsOf(fs[1..])
  {
    AtSplit(b, o, Written(fs[0]), WrittenAll(fs[1..]));
  }

  lemma FieldsCons(b: Bytes, o: nat, ks: seq<Kind>, f: Field, fs: seq<Field>, o1: nat, o2: nat)
    requires |ks| > 0 && ReadField(b, o, ks[0]) == Read(f, o1) && ReadFields(b, o1, ks[1..]) == Read(fs, o2)
    ensures ReadFields(b, o, ks) == Read([f] + fs, o2)
  {
  }

  /** The reader inverts the writers on every sequence of fields, anywhere in a buffer: vectors
      come back exactly, integers modulo their width. */
  lemma {:induction false} FieldsRoundTrip(b: Bytes, o: nat, fs: seq<Field>)
    requires At(b, o, WrittenAll(fs)) && forall i :: 0 <= i < |fs| && fs[i].VecField? ==> |fs[i].bytes| < U32_LIMIT
    ensures ReadFields(b, o, KindsOf(fs)) == Read(KeptAll(fs), o + |WrittenAll(fs)|)
    decreases |fs|
  {
    if |fs| > 0 {
      var o1 := o + |Written(fs[0])|;
      FieldsSplit(b, o, fs);
      FieldAt(b, o, fs[0]);
      FieldsRoundTrip(b, o1, fs[1..]);
      FieldsCons(b, o, KindsOf(fs), Kept(fs[0]), KeptAll(fs[1..]), o1, o + |WrittenAll(fs)|);
    }
  }
}
