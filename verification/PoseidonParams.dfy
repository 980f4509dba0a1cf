/** Parameter generation of src/crypto/poseidon2.ts: the stream of integers drawn from the
    shift register, the two samplers over it, and buildParams. */
module PoseidonParams {
  import opened Common
  import opened Arithmetic
  import opened GrainLfsr
  import opened Field
  import opened FieldBytes
  import opened Poseidon

  const PRIME_BITS := 254
  const CONSTANTS := 192

  // ----- the stream of draws -----

  /** One draw: the integer its bits spell, and the position after it. */
  datatype Draw = Draw(value: nat, next: nat)

  /** The draw of n bits from each position of the register's bit sequence. */
  ghost function Draws(seed: seq<bool>, n: nat): (f: nat -> Draw)
    requires |seed| == SIZE && !AllZero(seed)
    ensures IsDraws(f, seed, n)
  {
    (m: nat) => DrawnNonNegative(seed, m, n); Draw(DrawnInteger(seed, m, n), Position(seed, m, n))
  }

  ghost predicate IsDraws(f: nat -> Draw, seed: seq<bool>, n: nat)
    requires |seed| == SIZE && !AllZero(seed)
  {
    forall m: nat {:trigger Position(seed, m, n)} ::
      f(m).value == DrawnInteger(seed, m, n) && f(m).next == Position(seed, m, n)
  }

  lemma DrawnNonNegative(seed: seq<bool>, m: nat, n: nat)
    requires |seed| == SIZE && !AllZero(seed)
    ensures 0 <= DrawnInteger(seed, m, n) < Pow(2, n)
  {
    Digits.ValBound(BitDigits(Digits.Reverse(Outputs(seed, m, n))), 2);
  }

  /** Where draw k starts, when draw 0 starts at m. */
  ghost function Start(f: nat -> Draw, m: nat, k: nat): nat {
    if k == 0 then m else f(Start(f, m, k - 1)).next
  }

  /** The integer of draw k. */
  ghost function Drawn(f: nat -> Draw, m: nat, k: nat): nat {
    f(Start(f, m, k)).value
  }

  /** Those of the first k draws that are below p, in order. */
  ghost function Accepted(f: nat -> Draw, m: nat, p: int, k: nat): (a: seq<int>)
    ensures |a| <= k && forall i :: 0 <= i < |a| ==> InField(a[i], p)
  {
    if k == 0 then []
    else
      var a, v := Accepted(f, m, p, k - 1), Drawn(f, m, k - 1);
      if v < p then a + [v] else a
  }

  lemma {:induction false} StartSplit(f: nat -> Draw, m: nat, j: nat, k: nat)
    ensures Start(f, m, j + k) == Start(f, Start(f, m, j), k)
  {
    if k > 0 { StartSplit(f, m, j, k - 1); }
  }

  /** Sampling in two calls is sampling once: the second call goes on where the first stopped. */
  lemma {:induction false} AcceptedSplit(f: nat -> Draw, m: nat, p: int, j: nat, k: nat)
    ensures Accepted(f, m, p, j + k) == Accepted(f, m, p, j) + Accepted(f, Start(f, m, j), p, k)
  {
    if k > 0 {
      AcceptedSplit(f, m, p, j, k - 1);
      StartSplit(f, m, j, k - 1);
    }
  }

  // ----- the samplers -----

  method Attempt(reg: Register, n: nat, p: int, ghost f: nat -> Draw) returns (r: Option<int>)
    requires reg.Valid() && IsDraws(f, reg.seed, n)
    modifies reg, reg.state
    ensures reg.Valid() && reg.seed == old(reg.seed) && reg.state == old(reg.state)
    ensures reg.steps + SIZE == f(old(reg.steps) + SIZE).next
    ensures var v := f(old(reg.steps) + SIZE).value; r == if v < p then Some(v) else None
  {
    r := RejectionAttempt(reg, n, p);
  }

  /** The rejection sampler, with at most fuel draws: it stops at the first draw that
      completes num accepted ones. */
  method RejectionSampling(reg: Register, num: nat, n: nat, p: int, fuel: nat, ghost f: nat -> Draw)
    returns (res: seq<int>, used: nat)
    requires reg.Valid() && IsDraws(f, reg.seed, n)
    modifies reg, reg.state
    ensures reg.Valid() && reg.seed == old(reg.seed) && reg.state == old(reg.state)
    ensures used <= fuel && reg.steps + SIZE == Start(f, old(reg.steps) + SIZE, used)
    ensures res == Accepted(f, old(reg.steps) + SIZE, p, used) && |res| <= num
    ensures |res| < num ==> used == fuel
    ensures used > 0 ==> |Accepted(f, old(reg.steps) + SIZE, p, used - 1)| < num
  {
    ghost var m := reg.steps + SIZE;
    res, used := [], 0;
    while |res| < num && used < fuel
      invariant reg.Valid() && reg.seed == old(reg.seed) && reg.state == old(reg.state)
      invariant used <= fuel && reg.steps + SIZE == Start(f, m, used)
      invariant res == Accepted(f, m, p, used) && |res| <= num
      invariant used > 0 ==> |Accepted(f, m, p, used - 1)| < num
      decreases fuel - used
    {
      var v := Attempt(reg, n, p, f);
      if v.Some? {
        res := res + [v.value];
      }
      used := used + 1;
    }
  }

  method Reduced(reg: Register, n: nat, p: int, ghost f: nat -> Draw) returns (r: int)
    requires reg.Valid() && p > 0 && IsDraws(f, reg.seed, n)
    modifies reg, reg.state
    ensures reg.Valid() && reg.seed == old(reg.seed) && reg.state == old(reg.state)
    ensures reg.steps + SIZE == f(old(reg.steps) + SIZE).next && r == f(old(reg.steps) + SIZE).value % p
  {
    r := ModPSample(reg, n, p);
  }

  /** The reducing sampler: the next num draws modulo p. */
  method ModPSampling(reg: Register, num: nat, n: nat, p: int, ghost f: nat -> Draw) returns (res: seq<int>)
    requires reg.Valid() && p > 0 && IsDraws(f, reg.seed, n)
    modifies reg, reg.state
    ensures reg.Valid() && reg.seed == old(reg.seed) && reg.state == old(reg.state)
    ensures reg.steps + SIZE == Start(f, old(reg.steps) + SIZE, num)
    ensures |res| == num && forall k :: 0 <= k < num ==> res[k] == Drawn(f, old(reg.steps) + SIZE, k) % p
  {
    ghost var m := reg.steps + SIZE;
    res := [];
    for i := 0 to num
      invariant reg.Valid() && reg.seed == old(reg.seed) && reg.state == old(reg.state)
      invariant reg.steps + SIZE == Start(f, m, i) && |res| == i
      invariant forall k :: 0 <= k < i ==> res[k] == Drawn(f, m, k) % p
    {
      var v := Reduced(reg, n, p, f);
      res := res + [v];
    }
  }

  // ----- buildParams -----

  datatype Generated = OutOfFuel | NoInverse | Generated(params: Params, xs: seq<int>, ys: seq<int>)

  ghost predicate IsTable(ark: seq<State>, flat: seq<int>) {
    |flat| == 3 * |ark|
    && forall r :: 0 <= r < |ark| ==> ark[r] == State(flat[3 * r], flat[3 * r + 1], flat[3 * r + 2])
  }

  predicate Distinct(v: seq<int>) {
    forall i, j :: 0 <= i < j < |v| ==> v[i] != v[j]
  }

  lemma TableStep(ark: seq<State>, flat: seq<int>, row: seq<int>)
    requires IsTable(ark, flat) && |row| == 3
    ensures IsTable(ark + [State(row[0], row[1], row[2])], flat + row)
  {
  }

  /** The last of the first k draws was accepted: no fewer draws have as many accepted. */
  ghost predicate IsLeast(f: nat -> Draw, m: nat, p: int, k: nat) {
    k > 0 && |Accepted(f, m, p, k - 1)| < |Accepted(f, m, p, k)|
  }

  lemma {:induction false} LeastFrom(f: nat -> Draw, m: nat, p: int, used: nat, more: nat)
    requires IsLeast(f, Start(f, m, used), p, more)
    ensures IsLeast(f, m, p, used + more)
  {
    AcceptedSplit(f, m, p, used, more);
    AcceptedSplit(f, m, p, used, more - 1);
    assert used + (more - 1) == used + more - 1;
  }

  /** The next row continues the accepted draws. */
  method NextRow(reg: Register, p: int, fuel: nat, used: nat, ghost m: nat, ghost f: nat -> Draw)
    returns (row: seq<int>, used': nat)
    requires reg.Valid() && IsDraws(f, reg.seed, PRIME_BITS) && used <= fuel && reg.steps + SIZE == Start(f, m, used)
    modifies reg, reg.state
    ensures reg.Valid() && reg.seed == old(reg.seed) && reg.state == old(reg.state)
    ensures used' <= fuel && reg.steps + SIZE == Start(f, m, used') && |row| <= 3 && (|row| < 3 ==> used' == fuel)
    ensures Accepted(f, m, p, used') == Accepted(f, m, p, used) + row
    ensures |row| == 3 ==> IsLeast(f, m, p, used')
  {
    var more: nat;
    row, more := RejectionSampling(reg, 3, PRIME_BITS, p, fuel - used, f);
    AcceptedSplit(f, m, p, used, more);
    StartSplit(f, m, used, more);
    if |row| == 3 { LeastFrom(f, m, p, used, more); }
    used' := used + more;
  }

  lemma {:induction false} AcceptedGrows(f: nat -> Draw, m: nat, p: int, j: nat, k: nat)
    requires j <= k
    ensures |Accepted(f, m, p, j)| <= |Accepted(f, m, p, k)|
  {
    AcceptedSplit(f, m, p, j, k - j);
  }

  /** All round constants, or fewer rows when the draws run out. */
  method DrawConstants(reg: Register, p: int, fuel: nat, ghost f: nat -> Draw) returns (ark: seq<State>, used: nat)
    requires reg.Valid() && IsDraws(f, reg.seed, PRIME_BITS)
    modifies reg, reg.state
    ensures reg.Valid() && reg.seed == old(reg.seed) && reg.state == old(reg.state)
    ensures |ark| <= ROUNDS && used <= fuel && reg.steps + SIZE == Start(f, old(reg.steps) + SIZE, used)
    ensures |ark| == ROUNDS ==> IsTable(ark, Accepted(f, old(reg.steps) + SIZE, p, used))
    ensures |ark| == ROUNDS ==> IsLeast(f, old(reg.steps) + SIZE, p, used)
    ensures |ark| < ROUNDS <==> |Accepted(f, old(reg.steps) + SIZE, p, fuel)| < CONSTANTS
  {
    ghost var m := reg.steps + SIZE;
    ark, used := [], 0;
    while |ark| < ROUNDS
      invariant reg.Valid() && reg.seed == old(reg.seed) && reg.state == old(reg.state)
      invariant |ark| <= ROUNDS && used <= fuel && reg.steps + SIZE == Start(f, m, used)
      invariant IsTable(ark, Accepted(f, m, p, used)) && (|ark| > 0 ==> IsLeast(f, m, p, used))
      decreases ROUNDS - |ark|
    {
      ghost var flat := Accepted(f, m, p, used);
      var row: seq<int>;
      row, used := NextRow(reg, p, fuel, used, m, f);
      if |row| < 3 {
        return;
      }
      TableStep(ark, flat, row);
      ark := ark + [State(row[0], row[1], row[2])];
    }
    AcceptedGrows(f, m, p, used, fuel);
  }

  /** What buildParams promises of its result r, when the draws f start at m and the round
      constants take the first `used` of them, which is the least number that holds 192. */
  ghost predicate IsGenerated(r: Generated, f: nat -> Draw, m: nat, p: int, fuel: nat, used: nat)
    requires p > 0
  {
    match r
    case OutOfFuel => |Accepted(f, m, p, fuel)| < CONSTANTS
    case NoInverse =>
      && used <= fuel && |Accepted(f, m, p, used)| == CONSTANTS && IsLeast(f, m, p, used)
      && HasZeroSum(MatrixDraws(f, m, p, used, 0), MatrixDraws(f, m, p, used, 3), p)
    case Generated(params, xs, ys) =>
      && used <= fuel && ValidParams(params, p) && IsTable(params.ark, Accepted(f, m, p, used))
      && IsLeast(f, m, p, used)
      && xs == MatrixDraws(f, m, p, used, 0) && ys == MatrixDraws(f, m, p, used, 3) && !HasZeroSum(xs, ys, p)
      && IsCauchy(params.mds, Row(xs), Row(ys), p)
      && (Distinct(xs) && Distinct(ys) ==> Sound(params, Row(xs), Row(ys), p))
  }

  /** Three draws modulo p, from draw used + skip on. */
  ghost function MatrixDraws(f: nat -> Draw, m: nat, p: int, used: nat, skip: nat): (s: seq<int>)
    requires p > 0
    ensures |s| == 3
  {
    [Drawn(f, m, used + skip) % p, Drawn(f, m, used + skip + 1) % p, Drawn(f, m, used + skip + 2) % p]
  }

  method Generate(reg: Register, p: int, fuel: nat, ghost f: nat -> Draw) returns (r: Generated, used: nat)
    requires reg.Valid() && IsDraws(f, reg.seed, PRIME_BITS) && IsPrime(p) && (p - 1) % 5 != 0
    modifies reg, reg.state
    ensures IsGenerated(r, f, old(reg.steps) + SIZE, p, fuel, used)
  {
    ghost var m := reg.steps + SIZE;
    var ark, draws := DrawConstants(reg, p, fuel, f);
    used := draws;
    if |ark| < ROUNDS {
      return OutOfFuel, used;
    }
    var xs := ModPSampling(reg, 3, PRIME_BITS, p, f);
    var ys := ModPSampling(reg, 3, PRIME_BITS, p, f);
    MatrixDrawsFrom(f, m, p, used);
    assert xs == MatrixDraws(f, m, p, used, 0) && ys == MatrixDraws(f, m, p, used, 3);
    r := WithMatrix(ark, xs, ys, p);
  }

  /** The matrix of the two triples beside the round constants. */
  method WithMatrix(ark: seq<State>, xs: seq<int>, ys: seq<int>, p: int) returns (r: Generated)
    requires IsPrime(p) && (p - 1) % 5 != 0 && |xs| == 3 && |ys| == 3 && InRange(Row(xs), p) && InRange(Row(ys), p)
    requires |ark| == ROUNDS && forall i :: 0 <= i < ROUNDS ==> InRange(ark[i], p)
    ensures r.NoInverse? <==> HasZeroSum(xs, ys, p)
    ensures !r.NoInverse? ==>
              r.Generated? && r.xs == xs && r.ys == ys && r.params.ark == ark && ValidParams(r.params, p)
    ensures r.Generated? ==> IsCauchy(r.params.mds, Row(xs), Row(ys), p)
    ensures r.Generated? && Distinct(xs) && Distinct(ys) ==> Sound(r.params, Row(xs), Row(ys), p)
  {
    var matrix := BuildMds(xs, ys, p);
    if matrix.Failed? {
      return NoInverse;
    }
    RowsInField(matrix.rows, xs, ys, p);
    InverseRowIsCauchy(xs[0], ys, matrix.rows[0], p);
    InverseRowIsCauchy(xs[1], ys, matrix.rows[1], p);
    InverseRowIsCauchy(xs[2], ys, matrix.rows[2], p);
    var mds := [Row(matrix.rows[0]), Row(matrix.rows[1]), Row(matrix.rows[2])];
    r := Generated(Params(ark, mds), xs, ys);
    if Distinct(xs) && Distinct(ys) {
      BuiltMatrixIsSound(ark, xs, ys, matrix.rows, p);
    }
  }

  lemma DrawnSplit(f: nat -> Draw, m: nat, j: nat, k: nat)
    ensures Drawn(f, m, j + k) == Drawn(f, Start(f, m, j), k)
  {
    StartSplit(f, m, j, k);
  }

  lemma MatrixDrawsFrom(f: nat -> Draw, m: nat, p: int, used: nat)
    requires p > 0
    ensures var m1 := Start(f, m, used);
            MatrixDraws(f, m, p, used, 0) == [Drawn(f, m1, 0) % p, Drawn(f, m1, 1) % p, Drawn(f, m1, 2) % p]
    ensures var m2 := Start(f, Start(f, m, used), 3);
            MatrixDraws(f, m, p, used, 3) == [Drawn(f, m2, 0) % p, Drawn(f, m2, 1) % p, Drawn(f, m2, 2) % p]
  {
    DrawnSplit(f, m, used, 0);
    DrawnSplit(f, m, used, 1);
    DrawnSplit(f, m, used, 2);
    StartSplit(f, m, used, 3);
    DrawnSplit(f, m, used + 3, 0);
    DrawnSplit(f, m, used + 3, 1);
    DrawnSplit(f, m, used + 3, 2);
  }

  /** The 192 round constants are the first 192 draws below p, row by row; the six numbers
      behind the matrix are the six draws after those, modulo p; and if the two triples are
      distinct the parameters make the permutation a bijection. */
  method BuildParams(p: int, fuel: nat) returns (r: Generated, used: nat)
    requires IsPrime(p) && (p - 1) % 5 != 0
    ensures IsGenerated(r, Draws(StandardSeed(), PRIME_BITS), 160 + SIZE, p, fuel, used)
  {
    var lfsr := new Register(false, PRIME_BITS, 3, 8, 56);
    SeedUnique(lfsr.seed, StandardSeed(), false, PRIME_BITS, 3, 8, 56);
    r, used := Generate(lfsr, p, fuel, Draws(StandardSeed(), PRIME_BITS));
  }

  /** The register contents for width 3, eight full and 56 partial rounds over 254 bits. */
  ghost function StandardSeed(): (s: seq<bool>)
    ensures IsSeed(s, false, PRIME_BITS, 3, 8, 56) && !AllZero(s)
  {
    SeedForIsSeed(false, PRIME_BITS, 3, 8, 56);
    SeedFor(false, PRIME_BITS, 3, 8, 56)
  }

  ghost predicate SeedBit(i: int, inverse: bool, n: nat, t: nat, rf: nat, rp: nat)
    requires 0 <= i < SIZE
  {
    if i < 6 then i == 1 || (i == 5 && inverse)
    else if i < 18 then NumberBit(n, 17 - i)
    else if i < 30 then NumberBit(t, 29 - i)
    else if i < 40 then NumberBit(rf, 39 - i)
    else if i < 50 then NumberBit(rp, 49 - i)
    else true
  }

  ghost function SeedFor(inverse: bool, n: nat, t: nat, rf: nat, rp: nat): (s: seq<bool>)
    ensures |s| == SIZE && forall i :: 0 <= i < SIZE ==> s[i] == SeedBit(i, inverse, n, t, rf, rp)
  {
    seq(SIZE, i requires 0 <= i < SIZE => SeedBit(i, inverse, n, t, rf, rp))
  }

  lemma SeedForIsSeed(inverse: bool, n: nat, t: nat, rf: nat, rp: nat)
    ensures IsSeed(SeedFor(inverse, n, t, rf, rp), inverse, n, t, rf, rp) && !AllZero(SeedFor(inverse, n, t, rf, rp))
  {
    assert SeedFor(inverse, n, t, rf, rp)[1];
  }

  /** The twelve lowest powers of two. */
  lemma PowersOfTwo(k: nat)
    requires k < 12
    ensures Pow(2, k) == [1, 2, 4, 8, 16, 32, 64, 128, 256, 512, 1024, 2048][k]
  {
    if k > 0 { PowersOfTwo(k - 1); }
  }

  lemma BitsOf(k: nat)
    requires k < 12
    ensures NumberBit(254, k) <==> 1 <= k <= 7
    ensures NumberBit(3, k) <==> k <= 1
    ensures NumberBit(8, k) <==> k == 3
    ensures NumberBit(56, k) <==> 3 <= k <= 5
  {
    PowersOfTwo(k);
  }

  /** The 80 bits of the seed, with the ones of 254, 3, 8 and 56 at their places. */
  lemma StandardSeedBits()
    ensures forall i :: 0 <= i < 80 ==>
              (StandardSeed()[i] <==> i == 1 || 10 <= i <= 16 || 28 <= i <= 29 || i == 36 || 44 <= i <= 46 || i >= 50)
  {
    var s := StandardSeed();
    forall i | 0 <= i < 80
      ensures s[i] <==> i == 1 || 10 <= i <= 16 || 28 <= i <= 29 || i == 36 || 44 <= i <= 46 || i >= 50
    {
      if 6 <= i <= 17 { BitsOf(17 - i); }
      if 18 <= i <= 29 { BitsOf(29 - i); }
      if 30 <= i <= 39 { BitsOf(39 - i); }
      if 40 <= i <= 49 { BitsOf(49 - i); }
    }
  }

  lemma SeedUnique(s: seq<bool>, t: seq<bool>, inverse: bool, n: nat, w: nat, rf: nat, rp: nat)
    requires IsSeed(s, inverse, n, w, rf, rp) && IsSeed(t, inverse, n, w, rf, rp)
    ensures s == t
  {
    forall i | 0 <= i < SIZE ensures s[i] == t[i] {
      assert 0 <= i <= 5 || 6 <= i <= 17 || 18 <= i <= 29 || 30 <= i <= 39 || 40 <= i <= 49 || 50 <= i;
    }
  }

  lemma RowsInField(rows: seq<seq<int>>, xs: seq<int>, ys: seq<int>, p: int)
    requires |rows| == |xs| && |ys| == 3
    requires forall i :: 0 <= i < |xs| ==> IsInverseRow(xs[i], ys, rows[i], p)
    ensures forall i :: 0 <= i < |xs| ==> |rows[i]| == 3 && InRange(Row(rows[i]), p)
  {
    forall i | 0 <= i < |xs| ensures |rows[i]| == 3 && InRange(Row(rows[i]), p) {
      assert IsInverseRow(xs[i], ys, rows[i], p);
    }
  }
}
