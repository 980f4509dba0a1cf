/** The Grain shift register of src/crypto/poseidon2.ts: an 80-slot circular buffer that
    refines a linear recurrence over bits, and the filtered bit stream drawn from it. */
module GrainLfsr {
  import opened Arithmetic

  const SIZE := 80

  // ----- the recurrence -----

  /** The feedback of an 80-bit window: taps 0, 13, 23, 38, 51 and 62, added modulo 2. */
  predicate Feedback(w0: bool, w13: bool, w23: bool, w38: bool, w51: bool, w62: bool) {
    ((w0 != w13) != (w23 != w38)) != (w51 != w62)
  }

  /** Bit n of the infinite sequence that starts with the 80 bits of seed. */
  ghost predicate Bit(seed: seq<bool>, n: nat)
    requires |seed| == SIZE
  {
    if n < SIZE then seed[n]
    else Feedback(Bit(seed, n - 80), Bit(seed, n - 67), Bit(seed, n - 57), Bit(seed, n - 42),
                  Bit(seed, n - 29), Bit(seed, n - 18))
  }

  function One(b: bool): nat {
    if b then 1 else 0
  }

  /** Each bit is the sum modulo 2 of the bits 80, 67, 57, 42, 29 and 18 places before. */
  lemma Recurrence(seed: seq<bool>, n: nat)
    requires |seed| == SIZE
    ensures n < 80 ==> Bit(seed, n) == seed[n]
    ensures Bit(seed, n + 80) <==>
              (One(Bit(seed, n)) + One(Bit(seed, n + 13)) + One(Bit(seed, n + 23)) + One(Bit(seed, n + 38))
               + One(Bit(seed, n + 51)) + One(Bit(seed, n + 62))) % 2 == 1
  {
    ParityOf(Bit(seed, n), Bit(seed, n + 13), Bit(seed, n + 23), Bit(seed, n + 38), Bit(seed, n + 51),
             Bit(seed, n + 62));
  }

  lemma ParityOf(a: bool, b: bool, c: bool, d: bool, e: bool, f: bool)
    ensures Feedback(a, b, c, d, e, f) <==> (One(a) + One(b) + One(c) + One(d) + One(e) + One(f)) % 2 == 1
  {
  }

  ghost function Window(seed: seq<bool>, n: nat): (w: seq<bool>)
    requires |seed| == SIZE
    ensures |w| == SIZE && forall i :: 0 <= i < SIZE ==> w[i] == Bit(seed, n + i)
  {
    seq(SIZE, i requires 0 <= i < SIZE => Bit(seed, n + i))
  }

  /** One step on the window, and its inverse. */
  function Step(w: seq<bool>): seq<bool>
    requires |w| == SIZE
  {
    w[1..] + [Feedback(w[0], w[13], w[23], w[38], w[51], w[62])]
  }

  function StepBack(w: seq<bool>): seq<bool>
    requires |w| == SIZE
  {
    [Feedback(w[79], w[12], w[22], w[37], w[50], w[61])] + w[..79]
  }

  predicate AllZero(w: seq<bool>) {
    forall i :: 0 <= i < |w| ==> !w[i]
  }

  lemma FeedbackSolves(a: bool, b: bool, c: bool, d: bool, e: bool, f: bool)
    ensures Feedback(Feedback(a, b, c, d, e, f), b, c, d, e, f) == a
  {
  }

  lemma StepBackAfterStep(w: seq<bool>)
    requires |w| == SIZE
    ensures StepBack(Step(w)) == w
  {
    var f := Step(w);
    FeedbackSolves(w[0], w[13], w[23], w[38], w[51], w[62]);
    assert f[..79] == w[1..];
    assert StepBack(f)[0] == w[0];
    assert w == [w[0]] + w[1..];
  }

  lemma StepAfterStepBack(w: seq<bool>)
    requires |w| == SIZE
    ensures Step(StepBack(w)) == w
  {
    var g := StepBack(w);
    FeedbackSolves(w[79], w[12], w[22], w[37], w[50], w[61]);
    assert g[1..] == w[..79];
    assert Step(g)[79] == w[79];
    assert w == w[..79] + [w[79]];
  }

  /** The step is a bijection on windows. */
  lemma StepInvertible(w: seq<bool>)
    requires |w| == SIZE
    ensures StepBack(Step(w)) == w && Step(StepBack(w)) == w
  {
    StepBackAfterStep(w);
    StepAfterStepBack(w);
  }

  lemma WindowStep(seed: seq<bool>, n: nat)
    requires |seed| == SIZE
    ensures Window(seed, n + 1) == Step(Window(seed, n))
  {
    var w := Window(seed, n);
    assert Bit(seed, n + 80) == Feedback(w[0], w[13], w[23], w[38], w[51], w[62]);
  }

  /** The window after n steps. */
  ghost function After(seed: seq<bool>, n: nat): (w: seq<bool>)
    requires |seed| == SIZE
    ensures |w| == SIZE
  {
    if n == 0 then seed else Step(After(seed, n - 1))
  }

  lemma {:induction false} AfterIsWindow(seed: seq<bool>, n: nat)
    requires |seed| == SIZE
    ensures After(seed, n) == Window(seed, n)
  {
    if n == 0 {
      assert Window(seed, 0) == seed;
    } else {
      AfterIsWindow(seed, n - 1);
      WindowStep(seed, n - 1);
    }
  }

  lemma NewestBit(seed: seq<bool>, n: nat)
    requires |seed| == SIZE
    ensures After(seed, n + 1)[79] == Bit(seed, n + SIZE)
  {
    AfterIsWindow(seed, n + 1);
    assert Window(seed, n + 1)[79] == Bit(seed, n + 1 + 79);
  }

  /** A register that starts nonzero is never all zero. */
  lemma {:induction false} NeverAllZero(seed: seq<bool>, n: nat)
    requires |seed| == SIZE && !AllZero(seed)
    ensures !AllZero(Window(seed, n))
  {
    if n == 0 {
      assert Window(seed, 0) == seed;
    } else {
      NeverAllZero(seed, n - 1);
      WindowStep(seed, n - 1);
      ZeroStepsFromZero(Window(seed, n - 1));
    }
  }

  lemma ZeroStepsFromZero(w: seq<bool>)
    requires |w| == SIZE
    ensures AllZero(Step(w)) ==> AllZero(w)
  {
    if AllZero(Step(w)) {
      var f := Step(w);
      StepInvertible(w);
      assert AllZero(StepBack(f)) by {
        assert !f[79] && !f[12] && !f[22] && !f[37] && !f[50] && !f[61];
      }
    }
  }

  // ----- every other bit cannot stay zero -----

  /** The bits at odd distance from m. */
  ghost predicate OddBit(seed: seq<bool>, m: nat, j: nat)
    requires |seed| == SIZE
  {
    Bit(seed, m + 2 * j + 1)
  }

  /** The bits at even distance from m are zero up to distance 2 * last. */
  ghost predicate EvensZero(seed: seq<bool>, m: nat, last: nat)
    requires |seed| == SIZE
  {
    forall j :: 0 <= j <= last ==> !EvenBit(seed, m, j)
  }

  ghost predicate EvenBit(seed: seq<bool>, m: nat, j: nat)
    requires |seed| == SIZE
  {
    Bit(seed, m + 2 * j)
  }

  const TRIES := 118

  // Linear relations among the odd bits, as polynomials in the shift: the recurrence at odd
  // and at even positions gives the first two, and Euclid's algorithm on them ends in 1.

  predicate Even3(a: bool, b: bool, c: bool) {
    (a != b) == c
  }

  predicate Even4(a: bool, b: bool, c: bool, d: bool) {
    (a != b) == (c != d)
  }

  predicate Even5(a: bool, b: bool, c: bool, d: bool, e: bool) {
    ((a != b) != c) == (d != e)
  }

  /** 1 + x^19 + x^31 + x^40: the recurrence at odd positions. */
  lemma Relation0(seed: seq<bool>, m: nat, j: nat)
    requires |seed| == SIZE && EvensZero(seed, m, TRIES) && j <= 63
    ensures Even4(OddBit(seed, m, j), OddBit(seed, m, j + 19), OddBit(seed, m, j + 31), OddBit(seed, m, j + 40))
  {
    var n := m + 2 * j + 1;
    assert !EvenBit(seed, m, j + 7) && !EvenBit(seed, m, j + 12) && !EvenBit(seed, m, j + 26);
    assert Bit(seed, n + 80) == Feedback(Bit(seed, n), Bit(seed, n + 13), Bit(seed, n + 23), Bit(seed, n + 38),
                                         Bit(seed, n + 51), Bit(seed, n + 62));
  }

  /** 1 + x^5 + x^19: the recurrence at even positions. */
  lemma Relation1(seed: seq<bool>, m: nat, j: nat)
    requires |seed| == SIZE && EvensZero(seed, m, TRIES) && 6 <= j <= 84
    ensures Even3(OddBit(seed, m, j), OddBit(seed, m, j + 5), OddBit(seed, m, j + 19))
  {
    var i := j - 6;
    var n := m + 2 * i;
    assert !EvenBit(seed, m, i) && !EvenBit(seed, m, i + 19) && !EvenBit(seed, m, i + 31) && !EvenBit(seed, m, i + 40);
    assert Bit(seed, n + 80) == Feedback(Bit(seed, n), Bit(seed, n + 13), Bit(seed, n + 23), Bit(seed, n + 38),
                                         Bit(seed, n + 51), Bit(seed, n + 62));
  }

  /** x^2 + x^5 + x^17. */
  lemma Relation2(seed: seq<bool>, m: nat, j: nat)
    requires |seed| == SIZE && EvensZero(seed, m, TRIES) && 6 <= j <= 63
    ensures Even3(OddBit(seed, m, j + 2), OddBit(seed, m, j + 5), OddBit(seed, m, j + 17))
  {
    Relation0(seed, m, j);
    Relation1(seed, m, j);
    Relation1(seed, m, j + 2);
    Relation1(seed, m, j + 7);
    Relation1(seed, m, j + 12);
    Relation1(seed, m, j + 21);
  }

  /** 1 + x^4 + x^5 + x^7. */
  lemma Relation3(seed: seq<bool>, m: nat, j: nat)
    requires |seed| == SIZE && EvensZero(seed, m, TRIES) && 6 <= j <= 61
    ensures Even4(OddBit(seed, m, j), OddBit(seed, m, j + 4), OddBit(seed, m, j + 5), OddBit(seed, m, j + 7))
  {
    Relation1(seed, m, j);
    Relation2(seed, m, j + 2);
  }

  /** 1 + x + x^2 + x^4 + x^5. */
  lemma Relation4(seed: seq<bool>, m: nat, j: nat)
    requires |seed| == SIZE && EvensZero(seed, m, TRIES) && 6 <= j <= 51
    ensures Even5(OddBit(seed, m, j), OddBit(seed, m, j + 1), OddBit(seed, m, j + 2), OddBit(seed, m, j + 4),
                  OddBit(seed, m, j + 5))
  {
    Relation2(seed, m, j);
    Relation3(seed, m, j);
    Relation3(seed, m, j + 1);
    Relation3(seed, m, j + 6);
    Relation3(seed, m, j + 7);
    Relation3(seed, m, j + 8);
    Relation3(seed, m, j + 10);
  }

  /** 1 + x. */
  lemma Relation5(seed: seq<bool>, m: nat, j: nat)
    requires |seed| == SIZE && EvensZero(seed, m, TRIES) && 6 <= j <= 49
    ensures OddBit(seed, m, j) == OddBit(seed, m, j + 1)
  {
    Relation3(seed, m, j);
    Relation4(seed, m, j + 1);
    Relation4(seed, m, j + 2);
  }

  /** 1: the odd bits vanish too. */
  lemma Relation6(seed: seq<bool>, m: nat, j: nat)
    requires |seed| == SIZE && EvensZero(seed, m, TRIES) && 6 <= j <= 45
    ensures !OddBit(seed, m, j)
  {
    Relation4(seed, m, j);
    Relation5(seed, m, j + 1);
    Relation5(seed, m, j + 4);
  }

  /** In a nonzero register, 119 consecutive bits at even distance are not all zero. */
  lemma OneComesSoon(seed: seq<bool>, m: nat)
    requires |seed| == SIZE && !AllZero(seed)
    ensures !EvensZero(seed, m, TRIES)
  {
    if EvensZero(seed, m, TRIES) {
      var w := Window(seed, m + 12);
      forall i | 0 <= i < SIZE ensures !w[i] {
        if i % 2 == 0 {
          assert !EvenBit(seed, m, 6 + i / 2);
          assert m + 2 * (6 + i / 2) == m + 12 + i;
        } else {
          Relation6(seed, m, 6 + i / 2);
          assert m + 2 * (6 + i / 2) + 1 == m + 12 + i;
        }
      }
      NeverAllZero(seed, m + 12);
    }
  }

  // ----- the filtered stream -----

  /** How many pairs are skipped before a pair that starts with a one. */
  ghost function Gap(seed: seq<bool>, m: nat, from: nat): (i: nat)
    requires |seed| == SIZE && !AllZero(seed) && from <= TRIES
    requires forall j :: 0 <= j < from ==> !EvenBit(seed, m, j)
    ensures from <= i <= TRIES && EvenBit(seed, m, i) && forall j :: 0 <= j < i ==> !EvenBit(seed, m, j)
    decreases TRIES - from
  {
    if EvenBit(seed, m, from) then from
    else
      OneComesSoon(seed, m);
      Gap(seed, m, from + 1)
  }

  /** The bits at even distance from m are zero below distance 2 * i. */
  ghost predicate NoneBefore(seed: seq<bool>, m: nat, i: nat)
    requires |seed| == SIZE
  {
    forall j :: 0 <= j < i ==> !EvenBit(seed, m, j)
  }

  lemma OneMoreTry(seed: seq<bool>, m: nat, i: nat)
    requires |seed| == SIZE && !AllZero(seed) && i <= TRIES && NoneBefore(seed, m, i) && !EvenBit(seed, m, i)
    ensures i < TRIES && NoneBefore(seed, m, i + 1)
  {
    OneComesSoon(seed, m);
  }

  lemma GapIs(seed: seq<bool>, m: nat, i: nat)
    requires |seed| == SIZE && !AllZero(seed) && i <= TRIES && NoneBefore(seed, m, i) && EvenBit(seed, m, i)
    ensures Gap(seed, m, 0) == i
  {
    var g := Gap(seed, m, 0);
    assert !(g < i) && !(i < g);
  }

  /** The position in the sequence after k output bits drawn from position m. */
  ghost function Position(seed: seq<bool>, m: nat, k: nat): (n: nat)
    requires |seed| == SIZE && !AllZero(seed)
    ensures m + 2 * k <= n <= m + 2 * (TRIES + 1) * k
  {
    if k == 0 then m
    else
      var n := Position(seed, m, k - 1);
      n + 2 * Gap(seed, n, 0) + 2
  }

  /** Output bit k is the partner of the first one found from where bit k - 1 left off. */
  ghost predicate Output(seed: seq<bool>, m: nat, k: nat)
    requires |seed| == SIZE && !AllZero(seed)
  {
    var n := Position(seed, m, k);
    Bit(seed, n + 2 * Gap(seed, n, 0) + 1)
  }

  ghost function Outputs(seed: seq<bool>, m: nat, n: nat): (s: seq<bool>)
    requires |seed| == SIZE && !AllZero(seed)
    ensures |s| == n && forall k :: 0 <= k < n ==> s[k] == Output(seed, m, k)
  {
    seq(n, k requires 0 <= k < n => Output(seed, m, k))
  }

  /** A draw in plain terms, from position n up to end: pairs are skipped while their first bit
      is zero; the partner of the first one that is not is the output. */
  ghost predicate IsDrawn(seed: seq<bool>, n: nat, end: nat, bit: bool)
    requires |seed| == SIZE
  {
    && n + 2 <= end && (end - n) % 2 == 0 && Bit(seed, end - 2) && bit == Bit(seed, end - 1)
    && forall j: nat :: n + 2 * j < end - 2 ==> !Bit(seed, n + 2 * j)
  }

  /** Each draw starts where the last one ended, the first one at m. */
  lemma {:induction false} OutputIsPartner(seed: seq<bool>, m: nat, k: nat)
    requires |seed| == SIZE && !AllZero(seed)
    ensures Position(seed, m, 0) == m
    ensures IsDrawn(seed, Position(seed, m, k), Position(seed, m, k + 1), Output(seed, m, k))
  {
    var n := Position(seed, m, k);
    DrawStep(seed, m, k);
    PartnerOf(seed, n, Gap(seed, n, 0), Position(seed, m, k + 1), Output(seed, m, k));
  }

  lemma PartnerOf(seed: seq<bool>, n: nat, g: nat, end: nat, bit: bool)
    requires |seed| == SIZE && end == n + 2 * g + 2 && bit == Bit(seed, end - 1) && EvenBit(seed, n, g)
    requires forall j :: 0 <= j < g ==> !EvenBit(seed, n, j)
    ensures IsDrawn(seed, n, end, bit)
  {
    forall j: nat | n + 2 * j < n + 2 * g ensures !Bit(seed, n + 2 * j) {
      assert !EvenBit(seed, n, j);
    }
  }

  lemma {:induction false} DrawStep(seed: seq<bool>, m: nat, k: nat)
    requires |seed| == SIZE && !AllZero(seed)
    ensures Position(seed, m, 0) == m
    ensures var n := Position(seed, m, k);
            var end := n + 2 * Gap(seed, n, 0) + 2;
            Position(seed, m, k + 1) == end && Output(seed, m, k) == Bit(seed, end - 1)
  {
  }

  lemma OutputsNext(seed: seq<bool>, m: nat, n: nat)
    requires |seed| == SIZE && !AllZero(seed)
    ensures Outputs(seed, m, n + 1) == Outputs(seed, m, n) + [Output(seed, m, n)]
  {
  }

  // ----- the register -----

  /** Bit k of a number. */
  predicate NumberBit(v: nat, k: nat) {
    PowPositive(2, k);
    v / Pow(2, k) % 2 == 1
  }

  /** The seed layout: field type, S-box kind, then four numbers with their least significant
      bit last, then thirty ones. */
  ghost predicate IsSeed(s: seq<bool>, inverse: bool, n: nat, t: nat, rf: nat, rp: nat) {
    && |s| == SIZE && !s[0] && s[1] && !s[2] && !s[3] && !s[4] && s[5] == inverse
    && (forall i :: 6 <= i <= 17 ==> s[i] == NumberBit(n, 17 - i))
    && (forall i :: 18 <= i <= 29 ==> s[i] == NumberBit(t, 29 - i))
    && (forall i :: 30 <= i <= 39 ==> s[i] == NumberBit(rf, 39 - i))
    && (forall i :: 40 <= i <= 49 ==> s[i] == NumberBit(rp, 49 - i))
    && (forall i :: 50 <= i < SIZE ==> s[i])
  }

  lemma HalfOfQuotient(v: nat, k: nat)
    ensures Pow(2, k) > 0 && v / Pow(2, k) / 2 == v / Pow(2, k + 1)
  {
    PowPositive(2, k);
    var p := Pow(2, k);
    var q, r := v / p, v % p;
    assert v == q * p + r;
    assert q == 2 * (q / 2) + q % 2;
    assert v == (q / 2) * (2 * p) + ((q % 2) * p + r) by {
      assert q * p == (q / 2) * (2 * p) + (q % 2) * p;
    }
    assert 0 <= (q % 2) * p + r < 2 * p by { MulMono(q % 2, 1, p); MulMono(0, q % 2, p); }
    assert q >= 0 by { if q < 0 { MulMono(q, -1, p); } }
    DivModUnique(v, q / 2, (q % 2) * p + r, 2 * p);
  }

  /** One of the constructor's loops: the bits of v into slots lo..hi, lowest at hi. */
  method WriteNumber(s: array<bool>, lo: nat, hi: nat, v: nat)
    requires lo <= hi < s.Length
    modifies s
    ensures forall i :: lo <= i <= hi ==> s[i] == NumberBit(v, hi - i)
    ensures forall i :: 0 <= i < s.Length && !(lo <= i <= hi) ==> s[i] == old(s[i])
  {
    var cur := v;
    assert v / Pow(2, 0) == v;
    for i := hi + 1 downto lo
      invariant Pow(2, hi + 1 - i) > 0 && cur == v / Pow(2, hi + 1 - i)
      invariant forall k :: i <= k <= hi ==> s[k] == NumberBit(v, hi - k)
      invariant forall k :: 0 <= k < s.Length && !(i <= k <= hi) ==> s[k] == old(s[k])
    {
      s[i] := cur % 2 == 1;
      HalfOfQuotient(v, hi - i);
      PowPositive(2, hi + 1 - i);
      cur := cur / 2;
    }
  }

  /** The constructor's writes to a register of zeros. */
  method WriteSeed(s: array<bool>, inverse: bool, n: nat, t: nat, rf: nat, rp: nat)
    requires s.Length == SIZE && forall i :: 0 <= i < SIZE ==> !s[i]
    modifies s
    ensures IsSeed(s[..], inverse, n, t, rf, rp) && !AllZero(s[..])
  {
    s[1] := true;
    if inverse {
      s[5] := true;
    }
    WriteNumber(s, 6, 17, n);
    WriteNumber(s, 18, 29, t);
    WriteNumber(s, 30, 39, rf);
    WriteNumber(s, 40, 49, rp);
    label written:
    for i := 50 to SIZE
      invariant forall k :: 50 <= k < i ==> s[k]
      invariant forall k :: 0 <= k < 50 ==> s[k] == old@written(s[k])
    {
      s[i] := true;
    }
    assert s[..][1];
  }

  class Register {
    var state: array<bool>
    var head: nat
    ghost var seed: seq<bool>
    ghost var steps: nat

    /** Slot (head + i) mod 80 holds bit i of the current window. */
    ghost predicate Valid()
      reads this, state
    {
      && state.Length == SIZE && |seed| == SIZE && !AllZero(seed) && head < SIZE
      && Holds(state[..], head, After(seed, steps))
    }

    constructor (inverse: bool, n: nat, t: nat, rf: nat, rp: nat)
      ensures Valid() && fresh(state) && steps == 160 && IsSeed(seed, inverse, n, t, rf, rp)
    {
      var s := new bool[SIZE](_ => false);
      WriteSeed(s, inverse, n, t, rf, rp);
      state, head := s, 0;
      seed, steps := s[..], 0;
      new;
      WarmUp();
    }

    method WarmUp()
      requires Valid()
      modifies this, state
      ensures Valid() && state == old(state) && seed == old(seed) && steps == old(steps) + 160
    {
      for i := 0 to 160
        invariant Valid() && state == old(state) && seed == old(seed) && steps == old(steps) + i
      {
        var _ := Update();
      }
    }

    /** One step appends the next bit of the recurrence. */
    method Update() returns (newBit: bool)
      requires Valid()
      modifies this, state
      ensures Valid() && state == old(state) && seed == old(seed) && steps == old(steps) + 1
      ensures newBit == Bit(seed, old(steps) + SIZE)
    {
      var h := head;
      newBit := Feedback(state[h], state[(h + 13) % SIZE], state[(h + 23) % SIZE], state[(h + 38) % SIZE],
                         state[(h + 51) % SIZE], state[(h + 62) % SIZE]);
      UpdateHolds(state[..], h, seed, steps);
      state[h] := newBit;
      head := (h + 1) % SIZE;
      steps := steps + 1;
    }

    /** Discard one bit and draw the next. */
    method NextFirstBit() returns (bit: bool)
      requires Valid()
      modifies this, state
      ensures Valid() && state == old(state) && seed == old(seed) && steps == old(steps) + 2
      ensures bit == Bit(seed, old(steps) + SIZE + 1)
    {
      var _ := Update();
      bit := Update();
    }

    /** The inner loop terminates: a pair that starts with a one is found within 119 tries. */
    method DrawBit() returns (bit: bool)
      requires Valid()
      modifies this, state
      ensures Valid() && state == old(state) && seed == old(seed)
      ensures var n := old(steps) + SIZE;
              steps + SIZE == n + 2 * Gap(seed, n, 0) + 2 && bit == Bit(seed, n + 2 * Gap(seed, n, 0) + 1)
    {
      ghost var n := steps + SIZE;
      ghost var tries := 0;
      var firstBit := Update();
      while !firstBit
        invariant Valid() && state == old(state) && seed == old(seed)
        invariant 0 <= tries <= TRIES && steps + SIZE == n + 2 * tries + 1
        invariant firstBit == EvenBit(seed, n, tries) && NoneBefore(seed, n, tries)
        decreases TRIES - tries
      {
        OneMoreTry(seed, n, tries);
        firstBit := NextFirstBit();
        tries := tries + 1;
      }
      GapIs(seed, n, tries);
      bit := Update();
    }

    /** One output bit of a draw that started at position m. */
    method DrawOutput(ghost m: nat, ghost k: nat) returns (bit: bool)
      requires Valid() && steps + SIZE == Position(seed, m, k)
      modifies this, state
      ensures Valid() && state == old(state) && seed == old(seed)
      ensures bit == Output(seed, m, k) && steps + SIZE == Position(seed, m, k + 1)
    {
      bit := DrawBit();
    }

    /** The draw is the next numBits outputs, and it ends at Position(numBits). */
    method GetBits(numBits: nat) returns (res: seq<bool>)
      requires Valid()
      modifies this, state
      ensures Valid() && state == old(state) && seed == old(seed)
      ensures res == Outputs(seed, old(steps) + SIZE, numBits)
      ensures steps + SIZE == Position(seed, old(steps) + SIZE, numBits)
    {
      res := [];
      ghost var m := steps + SIZE;
      while |res| < numBits
        invariant Valid() && state == old(state) && seed == old(seed) && |res| <= numBits
        invariant steps + SIZE == Position(seed, m, |res|) && res == Outputs(seed, m, |res|)
      {
        var bit := DrawOutput(m, |res|);
        OutputsNext(seed, m, |res|);
        res := res + [bit];
      }
    }
  }

  /** The circular buffer s, read from head on, is the window w. */
  ghost predicate Holds(s: seq<bool>, head: nat, w: seq<bool>) {
    |s| == SIZE && |w| == SIZE && head < SIZE && w == s[head..] + s[..head]
  }

  lemma HoldsAt(s: seq<bool>, head: nat, w: seq<bool>, i: nat)
    requires Holds(s, head, w) && i < SIZE
    ensures s[(head + i) % SIZE] == w[i]
  {
  }

  /** Overwriting the oldest slot and advancing the head is one step of the window. */
  lemma HoldsStep(s: seq<bool>, h: nat, w: seq<bool>)
    requires Holds(s, h, w)
    ensures var bit := Feedback(s[h], s[(h + 13) % SIZE], s[(h + 23) % SIZE], s[(h + 38) % SIZE],
                                s[(h + 51) % SIZE], s[(h + 62) % SIZE]);
            Step(w)[79] == bit && Holds(s[h := bit], (h + 1) % SIZE, Step(w))
  {
    HoldsAt(s, h, w, 0);
    HoldsAt(s, h, w, 13);
    HoldsAt(s, h, w, 23);
    HoldsAt(s, h, w, 38);
    HoldsAt(s, h, w, 51);
    HoldsAt(s, h, w, 62);
    HoldsShift(s, h, w, Step(w)[79]);
  }

  lemma UpdateHolds(s: seq<bool>, h: nat, seed: seq<bool>, n: nat)
    requires |seed| == SIZE && Holds(s, h, After(seed, n))
    ensures var bit := Feedback(s[h], s[(h + 13) % SIZE], s[(h + 23) % SIZE], s[(h + 38) % SIZE],
                                s[(h + 51) % SIZE], s[(h + 62) % SIZE]);
            bit == Bit(seed, n + SIZE) && Holds(s[h := bit], (h + 1) % SIZE, After(seed, n + 1))
  {
    HoldsStep(s, h, After(seed, n));
    NewestBit(seed, n);
  }

  lemma HoldsShift(s: seq<bool>, h: nat, w: seq<bool>, bit: bool)
    requires Holds(s, h, w)
    ensures Holds(s[h := bit], (h + 1) % SIZE, w[1..] + [bit])
  {
    var next := s[h := bit];
    assert w[1..] == s[h + 1..] + s[..h];
    if h == 79 {
      assert next[0..] + next[..0] == s[..79] + [bit];
    } else {
      assert next[h + 1..] + next[..h + 1] == s[h + 1..] + (s[..h] + [bit]);
    }
  }
}
