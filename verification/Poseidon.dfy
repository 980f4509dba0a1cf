/** The Poseidon permutation and sponge of src/crypto/poseidon2.ts (width 3, eight full and
    56 partial rounds, S-box x^5, Cauchy mixing layer) over a prime modulus p. */
module Poseidon {
  import opened Arithmetic
  import opened Field
  import opened Cauchy

  const FULL_HALF := 4
  const PARTIAL := 56
  const ROUNDS := 64

  /** The three lanes: capacity, then two rate lanes. */
  datatype State = State(s0: int, s1: int, s2: int)

  /** Round constants and mixing matrix. */
  datatype Params = Params(ark: seq<State>, mds: seq<State>)

  ghost predicate InRange(s: State, p: int) {
    InField(s.s0, p) && InField(s.s1, p) && InField(s.s2, p)
  }

  /** The shape buildParams produces: constants in the field and 3 rows. */
  ghost predicate ValidParams(q: Params, p: int) {
    && |q.ark| == ROUNDS && (forall r :: 0 <= r < ROUNDS ==> InRange(q.ark[r], p))
    && |q.mds| == 3 && (forall i :: 0 <= i < 3 ==> InRange(q.mds[i], p))
  }

  // ----- one round, as the source computes it -----

  function AddKey(s: State, k: State, p: int): State {
    State(AddMod(s.s0, k.s0, p), AddMod(s.s1, k.s1, p), AddMod(s.s2, k.s2, p))
  }

  function FullSbox(s: State, p: int): State
    requires p > 0
  {
    State(Sbox(s.s0, p), Sbox(s.s1, p), Sbox(s.s2, p))
  }

  function PartialSbox(s: State, p: int): State
    requires p > 0
  {
    s.(s0 := Sbox(s.s0, p))
  }

  function MixRow(m: State, s: State, p: int): int
    requires p > 0
  {
    AddMod(AddMod(MulMod(m.s0, s.s0, p), MulMod(m.s1, s.s1, p), p), MulMod(m.s2, s.s2, p), p)
  }

  function Mix(mds: seq<State>, s: State, p: int): State
    requires p > 0 && |mds| == 3
  {
    State(MixRow(mds[0], s, p), MixRow(mds[1], s, p), MixRow(mds[2], s, p))
  }

  predicate IsFullRound(r: int) {
    r < FULL_HALF || r >= FULL_HALF + PARTIAL
  }

  function Round(q: Params, r: nat, s: State, p: int): State
    requires p > 0 && |q.ark| == ROUNDS && |q.mds| == 3 && r < ROUNDS
  {
    var keyed := AddKey(s, q.ark[r], p);
    Mix(q.mds, if IsFullRound(r) then FullSbox(keyed, p) else PartialSbox(keyed, p), p)
  }

  /** The first n rounds. */
  function Rounds(q: Params, n: nat, s: State, p: int): State
    requires p > 0 && |q.ark| == ROUNDS && |q.mds| == 3 && n <= ROUNDS
  {
    if n == 0 then s else Round(q, n - 1, Rounds(q, n - 1, s, p), p)
  }

  function Permute(q: Params, s: State, p: int): State
    requires p > 0 && |q.ark| == ROUNDS && |q.mds| == 3
  {
    Rounds(q, ROUNDS, s, p)
  }

  // ----- the in-place permutation -----

  ghost function View(state: array<int>): State
    requires state.Length == 3
    reads state
  {
    State(state[0], state[1], state[2])
  }

  method AddKeyInPlace(state: array<int>, key: State, p: int)
    requires state.Length == 3
    modifies state
    ensures View(state) == AddKey(old(View(state)), key, p)
  {
    var k := [key.s0, key.s1, key.s2];
    for j := 0 to 3
      invariant forall i :: 0 <= i < j ==> state[i] == AddMod(old(state[i]), k[i], p)
      invariant forall i :: j <= i < 3 ==> state[i] == old(state[i])
    {
      state[j] := AddMod(state[j], k[j], p);
    }
  }

  method MixInPlace(state: array<int>, mds: seq<State>, p: int)
    requires state.Length == 3 && p > 0 && |mds| == 3
    modifies state
    ensures View(state) == Mix(mds, old(View(state)), p)
  {
    var s := State(state[0], state[1], state[2]);
    var tmp0, tmp1, tmp2 := MixRow(mds[0], s, p), MixRow(mds[1], s, p), MixRow(mds[2], s, p);
    state[0], state[1], state[2] := tmp0, tmp1, tmp2;
  }

  method FullRoundInPlace(state: array<int>, q: Params, r: nat, p: int)
    requires state.Length == 3 && p > 0 && |q.ark| == ROUNDS && |q.mds| == 3 && r < ROUNDS && IsFullRound(r)
    modifies state
    ensures View(state) == Round(q, r, old(View(state)), p)
  {
    AddKeyInPlace(state, q.ark[r], p);
    ghost var keyed := state[..];
    for j := 0 to 3
      invariant forall i :: 0 <= i < j ==> state[i] == Sbox(keyed[i], p)
      invariant forall i :: j <= i < 3 ==> state[i] == keyed[i]
    {
      state[j] := Sbox(state[j], p);
    }
    MixInPlace(state, q.mds, p);
  }

  method PartialRoundInPlace(state: array<int>, q: Params, r: nat, p: int)
    requires state.Length == 3 && p > 0 && |q.ark| == ROUNDS && |q.mds| == 3 && r < ROUNDS && !IsFullRound(r)
    modifies state
    ensures View(state) == Round(q, r, old(View(state)), p)
  {
    AddKeyInPlace(state, q.ark[r], p);
    state[0] := Sbox(state[0], p);
    MixInPlace(state, q.mds, p);
  }

  /** The source's three loops over one running round index compute the permutation. */
  method PoseidonPermute(state: array<int>, q: Params, p: int)
    requires state.Length == 3 && p > 0 && |q.ark| == ROUNDS && |q.mds| == 3
    modifies state
    ensures View(state) == Permute(q, old(View(state)), p)
    ensures ValidParams(q, p) && InRange(old(View(state)), p) ==> Permutes(q, old(View(state)), View(state), p)
  {
    ghost var start := View(state);
    PermuteIsIf(q, start, p);
    var roundIdx := 0;
    for r := 0 to FULL_HALF
      invariant roundIdx == r && View(state) == Rounds(q, roundIdx, start, p)
    {
      FullRoundInPlace(state, q, roundIdx, p);
      roundIdx := roundIdx + 1;
    }
    for r := 0 to PARTIAL
      invariant roundIdx == FULL_HALF + r && View(state) == Rounds(q, roundIdx, start, p)
    {
      PartialRoundInPlace(state, q, roundIdx, p);
      roundIdx := roundIdx + 1;
    }
    for r := 0 to FULL_HALF
      invariant roundIdx == FULL_HALF + PARTIAL + r && View(state) == Rounds(q, roundIdx, start, p)
    {
      FullRoundInPlace(state, q, roundIdx, p);
      roundIdx := roundIdx + 1;
    }
  }

  // ----- the mixing matrix -----

  /** The entries of mds are the inverses of xs[i] + ys[j]. */
  ghost predicate IsCauchy(mds: seq<State>, xs: State, ys: State, p: int) {
    |mds| == 3 && IsCauchyRow(mds[0], xs.s0, ys, p) && IsCauchyRow(mds[1], xs.s1, ys, p)
    && IsCauchyRow(mds[2], xs.s2, ys, p)
  }

  ghost predicate IsCauchyRow(m: State, x: int, ys: State, p: int) {
    Inverts(p, m.s0, x + ys.s0) && Inverts(p, m.s1, x + ys.s1) && Inverts(p, m.s2, x + ys.s2)
  }

  predicate HasZeroSum(xs: seq<int>, ys: seq<int>, p: int) {
    exists i, j :: 0 <= i < |xs| && 0 <= j < |ys| && AddMod(xs[i], ys[j], p) == 0
  }

  datatype Matrix = Failed | Built(rows: seq<seq<int>>)

  /** The nested loop of buildParams. It fails exactly when a sum has no inverse. */
  method BuildMds(xs: seq<int>, ys: seq<int>, p: int) returns (mds: Matrix)
    requires IsPrime(p)
    requires forall i :: 0 <= i < |xs| ==> InField(xs[i], p)
    requires forall j :: 0 <= j < |ys| ==> InField(ys[j], p)
    ensures mds.Failed? <==> HasZeroSum(xs, ys, p)
    ensures mds.Built? ==> |mds.rows| == |xs|
    ensures mds.Built? ==> forall i :: 0 <= i < |xs| ==> IsInverseRow(xs[i], ys, mds.rows[i], p)
  {
    var rows: seq<seq<int>> := [];
    for i := 0 to |xs|
      invariant |rows| == i
      invariant forall k :: 0 <= k < i ==> IsInverseRow(xs[k], ys, rows[k], p)
      invariant forall k, j :: 0 <= k < i && 0 <= j < |ys| ==> AddMod(xs[k], ys[j], p) != 0
    {
      var row: seq<int> := [];
      for j := 0 to |ys|
        invariant |row| == j
        invariant forall k :: 0 <= k < j ==> AddMod(xs[i], ys[k], p) != 0
        invariant forall k :: 0 <= k < j ==> IsInverse(AddMod(xs[i], ys[k], p), row[k], p)
      {
        AddModIsSum(xs[i], ys[j], p);
        var inverse := ModInv(AddMod(xs[i], ys[j], p), p);
        if inverse.Undefined? {
          return Failed;
        }
        row := row + [inverse.value];
      }
      rows := rows + [row];
    }
    return Built(rows);
  }

  ghost predicate IsInverseRow(x: int, ys: seq<int>, row: seq<int>, p: int) {
    |row| == |ys| && forall j :: 0 <= j < |ys| ==> IsInverse(AddMod(x, ys[j], p), row[j], p)
  }

  // ----- range -----

  lemma MixRowIsSum(m: State, s: State, p: int)
    requires InRange(m, p) && InRange(s, p)
    ensures InField(MixRow(m, s, p), p)
    ensures MixRow(m, s, p) == (m.s0 * s.s0 + m.s1 * s.s1 + m.s2 * s.s2) % p
  {
    MulMono(0, m.s0, s.s0);
    MulMono(0, m.s1, s.s1);
    MulMono(0, m.s2, s.s2);
    SumOfResidues(m.s0 * s.s0, m.s1 * s.s1, m.s2 * s.s2, p);
  }

  lemma SumOfResidues(a: int, b: int, c: int, p: int)
    requires p > 0
    ensures var sum := AddMod(AddMod(a % p, b % p, p), c % p, p); InField(sum, p) && sum == (a + b + c) % p
  {
    AddModIsSum(a % p, b % p, p);
    ModAdd(p, a, b);
    AddModIsSum((a + b) % p, c % p, p);
    ModAdd(p, a + b, c);
  }

  lemma AddKeyRange(s: State, k: State, p: int)
    requires InRange(s, p) && InRange(k, p)
    ensures InRange(AddKey(s, k, p), p)
  {
  }

  lemma SboxRange(s: State, p: int)
    requires InRange(s, p)
    ensures InRange(FullSbox(s, p), p) && InRange(PartialSbox(s, p), p)
  {
    SboxIsFifthPower(s.s0, p);
    SboxIsFifthPower(s.s1, p);
    SboxIsFifthPower(s.s2, p);
  }

  lemma RoundRange(q: Params, r: nat, s: State, p: int)
    requires ValidParams(q, p) && r < ROUNDS && InRange(s, p)
    ensures InRange(Round(q, r, s, p), p)
  {
    var keyed := AddKey(s, q.ark[r], p);
    AddKeyRange(s, q.ark[r], p);
    SboxRange(keyed, p);
    var t := if IsFullRound(r) then FullSbox(keyed, p) else PartialSbox(keyed, p);
    MixRowIsSum(q.mds[0], t, p);
    MixRowIsSum(q.mds[1], t, p);
    MixRowIsSum(q.mds[2], t, p);
  }

  /** Every lane stays a field element through all rounds. */
  lemma {:induction false} RoundsRange(q: Params, n: nat, s: State, p: int)
    requires ValidParams(q, p) && n <= ROUNDS && InRange(s, p)
    ensures InRange(Rounds(q, n, s, p), p)
  {
    if n > 0 {
      RoundsRange(q, n - 1, s, p);
      RoundRange(q, n - 1, Rounds(q, n - 1, s, p), p);
    }
  }

  // ----- what the rounds compute, in closed arithmetic -----

  /** A lane after its round constant, and its fifth power. */
  ghost function Plain(x: int, k: int, p: int): int
    requires p > 0
  {
    (x + k) % p
  }

  ghost function Fifth(x: int, k: int, p: int): int
    requires p > 0
  {
    Pow((x + k) % p, 5) % p
  }

  ghost function Dot(m: State, u0: int, u1: int, u2: int, p: int): int
    requires p > 0
  {
    (m.s0 * u0 + m.s1 * u1 + m.s2 * u2) % p
  }

  /** Round r takes s to t: constants are added, lane 0 is raised to the fifth power, lanes 1 and
      2 as well in the first four and the last four rounds only, and the matrix is applied. */
  ghost predicate IsRound(q: Params, r: nat, s: State, t: State, p: int)
    requires p > 0 && |q.ark| == 64 && |q.mds| == 3 && r < 64
  {
    var k := q.ark[r];
    var u0 := Fifth(s.s0, k.s0, p);
    var u1 := if 4 <= r < 60 then Plain(s.s1, k.s1, p) else Fifth(s.s1, k.s1, p);
    var u2 := if 4 <= r < 60 then Plain(s.s2, k.s2, p) else Fifth(s.s2, k.s2, p);
    t == State(Dot(q.mds[0], u0, u1, u2, p), Dot(q.mds[1], u0, u1, u2, p), Dot(q.mds[2], u0, u1, u2, p))
  }

  lemma KeyedSbox(x: int, k: int, p: int)
    requires InField(x, p) && InField(k, p)
    ensures AddMod(x, k, p) == Plain(x, k, p) && InField(Plain(x, k, p), p)
    ensures Sbox(AddMod(x, k, p), p) == Fifth(x, k, p) && InField(Fifth(x, k, p), p)
  {
    AddModIsSum(x, k, p);
    SboxIsFifthPower(AddMod(x, k, p), p);
  }

  lemma RoundIs(q: Params, r: nat, s: State, p: int)
    requires ValidParams(q, p) && p > 0 && r < 64 && InRange(s, p)
    ensures IsRound(q, r, s, Round(q, r, s, p), p)
  {
    var k := q.ark[r];
    KeyedSbox(s.s0, k.s0, p);
    KeyedSbox(s.s1, k.s1, p);
    KeyedSbox(s.s2, k.s2, p);
    var keyed := AddKey(s, k, p);
    var t := if IsFullRound(r) then FullSbox(keyed, p) else PartialSbox(keyed, p);
    MixRowIsSum(q.mds[0], t, p);
    MixRowIsSum(q.mds[1], t, p);
    MixRowIsSum(q.mds[2], t, p);
  }

  /** The 65 states of a permutation that starts with s and ends with t. */
  ghost predicate IsTrace(q: Params, s: State, trace: seq<State>, t: State, p: int)
    requires p > 0 && |q.ark| == 64 && |q.mds| == 3
  {
    && |trace| == 65 && trace[0] == s && trace[64] == t
    && forall r :: 0 <= r < 64 ==> IsRound(q, r, trace[r], trace[r + 1], p)
  }

  ghost predicate Permutes(q: Params, s: State, t: State, p: int)
    requires p > 0 && |q.ark| == 64 && |q.mds| == 3
  {
    exists trace :: IsTrace(q, s, trace, t, p)
  }

  lemma {:induction false} TraceOf(q: Params, n: nat, s: State, p: int) returns (trace: seq<State>)
    requires ValidParams(q, p) && p > 0 && n <= 64 && InRange(s, p)
    ensures |trace| == n + 1 && trace[0] == s && trace[n] == Rounds(q, n, s, p)
    ensures forall r :: 0 <= r < n ==> IsRound(q, r, trace[r], trace[r + 1], p)
  {
    if n == 0 {
      trace := [s];
    } else {
      var before := TraceOf(q, n - 1, s, p);
      RoundsRange(q, n - 1, s, p);
      RoundIs(q, n - 1, Rounds(q, n - 1, s, p), p);
      trace := before + [Rounds(q, n, s, p)];
    }
  }

  /** The permutation is the 64 rounds in order, each in closed arithmetic, and nothing else. */
  lemma PermuteIs(q: Params, s: State, t: State, p: int)
    requires ValidParams(q, p) && p > 0 && InRange(s, p)
    ensures Permutes(q, s, t, p) <==> t == Permute(q, s, p)
  {
    var trace := TraceOf(q, 64, s, p);
    assert IsTrace(q, s, trace, Permute(q, s, p), p);
    if other :| IsTrace(q, s, other, t, p) {
      SameTraces(q, trace, other, 64, p);
    }
  }

  lemma PermuteIsIf(q: Params, s: State, p: int)
    requires p > 0 && |q.ark| == ROUNDS && |q.mds| == 3
    ensures ValidParams(q, p) && InRange(s, p) ==> Permutes(q, s, Permute(q, s, p), p)
  {
    if ValidParams(q, p) && InRange(s, p) { PermuteIs(q, s, Permute(q, s, p), p); }
  }

  lemma {:induction false} SameTraces(q: Params, a: seq<State>, b: seq<State>, n: nat, p: int)
    requires p > 0 && |q.ark| == 64 && |q.mds| == 3 && n <= 64 && |a| == |b| == 65 && a[0] == b[0]
    requires forall r :: 0 <= r < 64 ==> IsRound(q, r, a[r], a[r + 1], p)
    requires forall r :: 0 <= r < 64 ==> IsRound(q, r, b[r], b[r + 1], p)
    ensures a[n] == b[n]
  {
    if n > 0 {
      SameTraces(q, a, b, n - 1, p);
      assert IsRound(q, n - 1, a[n - 1], a[n], p) && IsRound(q, n - 1, b[n - 1], b[n], p);
    }
  }

  // ----- injectivity -----

  /** The conditions under which the layers are invertible: what the source's choice of
      modulus, S-box exponent and matrix is for. */
  ghost predicate Sound(q: Params, xs: State, ys: State, p: int) {
    && IsPrime(p) && (p - 1) % 5 != 0 && ValidParams(q, p)
    && InRange(xs, p) && InRange(ys, p)
    && xs.s0 != xs.s1 && xs.s0 != xs.s2 && xs.s1 != xs.s2
    && ys.s0 != ys.s1 && ys.s0 != ys.s2 && ys.s1 != ys.s2
    && IsCauchy(q.mds, xs, ys, p)
  }

  lemma DistinctInField(v: State, p: int)
    requires InRange(v, p) && v.s0 != v.s1 && v.s0 != v.s2 && v.s1 != v.s2
    ensures Distinct3(v.s0, v.s1, v.s2, p)
  {
    if Divides(p, v.s0 - v.s1) { DividesSmall(p, v.s0 - v.s1); }
    if Divides(p, v.s0 - v.s2) { DividesSmall(p, v.s0 - v.s2); }
    if Divides(p, v.s1 - v.s2) { DividesSmall(p, v.s1 - v.s2); }
  }

  /** The inverse of the reduced sum inverts the sum itself. */
  lemma InverseOfSum(x: int, y: int, m: int, p: int)
    requires InField(x, p) && InField(y, p) && p > 1 && IsInverse(AddMod(x, y, p), m, p)
    ensures Inverts(p, m, x + y)
  {
    AddModIsSum(x, y, p);
    ModMulLeft(p, x + y, m);
    assert (x + y) * m == m * (x + y);
    DivModUnique(1, 0, 1, p);
    CongIsModEq(p, m * (x + y), 1);
  }

  lemma DotDifference(m: State, v: State, w: State)
    ensures m.s0 * (v.s0 - w.s0) + m.s1 * (v.s1 - w.s1) + m.s2 * (v.s2 - w.s2)
         == (m.s0 * v.s0 + m.s1 * v.s1 + m.s2 * v.s2) - (m.s0 * w.s0 + m.s1 * w.s1 + m.s2 * w.s2)
  {
    assert m.s0 * (v.s0 - w.s0) == m.s0 * v.s0 - m.s0 * w.s0;
    assert m.s1 * (v.s1 - w.s1) == m.s1 * v.s1 - m.s1 * w.s1;
    assert m.s2 * (v.s2 - w.s2) == m.s2 * v.s2 - m.s2 * w.s2;
  }

  /** Two states with the same mixed lane differ by a vector that the row kills. */
  lemma RowDifference(m: State, v: State, w: State, p: int)
    requires InRange(m, p) && InRange(v, p) && InRange(w, p) && MixRow(m, v, p) == MixRow(m, w, p)
    ensures Divides(p, m.s0 * (v.s0 - w.s0) + m.s1 * (v.s1 - w.s1) + m.s2 * (v.s2 - w.s2))
  {
    MixRowIsSum(m, v, p);
    MixRowIsSum(m, w, p);
    DotDifference(m, v, w);
    CongIsModEq(p, m.s0 * v.s0 + m.s1 * v.s1 + m.s2 * v.s2, m.s0 * w.s0 + m.s1 * w.s1 + m.s2 * w.s2);
  }

  lemma RowKills(m: State, x: int, ys: State, v: State, w: State, p: int)
    requires p > 1 && InField(x, p) && InRange(ys, p) && InRange(m, p) && InRange(v, p) && InRange(w, p)
    requires IsCauchyRow(m, x, ys, p) && MixRow(m, v, p) == MixRow(m, w, p)
    ensures KillsRow(p, x, ys.s0, ys.s1, ys.s2, v.s0 - w.s0, v.s1 - w.s1, v.s2 - w.s2)
  {
    RowDifference(m, v, w, p);
    ClearRow(p, m.s0, m.s1, m.s2, x + ys.s0, x + ys.s1, x + ys.s2, v.s0 - w.s0, v.s1 - w.s1, v.s2 - w.s2);
  }

  /** The Cauchy mixing layer is injective. */
  lemma MixInjective(q: Params, xs: State, ys: State, v: State, w: State, p: int)
    requires Sound(q, xs, ys, p) && InRange(v, p) && InRange(w, p)
    requires Mix(q.mds, v, p) == Mix(q.mds, w, p)
    ensures v == w
  {
    RowKills(q.mds[0], xs.s0, ys, v, w, p);
    RowKills(q.mds[1], xs.s1, ys, v, w, p);
    RowKills(q.mds[2], xs.s2, ys, v, w, p);
    DistinctInField(xs, p);
    DistinctInField(ys, p);
    ThreeKills(p, xs.s0, xs.s1, xs.s2, ys, v, w);
  }

  // ----- the mixing layer is maximum distance separable -----

  function Flag(b: bool): nat {
    if b then 1 else 0
  }

  /** In how many lanes two states differ. */
  function Distance(v: State, w: State): nat {
    Flag(v.s0 != w.s0) + Flag(v.s1 != w.s1) + Flag(v.s2 != w.s2)
  }

  /** The points where a row of the matrix, or the numerator of a vanishing lane, is zero. */
  ghost function Points(xs: State, ys: State): seq<int> {
    [xs.s0, xs.s1, xs.s2, -ys.s0, -ys.s1, -ys.s2]
  }

  lemma SumNotZero(s: int, m: int, p: int)
    requires p > 1 && Inverts(p, m, s)
    ensures !Divides(p, s)
  {
    if Divides(p, s) {
      DividesScale(p, s, m);
      DividesSum(p, m * s, m * s - 1);
      DividesSmall(p, 1);
    }
  }

  lemma PointsDistinct(q: Params, xs: State, ys: State, p: int)
    requires Sound(q, xs, ys, p)
    ensures forall i, j :: 0 <= i < j < 6 ==> !Divides(p, Points(xs, ys)[i] - Points(xs, ys)[j])
  {
    DistinctInField(xs, p);
    DistinctInField(ys, p);
    Distinct3Permute(ys.s0, ys.s1, ys.s2, p);
    RowDistinct(q.mds[0], xs.s0, ys, p);
    RowDistinct(q.mds[1], xs.s1, ys, p);
    RowDistinct(q.mds[2], xs.s2, ys, p);
    assert !Divides(p, -ys.s1 - (-ys.s2)) by {
      if Divides(p, ys.s2 - ys.s1) { Negated(p, ys.s2 - ys.s1); }
    }
  }

  lemma RowDistinct(m: State, x: int, ys: State, p: int)
    requires InField(x, p) && InRange(ys, p) && p > 1 && IsCauchyRow(m, x, ys, p)
    ensures !Divides(p, x - (-ys.s0)) && !Divides(p, x - (-ys.s1)) && !Divides(p, x - (-ys.s2))
  {
    SumNotZero(x + ys.s0, m.s0, p);
    SumNotZero(x + ys.s1, m.s1, p);
    SumNotZero(x + ys.s2, m.s2, p);
  }

  /** Which mixed lanes agree, and which lanes. */
  ghost function Agreements(q: Params, v: State, w: State, p: int): seq<bool>
    requires p > 0 && |q.mds| == 3
  {
    var a, b := Mix(q.mds, v, p), Mix(q.mds, w, p);
    [a.s0 == b.s0, a.s1 == b.s1, a.s2 == b.s2, v.s0 == w.s0, v.s1 == w.s1, v.s2 == w.s2]
  }

  ghost predicate Kills(p: int, x: int, ys: State, v: State, w: State) {
    KillsRow(p, x, ys.s0, ys.s1, ys.s2, v.s0 - w.s0, v.s1 - w.s1, v.s2 - w.s2)
  }

  /** Each agreement is a root of the one quadratic that the difference defines. */
  lemma AgreementsAreRoots(q: Params, xs: State, ys: State, v: State, w: State, p: int, i: nat)
    requires Sound(q, xs, ys, p) && InRange(v, p) && InRange(w, p) && i < 6 && Agreements(q, v, w, p)[i]
    ensures Kills(p, Points(xs, ys)[i], ys, v, w)
  {
    if i >= 3 {
      ZeroComponent(p, ys.s0, ys.s1, ys.s2, v.s0 - w.s0, v.s1 - w.s1, v.s2 - w.s2);
    } else if i == 0 {
      RowKills(q.mds[0], xs.s0, ys, v, w, p);
    } else if i == 1 {
      RowKills(q.mds[1], xs.s1, ys, v, w, p);
    } else {
      RowKills(q.mds[2], xs.s2, ys, v, w, p);
    }
  }

  /** A quadratic with three of these roots is zero, and then so is the difference. */
  lemma ThreeAgreements(q: Params, xs: State, ys: State, v: State, w: State, p: int, i: nat, j: nat, k: nat)
    requires Sound(q, xs, ys, p) && InRange(v, p) && InRange(w, p) && i < j < k < 6
    requires Agreements(q, v, w, p)[i] && Agreements(q, v, w, p)[j] && Agreements(q, v, w, p)[k]
    ensures v == w
  {
    AgreementsAreRoots(q, xs, ys, v, w, p, i);
    AgreementsAreRoots(q, xs, ys, v, w, p, j);
    AgreementsAreRoots(q, xs, ys, v, w, p, k);
    PointsDistinct(q, xs, ys, p);
    DistinctInField(ys, p);
    var x := Points(xs, ys);
    ThreeKills(p, x[i], x[j], x[k], ys, v, w);
  }

  lemma ThreeKills(p: int, x1: int, x2: int, x3: int, ys: State, v: State, w: State)
    requires IsPrime(p) && Distinct3(x1, x2, x3, p) && Distinct3(ys.s0, ys.s1, ys.s2, p)
    requires InRange(v, p) && InRange(w, p)
    requires Kills(p, x1, ys, v, w) && Kills(p, x2, ys, v, w) && Kills(p, x3, ys, v, w)
    ensures v == w
  {
    CauchyKernel(p, x1, x2, x3, ys.s0, ys.s1, ys.s2, v.s0 - w.s0, v.s1 - w.s1, v.s2 - w.s2);
    DividesSmall(p, v.s0 - w.s0);
    DividesSmall(p, v.s1 - w.s1);
    DividesSmall(p, v.s2 - w.s2);
  }

  ghost function CountFrom(b: seq<bool>, from: nat): nat
    requires from <= |b|
    decreases |b| - from
  {
    if from == |b| then 0 else Flag(b[from]) + CountFrom(b, from + 1)
  }

  lemma {:induction false} NextTrue(b: seq<bool>, from: nat) returns (i: nat)
    requires from <= |b| && CountFrom(b, from) > 0
    ensures from <= i < |b| && b[i] && CountFrom(b, i + 1) == CountFrom(b, from) - 1
    decreases |b| - from
  {
    if b[from] { i := from; } else { i := NextTrue(b, from + 1); }
  }

  lemma AgreementCount(q: Params, v: State, w: State, p: int)
    requires p > 0 && |q.mds| == 3
    ensures CountFrom(Agreements(q, v, w, p), 0) == 6 - Distance(v, w) - Distance(Mix(q.mds, v, p), Mix(q.mds, w, p))
  {
    var b := Agreements(q, v, w, p);
    assert CountFrom(b, 6) == 0 && CountFrom(b, 5) == Flag(b[5]) && CountFrom(b, 4) == Flag(b[4]) + CountFrom(b, 5);
    assert CountFrom(b, 3) == Flag(b[3]) + CountFrom(b, 4) && CountFrom(b, 2) == Flag(b[2]) + CountFrom(b, 3);
    assert CountFrom(b, 1) == Flag(b[1]) + CountFrom(b, 2) && CountFrom(b, 0) == Flag(b[0]) + CountFrom(b, 1);
  }

  /** The mixing matrix is maximum distance separable: states that differ in k lanes are mixed
      to states that differ in at least 4 - k. */
  lemma MixDiffuses(q: Params, xs: State, ys: State, v: State, w: State, p: int)
    requires Sound(q, xs, ys, p) && InRange(v, p) && InRange(w, p) && v != w
    ensures Distance(v, w) + Distance(Mix(q.mds, v, p), Mix(q.mds, w, p)) >= 4
  {
    AgreementCount(q, v, w, p);
    var b := Agreements(q, v, w, p);
    if CountFrom(b, 0) >= 3 {
      var i := NextTrue(b, 0);
      var j := NextTrue(b, i + 1);
      var k := NextTrue(b, j + 1);
      ThreeAgreements(q, xs, ys, v, w, p, i, j, k);
    }
  }

  lemma RoundInjective(q: Params, xs: State, ys: State, r: nat, v: State, w: State, p: int)
    requires Sound(q, xs, ys, p) && r < ROUNDS && InRange(v, p) && InRange(w, p)
    requires Round(q, r, v, p) == Round(q, r, w, p)
    ensures v == w
  {
    var k := q.ark[r];
    var kv, kw := AddKey(v, k, p), AddKey(w, k, p);
    AddKeyRange(v, k, p);
    AddKeyRange(w, k, p);
    SboxRange(kv, p);
    SboxRange(kw, p);
    if IsFullRound(r) {
      MixInjective(q, xs, ys, FullSbox(kv, p), FullSbox(kw, p), p);
      SboxInjective(kv.s1, kw.s1, p);
      SboxInjective(kv.s2, kw.s2, p);
    } else {
      MixInjective(q, xs, ys, PartialSbox(kv, p), PartialSbox(kw, p), p);
    }
    SboxInjective(kv.s0, kw.s0, p);
    AddModInjective(v.s0, w.s0, k.s0, p);
    AddModInjective(v.s1, w.s1, k.s1, p);
    AddModInjective(v.s2, w.s2, k.s2, p);
  }

  lemma {:induction false} RoundsInjective(q: Params, xs: State, ys: State, n: nat, v: State, w: State, p: int)
    requires Sound(q, xs, ys, p) && n <= ROUNDS && InRange(v, p) && InRange(w, p)
    requires Rounds(q, n, v, p) == Rounds(q, n, w, p)
    ensures v == w
  {
    if n > 0 {
      RoundsRange(q, n - 1, v, p);
      RoundsRange(q, n - 1, w, p);
      RoundInjective(q, xs, ys, n - 1, Rounds(q, n - 1, v, p), Rounds(q, n - 1, w, p), p);
      RoundsInjective(q, xs, ys, n - 1, v, w, p);
    }
  }

  /** All 64 rounds together map field states to field states, no two to the same one. */
  lemma PermuteInjective(q: Params, xs: State, ys: State, v: State, w: State, p: int)
    requires Sound(q, xs, ys, p) && InRange(v, p) && InRange(w, p)
    ensures InRange(Permute(q, v, p), p)
    ensures Permute(q, v, p) == Permute(q, w, p) ==> v == w
  {
    RoundsRange(q, ROUNDS, v, p);
    if Permute(q, v, p) == Permute(q, w, p) {
      RoundsInjective(q, xs, ys, ROUNDS, v, w, p);
    }
  }

  // ----- the permutation is onto -----

  ghost function AllStates(p: int): set<State> {
    set a: nat, b: nat, c: nat | a < p && b < p && c < p :: State(a, b, c)
  }

  ghost function Image(q: Params, s: set<State>, p: int): set<State>
    requires p > 0 && |q.ark| == ROUNDS && |q.mds| == 3
  {
    set v | v in s :: Permute(q, v, p)
  }

  lemma {:induction false} ImageSize(q: Params, xs: State, ys: State, s: set<State>, p: int)
    requires Sound(q, xs, ys, p) && forall v :: v in s ==> InRange(v, p)
    ensures |Image(q, s, p)| == |s|
    decreases s
  {
    if s == {} {
      assert Image(q, s, p) == {};
    } else {
      var v :| v in s;
      var rest := s - {v};
      ImageSize(q, xs, ys, rest, p);
      forall w | w in rest ensures Permute(q, w, p) != Permute(q, v, p) {
        PermuteInjective(q, xs, ys, v, w, p);
      }
      assert Image(q, s, p) == Image(q, rest, p) + {Permute(q, v, p)};
    }
  }

  /** Every field state is the permutation of some field state. */
  lemma PermuteSurjective(q: Params, xs: State, ys: State, t: State, p: int)
    requires Sound(q, xs, ys, p) && InRange(t, p)
    ensures exists s :: InRange(s, p) && Permute(q, s, p) == t
  {
    var all := AllStates(p);
    var image := Image(q, all, p);
    ImageSize(q, xs, ys, all, p);
    forall u | u in image ensures u in all {
      var v :| v in all && u == Permute(q, v, p);
      PermuteInjective(q, xs, ys, v, v, p);
      InAllStates(u, p);
    }
    assert all == image + (all - image);
    assert |all| == |image| + |all - image|;
    InAllStates(t, p);
    assert t in image;
    var s :| s in all && t == Permute(q, s, p);
  }

  lemma InAllStates(s: State, p: int)
    ensures s in AllStates(p) <==> InRange(s, p)
  {
    if InRange(s, p) {
      var a: nat, b: nat, c: nat := s.s0, s.s1, s.s2;
      assert State(a, b, c) in AllStates(p);
    }
  }

  // ----- the matrix that buildParams builds satisfies Sound -----

  function Row(r: seq<int>): State
    requires |r| == 3
  {
    State(r[0], r[1], r[2])
  }

  /** Distinct field elements drawn for the matrix, with no zero sum, and any round
      constants in the field give sound parameters. */
  lemma BuiltMatrixIsSound(ark: seq<State>, xs: seq<int>, ys: seq<int>, rows: seq<seq<int>>, p: int)
    requires IsPrime(p) && (p - 1) % 5 != 0
    requires |ark| == ROUNDS && forall r :: 0 <= r < ROUNDS ==> InRange(ark[r], p)
    requires |xs| == |ys| == |rows| == 3 && InRange(Row(xs), p) && InRange(Row(ys), p)
    requires xs[0] != xs[1] && xs[0] != xs[2] && xs[1] != xs[2]
    requires ys[0] != ys[1] && ys[0] != ys[2] && ys[1] != ys[2]
    requires forall i :: 0 <= i < 3 ==> |rows[i]| == 3 && IsInverseRow(xs[i], ys, rows[i], p)
    ensures Sound(Params(ark, [Row(rows[0]), Row(rows[1]), Row(rows[2])]), Row(xs), Row(ys), p)
  {
    var mds := [Row(rows[0]), Row(rows[1]), Row(rows[2])];
    forall i | 0 <= i < 3
      ensures InRange(mds[i], p) && IsCauchyRow(mds[i], xs[i], Row(ys), p)
    {
      InverseRowIsCauchy(xs[i], ys, rows[i], p);
      assert mds[i] == Row(rows[i]);
    }
  }

  lemma InverseRowIsCauchy(x: int, ys: seq<int>, row: seq<int>, p: int)
    requires p > 1 && InField(x, p) && |ys| == 3 && InRange(Row(ys), p) && IsInverseRow(x, ys, row, p)
    ensures InRange(Row(row), p) && IsCauchyRow(Row(row), x, Row(ys), p)
  {
    forall j | 0 <= j < 3 ensures InField(row[j], p) && Inverts(p, row[j], x + ys[j]) {
      assert IsInverse(AddMod(x, ys[j], p), row[j], p);
      assert InField(ys[j], p) by { assert ys[j] == ys[0] || ys[j] == ys[1] || ys[j] == ys[2]; }
      InverseOfSum(x, ys[j], row[j], p);
    }
  }

  /** The exponent condition holds for the modulus the source fixes. */
  lemma Bn254SboxExponent()
    ensures (BN254_P - 1) % 5 != 0
  {
  }

  // ----- the sponge -----

  datatype Digest = OutOfRange | Squeezed(value: int)

  /** The state after absorbing the first two inputs. */
  function Absorbed(q: Params, i0: int, i1: int, p: int): State
    requires p > 0 && |q.ark| == ROUNDS && |q.mds| == 3
  {
    Permute(q, State(0, AddMod(0, i0, p), AddMod(0, i1, p)), p)
  }

  /** The state squeezed by the hash. */
  function Final(q: Params, i0: int, i1: int, i2: int, p: int): State
    requires p > 0 && |q.ark| == ROUNDS && |q.mds| == 3
  {
    var s := Absorbed(q, i0, i1, p);
    Permute(q, Fed(s, i2, p), p)
  }

  /** The sponge in closed form: the first two inputs fill lanes 1 and 2 of a zero state, the
      third is added to lane 1 of the permuted state, and lane 1 of the next one is the digest. */
  ghost predicate IsDigest(q: Params, i0: int, i1: int, i2: int, digest: int, p: int)
    requires p > 0 && |q.ark| == 64 && |q.mds| == 3
  {
    exists a, b :: Permutes(q, State(0, i0, i1), a, p) && Permutes(q, State(a.s0, (a.s1 + i2) % p, a.s2), b, p)
                   && digest == b.s1
  }

  lemma SpongeIs(q: Params, i0: int, i1: int, i2: int, p: int)
    requires ValidParams(q, p) && InField(i0, p) && InField(i1, p) && InField(i2, p)
    ensures IsDigest(q, i0, i1, i2, Final(q, i0, i1, i2, p).s1, p)
  {
    var first := State(0, i0, i1);
    var a := Permute(q, first, p);
    AddModIsSum(0, i0, p);
    AddModIsSum(0, i1, p);
    RoundsRange(q, ROUNDS, first, p);
    PermuteIsIf(q, first, p);
    SqueezeIs(q, a, i2, p);
  }

  lemma SqueezeIs(q: Params, a: State, i2: int, p: int)
    requires ValidParams(q, p) && InRange(a, p) && InField(i2, p)
    ensures Fed(a, i2, p) == State(a.s0, (a.s1 + i2) % p, a.s2)
    ensures Permutes(q, Fed(a, i2, p), Permute(q, Fed(a, i2, p), p), p)
  {
    AddModIsSum(a.s1, i2, p);
    PermuteIsIf(q, Fed(a, i2, p), p);
  }

  /** Digest of three field elements, or a range error. */
  method Poseidon2(inputs: seq<int>, q: Params, p: int) returns (d: Digest)
    requires |inputs| == 3 && p > 0 && ValidParams(q, p)
    ensures d.OutOfRange? <==> exists i :: 0 <= i < 3 && !(0 <= inputs[i] < p)
    ensures d.Squeezed? ==> d.value == Final(q, inputs[0], inputs[1], inputs[2], p).s1 && InField(d.value, p)
    ensures d.Squeezed? ==> IsDigest(q, inputs[0], inputs[1], inputs[2], d.value, p)
  {
    for i := 0 to 3
      invariant forall k :: 0 <= k < i ==> 0 <= inputs[k] < p
    {
      if inputs[i] < 0 || inputs[i] >= p {
        return OutOfRange;
      }
    }
    var state := new int[3][0, 0, 0];
    state[1] := AddMod(state[1], inputs[0], p);
    state[2] := AddMod(state[2], inputs[1], p);
    ghost var first := View(state);
    PoseidonPermute(state, q, p);
    RoundsRange(q, ROUNDS, first, p);
    state[1] := AddMod(state[1], inputs[2], p);
    ghost var second := View(state);
    PoseidonPermute(state, q, p);
    RoundsRange(q, ROUNDS, second, p);
    AddModIsSum(0, inputs[0], p);
    AddModIsSum(0, inputs[1], p);
    SpongeIs(q, inputs[0], inputs[1], inputs[2], p);
    return Squeezed(state[1]);
  }

  /** Two input triples reach the same final state exactly when their absorbed states agree
      outside the lane the third input is added to, and agree there after the addition. */
  lemma FinalCollision(q: Params, xs: State, ys: State, i: State, j: State, p: int)
    requires Sound(q, xs, ys, p) && InRange(i, p) && InRange(j, p)
    ensures Final(q, i.s0, i.s1, i.s2, p) == Final(q, j.s0, j.s1, j.s2, p) <==>
              var a, b := Absorbed(q, i.s0, i.s1, p), Absorbed(q, j.s0, j.s1, p);
              a.s0 == b.s0 && a.s2 == b.s2 && (a.s1 + i.s2) % p == (b.s1 + j.s2) % p
  {
    var a, b := Absorbed(q, i.s0, i.s1, p), Absorbed(q, j.s0, j.s1, p);
    AbsorbedRange(q, i, p);
    AbsorbedRange(q, j, p);
    SecondCollision(q, xs, ys, a, b, i.s2, j.s2, p);
    AddModIsSum(a.s1, i.s2, p);
    AddModIsSum(b.s1, j.s2, p);
  }

  /** The state after the second absorption. */
  function Fed(a: State, t: int, p: int): State {
    a.(s1 := AddMod(a.s1, t, p))
  }

  lemma SecondCollision(q: Params, xs: State, ys: State, a: State, b: State, t: int, u: int, p: int)
    requires Sound(q, xs, ys, p) && InRange(a, p) && InRange(b, p) && InField(t, p) && InField(u, p)
    ensures Permute(q, Fed(a, t, p), p) == Permute(q, Fed(b, u, p), p) <==>
              a.s0 == b.s0 && a.s2 == b.s2 && AddMod(a.s1, t, p) == AddMod(b.s1, u, p)
  {
    AddModIsSum(a.s1, t, p);
    AddModIsSum(b.s1, u, p);
    PermuteInjective(q, xs, ys, Fed(a, t, p), Fed(b, u, p), p);
  }

  /** With the third input fixed (the Merkle domain tag), different pairs never reach the
      same final state; with the pair fixed, neither do different third inputs. */
  lemma FinalInjectivePerTag(q: Params, xs: State, ys: State, i: State, j: State, p: int)
    requires Sound(q, xs, ys, p) && InRange(i, p) && InRange(j, p)
    requires Final(q, i.s0, i.s1, i.s2, p) == Final(q, j.s0, j.s1, j.s2, p)
    ensures i.s2 == j.s2 ==> i == j
    ensures i.s0 == j.s0 && i.s1 == j.s1 ==> i == j
  {
    if i.s2 == j.s2 {
      SameTag(q, xs, ys, i, j, p);
    }
    if i.s0 == j.s0 && i.s1 == j.s1 {
      SamePair(q, xs, ys, i, j, p);
    }
  }

  lemma AbsorbedRange(q: Params, i: State, p: int)
    requires ValidParams(q, p) && InRange(i, p)
    ensures InRange(Absorbed(q, i.s0, i.s1, p), p)
  {
    RoundsRange(q, ROUNDS, State(0, i.s0, i.s1), p);
  }

  lemma SameTag(q: Params, xs: State, ys: State, i: State, j: State, p: int)
    requires Sound(q, xs, ys, p) && InRange(i, p) && InRange(j, p) && i.s2 == j.s2
    requires Final(q, i.s0, i.s1, i.s2, p) == Final(q, j.s0, j.s1, j.s2, p)
    ensures i == j
  {
    SameTagAbsorbed(q, xs, ys, i, j, p);
    AbsorbedInjective(q, xs, ys, i, j, p);
  }

  lemma SameTagAbsorbed(q: Params, xs: State, ys: State, i: State, j: State, p: int)
    requires Sound(q, xs, ys, p) && InRange(i, p) && InRange(j, p) && i.s2 == j.s2
    requires Final(q, i.s0, i.s1, i.s2, p) == Final(q, j.s0, j.s1, j.s2, p)
    ensures Absorbed(q, i.s0, i.s1, p) == Absorbed(q, j.s0, j.s1, p)
  {
    AbsorbedRange(q, i, p);
    AbsorbedRange(q, j, p);
    SameFed(q, xs, ys, Absorbed(q, i.s0, i.s1, p), Absorbed(q, j.s0, j.s1, p), i.s2, p);
  }

  lemma SameFed(q: Params, xs: State, ys: State, a: State, b: State, t: int, p: int)
    requires Sound(q, xs, ys, p) && InRange(a, p) && InRange(b, p) && InField(t, p)
    requires Permute(q, Fed(a, t, p), p) == Permute(q, Fed(b, t, p), p)
    ensures a == b
  {
    SecondCollision(q, xs, ys, a, b, t, t, p);
    AddModInjective(a.s1, b.s1, t, p);
  }

  lemma AbsorbedInjective(q: Params, xs: State, ys: State, i: State, j: State, p: int)
    requires Sound(q, xs, ys, p) && InRange(i, p) && InRange(j, p)
    requires Absorbed(q, i.s0, i.s1, p) == Absorbed(q, j.s0, j.s1, p)
    ensures i.s0 == j.s0 && i.s1 == j.s1
  {
    PermuteInjective(q, xs, ys, State(0, i.s0, i.s1), State(0, j.s0, j.s1), p);
  }

  lemma SamePair(q: Params, xs: State, ys: State, i: State, j: State, p: int)
    requires Sound(q, xs, ys, p) && InRange(i, p) && InRange(j, p) && i.s0 == j.s0 && i.s1 == j.s1
    requires Final(q, i.s0, i.s1, i.s2, p) == Final(q, j.s0, j.s1, j.s2, p)
    ensures i == j
  {
    AbsorbedRange(q, i, p);
    SameFeed(q, xs, ys, Absorbed(q, i.s0, i.s1, p), i.s2, j.s2, p);
  }

  lemma SameFeed(q: Params, xs: State, ys: State, a: State, t: int, u: int, p: int)
    requires Sound(q, xs, ys, p) && InRange(a, p) && InField(t, p) && InField(u, p)
    requires Permute(q, Fed(a, t, p), p) == Permute(q, Fed(a, u, p), p)
    ensures t == u
  {
    SecondCollision(q, xs, ys, a, a, t, u, p);
    AddModInjective(t, u, a.s1, p);
    assert AddMod(a.s1, t, p) == AddMod(t, a.s1, p) && AddMod(a.s1, u, p) == AddMod(u, a.s1, p);
  }
}
