# Verification of the ETO gateway core

This project models the parts of the `@eto/mcp` gateway that carry algorithms or protocols, and
proves what they are for. `dafny verify dfyconfig.toml` checks it all. Four groups:

1. **Arithmetic.** The BN254 field, the Grain shift register, parameter generation, the Poseidon
   permutation and its sponge (`src/crypto/poseidon2.ts`); the 2-of-3 key split over 32-byte
   little-endian numbers (`signing-service/src/frost.rs`); the base-58 decoder
   (`src/issuers/civic.ts`, repeated in `src/issuers/skill-cert.ts`). Fermat's little theorem and
   the invertibility of 3x3 Cauchy matrices are proved, not assumed.
2. **Issuance protocols.** The Worldcoin, skill-certificate and bank issuers as requests that
   interleave at every `await` over one store and one chain. A run is any sequence of events;
   theorems are about every run and every point of it.
3. **Token state machines.** The OAuth provider (section 4.1.2 of RFC 6749 and section 4.14.2 of
   RFC 9700) with its files: a run mixes handler calls that complete, calls cut off after any of
   their file writes, and restarts. The token-bucket rate limiter over a monotone clock.
4. **Printers, parsers and serializers.** Canonical JSON (section 3.2.3 of RFC 8785), the Beckn
   signature header (section 2.3 of draft-cavage-http-signatures), Borsh account layouts, and the
   catalog grouping of the on_search callback.

Code that works in place is a class or a method with loops, proved against a function on values;
the promised laws are lemmas about those functions. Library calls, clocks and random draws are
parameters: what an awaited dependency answers is part of an event, random identifiers are any
identifiers never drawn before, and the header codec takes its libraries as a value.

Where code and comments disagree the model follows the code, and says exactly when the comment
holds:

- `src/issuers/worldcoin.ts:376-381` says the nullifier is reserved before the transaction is
  sent, so that a concurrent retry cannot issue twice. The code sends first and stores after.
  `OverlapIssuesTwice` builds a run in which one nullifier and card are issued twice;
  `IssuesIffUnbound` proves that a valid request that has not looked yet can come to issue if and
  only if its key is unbound.
- `signing-service/src/frost.rs:37-38` and `109` speak of arithmetic modulo the Ed25519 order. The
  code works modulo 2^256 and divides with a floor, so shares 1 and 3 give back the key if and only
  if its top bit is clear (`OuterSharesExact`, `TopBitIsLost`). For other keys they give the key
  without that bit, and the signer refuses unless both keys have the same public key
  (`SplitAndSign`), which the test at `signing-service/src/frost.rs:211-217` does not allow for.
- `src/gateway/oauth-provider.ts:202` says that reuse of a refresh token revokes its family. After an
  answered rotation it does if and only if every reload since then fell within the refresh lifetime
  (`ReplayDetectedIff`), and after a rotation that a crash cut off if and only if both files were
  written and the reload falls within the lifetime (`CutRotationDetectedIff`). `LateReplayMissed` and
  `CutReplayMissed` are runs from a first boot in which it does not.
- `src/issuers/bank.ts:572-573` says a second revoke does not submit again. That holds if and only if
  the row is revoked before the second call looks (`RevokesIffNotRevoked`); `OverlapRevokesTwice` is
  a run in which two overlapping calls both submit.
- `src/issuers/bank.ts:351-352` takes a row with the caller's own PDA for the caller's own row. If the
  chain gives one PDA twice, callers are told different transactions (`SamePdaTwice`);
  `CallersConvergeFully` gives the exact condition under which they agree.
- `src/gateway/rate-limiter.ts:32` speaks of the limit of the category checked. The limit in force is
  that of the category that created the bucket (`CheckSpends`, `BucketWindowBound`), and
  `src/tools/index.ts:152` charges one key with all categories; `WindowBound` covers every mix.

## Model

| member | source | states |
|---|---|---|
| `Arithmetic.Euclid` | src/crypto/poseidon2.ts:40-42 | A prime that divides a product divides a factor; behind every use of the modulus as a prime |
| `Arithmetic.Fermat` | src/crypto/poseidon2.ts:67-71 | Fermat's little theorem: a^(p-1) is 1 modulo a prime p that does not divide a |
| `Field.AddModIsSum` | src/crypto/poseidon2.ts:44-48 | On field elements the compare-and-subtract addition is the sum modulo p and stays in the field |
| `Field.SboxIsFifthPower` | src/crypto/poseidon2.ts:73-78 | The three multiplications of the S-box give x^5 modulo p, in the field |
| `Field.ModPow` | src/crypto/poseidon2.ts:55-65 | For every base, exponent and modulus above 1 square-and-multiply returns the truncated remainder of the power (1 for a negative exponent), which is b^e mod m if and only if b^e is non-negative or a multiple of m |
| `Field.ModInv` | src/crypto/poseidon2.ts:67-71 | Fails exactly on 0; on every other field element of a prime field a times the result is 1 modulo p |
| `Field.SboxRoot` | src/crypto/poseidon2.ts:73-78 | If 5 does not divide p - 1, raising to an explicit exponent undoes the S-box on the whole field |
| `Field.SboxInjective` | src/crypto/poseidon2.ts:73-78 | If 5 does not divide p - 1 the S-box is injective on the field |
| `Cauchy.ClearRow` | src/crypto/poseidon2.ts:349-358 | A row of inverses that kills a vector still kills it after its denominators are cleared |
| `Cauchy.ThreeRoots` | src/crypto/poseidon2.ts:349-358 | A quadratic with three roots distinct modulo a prime has all coefficients zero modulo it |
| `Cauchy.CauchyKernel` | src/crypto/poseidon2.ts:349-358 | A vector that all three Cauchy rows kill is zero modulo p: the mixing matrix has a trivial kernel |
| `Poseidon.AddKeyInPlace` | src/crypto/poseidon2.ts:398-399 | The in-place loop adds the round constants lane by lane |
| `Poseidon.MixInPlace` | src/crypto/poseidon2.ts:402-406 | All three lanes are computed from the old state before any is overwritten |
| `Poseidon.FullRoundInPlace` | src/crypto/poseidon2.ts:397-407 | One full round in place is the round function |
| `Poseidon.PartialRoundInPlace` | src/crypto/poseidon2.ts:410-420 | One partial round in place is the round function |
| `Poseidon.RoundIs` | src/crypto/poseidon2.ts:396-433 | Every round in closed arithmetic: constants added modulo p, the fifth power on lane 0 in all 64 rounds and on lanes 1 and 2 in rounds 0 to 3 and 60 to 63 only, then the matrix product modulo p |
| `Poseidon.PermuteIs` | src/crypto/poseidon2.ts:377-434 | A state is the permutation of another if and only if 64 such rounds, in order, lead from one to the other |
| `Poseidon.PoseidonPermute` | src/crypto/poseidon2.ts:388-434 | The three loops over one running round index lead from the old state to the new one by the 64 rounds in closed arithmetic |
| `Poseidon.BuildMds` | src/crypto/poseidon2.ts:349-358 | Fails exactly when some xs[i] + ys[j] is zero in the field; otherwise every entry is the inverse of its sum |
| `Poseidon.MixRowIsSum` | src/crypto/poseidon2.ts:402-405 | A mixed lane is the inner product of row and state modulo p |
| `Poseidon.RoundsRange` | src/crypto/poseidon2.ts:388-434 | Every lane stays in [0, p) after any number of rounds |
| `Poseidon.MixInjective` | src/crypto/poseidon2.ts:402-406 | With distinct xs, distinct ys and entries that invert their sums, mixing is injective on field states |
| `Poseidon.MixDiffuses` | src/crypto/poseidon2.ts:344-358 | The matrix is maximum distance separable, as its name says: states that differ in k lanes are mixed to states that differ in at least 4 - k |
| `Poseidon.RoundInjective` | src/crypto/poseidon2.ts:397-420 | Each full and each partial round is injective on field states |
| `Poseidon.RoundsInjective` | src/crypto/poseidon2.ts:388-434 | Any number of rounds is injective on field states |
| `Poseidon.PermuteInjective` | src/crypto/poseidon2.ts:388-434 | The whole permutation maps [0, p)^3 into itself, no two states to the same one |
| `Poseidon.PermuteSurjective` | src/crypto/poseidon2.ts:377-387 | Every field state is the permutation of some field state: with injectivity, a permutation |
| `Poseidon.BuiltMatrixIsSound` | src/crypto/poseidon2.ts:338-360 | Constants in the field with a built matrix of distinct xs and distinct ys meet all conditions of the injectivity theorems |
| `Poseidon.Bn254SboxExponent` | src/crypto/poseidon2.ts:40-42 | The modulus of the source meets the exponent condition: 5 does not divide P - 1 |
| `Poseidon.Poseidon2` | src/crypto/poseidon2.ts:459-481 | Refuses exactly when an input is outside [0, p); otherwise returns lane 1 after two permutations in closed arithmetic, of (0, i0, i1) and of the result with i2 added to lane 1 modulo p |
| `Poseidon.FinalCollision` | src/crypto/poseidon2.ts:464-480 | Two input triples reach the same final state if and only if their absorbed states agree in lanes 0 and 2 and the third input compensates lane 1 |
| `Poseidon.FinalInjectivePerTag` | src/crypto/poseidon2.ts:622-630 | With the third input fixed, as in Merkle compression, different pairs never reach the same final state; with the pair fixed, neither do different third inputs |
| `GrainLfsr.StepInvertible` | src/crypto/poseidon2.ts:206-219 | The register step is a bijection on 80-bit windows, with an explicit inverse |
| `GrainLfsr.Recurrence` | src/crypto/poseidon2.ts:116 | Bit n + 80 is the sum modulo 2 of bits n, n + 13, n + 23, n + 38, n + 51 and n + 62 |
| `GrainLfsr.WindowStep` | src/crypto/poseidon2.ts:206-219 | Window n + 1 of the linear recurrence is one step of window n |
| `GrainLfsr.AfterIsWindow` | src/crypto/poseidon2.ts:206-219 | The register after n steps is window n of the recurrence |
| `GrainLfsr.NeverAllZero` | src/crypto/poseidon2.ts:192-204 | A nonzero seed never leads to an all-zero window |
| `GrainLfsr.HoldsStep` | src/crypto/poseidon2.ts:207-219 | Overwriting the oldest slot and advancing the head of the circular buffer is one step of the window it represents |
| `GrainLfsr.WriteNumber` | src/crypto/poseidon2.ts:156-163 | A constructor loop writes the bits of a number with the lowest bit last and touches no other slot |
| `GrainLfsr.WriteSeed` | src/crypto/poseidon2.ts:144-195 | The constructor's writes give the documented seed layout, which is not all zero |
| `GrainLfsr.Register.WarmUp` | src/crypto/poseidon2.ts:200-203 | Runs exactly 160 steps |
| `GrainLfsr.Relation6` | src/crypto/poseidon2.ts:231-244 | If 119 bits at even distance were zero, the odd ones between would be too: seven linear relations, by Euclid's algorithm on the feedback polynomial |
| `GrainLfsr.OneComesSoon` | src/crypto/poseidon2.ts:231-244 | In a nonzero register 119 consecutive bits at even distance are never all zero |
| `GrainLfsr.Gap` | src/crypto/poseidon2.ts:234-239 | The number of discarded pairs before an output bit is the least one with a leading one, and at most 118 |
| `GrainLfsr.Position` | src/crypto/poseidon2.ts:231-244 | k output bits consume at least 2k and at most 238k register bits |
| `GrainLfsr.OutputIsPartner` | src/crypto/poseidon2.ts:221-244 | In terms of the bit sequence: from where the last draw ended pairs are skipped while their first bit is zero, the next pair starts with a one, its second bit is the output, and the draw ends after it |
| `GrainLfsr.Register.constructor` | src/crypto/poseidon2.ts:136-204 | The seed has the documented bit layout, is not all zero, and 160 steps are run |
| `GrainLfsr.Register.Update` | src/crypto/poseidon2.ts:207-219 | Keeps slot (head + i) mod 80 equal to bit n + i of the recurrence and returns bit n + 80 |
| `GrainLfsr.Register.NextFirstBit` | src/crypto/poseidon2.ts:237-238 | One bit is discarded and the next returned |
| `GrainLfsr.Register.DrawBit` | src/crypto/poseidon2.ts:235-241 | The retry loop terminates and returns the partner of the first pair that starts with a one |
| `GrainLfsr.Register.GetBits` | src/crypto/poseidon2.ts:231-244 | Returns the next numBits outputs of the filtered stream, for every register and count, and terminates |
| `FieldBytes.FromLeBytesModOrder` | src/crypto/poseidon2.ts:84-90 | Little-endian value of the bytes modulo p |
| `FieldBytes.FromBeBytesModOrder` | src/crypto/poseidon2.ts:96-102 | Big-endian value of the bytes modulo p |
| `FieldBytes.ReversedEndianness` | src/crypto/poseidon2.ts:80-102 | Big-endian decoding of reversed bytes is little-endian decoding |
| `FieldBytes.RejectionAttempt` | src/crypto/poseidon2.ts:261-270 | One attempt yields the drawn integer exactly when it is below p, and advances the stream by one draw |
| `FieldBytes.SumOfBits` | src/crypto/poseidon2.ts:263-267 | Setting bit i for each one gives the binary value |
| `FieldBytes.DrawnIsBigEndian` | src/crypto/poseidon2.ts:250-252 | The first bit drawn is the most significant one of the integer |
| `FieldBytes.PackBits` | src/crypto/poseidon2.ts:293-299 | Packing bits into bytes keeps the number: the base-256 value of the bytes is the binary value of the bits |
| `FieldBytes.ModPSample` | src/crypto/poseidon2.ts:288-303 | On the same draw it returns the rejection sampler's integer reduced modulo p |
| `FieldBytes.HexRoundTrip` | src/crypto/poseidon2.ts:604-606 | Decoding the two-digit hexadecimal text of any bytes returns them |
| `FieldBytes.HexAt` | src/crypto/poseidon2.ts:604-606 | Characters 2i and 2i + 1 are the lowercase digits of byte i, high digit first |
| `FieldBytes.ToLeBytes` | src/crypto/poseidon2.ts:598-603 | The byte loop produces the little-endian digits of the number |
| `FieldBytes.BytesToHex32` | src/crypto/poseidon2.ts:596-607 | Refuses exactly outside [0, p); otherwise 64 characters, the two lowercase digits of each byte, low byte first |
| `FieldBytes.EncodeSalt` | src/crypto/poseidon2.ts:574-579 | Accepts exactly 32 bytes and reads them little-endian modulo p |
| `FieldBytes.CommitmentRoundTrip` | src/crypto/poseidon2.ts:574-607 | Decoding the hexadecimal text of any field element as a salt returns that element |
| `FieldBytes.Bn254Fits` | src/crypto/poseidon2.ts:40-42 | The modulus of the source in hexadecimal, and that it fits in 32 bytes |
| `PoseidonParams.AcceptedSplit` | src/crypto/poseidon2.ts:338-342 | Sampling in several calls is sampling once: each call goes on where the last stopped |
| `PoseidonParams.RejectionSampling` | src/crypto/poseidon2.ts:258-274 | Returns the draws below p in order and stops at the first draw that completes the requested number, or with fewer when the fuel is used up |
| `PoseidonParams.ModPSampling` | src/crypto/poseidon2.ts:288-303 | Returns the next draws, each modulo p |
| `PoseidonParams.DrawConstants` | src/crypto/poseidon2.ts:338-342 | The 64 rows together are the first 192 draws below p and end with the draw that completes them; rows are missing exactly when the fuel does not contain that many |
| `PoseidonParams.SeedUnique` | src/crypto/poseidon2.ts:118-127 | The documented layout determines the seed bit by bit |
| `PoseidonParams.StandardSeedBits` | src/crypto/poseidon2.ts:118-127 | The 80 bits of the seed for 254 bits, width 3, 8 full and 56 partial rounds, one by one |
| `PoseidonParams.BuildParams` | src/crypto/poseidon2.ts:325-361 | Round constants are the first 192 draws below p, the matrix seeds the six draws right after the 192nd of them, modulo p; it fails exactly on a zero sum; with distinct triples the result meets all conditions of the permutation theorems |
| `Shamir.ScalarMulSmall` | signing-service/src/frost.rs:145-155 | Product with a byte modulo 2^256, with no 16-bit overflow |
| `Shamir.ScalarAdd` | signing-service/src/frost.rs:157-165 | Sum in place modulo 2^256, with no 16-bit overflow |
| `Shamir.ScalarSub` | signing-service/src/frost.rs:167-180 | Difference in place modulo 2^256, with no 16-bit overflow |
| `Shamir.DivideByte` | signing-service/src/frost.rs:186-188 | The two-digit dividend fits 16 bits and its quotient one byte |
| `Shamir.ScalarDivSmall` | signing-service/src/frost.rs:182-190 | Floor quotient in place by a nonzero byte |
| `Shamir.EvaluatePolynomial` | signing-service/src/frost.rs:93-100 | The share is secret + a1 * x modulo 2^256 |
| `Shamir.LagrangeInterpolate` | signing-service/src/frost.rs:102-143 | Panics exactly on index pairs outside two different values of 1..3; otherwise the floor of the difference of cross products modulo 2^256 by the index distance |
| `Shamir.CoefficientCancels` | signing-service/src/frost.rs:102-105 | x2 * f(x1) - x1 * f(x2) is (x2 - x1) * f(0) modulo 2^256, whatever the coefficient |
| `Shamir.SharesRecover` | signing-service/src/frost.rs:93-143 | Shares with adjacent indices, in either order, give the secret exactly; shares 1 and 3 give it modulo 2^255 |
| `Shamir.ShareReveals` | signing-service/src/frost.rs:93-100 | Whatever the key, some coefficient gives any chosen share 1 or 3; share 2 can be exactly the numbers with the low bit of the key |
| `Shamir.OddShareCoefficient` | signing-service/src/frost.rs:93-100 | For shares 1 and 3 that coefficient is unique, so a uniform coefficient makes them as likely for one key as for any other |
| `Shamir.OuterSharesExact` | signing-service/src/frost.rs:106-143 | From shares 1 and 3 the secret comes back if and only if its top bit is clear |
| `Shamir.TopBitIsLost` | signing-service/src/frost.rs:106-143 | Shares 1 and 3 of the secret 2^255 give zero |
| `Shamir.TopBitValue` | signing-service/src/frost.rs:183-190 | The top bit of the last byte is worth 2^255: it is set exactly for the upper half of the keys, and clearing it reduces the key modulo 2^255 |
| `Shamir.GenerateShares` | signing-service/src/frost.rs:27-56 | Three shares with indices 1, 2, 3 on one line and the public key of the secret |
| `Shamir.SignWithShares` | signing-service/src/frost.rs:58-80 | Which of the four outcomes happens; a signature is made only with an interpolated key that derives the shares' public key |
| `Shamir.SplitAndSign` | signing-service/src/frost.rs:196-226 | Any two different shares in any order sign with the original key if and only if they are not 1 and 3 or the key's top bit is clear; otherwise the reconstructed key is the one without that bit, which signs if it derives the same public key and is refused if not, for every derivation |
| `Base58.ConvertRoundTrip` | src/issuers/civic.ts:83-112 | Converting digits between any two bases with leading zeros kept one for one is undone by converting back |
| `Base58.AlphabetPosition` | src/issuers/civic.ts:73-81 | The lookup value of a character is its position in the alphabet |
| `Base58.AlphabetIs` | src/issuers/civic.ts:73-74 | The alphabet is strictly increasing and holds exactly the ASCII digits and letters other than 0, I, O and l |
| `Base58.DecodeAfterEncode` | src/issuers/civic.ts:83-112 | Decoding inverts the standard encoder on every byte string |
| `Base58.EncodeAfterDecode` | src/issuers/civic.ts:83-112 | Encoding inverts decoding on every valid string |
| `Base58.DecodeInjective` | src/issuers/civic.ts:83-112 | No two valid strings decode to the same bytes |
| `Base58.DecodingIff` | src/issuers/civic.ts:83-112 | Bytes are the decoding of a valid string if and only if they have as many leading zeros as its digits and their big-endian value is its base-58 value |
| `Base58.LeadingZerosAreOnes` | src/issuers/civic.ts:86-87 | The leading zero digits are the leading 1 characters |
| `Base58.CarryPass` | src/issuers/civic.ts:96-101 | Multiplies the little-endian list by 58 and adds a digit; the carry stays below 58 and the top byte nonzero |
| `Base58.MultiplyAdd` | src/issuers/civic.ts:96-105 | The list stays the minimal representation of 58 times the old number plus the digit |
| `Base58.DecodeTail` | src/issuers/civic.ts:89-106 | Fails exactly on a character outside the alphabet; otherwise the minimal bytes of the base-58 number |
| `Base58.Assemble` | src/issuers/civic.ts:107-111 | Zero bytes followed by the list in reverse |
| `Base58.Base58Decode` | src/issuers/skill-cert.ts:143-171 | Refuses exactly invalid strings; otherwise one zero byte per leading 1 and the minimal big-endian bytes of the rest |
| `JsonText.LessTotal` | src/issuers/bank-mock.ts:418-427 | Code-unit order is total |
| `JsonText.LessTransitive` | src/issuers/bank-mock.ts:418-427 | Code-unit order is transitive |
| `JsonText.LessIrreflexive` | src/issuers/bank-mock.ts:418-427 | Code-unit order is irreflexive |
| `JsonText.CompareUtf16` | src/issuers/bank-mock.ts:418-427 | Negative if and only if the first text has the smaller code unit at the first difference or is a proper prefix, positive in the mirrored case, zero if and only if they are equal |
| `JsonText.LessIsPrecedes` | src/issuers/bank-mock.ts:418-427 | The recursive order is the order by the first differing code unit, prefixes first |
| `JsonText.DecimalUnambiguous` | src/issuers/bank-mock.ts:394-402 | A printed integer followed by a non-digit determines the integer and what follows |
| `JsonText.SpelledValue` | src/issuers/bank-mock.ts:394-402 | The printed digits have the value of the number and no leading zero |
| `JsonText.ScanQuoted` | src/issuers/bank-mock.ts:403 | A reader recovers every string, lone surrogates and control characters included, and the text after its closing quote |
| `JsonText.EscapeTable` | src/issuers/bank-mock.ts:403 | The seven two-character escapes letter by letter, and four lowercase hexadecimal digits for the other control characters (section 3.2.2.2 of RFC 8785) |
| `JsonText.PlainKept` | src/issuers/bank-mock.ts:403 | Characters outside controls, quotes, backslashes and surrogates are printed as they are |
| `JsonText.PairKept` | src/issuers/bank-mock.ts:403 | So is a surrogate pair |
| `JsonText.OthersEscaped` | src/issuers/bank-mock.ts:403 | Any other character is printed as its escape, a lone surrogate in hexadecimal |
| `JsonText.QuoteUnambiguous` | src/issuers/bank-mock.ts:403 | Quoting is injective and self-delimiting |
| `Jcs.SortFacts` | src/issuers/bank-mock.ts:409 | Sorting distinct keys gives the same entries, each key before the next by its first differing code unit |
| `Jcs.SortedUnique` | src/issuers/bank-mock.ts:409 | Any correct sort yields that one arrangement |
| `Jcs.LiteralText` | src/issuers/bank-mock.ts:392-393 | null, true and false letter by letter |
| `Jcs.LeafText` | src/issuers/bank-mock.ts:394-403 | A number is its digits after a minus sign if negative, a string its escaped text between quotes |
| `Jcs.ArrayText` | src/issuers/bank-mock.ts:404-406 | An array is the texts of its items in their order, between brackets and commas |
| `Jcs.ObjectText` | src/issuers/bank-mock.ts:407-414 | An object is the quoted key, colon and value text of each member, in the order of section 3.2.3 of RFC 8785, between braces and commas |
| `Jcs.SameText` | src/issuers/bank-mock.ts:391-416 | Values equal up to member order at every depth have the same text |
| `Jcs.Unambiguous` | src/issuers/bank-mock.ts:391-416 | A canonical text before an end, a comma or a closing bracket can be split from what follows in one way only |
| `Jcs.TextSame` | src/issuers/bank-mock.ts:391-416 | Values with the same text are equal up to member order |
| `Jcs.CanonicalText` | src/issuers/bank-mock.ts:378-416 | Two values have the same canonical text if and only if they are equal up to member order |
| `Issuance.JoinedKeyInjective` | src/issuers/skill-cert.ts:298-301 | The NUL-joined key determines skill and subject for every valid slug |
| `Issuance.SlugIff` | src/issuers/skill-cert.ts:96-97 | The slug test accepts exactly nonempty runs of lowercase letters and digits joined by single hyphens |
| `Issuance.SameNullifierKey` | src/issuers/worldcoin.ts:123-129 | Two nullifiers are one key if and only if they agree in all but letter case after up to two 0x prefixes, since issuer and store both normalize |
| `Issuance.BindingStore.constructor` | src/issuers/worldcoin.ts:144-145 | The store starts empty |
| `Issuance.BindingStore.Get` | src/issuers/worldcoin.ts:147-151 | The stored row of the key, if any |
| `Issuance.BindingStore.Put` | src/issuers/worldcoin.ts:153-161 | Stores on a free key; on a bound one it fails and changes nothing |
| `Issuance.StepExtends` | src/issuers/worldcoin.ts:279-449 | No step changes a row, a transaction, a request or a reply that was given |
| `Issuance.MoverOk` | src/issuers/worldcoin.ts:279-449 | Each segment between two awaits establishes what the next one needs, whatever the dependency answers |
| `Issuance.StepOk` | src/issuers/worldcoin.ts:279-449 | Every step of every request keeps the invariant: rows backed by their writer's transaction, pending requests consistent with the store |
| `Issuance.RunOk` | src/issuers/skill-cert.ts:449-557 | Every interleaving keeps the invariant and only extends the store and chain |
| `Issuance.WriteOnce` | src/issuers/skill-cert.ts:295-322 | From any point of any run to its end no row changes; each is backed by a transaction of its writer for its key and card |
| `Issuance.RepliesCarryTheRow` | src/issuers/worldcoin.ts:411-448 | A successful reply carries, from then on, the PDA, transaction, URI and hash of the stored row, bound to the caller's card |
| `Issuance.RepliesConverge` | src/issuers/worldcoin.ts:411-448 | Successful replies for one key agree on everything but the idempotent flag, name one card, and at most one is not idempotent |
| `Issuance.CanonicalRowAlwaysFound` | src/issuers/worldcoin.ts:418-425 | The branch for a lost race without a readable row is unreachable |
| `Issuance.OneTransactionPerRequest` | src/issuers/worldcoin.ts:390-399 | Over every run each request submits at most one transaction |
| `Issuance.RefusalEnds` | src/issuers/worldcoin.ts:300-399 | A refused check or proof, a failed or non-IPFS pin and a failed transaction each end the request with their own error and leave store and chain as they were |
| `Issuance.TransactionsEarned` | src/issuers/skill-cert.ts:464-512 | Over every run a transaction is submitted only by a valid request, for its own key and card, with an IPFS address |
| `Issuance.LateRequestNeverIssues` | src/issuers/skill-cert.ts:442-462 | A request whose key is bound before its lookup never submits a transaction, whatever else runs |
| `Issuance.UnboundRequestCanIssue` | src/issuers/worldcoin.ts:281-399 | A valid request that looks while its key is unbound has a run in which it submits |
| `Issuance.IssuesIffUnbound` | src/issuers/worldcoin.ts:376-412 | In every reachable state a valid request that has not looked can come to submit if and only if its key is unbound |
| `Issuance.OverlapIssuesTwice` | src/issuers/worldcoin.ts:376-412 | A run in which two overlapping requests for one nullifier and card both issue on the chain |
| `Bank.JoinedKeyInjective` | src/issuers/bank.ts:654-656 | The NUL-joined key determines kind and binding key |
| `Bank.SchemaLabels` | src/issuers/bank.types.ts:52-58 | The three schema labels letter by letter; no two kinds share one |
| `Bank.IssuerStore.constructor` | src/issuers/bank.ts:651-652 | The store starts empty |
| `Bank.IssuerStore.Get` | src/issuers/bank.ts:658-663 | The stored row of the key, if any |
| `Bank.IssuerStore.DoPutIfAbsent` | src/issuers/bank.ts:665-671 | Stores on a free key only and returns the row stored afterwards |
| `Bank.IssuerStore.DoMarkRevoked` | src/issuers/bank.ts:673-695 | Fails on an unknown key; leaves a revoked row as it is; otherwise changes nothing but the status |
| `Bank.StepExtends` | src/issuers/bank.ts:295-370 | No step changes anything of a row but its status, undoes a revocation, or changes a reply |
| `Bank.StepOk` | src/issuers/bank.ts:295-370 | Every step of issue and revoke requests keeps the invariant |
| `Bank.RunOk` | src/issuers/bank.ts:383-635 | Every interleaving keeps it and only extends rows and chain |
| `Bank.FailureChangesNothing` | src/issuers/bank.ts:308-328 | A failed pin, slot or chain call, of issue or revoke, changes no row and no transaction and ends the request with its own error |
| `Bank.SubmissionRecorded` | src/issuers/bank.ts:312-341 | After a successful transaction the row to be stored holds the caller's card, the answered PDA and signature, the pinned URI and the time, and the chain holds the transaction under the schema of the kind |
| `Bank.RowsOverRuns` | src/issuers/bank.ts:330-341 | A row keeps its card, PDA, transaction and claim forever, becomes revoked at most once and then keeps that signature, and is backed by a transaction for its card under the schema of its kind |
| `Bank.RepliesOverRuns` | src/issuers/bank.ts:343-369 | A reply given at any point is right to the end: issue replies carry the row's PDA for the caller's card, revoke replies a transaction that revokes it, a conflict a row of another card; a request is invalid exactly if its binding key or card is empty; revoking never misses its row |
| `Bank.CallersConverge` | src/issuers/bank.ts:343-369 | Successful issue replies for one key agree on PDA and card |
| `Bank.RunChainOk` | src/issuers/bank.ts:330-369 | Over every run, a request with a successful transaction tells that transaction if it is told "issued", and is told "idempotent" only if the row has another PDA |
| `Bank.TellsRowIff` | src/issuers/bank.ts:351-369 | An answered request carries the row's transaction and URI if and only if its own transaction did not get the row's PDA with another signature or URI |
| `Bank.CallersConvergeFully` | src/issuers/bank.ts:351-369 | In every reachable state all successful replies for a key carry the row's transaction and URI if and only if no answered request's own transaction for the key has the row's PDA with another signature or URI |
| `Bank.SamePdaTwice` | src/issuers/bank.ts:351-369 | A run in which the chain gives one PDA twice and both callers are told "issued" with different transactions |
| `Bank.RepeatRuns` | src/issuers/bank.ts:569-606 | A request made after its row was stored (issue) or revoked (revoke) never touches chain or store, and its only reply is the row's: idempotent, conflict, or already revoked with the recorded signature |
| `Bank.RevokesIffNotRevoked` | src/issuers/bank.ts:569-619 | In every reachable state a valid revoke that has not looked can come to submit a transaction if and only if its row is not already revoked |
| `Bank.RepeatNeverRevokes` | src/issuers/bank.ts:599-606 | A revoke whose row is revoked before it looks never submits, whatever else runs |
| `Bank.OverlapRevokesTwice` | src/issuers/bank.ts:590-634 | A run from the start in which two overlapping revokes both submit, both are told "revoked", and one is told a signature that the row does not record |
| `Bank.RevokedTellsRowIff` | src/issuers/bank.ts:621-634 | A request told "revoked" carries the row's signature if it recorded it, and, when different requests get different signatures, only if it did |
| `OAuthProvider.Provider.constructor` | src/gateway/oauth-provider.ts:39-60 | Loading drops exactly expired codes and old retirements and gives legacy tokens new families |
| `OAuthProvider.Provider.PersistCodes` | src/gateway/oauth-provider.ts:63 | Replaces the codes file and no other |
| `OAuthProvider.Provider.PersistLive` | src/gateway/oauth-provider.ts:64 | Replaces the live-token file, with families for all, and no other |
| `OAuthProvider.Provider.PersistRetired` | src/gateway/oauth-provider.ts:65 | Replaces the retired-token file and no other |
| `OAuthProvider.Provider.PersistTokens` | src/gateway/oauth-provider.ts:77-78 | Writes the live tokens first and the retired ones second |
| `OAuthProvider.Provider.DoIssueAuthCode` | src/gateway/oauth-provider.ts:100-116 | The maps, the order of writes and the reply of issuing a code |
| `OAuthProvider.ExchangeIff` | src/gateway/oauth-provider.ts:141-194 | Tokens are given if and only if the code is pending and not past its expiry, and presented by its client with its redirect or none; the token then belongs to the address, client and scope of the code; a pending code is burned on every path by the first write |
| `OAuthProvider.Provider.DoExchangeCode` | src/gateway/oauth-provider.ts:141-194 | The maps, the order of writes and the reply of an exchange, with that condition for tokens |
| `OAuthProvider.Provider.DoRevokeFamily` | src/gateway/oauth-provider.ts:67-81 | The deleting loop moves exactly the family's live tokens to the retired ones, counts them, and writes live before retired only if there were any |
| `OAuthProvider.Provider.DoExchangeRefresh` | src/gateway/oauth-provider.ts:196-242 | Reuse, refusal and rotation: maps, order of writes, reply |
| `OAuthProvider.Provider.DoRevokeToken` | src/gateway/oauth-provider.ts:255-266 | A live token is retired and both files written; anything else changes nothing |
| `OAuthRuns.ReloadedOk` | src/gateway/oauth-provider.ts:39-60 | Restarting from any consistent files restores the invariant, legacy tokens included |
| `OAuthRuns.CallOk` | src/gateway/oauth-provider.ts:101-269 | Every handler keeps the invariant in memory, after each of its writes, and with the promise of its reply |
| `OAuthRuns.CrashOk` | src/gateway/persisted-store.ts:4-11 | So does a crash after any prefix of the writes followed by a restart |
| `OAuthRuns.StepOk` | src/gateway/oauth-provider.ts:39-269 | Every event keeps the invariant |
| `OAuthRuns.RunOk` | src/gateway/oauth-provider.ts:39-269 | So does every run |
| `OAuthRuns.RunExtends` | src/gateway/oauth-provider.ts:39-269 | No run forgets or changes what was issued, owned, granted or answered |
| `OAuthRuns.EveryRunSafe` | src/gateway/oauth-provider.ts:196-242 | At every point of every run no token is live and retired, a family has at most one live token, all of its tokens have one address, client and scope, and no rotated token or token of a dead family is live |
| `OAuthRuns.AnsweredForGood` | src/gateway/oauth-provider.ts:196-242 | A token whose rotation was answered is never live again, in memory or on disk; a family whose reuse was answered never again has a live token |
| `OAuthRuns.OneFamilyPerCode` | src/gateway/oauth-provider.ts:141-194 | Over all runs and crashes a code leads to at most one family, which belongs to the address, client and scope the code was issued with |
| `OAuthGrants.PendingIff` | src/gateway/oauth-provider.ts:44-46 | At the end of every run a pending code is still pending in memory and on disk if no exchange of it got to its first write and every reload came before its expiry, and is not pending in memory otherwise |
| `OAuthGrants.CodeWorksIff` | src/gateway/oauth-provider.ts:101-194 | After a code is issued, at the end of every run, exchanging it gives tokens if and only if no exchange of it got to its first write, every reload came before its expiry, it is not past its expiry, and client and redirect match |
| `OAuthGrants.NeverLiveAgain` | src/gateway/oauth-provider.ts:196-269 | A token that is not live never becomes live again, in memory or on disk, in any run |
| `OAuthGrants.RevokedForGood` | src/gateway/oauth-provider.ts:255-266 | A revoked token is removed alone, is never live again, and presenting it is answered as reuse if and only if every reload since fell within the refresh lifetime |
| `OAuthGrants.RevokingNothing` | src/gateway/oauth-provider.ts:255-269 | Revoking a token that is not live changes nothing |
| `OAuthRuns.RunRemembers` | src/gateway/oauth-provider.ts:50-53 | A retirement in memory and on disk stays in both, unchanged, through every run whose reloads fall within its lifetime |
| `OAuthRuns.RunForgets` | src/gateway/oauth-provider.ts:50-53 | A token that is neither live nor retired in memory stays so through every run whose reloads fall outside the lifetime of what the files still hold of it |
| `OAuthRuns.RememberedOrForgotten` | src/gateway/oauth-provider.ts:39-60 | With one lifetime and a clock that does not go back, at the end of every run a remembered retirement is still remembered if every reload fell within the lifetime and is forgotten otherwise |
| `OAuthRuns.ReplayDetectedIff` | src/gateway/oauth-provider.ts:202-224 | After an answered rotation, at the end of every run, replaying the old token is answered as reuse and empties its family if and only if every reload of the run fell within the refresh lifetime; otherwise it is refused and changes nothing |
| `OAuthRuns.CutRotationDetectedIff` | src/gateway/oauth-provider.ts:215-224 | After a rotation cut off after k writes and a reload, replaying the old token is answered as reuse if and only if k is 2 and the reload falls within the lifetime; with one write it is refused while its successor is live, with none it is still live |
| `OAuthRuns.LateReplayMissed` | src/gateway/oauth-provider.ts:50-53 | A run from a first boot in which an answered rotation is followed by a restart at the end of the lifetime: the old token is refused without revoking its family, whose new token is live |
| `OAuthRuns.CutReplayMissed` | src/gateway/oauth-provider.ts:223-224 | A run from a first boot in which a crash between the two writes of a rotation has the same effect, at any time |
| `RateLimiter.Limiter.constructor` | src/gateway/rate-limiter.ts:15-16 | No buckets at first |
| `RateLimiter.Limiter.DoCheck` | src/gateway/rate-limiter.ts:18-61 | A new key is accepted if and only if the limit of its category is at least 1, another one if and only if its tokens plus max per minute of waiting, capped at max, reach 1; new buckets and retry time |
| `RateLimiter.CheckVerdict` | src/gateway/rate-limiter.ts:25-39 | The same condition for acceptance, for every state of the buckets |
| `RateLimiter.Limiter.GetOrCreate` | src/gateway/rate-limiter.ts:42-54 | The existing bucket, or a full one of the given limit that is stored |
| `RateLimiter.Limiter.RefillBucket` | src/gateway/rate-limiter.ts:56-61 | Adds max / 60000 tokens per millisecond since the last refill, capped at max |
| `RateLimiter.Limiter.DoCleanup` | src/gateway/rate-limiter.ts:63-71 | The deleting loop keeps exactly the buckets idle for at most 300000 milliseconds, as they were |
| `RateLimiter.RunTokensBounded` | src/gateway/rate-limiter.ts:56-61 | Over every run tokens stay between 0 and the maximum |
| `RateLimiter.LevelAfterWaiting` | src/gateway/rate-limiter.ts:56-61 | Waiting adds max tokens per minute to the level, up to max, exactly |
| `RateLimiter.LevelGrows` | src/gateway/rate-limiter.ts:56-61 | What a key can spend never shrinks by waiting and grows by at most max tokens per minute, whatever category created the bucket |
| `RateLimiter.IdleIsFull` | src/gateway/rate-limiter.ts:63-71 | More than 300 idle seconds fill any bucket |
| `RateLimiter.CheckSpends` | src/gateway/rate-limiter.ts:25-39 | A check of any category is accepted exactly at a level of at least one, then spends one, and never changes the size of an existing bucket |
| `RateLimiter.Conservation` | src/gateway/rate-limiter.ts:18-71 | In every run, with any mix of categories and cleanups, accepted checks plus what is left of the cap never exceed the cap before plus top tokens per minute, where top is the largest limit of the key |
| `RateLimiter.WindowBound` | src/gateway/rate-limiter.ts:18-71 | In any window of w seconds of any run, with any mix of categories and cleanups, at most top + top / 60 * w checks of a key are accepted, where top is the largest limit the key is checked with |
| `RateLimiter.BucketConservation` | src/gateway/rate-limiter.ts:18-61 | Between cleanups accepted checks plus the level left stay within the level before plus the bucket's own max per minute, whatever limits the checks pass |
| `RateLimiter.BucketWindowBound` | src/gateway/rate-limiter.ts:18-61 | In any window of w seconds without a cleanup at most max + rate * w checks are accepted, for the size and rate of the key's own bucket |
| `RateLimiter.RetrySucceeds` | src/gateway/rate-limiter.ts:28-37 | After a denial of any category and the returned wait the next check, of any category, succeeds if and only if the size of the bucket is at least 1, with or without a cleanup in between |
| `RateLimiter.RetryIsLeast` | src/gateway/rate-limiter.ts:35 | The returned wait is the least whole number of milliseconds in which max tokens per minute make one token |
| `RateLimiter.ShorterWaitDenied` | src/gateway/rate-limiter.ts:35 | After any shorter wait an empty bucket has no token |
| `RateLimiter.CleanupKeepsLevel` | src/gateway/rate-limiter.ts:63-71 | A cleanup changes no level |
| `RateLimiter.CleanupInvisible` | src/gateway/rate-limiter.ts:63-71 | For a key used with one limit, removing every cleanup from a run changes no verdict |
| `RateLimiter.BurstVerdicts` | src/gateway/rate-limiter.ts:28-39 | At one instant a bucket of m tokens accepts exactly the first m checks |
| `RateLimiter.CleanupVisible` | src/gateway/rate-limiter.ts:42-54 | For any two different limits there is a run in which a cleanup changes a verdict |
| `RateLimiter.CleanupInvisibleIff` | src/gateway/rate-limiter.ts:42-71 | Cleanups change no verdict in any run of a key with two limits if and only if the limits are equal |
| `BecknAuth.SplitParts` | src/gateway/beckn-auth.ts:85-105 | The character loop splits on commas outside quotes |
| `BecknAuth.ParseBecknAuthHeader` | src/gateway/beckn-auth.ts:78-145 | The loops compute the parse, with every failure case |
| `BecknAuth.AllParts` | src/gateway/beckn-auth.ts:320-324 | The printed header splits into its six fields, whatever the key identifier contains but a double quote |
| `BecknAuth.CollectAll` | src/gateway/beckn-auth.ts:107-121 | Those six parts give exactly the six printed names and values |
| `BecknAuth.ParseAfterPrint` | src/gateway/beckn-auth.ts:304-325 | Parsing a printed header returns the printed fields for every nonempty key identifier without a double quote |
| `BecknLaws.PrintedText` | src/gateway/beckn-auth.ts:320-324 | The printed header letter by letter: scheme, six fields in order, their quotes and commas |
| `BecknLaws.ToleratedHeader` | src/gateway/beckn-auth.ts:71-84 | Valid fields in any number, order and style (bare, single or double quotes, white space around names and values), with white space around the whole and an optional scheme in any case, are read as these fields |
| `BecknLaws.LastWins` | src/gateway/beckn-auth.ts:107-121 | The last field of a name gives its value |
| `BecknLaws.FieldsNeeded` | src/gateway/beckn-auth.ts:123-145 | A header parses if and only if all six fields are present and not empty and both times are numbers |
| `BecknLaws.WordsRead` | src/gateway/beckn-auth.ts:142 | The header list is read as its words, whatever the white space around and between them |
| `BecknAuth.VerifyAfterSign` | src/gateway/beckn-auth.ts:223-294 | What the signer printed is accepted for the same body if and only if created is at most now + 60, expires at least now, and the key identifier has three nonempty parts ending in ed25519; the verdict names those parts |
| `BecknLaws.AcceptedIff` | src/gateway/beckn-auth.ts:223-294 | Any header is accepted for any body if and only if it parses, both algorithms are ed25519 in some case, the key identifier has three nonempty parts, the window is open, a nonempty key is resolved, the signature has 64 bytes, and it verifies under that key for the text of the listed headers and the digest of that body |
| `BecknLaws.RefusedIff` | src/gateway/beckn-auth.ts:216-286 | Each refusal code names the first guard that fails |
| `BecknLaws.BuildSigningString` | src/gateway/beckn-auth.ts:173-189 | One line per listed header in order: created, expires, digest, or the name and a colon |
| `BecknLaws.DefaultText` | src/gateway/beckn-auth.ts:173-189 | The text of the mandatory headers letter by letter |
| `BecknAuth.TextBindsDigestIff` | src/gateway/beckn-auth.ts:167-189 | The signed text determines the digest if and only if some listed header is "digest" in some case |
| `BecknAuth.BodyWithoutDigest` | src/gateway/beckn-auth.ts:269-286 | If the header lists no digest, every body gets the same verdict |
| `BecknAuth.BodyWithDigest` | src/gateway/beckn-auth.ts:269-286 | If it lists one, a header accepted for two bodies with different digests carries a signature that verifies for two different texts |
| `BecknAuth.KeyIdRoundTrip` | src/gateway/beckn-auth.ts:158-165 | A key identifier is read back as the parts it was joined from |
| `BecknLaws.KeyIdIff` | src/gateway/beckn-auth.ts:158-165 | A key identifier has given parts if and only if it is these, nonempty and without bars, joined by bars |
| `Borsh.BorshReader.constructor` | src/utils/borsh-reader.ts:6-8 | The cursor starts at zero |
| `Borsh.BorshReader.Skip` | src/utils/borsh-reader.ts:18-20 | Moves the cursor without a bounds check |
| `Borsh.BorshReader.ReadU8` | src/utils/borsh-reader.ts:22-26 | The byte at the cursor, or an error that leaves the cursor |
| `Borsh.BorshReader.ReadU32` | src/utils/borsh-reader.ts:32-36 | The little-endian value of four bytes, or an error |
| `Borsh.BorshReader.ReadU64` | src/utils/borsh-reader.ts:38-43 | The value of two 32-bit halves, low half first, or an error that leaves the cursor |
| `Borsh.BorshReader.ReadBytes` | src/utils/borsh-reader.ts:45-49 | A slice, cut short at the end of the buffer without an error |
| `Borsh.BorshReader.ReadVec` | src/utils/borsh-reader.ts:51-63 | A length-prefixed slice |
| `Borsh.ByteList.WriteU8` | src/tools/agent.ts:78 | Appends the value modulo 256 |
| `Borsh.ByteList.WriteU32LE` | src/tools/agent.ts:79-81 | Appends four little-endian bytes |
| `Borsh.ByteList.WriteU64LE` | src/tools/agent.ts:82-87 | The two halves together are the eight little-endian bytes of the value modulo 2^64 |
| `Borsh.ByteList.WriteBytes` | src/tools/agent.ts:88-90 | Appends all bytes in order |
| `Borsh.ByteList.WriteVec` | src/tools/agent.ts:91-98 | Appends the length and the bytes |
| `Borsh.ReadU8Back` | src/utils/borsh-reader.ts:22-26 | A written byte is read back anywhere in a buffer |
| `Borsh.ReadU32Back` | src/utils/borsh-reader.ts:32-36 | So is a 32-bit number |
| `Borsh.ReadU64Back` | src/utils/borsh-reader.ts:38-43 | So is any number, modulo 2^64 |
| `Borsh.ReadVecBack` | src/utils/borsh-reader.ts:51-63 | So is a vector of fewer than 2^32 bytes |
| `Borsh.VecsAt` | src/tools/mcp-program.ts:42-44 | So is any number of vectors in a row |
| `Borsh.WriteFields` | src/tools/mcp-program.ts:60-79 | Writing fields one after the other appends their encodings in order |
| `Borsh.FieldsRoundTrip` | src/utils/borsh-reader.ts:6-69 | The reader inverts the writers on every sequence of fields: vectors exactly, integers modulo their width |
| `Accounts.ParseAgentState` | src/tools/agent.ts:29-73 | The cursor-driven parser computes the layout function, with both levels of failure |
| `Accounts.ParseExtension` | src/tools/agent.ts:51-67 | A read that throws in the extension keeps what was read before it |
| `Accounts.AgentV1RoundTrip` | src/tools/agent.ts:13-73 | A serialized account of the extended layout parses to itself, whatever follows |
| `Accounts.AgentV0RoundTrip` | src/tools/agent.ts:51-67 | An account of the first layout parses to itself if and only if the bytes after it read as version zero without a complete authority |
| `Accounts.AgentV0Padded` | src/tools/agent.ts:51-67 | In particular when it ends exactly or is padded with zeros |
| `Accounts.TruncatedAgentFails` | src/tools/agent.ts:40-72 | An account cut anywhere before its end is refused, even inside a string that the reader would cut short |
| `Accounts.ParseToolState` | src/tools/mcp-program.ts:18-54 | The cursor-driven parser computes the layout function |
| `Accounts.ParseHead` | src/tools/mcp-program.ts:36-41 | The two keys and four strings before the tags, or failure |
| `Accounts.ParseTags` | src/tools/mcp-program.ts:42-44 | The counting loop reads as many strings as the count says, or fails |
| `Accounts.ParseRest` | src/tools/mcp-program.ts:45-49 | The fields after the tags, with the allowlist skipped by its count |
| `Accounts.ToolRoundTrip` | src/tools/mcp-program.ts:12-54 | A serialized tool account parses to itself for any tags, any allowlist, any nonzero byte for true and anything after it |
| `Catalog.IdsFacts` | src/gateway/outbound-bpp.ts:278-301 | Provider ids are distinct, and are exactly those of the rows |
| `Catalog.FirstAppearanceOrder` | src/gateway/outbound-bpp.ts:278-301 | They come in the order of their first rows |
| `Catalog.GroupedStep` | src/gateway/outbound-bpp.ts:284-301 | One turn of the loop turns the grouping of the rows so far into that of one row more |
| `Catalog.Merge` | src/gateway/outbound-bpp.ts:286-300 | Appends the row's items to the existing entry, or starts one with its descriptor |
| `Catalog.Find` | src/gateway/outbound-bpp.ts:285 | The entry of the id, or none when there is none |
| `Catalog.BuildProviders` | src/gateway/outbound-bpp.ts:278-314 | One provider per id in that order, with the descriptor of its first row and the concatenated items of its rows, left out when empty |
| `Catalog.ItemsInRowOrder` | src/gateway/outbound-bpp.ts:284-301 | The items of a provider are those of the earlier rows followed by those of the later ones |
| `Catalog.ItemsOfOne` | src/gateway/outbound-bpp.ts:286-295 | A row gives its items to its own provider only |
| `Catalog.DescriptorIsFirst` | src/gateway/outbound-bpp.ts:292-299 | The descriptor is that of the provider's first row |
| `Catalog.ItemsConserved` | src/gateway/outbound-bpp.ts:278-301 | The providers together hold exactly the items of the rows, each as often |
| `Catalog.DispatchCount` | src/gateway/outbound-bpp.ts:517-553 | The dispatched count is the number of distinct provider ids, zero for no rows |

## Left out

- PoseidonParams.RejectionSampling: bounded by a number of draws, because rejection sampling ends only if the register ever yields enough draws below the modulus; every statement says what happens when the bound is reached. The inner bit-drawing loop has no bound and is proved to end.
- Poseidon: the primality of the BN254 modulus is a precondition, and the generated constants are not computed; the theorems hold for every prime with the stated conditions.
- `encodeFr` and the value of the Merkle domain tag (`src/crypto/poseidon2.ts:487-563`, `613-620`): text normalization and a constant.
- Shamir: key identifiers and the Ed25519 operations; deriving a public key is a parameter.
- Jcs.CanonicalText: covers null, booleans, integers of magnitude up to 2^53, whose printed digits are exact, strings, arrays and objects; the branches that throw on non-finite and non-integer numbers and on other types are not modelled.
- Issuance: the checks before the store lookup, and the several checks of one dependency answer, are one accept-or-refuse answer each; issuance times, VC contents and claim hashing are opaque strings. Nullifiers are taken to be ASCII: lower-casing also maps some other characters to ASCII letters (U+212A to k), which would make two keys of the model one in the code.
- Bank: VC contents and the claim hash in the reply; the schema id is represented by its label.
- OAuthRuns: access tokens and sessions, client registration, PKCE challenges, and writes that fail without stopping the process; identifiers never repeat.
- RateLimiter: exact real arithmetic in place of floating point, non-negative whole limits, and a clock that does not go back.
- RateLimiter.CleanupInvisible: for one limit per key; `CleanupInvisibleIff` proves that two different limits always break it.
- RateLimiter.RetrySucceeds: no other check of the key during the wait, and no cleanup more than 300 seconds after the denial, since that starts a new bucket; the returned wait itself is at most 60 seconds.
- BecknAuth: base64, decimal printing and reading, BLAKE2b and Ed25519 are parameters with the contract of `Faithful`; times are integers; a key identifier with a double quote is not covered by the round trip.
- Borsh: strings are their UTF-8 bytes and public keys their 32 bytes; base64 and base58 account data, `pos`, `remaining`, `readBool` and `readOption` add nothing harder.
- Catalog: the context of the envelope, its validation and the POST with retries.
- `src/issuers/kyc-test.ts` and the issuance of `src/issuers/civic.ts`: the former repeats the shapes modelled here, the latter's store overwrites rows, so that it has no write-once law.
- HTTP, RPC and WebSocket wiring, tool registration, configuration, indexers, session denylist, key rotation and wallet storage: plumbing, or easier than what is modelled.
