# PersonalHomeKit: verified models of the pairing and session cryptography

This project models, in Dafny 4.11, the arithmetic and the protocol layer under PersonalHomeKit's pairing and
encrypted sessions, and proves that they compute what their documentation promises. `dafny verify dfyconfig.toml`
checks all of it. Words are mathematical integers; every 8-, 16-, 32- and 64-bit wrap of the C code is written out
(`U32`, `U64`, `% 0x1_0000_0000`), so that an overflow would change the result. Limb vectors are tied to numbers by a
function `Val`, byte strings by `LE` (little-endian) or `Radix.Value` (big-endian).

## Overview

| area | modules |
|---|---|
| machine words, numbers, congruences, prime moduli, abelian groups | `Bits`, `Radix`, `Congruence`, `Primes`, `FieldModulus`, `Groups` |
| scalars modulo the Ed25519 group order | `Modm`, `ModmArith`, `ModmBytes`, `Recode` |
| Bos-Coster batch multiplication | `BatchScalars`, `HeapOrder`, `BosCoster`, `BatchFinal` |
| field of 2^255 − 19, unsigned limbs | `Fe`, `FeMul`, `FeChains`, `FeBytes` |
| Edwards point formulas and scalar multiplications | `Points`, `ScalarMult` |
| field of 2^255 − 19, signed limbs, and the Montgomery ladder | `Donna`, `DonnaBytes`, `Montgomery`, `MontgomeryCurve`, `Ladder`, `X25519` |
| Poly1305, ChaCha20, the AEAD tag, session frames | `Poly1305Spec`, `Poly1305Vector`, `Poly1305Limbs`, `Poly1305Final`, `Poly1305`, `Aead`, `ChaCha20`, `ChaCha20Words`, `Session` |
| codecs and key agreement | `Tlv8`, `TConv`, `Srp` |

Code that updates its arguments or an object is modelled by methods and classes with `modifies` clauses (the scalar
and field functions on limb arrays, the recoding loops, `BosCoster.BatchHeap`, the ladder buffers,
`Poly1305.Context`, `ChaCha20.Context`, `Session.Connection`, `Tlv8.MessageData`, the base-64 scratch array,
`Srp.Server`). Each is proved against functions on values, and the properties are lemmas about these functions. The
curve enters in three ways: in the scalar multiplications of one or two points as a group whose elements have affine
coordinates that obey the addition law (`ScalarMult.Curve`), so that their results are limbs that show the right
element; in the batch multiplication as an arbitrary abelian group `Group<G>`; and for the ladder as a group whose
elements have coordinates on v² = u³ + 486662u² + u that obey the chord-and-tangent law (`MontgomeryCurve.Curve`). The
ladder itself is proved for any reading of points whose doubling and differential addition the formulas compute
(`Ladder.CurveLaw`), and `MontgomeryCurve` proves that they are those of this curve.

What code and proof share is also stated without it: the layouts of nonces, frames, hash inputs and authenticated data
byte by byte, the tables by their characters, the rotations and the quarter round on bit vectors, and the values that
RFC 8439 gives for a quarter round, a block and a tag.

## Where the code differs from its documentation or from what a caller may expect

The models follow the code in each of these places.

* `mul256_modm` keeps only the product bits below 510. It multiplies modulo m exactly when the product is below 2^510
  (`ModmArith.MulExactIff`, for all products of nine-limb numbers), which reduced operands always satisfy;
  `MulWideExample` is a pair of arguments that do not.
* `add256_modm` subtracts m once, so it is exact exactly for sums below 2m (`AddExactIff`; `AddWideExample` is a sum that is not).
* `ge25519_multi_scalarmult_vartime_final` reads the limbs 0 to 5 of its scalar, starts from the point and then processes
  the leading bit again. When these limbs hold n₀ ≥ 2 it computes n₀ + 2^bitlen(n₀) times the point, which is right
  exactly if the point is annihilated by 2^bitlen(n₀) less what the other limbs hold (`BatchFinal.FinalExactIff`). For
  points of order m and reduced scalars this is a condition on the scalar alone (`FinalExactPrimeOrder`), and the
  scalar 2 does not meet it (`FinalWrongExample`). For a scalar whose limbs 0 to 5 are all zero the search would leave
  the array (`ok` is false). When the scalars have no common divisor the final scalar is 1 and none of this matters.
* The batch multiplication adds the 128-bit scalars only once the maximum has come down to 128 bits. It does so if and
  only if two scalars of the first half are nonzero and their common divisors are below 2^128; otherwise it stops before
  that and leaves the 128-bit scalars out (`BatchFinal.MultiScalarMult`).
* Row 0 of the comb table holds 2xy where the other rows hold 2dxy; the code multiplies by d for the even pass, and
  `ScalarMult` tracks which form an entry has.
* curve25519-donna's `fexpand` keeps bit 255 and its `fcontract` may return a number from p to 2^255 − 1. The output
  is canonical exactly when the value it is given is below p (`DonnaBytes.ContractCanonicalIff`; p itself is a value that
  is not, `ContractWideExample`). The additional
  `freduce_coefficients` in `curve25519_donna` is what makes every limb strictly smaller than its width, as
  `fcontract` needs.
* ChaCha20's counter has 128 bits and runs into the nonce words; below 2^32 blocks it agrees with RFC 8439
  (`ChaCha20.SameAsRfc8439`).
* `Poly1305_GenKey` returns without writing a tag for lengths below two. The reply path reuses the buffer of the
  request's tag, so such a reply carries the tag of the request. Header and tag see the low 16 bits of a length.
* For the same reason a request with a length field of 0 or 1 is accepted under every key when its tag bytes are zero;
  from two bytes on acceptance is a check of the tag (`Session.AcceptsIff`).
* The `continue` after a request that does not verify skips the release of the lock, which is not recursive: the request
  loop and every later broadcast wait for it for good. The model has that lock (`Connection.locked`), and a session
  still serves if and only if every request so far verified (`Session.StillServes`).
* `bswap_64` returns its argument, so nonces are the bytes of the counter as stored; the model has a little-endian
  host.
* TLV8: `rawData` truncates its length to 16 bits (`Tlv8.MessageData.RawData`); the message survives if and only if the
  encoding is shorter than 2^16 bytes (`Tlv8.RoundTripIff`).
* `t_tob64` writes no digit for the number 0, and `t_fromb64` reads past its array for a text without a nonzero digit.

## Assumptions

* Primality of p and of m is not proved. The inversion chains are shown to raise to p − 2; that this inverts is Fermat's
  theorem, which `Primes` proves for any prime and `X25519.InverterInverts` applies with the primality of p as a hypothesis.
  The meaning of X25519 (`X25519.Donna25519Reads`) has it, too.
* That the addition law of the curve makes its points an abelian group, with −P at (−x, y), is a hypothesis
  (`ScalarMult.Curve`), as are the contents of the precomputed tables: limbs of the odd multiples, bytes of the comb rows.
  So is that the denominators of the law never vanish; the z and t that the formulas compute are proved to be units
  from it, so limbs show one point only (`Points.ShowsOnce`). Likewise for the Montgomery curve: that its chord-and-tangent
  law makes the points an abelian group is a hypothesis (`MontgomeryCurve.Curve`).
* `Poly1305` is parameterised over an `unsigned long` of 32 or 64 bits.
* `srp6_server.c` works over an arbitrary hash function with a fixed output size; BIGNUM operations are integers.
* `Recode` requires scalars below 2^255, which reduced scalars are.
* Preconditions that the source leaves to its caller: received lengths of at most 2048 bytes (the size of the buffer
  for the decrypted request), whole TLV items with at most ten tags, a base-64 text with a nonzero digit, heaps of
  5 to 129 scalars in odd number.

## Model

| member | source | states |
|---|---|---|
| `Modm.OrderIs` | ed25519-donna/modm-donna-32bit.h:11 | the modulus is 2^252 + 27742317777372353535851937790883648493 |
| `Modm.MuLimbs` | ed25519-donna/modm-donna-32bit.h:27-31 | the nine limbs of the table are mu, and mu is floor(2^512 / m): mu·m ≤ 2^512 < (mu+1)·m |
| `Modm.Reduce256` | ed25519-donna/modm-donna-32bit.h:38-67 | the branch-free borrow chain and mask select, in place, give exactly v − m when v ≥ m and v otherwise, for every limb vector whose top limb is below 2^31 |
| `Modm.DroppedColumns` | ed25519-donna/modm-donna-32bit.h:80-96 | the product columns 0 to 6 that the quotient estimate never computes are together worth less than 2^244 of mu·q1 |
| `Modm.BarrettQuotient` | ed25519-donna/modm-donna-32bit.h:80-96 | the carry chain over columns 7 to 16 never wraps a 64-bit word and yields q3 with 2^264·q3 ≤ mu·q1 < 2^264·(q3+1) + 2^244 |
| `Modm.QuotientError` | ed25519-donna/modm-donna-32bit.h:69-140 | for every x below 2^512 such a q3 leaves a remainder 0 ≤ x − m·q3 < 3m, so two conditional subtractions are enough |
| `Modm.Barrett` | ed25519-donna/modm-donna-32bit.h:69-140 | for every x below 2^512 handed over as q1 = x >> 248 and r1 = x mod 2^264 the array ends up holding x mod m with normal limbs; r1 may be the output array itself |
| `ModmArith.Add256` | ed25519-donna/modm-donna-32bit.h:142-158 | sum of the two values with one conditional subtraction of m; the output may alias either operand |
| `ModmArith.AddExactIff` | ed25519-donna/modm-donna-32bit.h:142-158 | that single subtraction gives the residue modulo m if and only if the sum is below 2m |
| `ModmArith.AddWideExample` | ed25519-donna/modm-donna-32bit.h:142-158 | 2^256 − 1 twice, which expand_raw256_modm can deliver: the single subtraction does not give the residue |
| `ModmArith.Mul256` | ed25519-donna/modm-donna-32bit.h:160-205 | for all 30-bit limbs no 64-bit accumulator wraps, and the result is the low 510 bits of the product reduced modulo m; aliasing allowed |
| `ModmArith.MulExactIff` | ed25519-donna/modm-donna-32bit.h:160-205 | for every product of two nine-limb numbers, and beyond, up to 2^510·m: the low 510 bits have the residue of the product modulo m if and only if the product is below 2^510 |
| `ModmArith.MulWideExample` | ed25519-donna/modm-donna-32bit.h:160-205 | limbs of 2^256 − 1, allowed by the types, for which the result differs from the square modulo m |
| `ModmBytes.Expand256` | ed25519-donna/modm-donna-32bit.h:207-258 | every byte string of at most 64 bytes becomes its little-endian value modulo m, on the short path that skips the reduction as on the long one |
| `ModmBytes.Contract256` | ed25519-donna/modm-donna-32bit.h:284-294 | the 32 bytes are the little-endian encoding of the value of the limbs |
| `ModmBytes.ExpandContract` | ed25519-donna/modm-donna-32bit.h:207-294 | expanding and packing again encodes the input reduced modulo m |
| `Recode.PropagateCarry` | ed25519-donna/modm-donna-32bit.h:362-368 | the carry loop adds exactly 2^k to the binary tail from position k on, stays inside the 256 digits and touches nothing below k |
| `Recode.WindowAt` | ed25519-donna/modm-donna-32bit.h:356-372 | the inner loop at a set bit keeps the value of the digit string, leaves earlier digits alone and makes an odd digit below 2^(w−1) followed by w − 1 zeros |
| `Recode.SlidingWindow` | ed25519-donna/modm-donna-32bit.h:334-374 | for widths 5 and 7 and every scalar below 2^255: Σ r[i]·2^i equals the scalar, every nonzero digit is odd of magnitude at most 2^(w−1) − 1 and followed by w − 1 zeros, and no carry is lost off the end |
| `Recode.SignedDigit` | ed25519-donna/modm-donna-32bit.h:317-328 | one carry step keeps the base-16 value together with the outgoing carry and brings the digit into [−8, 7] |
| `Recode.Window4` | ed25519-donna/modm-donna-32bit.h:296-332 | for every scalar below 2^255: Σ r[i]·16^i equals the scalar, digits 0 to 62 lie in [−8, 7] and the last in [0, 8] |
| `BatchScalars.CompareNarrow` | ed25519-donna/modm-donna-32bit.h:400-433 | the comparisons of the low limbs decide < and ≤ of the full values whenever the limbs above are zero |
| `BatchScalars.FitsIff` | ed25519-donna/modm-donna-32bit.h:400-433 | a scalar has zero limbs above `limbsize` if and only if its value is below 2^(30·(limbsize+1)) |
| `BatchScalars.SubBatch` | ed25519-donna/modm-donna-32bit.h:377-398 | the truncated subtraction gives the exact difference, with normal limbs at the same width, when the subtrahend is not larger |
| `BatchScalars.IsZeroBatch` | ed25519-donna/modm-donna-32bit.h:436-444 | true exactly for the value 0 |
| `BatchScalars.IsOneBatch` | ed25519-donna/modm-donna-32bit.h:446-456 | true exactly for the value 1 |
| `BatchScalars.AtMost128Iff` | ed25519-donna/modm-donna-32bit.h:458-469 | the mask test on limb 4 and the limbs above holds if and only if the value is below 2^128 |
| `HeapOrder.DownStep` | ed25519-donna/ed25519-donna-batchverify.h:57-68 | moving the larger child up keeps the heap ordered except below the hole, whatever key goes down |
| `HeapOrder.UpStep` | ed25519-donna/ed25519-donna-batchverify.h:70-76 | swapping with a parent that is not larger keeps the heap ordered except above the hole |
| `HeapOrder.Maxima` | ed25519-donna/ed25519-donna-batchverify.h:95-103 | in an ordered heap the root is a maximum and the larger of its two children a maximum of the rest |
| `BosCoster.BatchHeap.HeapSwap` | ed25519-donna/ed25519-donna-batchverify.h:21-28 | exchanges two entries of the index heap: the keys are swapped and the indices stay a permutation |
| `BosCoster.BatchHeap.InsertNext` | ed25519-donna/ed25519-donna-batchverify.h:30-48 | the next scalar joins the heap; order and permutation are restored, scalars and points untouched |
| `BosCoster.BatchHeap.UpdatedRoot` | ed25519-donna/ed25519-donna-batchverify.h:50-77 | after any change of the root the order of a heap of any odd size ≥ 3 is restored at the narrowed comparison width |
| `BosCoster.FirstHalfOdd` | ed25519-donna/ed25519-donna-batchverify.h:162 | the first half is the least odd number of scalars that is at least half of them |
| `BosCoster.BatchHeap.Build` | ed25519-donna/ed25519-donna-batchverify.h:79-86 | an ordered heap over the first `count` scalars, from any earlier contents |
| `BosCoster.BatchHeap.Extend` | ed25519-donna/ed25519-donna-batchverify.h:88-93 | an ordered heap grows to the new count |
| `BosCoster.BatchHeap.GetTop2` | ed25519-donna/ed25519-donna-batchverify.h:95-103 | two different indices: a scalar no other exceeds, and one no scalar but the first exceeds |
| `BosCoster.StepTotal` | ed25519-donna/ed25519-donna-batchverify.h:182-183 | replacing s1 by s1 − s2 and P2 by P2 + P1 leaves the group sum Σ sᵢ·Pᵢ unchanged |
| `BosCoster.StepDivisors` | ed25519-donna/ed25519-donna-batchverify.h:182-183 | the same step leaves the set of common divisors of the scalars unchanged |
| `BosCoster.TotalSingle` | ed25519-donna/ed25519-donna-batchverify.h:167-169 | when every scalar but one is zero, that scalar times its point is the whole group sum |
| `BosCoster.BatchHeap.NarrowWidth` | ed25519-donna/ed25519-donna-batchverify.h:171-173 | dropping the top limb of the width keeps every scalar inside the width, and the width stays at 4 while the maximum is at least 2^127 |
| `BosCoster.BatchHeap.RootStaysHigh` | ed25519-donna/ed25519-donna-batchverify.h:175-184 | if the two largest scalars together reach 2^128, the heap still holds a scalar of at least 2^127 after the step |
| `BosCoster.BatchHeap.ExtendWhenSmall` | ed25519-donna/ed25519-donna-batchverify.h:175-180 | when the 128-bit scalars join, they fit the width in use, and sum, divisors and heap order are kept |
| `BosCoster.BatchHeap.SubtractStep` | ed25519-donna/ed25519-donna-batchverify.h:182-184 | a pass re-establishes the loop invariant and strictly decreases the sum of the scalars |
| `BosCoster.BatchHeap.Reduce` | ed25519-donna/ed25519-donna-batchverify.h:152-185 | the loop terminates; at exit all scalars of the heap but `max1` are zero, the last scalar times its point is the group sum of the input over the heap, and its divisors are the common divisors of the input scalars; the second half was added if and only if two scalars of the first half are nonzero and every common divisor of that half is below 2^128 |
| `BatchFinal.Final` | ed25519-donna/ed25519-donna-batchverify.h:105-148 | computes n·P for n ≤ 1 and (n + 2^bitlen(n))·P for larger n read from the limbs 0 to 5; `ok` tells when the limb search stays inside the array |
| `BatchFinal.FinalExactIff` | ed25519-donna/ed25519-donna-batchverify.h:105-148 | for every nine-limb scalar: this is n·P for the whole scalar n if and only if n ≤ 1 or (2^bitlen(n₀) − (n − n₀))·P is the identity, where n₀ is what the limbs 0 to 5 hold |
| `BatchFinal.FinalExactOddOrder` | ed25519-donna/ed25519-donna-batchverify.h:105-148 | for a point of odd order, every scalar: if and only if n ≤ 1 or P is annihilated by that difference with the power of two divided out, 1 − (n − n₀)/2^bitlen(n₀) |
| `BatchFinal.FinalExactPrimeOrder` | ed25519-donna/ed25519-donna-batchverify.h:105-148 | for a point of order m and a reduced scalar: if and only if n ≤ 1 or n − n₀ is exactly 2^bitlen(n₀) |
| `BatchFinal.FinalWrongExample` | ed25519-donna/ed25519-donna-batchverify.h:105-148 | the scalar 2: the multiple computed is 6, and for a point of odd order other than the identity it is the wrong point |
| `BatchFinal.MultiScalarMult` | ed25519-donna/ed25519-donna-batchverify.h:150-188 | for scalars without a common divisor the result is Σ sᵢ·Pᵢ over the scalars the heap held; these are all `count` scalars if and only if two scalars of the first half are nonzero and every common divisor of that half is below 2^128, which for a coprime first half is: if and only if two of it are nonzero |
| `Fe.Multiples` | ed25519-donna/curve25519-donna-32bit.h:78-83 | the subtraction constants are the limbs of 2p and 4p |
| `Fe.Add` | ed25519-donna/curve25519-donna-32bit.h:30-43 | limb sums never wrap 32 bits; the value is the exact sum |
| `Fe.AddReduce` | ed25519-donna/curve25519-donna-32bit.h:45-75 | the carrying additions return carried limbs congruent to the sum, for carried and uncarried operands |
| `Fe.Sub` | ed25519-donna/curve25519-donna-32bit.h:85-99 | no underflow, value a − b + 2p; the carry stops at limb 3, so limb 4 and up may be wide |
| `Fe.SubReduce` | ed25519-donna/curve25519-donna-32bit.h:101-132 | the carrying subtractions return carried limbs congruent to the difference, for carried and uncarried operands |
| `Fe.Neg` | ed25519-donna/curve25519-donna-32bit.h:134-149 | carried limbs congruent to −a |
| `Fe.SwapConditional` | ed25519-donna/curve25519-donna-32bit.h:563-579 | exchanges the two numbers when the flag is 1 and changes nothing when it is 0 |
| `FeMul.SumOfRows` | ed25519-donna/curve25519-donna-32bit.h:154-225 | the columns the code accumulates, with 2^255 set apart, sum up to the exact product |
| `FeMul.TopColumn` | ed25519-donna/curve25519-donna-32bit.h:226-247 | for every pair of operands that add and sub can hand over, sub by sub included, column 9 is small enough for its carry to fit the 32-bit word it is cast to |
| `FeMul.CarryColumns` | ed25519-donna/curve25519-donna-32bit.h:226-247 | the carry chain and the fold of the top carry times 19 give carried limbs congruent to the columns modulo p |
| `FeMul.Mul` | ed25519-donna/curve25519-donna-32bit.h:153-248 | for every pair of such operands no 32-bit or 64-bit word wraps; the output is carried and congruent to the product modulo 2^255 − 19; aliasing allowed |
| `FeMul.Square` | ed25519-donna/curve25519-donna-32bit.h:251-322 | the same for the squaring, whose doubled and 19-fold words also never wrap: congruent to the product of the operand with itself |
| `FeChains.SquareTimes` | ed25519-donna/curve25519-donna-32bit.h:325-399 | `count` runs of the squaring loop raise to the power 2^count |
| `FeChains.PowTwo250` | ed25519-donna/curve25519-donna-helpers.h:7-31 | from z^(2^5 − 1) the chain reaches z^(2^250 − 1) |
| `FeChains.Recip` | ed25519-donna/curve25519-donna-helpers.h:33-49 | the exponent of the inversion is exactly 2^255 − 21 = p − 2 |
| `FeChains.PowTwo252m3` | ed25519-donna/curve25519-donna-helpers.h:51-67 | the exponent is exactly 2^252 − 3 = (p − 5)/8 |
| `FeBytes.Expand` | ed25519-donna/curve25519-donna-32bit.h:401-443 | the limbs of the low 255 bits of 32 bytes |
| `FeBytes.Settle` | ed25519-donna/curve25519-donna-32bit.h:449-480 | two full carry passes bring any limbs below 2^31 to nominal width without changing the residue |
| `FeBytes.Contract` | ed25519-donna/curve25519-donna-32bit.h:445-527 | for every limb vector below 2^31 the 32 bytes are the little-endian encoding of the value modulo p, strictly below p |
| `FeBytes.ExpandContract` | ed25519-donna/curve25519-donna-32bit.h:401-527 | contraction after expansion reduces the low 255 bits modulo p, and returns canonical encodings unchanged |
| `Points.Constants` | ed25519-donna/ed25519-donna-32bit-tables.h:12-18 | the ten-limb constants ecd and ec2d have the values of d and 2d modulo p |
| `Points.AdditionLaw` | ed25519-donna/ed25519-donna-impl-base.h:32-50 | the products of coordinates that the addition formulas form have the quotients of the affine addition law, at any unit scales z and z′, and that the new z and t are units again |
| `Points.DoublingLaw` | ed25519-donna/ed25519-donna-impl-base.h:53-67 | the sums of squares of the doubling have the quotients of the addition law of a point of the curve with itself |
| `Points.ShowsOnce` | ed25519-donna/ed25519-donna-impl-base.h:5-18 | limbs of x, y, z, with z a unit modulo p, show one point only |
| `Points.SumOnce` | ed25519-donna/ed25519-donna-impl-base.h:32-50 | the addition law, whose denominators are units, determines the sum modulo p |
| `Points.ToPartial` | ed25519-donna/ed25519-donna-impl-base.h:5-10 | limbs of x, y and z of the completed point, all carried |
| `Points.ToFull` | ed25519-donna/ed25519-donna-impl-base.h:12-18 | the same with t = xy/z |
| `Points.AddP1P1` | ed25519-donna/ed25519-donna-impl-base.h:32-50 | every operand that reaches a multiplication is within its bounds, and the limbs show the sum of the two points by the addition law |
| `Points.DoubleP1P1` | ed25519-donna/ed25519-donna-impl-base.h:53-67 | likewise the double of a point of the curve, also when its coordinate t is stale |
| `Points.NielsAdd2P1P1` | ed25519-donna/ed25519-donna-impl-base.h:69-86 | likewise the sum with a precomputed point, or with its negative when signbit is set |
| `Points.PnielsAddP1P1` | ed25519-donna/ed25519-donna-impl-base.h:88-106 | likewise for a precomputed point with its own z |
| `Points.NielsAdd2` | ed25519-donna/ed25519-donna-impl-base.h:129-147 | the accumulator with a precomputed point added, all four coordinates carried and valid |
| `Points.FullToPniels` | ed25519-donna/ed25519-donna-impl-base.h:20-26 | the precomputed form y − x, y + x, 2dxy of a point, at the scale of its z |
| `Points.PnielsAdd` | ed25519-donna/ed25519-donna-impl-base.h:149-172 | the sum of a point and a precomputed one, in precomputed form |
| `Points.LoadComb` | ed25519-donna/ed25519-donna-impl-base.h:342-347 | y + x and y − x of a table entry become the point at z = 2, whose t is the 2xy of row 0 as it stands |
| `Points.ScaleByD` | ed25519-donna/ed25519-donna-impl-base.h:357 | multiplied by d, the third coordinate of an entry of row 0 is the 2dxy that the addition needs |
| `ScalarMult.OddTable` | ed25519-donna/ed25519-donna-impl-base.h:263-266 | limbs of P, 3P, 5P, … in precomputed form |
| `ScalarMult.DigitPoint` | ed25519-donna/ed25519-donna-impl-base.h:280-288 | every window digit indexes inside its table, and the entry with its sign bit adds exactly the digit times the point |
| `ScalarMult.LadderStep` | ed25519-donna/ed25519-donna-impl-base.h:277-291 | a pass from position i turns limbs that show the combination of the digits above i into limbs that show that of the digits from i on, and no formula reads a stale t |
| `ScalarMult.DoubleScalarMult` | ed25519-donna/ed25519-donna-impl-base.h:251-292 | on the curve, with a table of odd multiples of the base: the limbs show s1·P + s2·B for all scalars below 2^255 |
| `ScalarMult.WindowEqual` | ed25519-donna/ed25519-donna-impl-base.h:298-301 | the borrow trick is 1 exactly for equal words |
| `ScalarMult.AbsByMask` | ed25519-donna/ed25519-donna-impl-base.h:304-328 | the mask arithmetic yields the absolute value of every digit in [−8, 8] |
| `ScalarMult.AdjustSign` | ed25519-donna/ed25519-donna-impl-base.h:319-327 | unpacking, the masked exchange and the masked negation turn the 96 bytes of a point into the limbs of that point or of its negative |
| `ScalarMult.ChooseNiels` | ed25519-donna/ed25519-donna-impl-base.h:303-328 | from the packed table the scan, the unpacking and the conditional negation yield the limbs of digit·256^pos·B for every digit in [−8, 8] |
| `ScalarMult.ParitySplit` | ed25519-donna/ed25519-donna-impl-base.h:335-363 | a base-16 digit string is its even digits in base 256 plus 16 times its odd digits |
| `ScalarMult.ScalarMultBase` | ed25519-donna/ed25519-donna-impl-base.h:333-363 | with the packed table as documented the limbs show s·B for every scalar below 2^255, with t valid |
| `Poly1305Spec.AbsorbConcat` | poly1305-opt-master/poly1305.c:78-168 | absorbing m and then n is absorbing their concatenation when m is whole blocks |
| `Poly1305Spec.AeadLayout` | PHKNetworkIP.cpp:363-406 | the authenticated data place by place: each part starts at a multiple of 16, zeros fill up to the next one, and the two lengths follow as 64-bit little-endian numbers |
| `Poly1305Spec.AeadInjective` | PHKNetworkIP.cpp:363-406 | the authenticated layout determines the associated data and the ciphertext |
| `Poly1305Vector.ClampIs` | poly1305-opt-master/poly1305.c:50-62 | the clamp clears the top four bits of each 32-bit word and the bottom two of all but the first |
| `Poly1305Vector.TagVector` | poly1305-opt-master/poly1305.c:50-313 | the tag of section 2.5.2 of RFC 8439 |
| `Poly1305Limbs.MasksClamp` | poly1305-opt-master/poly1305.c:50-62 | the five limb masks clear exactly the bits that the clamp of section 2.5 of RFC 8439 clears |
| `Poly1305Limbs.LoadR` | poly1305-opt-master/poly1305.c:50-62 | the limbs of r are those of the clamped first half of the key |
| `Poly1305Limbs.Block` | poly1305-opt-master/poly1305.c:100-150 | one pass keeps the limb bounds, wraps no word of 32 or 64 bits, and maps the accumulator to (h + block)·r modulo 2^130 − 5 |
| `Poly1305Final.FullCarry` | poly1305-opt-master/poly1305.c:207-245 | a single carry pass suffices: limb 1 never reaches 2^26 again |
| `Poly1305Final.Canonical` | poly1305-opt-master/poly1305.c:246-268 | the subtraction and the mask select give the residue modulo 2^130 − 5 |
| `Poly1305Final.Tag` | poly1305-opt-master/poly1305.c:228-300 | the 16 bytes are (accumulator + pad) modulo 2^128 |
| `Poly1305.RunIsAbsorb` | poly1305-opt-master/poly1305.c:78-168 | blocks with the high bit set are the blocks of the definition with a one byte appended |
| `Poly1305.LastBlock` | poly1305-opt-master/poly1305.c:212-226 | the padded rest, processed without the high bit, is the number of the short last block |
| `Poly1305.Context.constructor` | poly1305-opt-master/poly1305.c:50-76 | an empty stream under the key |
| `Poly1305.Context.Blocks` | poly1305-opt-master/poly1305.c:78-168 | any number of whole blocks: the accumulator limbs keep their bounds and represent the run over these blocks |
| `Poly1305.Context.Update` | poly1305-opt-master/poly1305.c:170-205 | the bytes are appended to the absorbed data, whatever was buffered before |
| `Poly1305.Context.Finish` | poly1305-opt-master/poly1305.c:207-313 | the tag of section 2.5 of RFC 8439 for everything absorbed, and the state is wiped |
| `Poly1305.TagOfChunks` | poly1305-opt-master/poly1305.c:50-313 | for every split of a message into updates the tag is that of the whole message |
| `Aead.GenKey` | PHKNetworkIP.cpp:363-406 | for 2 ≤ len ≤ 65535 and both type values the tag is the Poly1305 tag of the padded layout of section 2.8 of RFC 8439; for shorter lengths the buffer is left as it was |
| `Donna.Product` | curve25519/curve25519-donna.c:96-202 | for sums and differences of reduced elements all 19 columns are exact, with no 32-bit operand or 64-bit sum out of range |
| `Donna.SquareInner` | curve25519/curve25519-donna.c:336-392 | the long form equals that of the product of the element with itself |
| `Donna.ReduceDegree` | curve25519/curve25519-donna.c:204-234 | adds 19 times the high columns and stays below 2^62 in size |
| `Donna.DivBy26` | curve25519/curve25519-donna.c:236-252 | shifts and sign correction divide by 2^26, rounding towards zero |
| `Donna.ReduceCoefficients` | curve25519/curve25519-donna.c:275-320 | for limbs below 2^62 the result is congruent with limbs of at most 26 and 25 bits; a second application makes every limb strictly smaller than its width |
| `Donna.Mul` | curve25519/curve25519-donna.c:322-334 | the product modulo p, with limbs of magnitude at most 2^26 again |
| `Donna.Square` | curve25519/curve25519-donna.c:394-401 | the square modulo p, likewise |
| `DonnaBytes.Expand` | curve25519/curve25519-donna.c:402-422 | all 256 bits are kept: bit 255 is not cleared |
| `DonnaBytes.BorrowPass` | curve25519/curve25519-donna.c:432-480 | one pass of borrows with its wrap-around adds p exactly when the value was negative, and a second leaves no negative limb |
| `DonnaBytes.Contract` | curve25519/curve25519-donna.c:424-509 | 32 bytes that encode a number congruent to the value and below 2^255 |
| `DonnaBytes.ContractCanonicalIff` | curve25519/curve25519-donna.c:424-509 | that number is the residue modulo p if and only if the value was below p |
| `DonnaBytes.ContractWideExample` | curve25519/curve25519-donna.c:424-509 | limbs inside every bound whose encoding is p, not 0 |
| `Montgomery.DoubledIs` | curve25519/curve25519-donna.c:550-567 | the doubling formulas multiplied out: ((x² − z²)² : 4xz(x² + 486662xz + z²)) |
| `Montgomery.AddedIs` | curve25519/curve25519-donna.c:536-549 | the addition formulas multiplied out: (4(xx′ − zz′)² : 4(xz′ − zx′)²·x₁) |
| `Montgomery.AddedCommutes` | curve25519/curve25519-donna.c:515-567 | differential addition does not depend on the order of its two points |
| `Montgomery.DoublePoint` | curve25519/curve25519-donna.c:550-567 | the doubling half of the step on limbs is congruent to the doubling formulas of section 5 of RFC 7748 |
| `Montgomery.DifferentialAdd` | curve25519/curve25519-donna.c:536-549 | the addition half is congruent to the differential addition formulas |
| `Montgomery.Step` | curve25519/curve25519-donna.c:511-567 | one step maps limbs of Q, Q′ to limbs of 2Q and Q + Q′, all short again |
| `MontgomeryCurve.TangentU` | curve25519/curve25519-donna.c:550-567 | on v² = u³ + 486662u² + u: the u-coordinate w that the tangent at (u, v) gives satisfies 4(u³ + 486662u² + u)·w = (u² − 1)² |
| `MontgomeryCurve.ChordU` | curve25519/curve25519-donna.c:536-549 | the u-coordinates w, x that the chords give for sum and difference of two points satisfy (u − u′)²·w·x = (uu′ − 1)² |
| `MontgomeryCurve.DoubleShows` | curve25519/curve25519-donna.c:550-567 | if p is prime: coordinates that show a point are taken to coordinates that show its double by the chord-and-tangent law, infinity and points of order 2 included |
| `MontgomeryCurve.AddShows` | curve25519/curve25519-donna.c:536-549 | if p is prime: coordinates of two points whose difference has the u-coordinate q ≠ 0 are taken to coordinates of their sum, also when one is infinity or they are opposite |
| `Ladder.SwapConditional` | curve25519/curve25519-donna.c:569-589 | exchanges the ten used limbs of signed 64-bit words through a 32-bit mask, or leaves them |
| `Ladder.BitStep` | curve25519/curve25519-donna.c:607-628 | swap, step and swap back on the eight buffers perform the ladder step of section 5 of RFC 7748 for the bit |
| `Ladder.ByteSteps` | curve25519/curve25519-donna.c:605-636 | the eight shifts of a byte and the buffer rotation process its bits, most significant first |
| `Ladder.Multiply` | curve25519/curve25519-donna.c:591-642 | for every 256-bit n the result represents the ladder state after all bits of n |
| `Ladder.RunMeans` | curve25519/curve25519-donna.c:591-642 | on any curve whose doubling and differential addition the formulas compute, the state after the bits of m is ([m]Q, [m+1]Q) |
| `MontgomeryCurve.LadderLaw` | curve25519/curve25519-donna.c:515-567 | so on a group of points with that law the laws that `RunMeans` asks for hold for every point with u ≠ 0 |
| `MontgomeryCurve.LadderReads` | curve25519/curve25519-donna.c:591-734 | for every point, u = 0 included, and every scalar n the ladder and the power z^(p − 2) give the u-coordinate of [n]Q, and 0 for infinity |
| `X25519.Recip` | curve25519/curve25519-donna.c:644-712 | the inversion chain raises to exactly p − 2 = 2^255 − 21 |
| `X25519.InvertersAgree` | curve25519/curve25519-donna.c:644-712 | the two independent inverters agree on congruent inputs |
| `X25519.InverterInverts` | curve25519/curve25519-donna.c:644-712 | if p is prime the result is the inverse of every z ≠ 0, and 0 for 0 |
| `X25519.ClampBytes` | curve25519/curve25519-donna.c:723-727 | the three byte masks clear bits 0 to 2 and 255 and set bit 254 |
| `X25519.ClampedIs` | curve25519/curve25519-donna.c:723-727 | as a number the clamped secret is 2^254 + 8·(⌊secret/8⌋ mod 2^251) |
| `X25519.Donna25519` | curve25519/curve25519-donna.c:716-734 | the output encodes x/z of the ladder state for the clamped secret and the given coordinate |
| `X25519.Donna25519Means` | curve25519/curve25519-donna.c:716-734 | that point is [n]Q for the clamped scalar n on any curve obeying the formulas |
| `X25519.Donna25519Reads` | curve25519/curve25519-donna.c:716-734 | on a group of points with the chord-and-tangent law, p prime: for every point with the given coordinate the output is the u-coordinate of [n]Q for the clamped scalar n, or 0 if that is infinity |
| `ChaCha20.Rotl` | Chacha20/chacha20_simple.h:21 | the low 32 − n bits move up by n places and the high n bits come in below them |
| `ChaCha20.RotlParts` | Chacha20/chacha20_simple.c:54-58 | the rotation moves the high bits below the low ones without overlap |
| `ChaCha20.QuarterRound` | Chacha20/chacha20_simple.c:54-58 | the statements on the word array perform the quarter round of section 2.1 of RFC 8439 |
| `ChaCha20.QuarterUndone` | Chacha20/chacha20_simple.c:54-58 | the quarter round is undone by the steps in reverse, so it is invertible |
| `ChaCha20Words.AddNumbers` | Chacha20/chacha20_simple.c:54-58 | addition of 32-bit bit vectors is the addition of their numbers modulo 2^32 |
| `ChaCha20Words.QuarterOnWords` | Chacha20/chacha20_simple.c:54-58 | on the numbers of any four 32-bit words the quarter round is addition, exclusive or and rotation of bit vectors, with the amounts 16, 12, 8, 7 |
| `ChaCha20Words.DoubleRoundWords` | Chacha20/chacha20_simple.c:60-74 | the same for the column round followed by the diagonal round |
| `ChaCha20Words.QuarterVector` | Chacha20/chacha20_simple.c:54-58 | the values of section 2.1.1 of RFC 8439 |
| `ChaCha20Words.BlockVector` | Chacha20/chacha20_simple.c:60-91 | the 64 bytes of the block of section 2.3.2 of RFC 8439 |
| `ChaCha20.Increment` | Chacha20/chacha20_simple.c:84-91 | the nested increments add one to the 128-bit counter in words 12 to 15, modulo 2^128, through every carry |
| `ChaCha20.ConstantTexts` | Chacha20/chacha20_simple.c:24-29 | the constant words are the texts "expand 32-byte k" and "expand 16-byte k", four characters each, least significant first |
| `ChaCha20.SameAsRfc8439` | Chacha20/chacha20_simple.c:22-45 | below 2^32 blocks the states are those of section 2.3 of RFC 8439 with the nonce extended by four zero bytes |
| `ChaCha20.StreamIs` | Chacha20/chacha20_simple.c:60-124 | byte n of the stream is byte n mod 64 of the block of RFC 8439 with counter ⌊n/64⌋ |
| `ChaCha20.XoredConcat` | Chacha20/chacha20_simple.c:93-124 | processing pieces one after the other is processing their concatenation |
| `ChaCha20.XoredTwice` | Chacha20/chacha20_simple.c:99-129 | processing twice from the same position gives the input back |
| `ChaCha20.Context.constructor` | Chacha20/chacha20_simple.c:22-45 | the stream starts at position 0 of the schedule for key and nonce |
| `ChaCha20.Context.CounterSet` | Chacha20/chacha20_simple.c:47-52 | restarts the stream with the low 64 bits of the counter replaced and the buffer dropped |
| `ChaCha20.Context.Block` | Chacha20/chacha20_simple.c:60-91 | the block function of section 2.3 of RFC 8439 on the current counter, which moves on by one |
| `ChaCha20.Context.FromBuffer` | Chacha20/chacha20_simple.c:105-112 | leftover keystream continues the stream at the current position |
| `ChaCha20.Context.Encrypt` | Chacha20/chacha20_simple.c:99-124 | XOR with the next bytes of one keystream, whatever is buffered; the position advances by the length |
| `ChaCha20.EncryptChunks` | Chacha20/chacha20_simple.c:99-124 | any chunking of the calls gives the XOR of the whole message with one keystream |
| `ChaCha20.RoundTrip` | Chacha20/chacha20_simple.c:99-129 | what is sent is the concatenation of the plain chunks XORed with the keystream of key and nonce from position 0, what is received is the same of the cipher chunks, and if these are what was sent, in any other cut, it is the plain text |
| `Session.NonceBytes` | PHKNetworkIP.cpp:30-33 | the eight bytes are the counter, least significant byte first |
| `Session.NonceInjective` | PHKNetworkIP.cpp:30-33 | different counters below 2^64 give different nonce bytes |
| `Session.FrameLayout` | PHKNetworkIP.cpp:970-988 | a frame is the low 16 bits of the length, least significant byte first, the ciphertext, and the tag over both |
| `Session.KeystreamUse` | PHKNetworkIP.cpp:974-982 | the one-time key is the block with counter 0 of RFC 8439 under the nonce of the frame, and the payload is XORed with the blocks from counter 1 on |
| `Session.FrameOpens` | PHKNetworkIP.cpp:906-942 | a frame of 2 to 2048 payload bytes is accepted under its counter and opens to the payload |
| `Session.AcceptedIsFrame` | PHKNetworkIP.cpp:906-942 | conversely, whatever is accepted under a counter is the frame this session would write for what it opens to |
| `Session.AcceptsIff` | PHKNetworkIP.cpp:906-942 | for a length field of at least 2 a buffer is accepted if and only if it is long enough and its tag has the Poly1305 value of the AEAD layout under the one-time key; for 0 and 1, if and only if the tag bytes are zero, under every key |
| `Session.Connection.constructor` | PHKNetworkIP.cpp:891-897 | a session starts with both counters at 0 |
| `Session.Connection.Write` | PHKNetworkIP.cpp:970-988 | the frame is length, ciphertext and tag under the send counter, which advances; the new wire is the old one with this frame |
| `Session.Connection.Broadcast` | PHKNetworkIP.cpp:219-271 | the same frame format and the same counter for the broadcasting thread |
| `Session.Connection.Receive` | PHKNetworkIP.cpp:906-942 | accepts exactly the frames whose tag matches; the receive counter advances in either case |
| `Session.Connection.Request` | PHKNetworkIP.cpp:899-993 | an answer is written if and only if the request verified; one that did not leaves the lock held |
| `Session.Serve` | PHKNetworkIP.cpp:206-274 | for every interleaving of requests and broadcasts the k-th frame written uses nonce k, and counter, payloads and lock are what handling the events one by one gives, where nothing happens once the lock is left behind |
| `Session.ServedIs` | PHKNetworkIP.cpp:899-993 | the payloads written are exactly the notifications and answers of the events before the first request that does not verify, in order; the lock is left behind if and only if there is one |
| `Session.StillServes` | PHKNetworkIP.cpp:958-993 | the session still serves if and only if every request so far verified under its own counter |
| `Session.ReceiveAll` | PHKNetworkIP.cpp:899-942 | a receiver counting from 0 recovers every payload in order |
| `Session.Conversation` | PHKNetworkIP.cpp:878-1002 | end to end: what the peer decrypts is exactly the payloads of 2 to 2048 bytes of the events before the first request that does not verify, once and in order, and it is what the frames on the wire carry; the session still serves if and only if there is no such request |
| `Tlv8.AbsorbTwice` | PHKNetworkIP.cpp:1111-1123 | two pieces under one tag, one after the other, are one value |
| `Tlv8.FragmentIs` | PHKNetworkIP.cpp:1127-1143 | item j of a value stands at 257j: tag, length and the bytes from 255j on, with 255 of them in all but the last item, and nothing else is written |
| `Tlv8.FragmentsParse` | PHKNetworkIP.cpp:1099-1143 | fragments of at most 255 bytes are whole items, and parsing them absorbs the unfragmented value |
| `Tlv8.ParseEncoded` | PHKNetworkIP.cpp:1099-1143 | parsing what is written for any records consumes it exactly and gives the records merged: inactive and empty ones dropped, equal tags concatenated at the first |
| `Tlv8.MergedDistinct` | PHKNetworkIP.cpp:1099-1143 | active, non-empty records with different tags come back exactly, in order |
| `Tlv8.MergedIs` | PHKNetworkIP.cpp:1099-1143 | the merged records are one for each tag of an active, non-empty record, in order of first occurrence, whose value is the concatenation of the values under that tag |
| `Tlv8.MessageData.AddRecord` | PHKNetworkIP.cpp:1152-1155 | the record is appended |
| `Tlv8.MessageData.RecordIndex` | PHKNetworkIP.cpp:1145-1150 | the first active record with the tag, or −1 when there is none |
| `Tlv8.MessageData.Item` | PHKNetworkIP.cpp:1101-1123 | an item is appended or extends the record of its tag, with its 16-bit cursor never wrapping |
| `Tlv8.MessageData.Parse` | PHKNetworkIP.cpp:1099-1125 | the loop consumes exactly the input and builds the records of its items |
| `Tlv8.MessageData.RawData` | PHKNetworkIP.cpp:1127-1143 | all active records written out in fragments, cut to the low 16 bits of the length |
| `Tlv8.RoundTrip` | PHKNetworkIP.cpp:1099-1143 | writing and parsing any table whose encoding fits 16 bits gives the merged records |
| `Tlv8.RoundTripIff` | PHKNetworkIP.cpp:1127-1143 | what rawData returns parses to the merged records if and only if the encoding is shorter than 2^16 bytes |
| `Radix.MinimalUnique` | srp/t_conv.c:75-103 | a number has one digit sequence without leading zero |
| `TConv.HexTable` | srp/t_conv.c:36-47 | digits of either case have their values, and upper case is written |
| `TConv.FromHex` | srp/t_conv.c:49-73 | half as many bytes as digits, rounded up, with the value of the text; an odd first digit stands alone |
| `TConv.ToHex` | srp/t_conv.c:75-103 | the digits of the number without leading zero digit |
| `TConv.HexRoundTrip` | srp/t_conv.c:49-103 | the text has no leading zero digit and stands for the number of the bytes; the pair returns the bytes without their leading zero bytes, odd digit counts included |
| `TConv.Turn` | srp/t_conv.c:152-171 | one turn of the right-to-left unpacking turns up to four digits into bytes and overwrites no digit still to be read |
| `TConv.Unpack` | srp/t_conv.c:150-171 | the in-place loop keeps the value of the digits |
| `TConv.B64Table` | srp/t_conv.c:115-116 | the digit characters are those of the table in its order, and no other character is a digit |
| `TConv.FromB64` | srp/t_conv.c:118-179 | the bytes of the number the text stands for, without leading zeros |
| `TConv.ToB64` | srp/t_conv.c:195-248 | a text of digits that stands for the number, without leading zero digit |
| `TConv.B64RoundTrip` | srp/t_conv.c:118-248 | for every byte string with a nonzero byte the text stands for its number, and the pair returns it without leading zero bytes |
| `Srp.BlindedIs` | srp/srp6_server.c:305-310 | A·v^u is g^(a + u·x) modulo N |
| `Srp.UnblindedIs` | srp/srp6_server.c:195-199 | B − k·g^x is g^b modulo N |
| `Srp.KeysAgree` | srp/srp6_server.c:305-329 | for all N, g, x, a, b, u and k the server key equals the client value of section 2.6 of RFC 5054, and both are g^(b·(a + u·x)) modulo N |
| `Srp.XorBytesIs` | srp/srp6_server.c:98-135 | H(N) and H(g) are combined byte by byte and bit by bit |
| `Srp.HashInputUnique` | srp/srp6_server.c:224-302 | two numbers in fixed-length or minimal bytes, one after the other, are one byte string only |
| `Srp.Server.constructor` | srp/srp6_server.c:98-135 | parameters set and the running hash started with (H(N) xor H(g)), H(user), salt |
| `Srp.Server.Passwd` | srp/srp6_server.c:146-173 | v = g^x with x the hash of salt and the hash of user, colon and password |
| `Srp.Server.GenPubEx` | srp/srp6_server.c:176-210 | B = k·v + g^b modulo N with the secret from the random bytes, in minimal bytes |
| `Srp.Server.GenPub` | srp/srp6_server.c:224-252 | k is the hash of N and the padded g; rejected exactly when it is 0, and then nothing has changed |
| `Srp.Server.MultiplierInputIs` | srp/srp6_server.c:224-252 | k is the hash of N followed by g, padded to the length of N under left padding |
| `Srp.Server.Scramble` | srp/srp6_server.c:282-302 | both branches of the padding code hash PAD(A), PAD(B) under left padding and the plain forms otherwise |
| `Srp.Server.ScrambledIs` | srp/srp6_server.c:282-302 | u is the hash of A followed by B: each in as many bytes as N has under left padding, otherwise A as it came and B without leading zeros |
| `Srp.Server.Key` | srp/srp6_server.c:254-361 | for a client key no longer than the modulus: rejected if and only if A·v^u is 0, 1 or −1 modulo N; otherwise the key is (A·v^u)^b and the running hashes take their documented contents |
| `Srp.Server.Verify` | srp/srp6_server.c:363-382 | one call accepts exactly the proof under the old or the new hash, each with its own response; it uses the running hashes up |
| `Srp.Agreement` | srp/srp6_server.c:146-361 | against a client with secret a that sends A = g^a and takes k from the hash of N, g and u from the hash of A, B, both given by value and length: the run is accepted if and only if k ≠ 0 and A·v^u is none of 0, 1 and −1 modulo N; then the server key is the client value computed from B, the password hash x, a and u, and the session key is the hash of its bytes |
| `Srp.Confirmation` | srp/srp6_server.c:98-382 | in an accepted run the proof M = H(H(N) xor H(g), H(user), salt, A, B, K), made from the hash K of the client key, is accepted, and the response is H(A, M, K), or that of the older protocol when M is its proof |

## Left out

- Sockets, dns_sd, threads and the mutex calls: each critical section is one atomic method, and only the lock that a rejected request leaves behind is state of the model. Scheduling and fairness are not modelled.
- Point compression and decompression, the sign and verify functions of ed25519.c, and the batch verification around the multiplication.
- That the twisted Edwards and Montgomery curves are groups, and the contents of the tables of precomputed points: hypotheses, see above.
- ge25519_add and ge25519_double_partial, which only compose the modelled formulas and conversions; curve25519_move_conditional_bytes selects a whole table entry.
- The point structures are values of `Points`, not objects: the formulas that write into one of their arguments return the new point.
- SHA-512, HMAC, HKDF, the random generators and OpenSSL's big numbers: parameters or mathematical integers.
- The HTTP and JSON text, the pair-setup and pair-verify dialogue, accessory and characteristic objects, the notification list, storage of controllers, and the null-pointer checks: only easy members.
- srp6_server_genpub for SRP-6, which calls the modelled srp6_server_genpub_ex with k = 3, and srp6_server_respond, which returns the stored response.
- Carry loops of fixed length (freduce_coefficients, fcontract, the ten limbs of the carry macros) are unrolled into one call per limb, and short local buffers (limb temporaries, the keystream block, TLV values) are sequences assigned as a whole; arrays are kept where the source updates an argument or a field in place.
- The batch heap's index, scalar and point arrays are `seq` fields of the class that the methods reassign.
- TConv.FromB64: states nothing for a text without a nonzero digit, because the code then reads past its array.
- Session.Connection.Receive: states nothing for a length field above 2048, because the code then writes past its buffer.
- Tlv8.MessageData.Parse: states nothing for truncated items or more than ten tags, because the code then leaves its arrays.
- Srp.Server.Verify: states nothing about a second call, because the first one finalises the running hash contexts.
- Tlv8.RoundTrip: the round trip of encodings of 2^16 bytes and more, which the 16-bit cut destroys (see Tlv8.RoundTripIff).
