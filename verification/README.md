# Penglai SDK: verified models of its arithmetic, linker, page tables and ciphers

This project models the parts of the Penglai enclave SDK that do the most work, and proves what they are for.

**Big integers** (`Arith`, `Limbs`, `Vli`, `Mult`, `Div`, `ModArith`, `ModInv`, `ModExp`, `Sm2Reduce`) follow
`sign_tool/gm/big.c` on arrays of words, updated in place by carry and borrow loops. `Limbs.Seg` is the number that a
stretch of words stands for; every operation is stated on numbers. Division works on the same memory as 32-bit digits
(`ModArith.Halves`, `ModArith.Join`); digit counts are even there, as in every call of the program.

**The curve layer** (`Field`, `CoZ`, `Cusp`, `CurveRep`, `Group`, `Scalars`, `PointMult`, `AffinePoints`, `Shamir`,
`JointGroup`, `Ladder`, `CurveEquation`, `StrayPoints`) follows `sign_tool/gm/ecc.c` in three steps: what the register
values are as congruences, what points they represent modulo p, and what multiple of the point comes out. The
associativity of point addition on the curve is the hypothesis `PointMult.CurveGroup`: a group whose elements have
coordinates obeying the chord and tangent laws. `StrayPoints.WholeCurve` adds the curve equation.

**SM2 signatures** (`Sm2Sign`, `Sm2WithSm3`) follow `lib/gm/source/SM2_sv.c` over any group of prime order; the calls
into the MIRACL library are the integer and group operations they document. The nonce is a parameter. The hash is one
in `Sm2Sign` and the program's SM3 in `Sm2WithSm3`.

**The dynamic linker** (`DsoGraph`, `BfsDeps`, `CtorQueue`, `Linker`, `CtorProtocol`, `CtorOrder`, `CtorProgress`,
`BitOps`, `GnuHash`) follows `musl/ldso/dynlink.c`: the breadth-first dependency list, the depth-first constructor
queue in one shared buffer, the protocol of threads running constructors and finalizers as a state machine over all
interleavings, with what every run keeps and which steps every state allows, and symbol lookup.

**Page tables and measurement** (`PageTable`, `Measure`, `MeasureChange`, `Gigapage`) follow
`sign_tool/penglai-enclave-page.c` and `sign_tool/attest.c`. Addresses are page aligned and written as page numbers.
Free pages are taken to hold zeros, which the program relies on.

**Ciphers and hashes** (`Feistel`, `Sm4`, `Sm4Core`, `Cbc`, `Ocb`, `OcbProgram`, `OcbInPlace`, `OcbBytes`, `Sm4Modes`,
`HashStream`, `Bytes`, `Collections`, `Sm3`, `Sm3Block`, `Sm3Words`, `Sha512`, `Sha512Block`, `Sha512Words`) follow
`lib/gm/source/SM4.c`, `SM4_Enc.c`, `SM3.c` and `demo/crypt/crypt.c`. The control flow is stated over the word and
byte operations it uses, and separate modules show that the words of the program have the laws it needs.

The definitions these programs are proved against are tied down in turn: word operations bit by bit and recurrences as
sequences (`WordBits`, `Sm4Bits`, `Sm3Bits`, `Sha512Bits`), the S-box as inversion in its field (`Sm4Box`), the
constants by their formulas, the examples of the standards evaluated word by word inside the proofs (`Sm4Check`,
`Sm3Check`), the parts of the OCB mode by what undoing the cipher shows (`OcbForm`), and what a tag tells apart
(`OcbDistinct`).

Where a promise does not hold of the code, the code is kept and the exact condition is proved:

- `PointMult.EccPointMult`, `ServedBelowOrder`: below the order n of the point, scalar multiplication is right exactly
  for the scalars 2 to n-2. The scalar n-1 gives (0,0), because the last rungs are opposite points, and the scalars 0
  and 1 give 2P and 3P. For scalars above n the condition `Served` is stated on the bits of the scalar.
- `JointGroup.JointExact`, `SamePointFails`, `EqualStepFails`: where G + P could be computed or no bit is set in both
  scalars, joint multiplication is right exactly when no doubling gives zero and no addition meets equal or opposite
  points, or when zero was asked for; otherwise (0,0) comes out.
- `StrayPoints.Mult2Exact`, `StrayExact`: when P is G or -G and both scalars have a one in the same place, the program
  adds the entry (0,0) as if it were a point, and the running point leaves the curve. It is right again exactly where a
  later sum has the x of the entry added and the opposite of that entry was wanted, or where a sum with (0,0) lands on
  the right point.
- `JointGroup.SumExact`: a point added to itself gives (0,0), and a point added to zero is lost.
- `ModInv.InverseIffCoprime`: the inverse is one exactly for coprime operands.
- `CtorOrder.FinalizedInStartOrder`, `OvertakesIffPending`, `OrderDiffersByPending`: finalizers run in reverse order of
  claims, not of constructor starts. Starts can come in another order than claims exactly when a claim is pending in
  another thread while the next object is claimed; for the objects of one thread the orders agree (`OneThreadReverse`).
- `CtorOrder.StartAfterShutdown`, `CtorProtocol.StartIffPending`, `NoStartAfterQuietShutdown`: a constructor
  function can be entered after `shutting_down` was set, exactly when its claim was already pending; a claim never comes
  after.
- `CtorProgress.CallReturns`, `StuckForever`, `CanBeStuck`: a call of do_init_fini can run to its end by itself when no
  other thread constructs an object of its queue and there is no shutdown. Threads whose constructors each call for an
  object that another of them is constructing wait for ever.
- `Sm3.FieldIsStandard`, `ShortestWrap`: SM3's padding is the standard's exactly below 2^32 bits.
- `Div.BnDiv`: the quotient is right in the digits the program computes, and outright when the divisor's top digit is
  nonzero; the remainder is right for every divisor but zero.
- `ModExp.VliModExp`: the power is right exactly when the modulus is above one or the exponent is not zero.
- `Ocb.TableEmpty`: the offset table is empty exactly when neither message nor associated data has a whole block; the
  programs are modelled for the other inputs.
- `OcbInPlace.InPlaceExact`, `InPlaceFails`: encryption with input and output in one buffer reads the message after it
  was overwritten; it is right exactly if the last bytes of the message are those of the pad and the checksum of what is
  left is that of the message. Decryption in one buffer is right.
- `Gigapage.GigapageUnread`: what a processor sees does not decide the measurement when there are leaves at the top
  level, of which only address and flags are hashed; it does if such leaves stand in the same places
  (`Measure.SameSeenSameStream`).
- `Sm2Reduce.Fold`: the folded number is never negative, so the loop modelled by `AddBack` is never entered.

Some predicates are stated behind a bound variable that equals one of their arguments. This changes nothing about what
they say; it keeps their contents out of proofs that do not name them.

## Model

| member | source | states |
|---|---|---|
| `Vli.Cmp` | sign_tool/gm/big.c:82-93 | 1, 0 or -1 exactly as the number in the left words is above, equal to or below the one in the right words |
| `Vli.Add` | sign_tool/gm/big.c:130-146 | sum plus carry out times the word base to the n is the sum of the two numbers, also when the result array is an operand |
| `Vli.Sub` | sign_tool/gm/big.c:149-165 | difference minus borrow out times the word base to the n is the difference of the two numbers, also in place |
| `Vli.LShift` | sign_tool/gm/big.c:98-110 | result and carry together are the input times two to the shift |
| `Vli.RShift` | sign_tool/gm/big.c:115-127 | result is the input divided by two to the shift; the carry is the remainder moved to the top |
| `Mult.MulWide` | sign_tool/gm/big.c:167-190 | low and high words of the exact 128-bit product of two words, from four 32-bit products and a carry test |
| `Mult.MulAddWord` | sign_tool/gm/big.c:202-227 | one word of the row: word plus out times 2^64 is accumulator plus carry plus c times d, with no carry lost |
| `Mult.AddDigitMul` | sign_tool/gm/big.c:202-227 | the row and its carry out add c times the multiplicand to the accumulator exactly, and nothing outside the row changes |
| `Mult.BnMult` | sign_tool/gm/big.c:229-244 | the 2n result words hold the exact product, for every pair of n-word operands and with the result array also an operand |
| `Div.SubDigitMult` | sign_tool/gm/big.c:248-274 | the row minus c times the divisor, with the borrow out exact |
| `Div.DigitBits` | sign_tool/gm/big.c:276-287 | the number of bits of a digit, zero for zero |
| `Div.Estimate` | sign_tool/gm/big.c:307-313 | the estimated quotient digit, kept to 32 bits, never exceeds the true quotient, whatever the top digit of the divisor |
| `Div.DivStep` | sign_tool/gm/big.c:307-320 | the digit holds the low 32 bits of the window divided by the divisor, the window is left with the remainder, and the correction loop ends |
| `Div.DivLoop` | sign_tool/gm/big.c:305-321 | after all digits the quotient times the divisor plus the rest is the shifted dividend, but for a multiple of the place above the digits, which is zero if the first window is below the divisor |
| `Div.BnDiv` | sign_tool/gm/big.c:289-324 | for every dividend and every divisor but zero the remainder is exact and the quotient is exact in the digits computed; if the top digit of the divisor is nonzero these are all of it |
| `ModArith.BnMod` | sign_tool/gm/big.c:331-336 | the remainder of a 2n-word number, for every modulus but zero |
| `ModArith.ModMult` | sign_tool/gm/big.c:720-726 | left times right modulo mod, exactly |
| `ModArith.ModAdd` | sign_tool/gm/big.c:423-436 | the sum modulo mod for reduced operands, including when the addition carries out of the top word |
| `ModArith.ModSub` | sign_tool/gm/big.c:441-452 | the difference modulo mod for reduced operands |
| `ModInv.HalfMod` | sign_tool/gm/big.c:809-814 | half of u modulo an odd m: below m and twice it is congruent to u |
| `ModInv.HalveMod` | sign_tool/gm/big.c:809-814 | the in-place form computes HalfMod even when adding the modulus carries out and the top bit has to be put back |
| `ModInv.SubMod` | sign_tool/gm/big.c:830-833 | the in-place form computes the difference modulo m when the subtraction borrows |
| `ModInv.StateHalf` | sign_tool/gm/big.c:806-825 | halving one pair keeps a ≡ u*x and b ≡ v*x modulo m, one of a and b odd and the common divisors of a and b |
| `ModInv.StateDiff` | sign_tool/gm/big.c:826-854 | subtracting and halving the larger pair keeps the same invariant |
| `ModInv.Reduce` | sign_tool/gm/big.c:803-855 | the whole loop keeps the invariant, terminates and ends with a = b |
| `ModInv.VliModInv` | sign_tool/gm/big.c:785-858 | for odd mod > 1 the result u is below mod and u*input is congruent to gcd(input, mod); zero input gives zero |
| `ModInv.InverseIffCoprime` | sign_tool/gm/big.c:785-858 | the result is an inverse if and only if input and mod are coprime, and otherwise no inverse exists |
| `ModExp.SkipZeros` | sign_tool/gm/big.c:759-764 | skipping leading zero windows of the top digit loses none of its value |
| `ModExp.WindowStep` | sign_tool/gm/big.c:766-773 | two squarings and a table product take left^e to left^(4e+s) modulo m, for each window value s |
| `ModExp.ExpLoop` | sign_tool/gm/big.c:753-775 | all digits of the exponent from the top one down |
| `ModExp.VliModExp` | sign_tool/gm/big.c:739-778 | left^p mod m for every exponent of any number of words, if and only if m is above one or p is not zero; with p zero the result is one |
| `Sm2Reduce.Fold` | sign_tool/gm/big.c:542-603 | the adds and subtracts of the high words leave result + carry*2^256 equal to the folded number, which is never negative |
| `Sm2Reduce.FoldedCong` | sign_tool/gm/big.c:542-603 | the folded number is congruent to the product modulo the SM2 prime |
| `Sm2Reduce.AddBack` | sign_tool/gm/big.c:604-608 | adding the prime while the carry is negative terminates below the prime and stays congruent |
| `Sm2Reduce.TakeOff` | sign_tool/gm/big.c:609-614 | subtracting the prime while the number is not below it terminates below the prime and stays congruent |
| `Sm2Reduce.MmodFastSm2` | sign_tool/gm/big.c:534-615 | product mod p for every 512-bit product |
| `Sm2Reduce.ModFast` | sign_tool/gm/big.c:687-700 | on 64-bit words the fast reduction leaves exactly the remainder that BnMod leaves |
| `CoZ.XYcZAdd` | sign_tool/gm/ecc.c:99-120 | the register values are the scaled first point and the chord sum, as congruences in the inputs |
| `CoZ.XYcZAddC` | sign_tool/gm/ecc.c:126-157 | the register values are the chord difference and the chord sum |
| `CoZ.DoubleJacobian` | sign_tool/gm/ecc.c:18-60 | the register values are the Jacobian double for a curve with a = -3; a zero z is left alone |
| `CoZ.FHalf` | sign_tool/gm/ecc.c:40-47 | a reduced number whose double is congruent to the operand, for every odd modulus |
| `CoZ.ApplyZ` | sign_tool/gm/ecc.c:63-71 | coordinates times z^2 and z^3 |
| `CurveRep.AddMeans` | sign_tool/gm/ecc.c:99-120 | for points sharing Z with different x, XYcZ_add yields P and P+Q sharing Z*(x2-x1), modulo any p |
| `CurveRep.AddCMeans` | sign_tool/gm/ecc.c:126-157 | for points sharing Z with different x, XYcZ_addC yields P-Q and P+Q sharing Z*(x2-x1), modulo any p |
| `CurveRep.DoubleMeans` | sign_tool/gm/ecc.c:18-60 | the Jacobian double represents the tangent point |
| `Ladder.StepKeepsRungs` | sign_tool/gm/ecc.c:173-175 | in any abelian group one swapped addC/add step takes (jP, (j+1)P) to the rungs of 2j or 2j+1 as the bit says, and R1 - R0 = P stays |
| `Ladder.StepsApart` | sign_tool/gm/ecc.c:173-175 | the same for an addition that is only right for points apart, as the co-Z formulas are, if the rungs are nonzero and not opposite points of odd order; the new rungs are nonzero too |
| `Ladder.LadderLoop` | sign_tool/gm/ecc.c:172-176 | the rungs after the loop are those of the scalar without its last bit, if the addition is complete or is right for points apart and no leading part of the scalar met opposite rungs |
| `Ladder.LadderMult` | sign_tool/gm/ecc.c:159-196 | in any abelian group, for every addition that is right for points apart and every point of odd order n, the result is k*P ((k+2)*P for k below two) unless the rungs meet opposite points; with a complete addition always, so that it is right if and only if the scalar has two bits or 2P is zero |
| `Ladder.ShamirMult` | sign_tool/gm/ecc.c:203-257 | in any abelian group, for every addition that is right for points apart, joint double-and-add ends with s*G + t*P for all s, t not both zero unless a step meets a special case; with a complete addition always |
| `Cusp.SumLevel` | sign_tool/gm/ecc.c:99-157 | points with the same x: an addition leaves w^2 and -w^3, w being the difference of the y |
| `Cusp.SumFromZero` | sign_tool/gm/ecc.c:99-157 | adding to (0,0) a point with y^2 = x^3 gives (0,0) |
| `Cusp.SumToZero` | sign_tool/gm/ecc.c:99-157 | adding (0,0) to a point with y^2 = x^3 gives (0,0) |
| `Cusp.ScaledCusp` | sign_tool/gm/ecc.c:99-120 | rescaling such a point keeps y^2 = x^3 |
| `PointMult.AddPoints` | sign_tool/gm/ecc.c:99-120 | on coordinates of group elements that are apart: (a, a+b) with the new shared Z nonzero |
| `PointMult.SubAddPoints` | sign_tool/gm/ecc.c:126-157 | on coordinates of group elements that are apart: (a-b, a+b) with the new shared Z nonzero |
| `PointMult.InitialDouble` | sign_tool/gm/ecc.c:74-93 | the two rungs 2P and P with a shared nonzero Z, or zeros when the initial Z is zero |
| `PointMult.StepApart` | sign_tool/gm/ecc.c:172-190 | unless (2j+1)P is zero no addition of the step at rung j meets two points with the same x, for a point of odd order and nonzero rungs |
| `PointMult.CrossHalf` | sign_tool/gm/ecc.c:174-179 | if (2j+1)P is zero, addC leaves (0,0) and a point with y^2 = x^3 |
| `PointMult.LostAddC` | sign_tool/gm/ecc.c:174-179 | from there addC leaves (0,0) as the difference, whatever the bit |
| `PointMult.LostAdd` | sign_tool/gm/ecc.c:175-190 | and add keeps one rung (0,0) and y^2 = x^3 in the other |
| `PointMult.SoundStep` | sign_tool/gm/ecc.c:173-175 | otherwise the coordinates after the step are those of the rungs 2j or 2j+1 as the bit says, both nonzero, over a new nonzero Z |
| `PointMult.CoZLoop` | sign_tool/gm/ecc.c:172-176 | for every scalar the loop leaves the rungs of the scalar without its last bit, or is lost exactly when a leading part of the scalar met opposite rungs |
| `PointMult.FinalInverse` | sign_tool/gm/ecc.c:182-187 | the factor built from Y, X and the affine point is exactly 1/Z after the last add, for both values of the last bit |
| `PointMult.LostInverse` | sign_tool/gm/ecc.c:182-187 | the factor is zero when the difference point is (0,0) or the affine point has x = 0 |
| `PointMult.LastStep` | sign_tool/gm/ecc.c:178-195 | the last bit: addC, 1/Z, add and scaling back give affine coordinates of the right multiple, and (0,0) exactly in the exceptional cases |
| `PointMult.EccPointMult` | sign_tool/gm/ecc.c:159-196 | for every scalar and every point of odd order n: the coordinates of k*P (of (k+2)*P for k below two), or (0,0) if a leading part of k followed by a one is a multiple of n, x is zero or the initial Z is zero; so it stands for k*P exactly for the scalars Served |
| `PointMult.ServedBelowOrder` | sign_tool/gm/ecc.c:159-196 | for k below an order n above three the scalars served are exactly 2 to n-2, and (0,0) comes out exactly for n-1 |
| `AffinePoints.Plus` | sign_tool/gm/ecc.c:99-120 | the affine chord sum of points with different x, nothing for equal x, wherever the points lie |
| `AffinePoints.OneChord` | sign_tool/gm/ecc.c:99-120 | points with different x have one chord sum modulo p |
| `AffinePoints.ZeroAdded` | sign_tool/gm/ecc.c:259-280 | added as if it were a point, (0,0) gives back no point but (0,0) |
| `Shamir.EccPointAdd` | sign_tool/gm/ecc.c:259-280 | for all coordinates: the affine chord sum, or (0,0) when the x are equal |
| `JointGroup.SumExact` | sign_tool/gm/ecc.c:259-280 | for all elements of a curve group, zero written (0,0): it stands for the sum exactly if both operands are zero, or neither is and they differ or cancel |
| `Shamir.DoubleR` | sign_tool/gm/ecc.c:240-240 | the registers after the Jacobian double hold the affine tangent double, or z is zero once a division by zero was met |
| `Shamir.AddEntry` | sign_tool/gm/ecc.c:245-252 | scaling an entry to the running z and adding it holds the affine chord sum, or z is zero |
| `Shamir.EccPointMult2` | sign_tool/gm/ecc.c:203-257 | for all coordinates and all scalars not both zero: the result is that of affine double-and-add over the table G, P, G+P, and (0,0) as soon as that divides by zero |
| `JointGroup.StepIsGroup` | sign_tool/gm/ecc.c:239-253 | for points of a curve group a step gives the next running point, or nothing exactly if a doubling gives zero or an addition meets equal or opposite points |
| `JointGroup.JointExact` | sign_tool/gm/ecc.c:203-257 | where G+P could be computed or is not used, the result is s*G + t*P if no step is special and (0,0) otherwise; so it stands for s*G + t*P exactly if none is special or zero was asked for |
| `JointGroup.GenericScalars` | sign_tool/gm/ecc.c:239-253 | for P = d*G in a group of order n this is a condition on the leading parts of s and t modulo n |
| `JointGroup.SamePointFails` | sign_tool/gm/ecc.c:217-237 | P = G and both scalars one give (0,0) though 2G was asked for |
| `JointGroup.EqualStepFails` | sign_tool/gm/ecc.c:239-253 | P = 2G with the scalars 2 and 1 meets an addition of 2G to itself, though 4G is not zero, for every order from five on |
| `CurveEquation.ChordResidue` | sign_tool/gm/ecc.c:99-120 | along a chord y^2 - x^3 + 3x is linear in x, whatever curves the two points lie on |
| `CurveEquation.TangentResidue` | sign_tool/gm/ecc.c:18-60 | a tangent double stays on the curve with a = -3 that its point lies on |
| `StrayPoints.BackOn` | sign_tool/gm/ecc.c:99-120 | the chord sum of a point on the curve and one off it is on the curve exactly if it has the x of the first |
| `StrayPoints.UnsharedStep` | sign_tool/gm/ecc.c:239-253 | a bit of one scalar or none: the right point comes from the right one by a regular step, or from a point off the curve exactly if the sum has the x of the entry and the opposite of the entry is what is wanted |
| `StrayPoints.SharedStep` | sign_tool/gm/ecc.c:239-253 | a bit of both scalars when the entry G+P is (0,0): from a point (x, y) of the curve, doubled, the sum is the right point exactly if y^2 = 2x^3 and the opposite of (x, y) is wanted |
| `StrayPoints.TopShared` | sign_tool/gm/ecc.c:227-253 | if P is G or -G and both top bits are set, nothing but (0,0) comes out |
| `StrayPoints.StrayExact` | sign_tool/gm/ecc.c:203-257 | P = G or -G with a bit set in both scalars: a nonzero s*G + t*P comes out exactly if the sum at the lowest such bit lands on the right point or a stray point turns to it below, and every step from there is regular |
| `StrayPoints.VoidExact` | sign_tool/gm/ecc.c:239-257 | the registers vanish exactly if a step doubles a point with y = 0 or adds points with the same x |
| `StrayPoints.Mult2Exact` | sign_tool/gm/ecc.c:203-257 | for all points of the curve but zero and all scalars not both zero: exactly when the result stands for s*G + t*P |
| `Bytes.BytesRoundTrip` | lib/gm/source/SM2_sv.c:536-537 | a scalar written to bytes reads back as itself |
| `Sm2Sign.NonceCheckIsTCheck` | lib/gm/source/SM2_sv.c:517-534 | r + s = 0 modulo n if and only if r + k = n: signing's check is exactly verification's t test |
| `Sm2Sign.SignDigest` | lib/gm/source/SM2_sv.c:509-534 | code 0 gives a signature of the digest; the code for r is returned exactly when r is 0 or r + k = n, the one for s exactly when otherwise s would be 0 |
| `Sm2Sign.Sign` | lib/gm/source/SM2_sv.c:454-540 | as SignDigest on byte strings, with the digest of the public key and the message |
| `Sm2Sign.SignatureAccepted` | lib/gm/source/SM2_sv.c:562-644 | every signature passes the verification equation with [d]G, in any group of prime order n |
| `Sm2Sign.Verify` | lib/gm/source/SM2_sv.c:562-644 | each of the six return codes exactly when its condition holds; 0 exactly when the signature is accepted |
| `Sm2Sign.SelfCheck` | lib/gm/source/SM2_sv.c:666-693 | sign then verify returns the code for r exactly if r = (e + x of kG) mod n is 0 or r + k = n, the one for s exactly if otherwise k = r d modulo n, and 0 in all other cases |
| `Sm2WithSm3.ComputeE` | lib/gm/source/SM2_sv.c:417-436 | the program's own SM3 over the program's parameter bytes, public key and message gives the digest of GM/T 0003.2-2012 with the hash of GM/T 0004-2012, for messages of up to 1024 bytes |
| `Sm2WithSm3.BaseOnCurve` | lib/gm/source/SM2_sv.c:22-52 | the constants fit together: a = -3 modulo the prime and the base point is on the curve |
| `Sm2WithSm3.KeyHashed` | lib/gm/source/SM2_sv.c:417-436 | ZA is the SM3 digest of the 210 bytes: bit length and identification 1234567812345678, a, b, base point, x, y |
| `Sm2WithSm3.MessageHashed` | lib/gm/source/SM2_sv.c:437-453 | e is the number in the digest of ZA followed by the message |
| `Sm2WithSm3.StandardCurve` | lib/gm/source/SM2_sv.c:417-436 | any curve can be given the program's parameters and the standard's hash, so the hypothesis of these results can be met |
| `Sm2WithSm3.SignBytes` | lib/gm/source/SM2_sv.c:454-540 | signing with SM3 as the program does it, with every outcome of Sign for the standard's digest |
| `Sm2WithSm3.VerifyBytes` | lib/gm/source/SM2_sv.c:562-644 | verifying with SM3 as the program does it: the six return codes exactly as Verify gives them for the standard's digest |
| `Sm2WithSm3.SelfCheckBytes` | lib/gm/source/SM2_sv.c:666-693 | sign then verify with SM3: the same codes exactly, for the standard's digest |
| `BfsDeps.WalkWithin` | musl/ldso/dynlink.c:1230-1256 | once every entry is done, a walk of m edges ends in the list at level m or less |
| `BfsDeps.LevelIsDistance` | musl/ldso/dynlink.c:1230-1256 | the level of an entry is its distance from the owner |
| `BfsDeps.EndWalking` | musl/ldso/dynlink.c:1212-1261 | the finished list is everything reachable by one edge or more, nearest first, nothing added twice |
| `Linker.DsoList.CopyEdges` | musl/ldso/dynlink.c:1232-1255 | one entry's unmarked dependencies are appended and fit the slots counted for them |
| `Linker.DsoList.ExtendBfsDeps` | musl/ldso/dynlink.c:1212-1261 | terminates although the list grows; leaves the breadth-first closure, only that list changed, all marks clear; a built list is left alone |
| `CtorQueue.PushKeeps` | musl/ldso/dynlink.c:1449-1453 | going down to an unmarked dependency keeps the search invariant |
| `CtorQueue.SkipKeeps` | musl/ldso/dynlink.c:1447-1448 | passing over a marked dependency keeps the search invariant |
| `CtorQueue.FinishKeeps` | musl/ldso/dynlink.c:1456 | queueing a finished object keeps the invariant, in particular that a dependency comes first unless it leads back |
| `CtorQueue.HeldBound` | musl/ldso/dynlink.c:1410-1424 | stack and queue together never exceed the number of objects the buffer was sized for |
| `CtorQueue.EndInv` | musl/ldso/dynlink.c:1402-1462 | when the stack is empty the queue holds every object the root leads to, once each, in order |
| `Linker.DsoList.PushEdge` | musl/ldso/dynlink.c:1449-1454 | the push is done in the shared buffer without touching the queue, and one more object is marked |
| `Linker.DsoList.Round` | musl/ldso/dynlink.c:1445-1456 | one round keeps both halves of the shared buffer apart and makes progress |
| `Linker.DsoList.QueueCtors` | musl/ldso/dynlink.c:1402-1462 | terminates with a null-ended array of everything reachable, each once, dependencies first unless they lead back, and its marks clear |
| `CtorProtocol.StepInv` | musl/ldso/dynlink.c:1372-1502 | every step of every thread keeps the invariant: who constructs what, what is behind each call, what the log says |
| `CtorProtocol.RunInv` | musl/ldso/dynlink.c:1372-1502 | hence every state of every run has it |
| `CtorProtocol.EventsOnce` | musl/ldso/dynlink.c:1471-1500 | in every interleaving no object is claimed, started, completed or finalized twice |
| `CtorProtocol.ClaimsBeforeShutdown` | musl/ldso/dynlink.c:1472-1476 | no constructor is claimed after shutting_down is set |
| `CtorProtocol.FinalizedAfterCompletion` | musl/ldso/dynlink.c:1385-1399 | a finalized object was claimed, started and completed before |
| `CtorProtocol.FinalizedInReverse` | musl/ldso/dynlink.c:1385-1399 | finalizers run in reverse order of claims: of two finalized objects the one claimed later is finalized first |
| `CtorProtocol.ReturnSettles` | musl/ldso/dynlink.c:1464-1502 | when do_init_fini returns, every queued object is constructed or under construction by the returning thread |
| `CtorProtocol.ClaimAfterDependencies` | musl/ldso/dynlink.c:1464-1502 | with a queue in constructor order, an object is claimed only when its dependencies are settled or depend on it in turn |
| `CtorProtocol.ExitFinalizesAll` | musl/ldso/dynlink.c:1385-1399 | when exit has gone through its list, every claimed object with finalizers is finalized, unless the exiting thread is constructing it |
| `CtorProtocol.StartIffPending` | musl/ldso/dynlink.c:1476-1495 | a constructor can start, shutdown or not, if and only if a claim is pending |
| `CtorProtocol.NoStartAfterQuietShutdown` | musl/ldso/dynlink.c:1372-1502 | if no claim is pending when shutting_down is set, no constructor starts afterwards |
| `CtorOrder.StartAfterShutdown` | musl/ldso/dynlink.c:1476-1495 | a run in which a constructor function is entered after shutting_down was set: its claim came before |
| `CtorOrder.FinalizedInStartOrder` | musl/ldso/dynlink.c:1372-1502 | a run in which two objects are finalized in the order in which they started, not in reverse |
| `CtorOrder.StartedInReverse` | musl/ldso/dynlink.c:1372-1502 | if y is finalized before x and x had started when y was claimed, x started before y |
| `CtorOrder.ClaimedHaveStarted` | musl/ldso/dynlink.c:1471-1495 | when a thread claims an object, every object claimed before has started or its claim is pending in another thread |
| `CtorOrder.OvertakesIffPending` | musl/ldso/dynlink.c:1471-1495 | a newly claimed object can start before an object claimed earlier if and only if the earlier claim is pending in another thread |
| `CtorOrder.OrderDiffersByPending` | musl/ldso/dynlink.c:1372-1502 | in every run, if two objects are finalized in start order, the one claimed first was pending in another thread when the other was claimed |
| `CtorOrder.OneThreadInOrder` | musl/ldso/dynlink.c:1464-1502 | in every run, what one thread claimed has started before it claims the next |
| `CtorOrder.OneThreadReverse` | musl/ldso/dynlink.c:1372-1502 | in every run, of two finalized objects that one thread claimed, the one that started later is finalized first |
| `CtorProgress.CanExact` | musl/ldso/dynlink.c:1372-1502 | in every reachable state and for every thread, exactly which steps are possible: return at the end of the queue, wait, pass what is constructed or under construction by the thread itself, claim the rest |
| `CtorProgress.InitGoesOn` | musl/ldso/dynlink.c:1464-1502 | a call of do_init_fini that holds the lock can always go on, and can only wait exactly if another thread constructs the object it is at or the shutdown has begun |
| `CtorProgress.ExitGoesOn` | musl/ldso/dynlink.c:1385-1399 | a call of __libc_exit_fini that holds the lock can go on exactly if it is not at the end of its list, and can only wait exactly if another thread constructs the object it is at |
| `CtorProgress.ReachableHeld` | musl/ldso/dynlink.c:1470-1501 | whoever has init_fini_lock is at a point of the code where it holds it |
| `CtorProgress.SomeoneMoves` | musl/ldso/dynlink.c:1372-1502 | no state is stuck: while the lock is free every thread can take a step, and otherwise its holder can, unless the exiting thread is at the end of its list |
| `CtorProgress.CallReturns` | musl/ldso/dynlink.c:1464-1502 | if no other thread constructs an object of the queue, the lock is free and there is no shutdown, a call can run to its end, and then exactly the objects of its queue are constructed in addition, but for those the caller is constructing |
| `CtorProgress.SettledReturns` | musl/ldso/dynlink.c:1474-1475 | a call with a queue of settled objects, from inside a constructor too, can run to its end and leaves everything as it was |
| `CtorProgress.ExitRuns` | musl/ldso/dynlink.c:1372-1400 | if no other thread constructs an object of the fini list, exit can run to the end of it: shutdown set, the finalizers of exactly the constructed objects run in list order |
| `CtorProgress.StuckForever` | musl/ldso/dynlink.c:1472-1473 | in every run, calls of a set of threads that each are at an object under construction by another of the set never get past it |
| `CtorProgress.CanBeStuck` | musl/ldso/dynlink.c:1464-1502 | two threads whose constructors each call for the object of the other reach such a state |
| `GnuHash.HashOf` | musl/ldso/dynlink.c:223-230 | the accumulator of 32 bits or any more gives the 32-bit hash of the name |
| `GnuHash.HashClosed` | musl/ldso/dynlink.c:223-230 | the hash is 5381*33^n plus the sum of c_i*33^(n-1-i), to 32 bits |
| `GnuHash.FilterBits` | musl/ldso/dynlink.c:269-274 | the filter on the 32-bit words in memory: bits h mod 64 and (h >> shift) mod 64, from the low half on, of Bloom word h/64 modulo their number |
| `BitOps.AndBit` | musl/ldso/dynlink.c:269-274 | & on unsigned numbers, bit by bit |
| `BitOps.MaskPower` | musl/ldso/dynlink.c:269-269 | masking with a power of two less one leaves the remainder |
| `BitOps.MaskBit` | musl/ldso/dynlink.c:270-270 | masking with one bit tests it |
| `BitOps.ShiftedBit` | musl/ldso/dynlink.c:272-273 | and so does shifting it down |
| `GnuHash.Lookup` | musl/ldso/dynlink.c:246-264 | for every well-formed table the chain walk finds exactly what a linear scan of the hashed symbols finds |
| `GnuHash.FilteredOut` | musl/ldso/dynlink.c:269-274 | a name the Bloom filter rejects is no hashed symbol |
| `GnuHash.LookupFiltered` | musl/ldso/dynlink.c:267-277 | the filter in front changes no answer |
| `GnuHash.Find` | musl/ldso/dynlink.c:291-298 | the first visible hashed symbol of that name, or none when there is none |
| `PageTable.EntryRoundTrip` | sign_tool/penglai-enclave-page.c:92-101 | an entry gives back the page and the flags it was made from |
| `PageTable.EntryBits` | sign_tool/penglai-enclave-page.c:92-101 | the entry bit by bit: V set, the other flags in bits 1 to 9, the page number from bit 10 on |
| `PageTable.IndicesTell` | sign_tool/penglai-enclave-page.c:103-108 | different page numbers differ in one of the three indices |
| `PageTable.FollowOwner` | sign_tool/penglai-enclave-page.c:122-156 | a walk reaches exactly the table that owns the path |
| `PageTable.AddTree` | sign_tool/penglai-enclave-page.c:110-120 | hanging a blank page below an empty entry keeps the tables an unshared tree |
| `PageTable.AddSame` | sign_tool/penglai-enclave-page.c:110-120 | a new table changes no translation |
| `PageTable.LeafChanges` | sign_tool/penglai-enclave-page.c:177-191 | a last-level entry decides one page's translation and no other |
| `PageTable.Unshared` | sign_tool/penglai-enclave-page.c:122-156 | no two entries lead to the same table and none leads to the root |
| `PageTable.FreeList` | sign_tool/penglai-enclave-page.c:64-77 | the pages of the region in order |
| `PageTable.EnclaveMem.constructor` | sign_tool/penglai-enclave-page.c:193-210 | the first page is the root, the second is set aside, the rest is free, and nothing is mapped |
| `PageTable.GivenOnce` | sign_tool/penglai-enclave-page.c:37-77 | what was given out from the free list, for tables and data together, is a part of the region without repetition, and each page of it is a table or handed out, not both |
| `PageTable.EnclaveMem.GetFreeMem` | sign_tool/penglai-enclave-page.c:37-52 | the first free page, blank and never given out before, as table or data; zero when there is none |
| `PageTable.EnclaveMem.CreateTable` | sign_tool/penglai-enclave-page.c:110-120 | a table is hung on an empty entry exactly when a page is free; no translation and no other page changes |
| `PageTable.EnclaveMem.Walk` | sign_tool/penglai-enclave-page.c:122-156 | succeeds exactly when the free pages cover the missing tables, takes that many, keeps all tables and changes no translation |
| `PageTable.EnclaveMem.MapPage` | sign_tool/penglai-enclave-page.c:186-191 | maps exactly when the free pages cover the missing tables: the page stands for the given page and flags; no other translation and no data page changes; tables stay tables and the free list only shrinks |
| `PageTable.EnclaveMem.AllocPage` | sign_tool/penglai-enclave-page.c:177-184 | as MapPage with the first free page, which was never given out before, as table or data; with page zero when none is free |
| `PageTable.EnclaveMem.ClearPage` | sign_tool/penglai-enclave-page.c:158-175 | the page stands for nothing, no other translation changes; the answer says whether its table existed |
| `PageTable.EnclaveMem.Serve` | sign_tool/penglai-enclave-page.c:158-191 | one call changes the map it stands for as the call says, with the page it names or the page it took, and fails only when a table is missing and no page is left |
| `PageTable.EnclaveMem.ServeAll` | sign_tool/penglai-enclave-page.c:158-191 | over any sequence of calls up to the first that lacks a table with no page left, the table stands for the finite map the calls describe, with the pages they name and the pages they took; those taken are exactly the pages of the alloc calls in order, all different, never given out before, and no tables; an alloc call goes without a page only when none is left |
| `Measure.HashEntry` | sign_tool/attest.c:47-94 | one entry: a gap, a header and contents, or the table below |
| `Measure.HashMem` | sign_tool/attest.c:32-100 | the bytes fed are those of the walk over all entries in order, recursing into tables |
| `Measure.WalkedRun` | sign_tool/attest.c:32-100 | the walk feeds what the list of pages in address order says, one page after another |
| `Measure.PageFound` | sign_tool/attest.c:32-100 | that list is what the walk of a processor finds page by page, with the contents the program reads |
| `Measure.SameViewSameStream` | sign_tool/attest.c:32-100 | two tables with the same pages in the view of the measurement feed the same bytes, wherever tables and pages lie |
| `Measure.SameSeenSameStream` | sign_tool/attest.c:32-100 | hence two tables through which a processor sees the same, with top-level leaves in the same places if any |
| `Gigapage.GigapageUnread` | sign_tool/attest.c:64-87 | two tables through which a processor sees the same and whose streams differ, one having a top-level leaf |
| `Measure.RunIsBlocks` | sign_tool/attest.c:64-76 | the stream is, for each maximal run of mapped pages in increasing order, its address, its first page's flag byte and its contents |
| `Measure.StreamStarts` | sign_tool/attest.c:64-76 | the bytes fed for the first mapped page: its address with the lowest byte first, its flag byte, its contents |
| `MeasureChange.OnePageChange` | sign_tool/attest.c:32-100 | two views that differ in one page feed the same bytes exactly if it is mapped in both or neither, with the same contents, and with the same flag byte if it begins a run |
| `Measure.InnerFlagsUnhashed` | sign_tool/attest.c:66-76 | the flags of pages inside a run do not reach the stream |
| `Measure.MeasuredIsMapped` | sign_tool/attest.c:32-100 | the measurement sees of the tool's table exactly what its page map says |
| `Measure.SameMapSameStream` | sign_tool/attest.c:32-100 | two tables of the tool that show the same pages with the same flags and contents are measured alike, wherever tables and pages lie |
| `Measure.SameCallsSameStream` | sign_tool/attest.c:32-100 | two runs of the tool whose calls describe the same pages, flags and contents are measured alike |
| `Feistel.Retrace` | lib/gm/source/SM4.c:147-168 | with the round keys reversed the rounds retrace the state words backwards, whatever the round function |
| `Sm4.KeySchedule` | lib/gm/source/SM4.c:63-83 | the round keys are the words of the key schedule's recurrence |
| `Sm4.Encrypt` | lib/gm/source/SM4.c:101-129 | sixteen bytes of the buffer become their encryption, also in place, and no other byte changes |
| `Sm4.Decrypt` | lib/gm/source/SM4.c:147-177 | the same with the round keys from the last to the first |
| `Sm4.DecryptEncrypt` | lib/gm/source/SM4.c:101-177 | decryption undoes encryption for every key and block |
| `Sm4.EncryptDecrypt` | lib/gm/source/SM4.c:101-177 | and encryption undoes decryption |
| `Sm4Bits.ByteBits` | lib/gm/source/SM4.c:76-76 | the bytes of a word by their bits |
| `Sm4Bits.SubstituteByte` | lib/gm/source/SM4.c:114-117 | substitution works on each byte by itself |
| `Sm4Bits.LinearBits` | lib/gm/source/SM4.c:77-118 | bit by bit: the round's linear operation adds bits i, i-2, i-10, i-18 and i-24, the key schedule's bits i, i-13 and i-23 |
| `Sm4Bits.MixBits` | lib/gm/source/SM4.c:74-118 | the mixes are these of the substituted word |
| `Sm4Bits.KeyWordStart` | lib/gm/source/SM4.c:68-69 | the first four words of the schedule are the big-endian key words xored with FK |
| `Sm4Bits.KeyWordNext` | lib/gm/source/SM4.c:71-82 | each further word from the four before and CK, as in section 7.3 of GM/T 0002-2012 |
| `Sm4Bits.BlockWordStart` | lib/gm/source/SM4.c:108-109 | the first four words of the cipher are the big-endian words of the block |
| `Sm4Bits.BlockWordNext` | lib/gm/source/SM4.c:111-119 | each further word from the four before and the round key, as in section 7.1 |
| `Sm4Bits.OutputByte` | lib/gm/source/SM4.c:121-128 | the bytes written are those of the last four words, the last word first, highest byte first |
| `Sm4Bits.CkForm` | lib/gm/source/SM4.c:17-25 | byte j of constant i is 7(4i + j) modulo 256, as in section 7.3 |
| `Sm4Box.BoxInverts` | lib/gm/source/SM4.c:27-43 | for every byte the S-box is the affine map of the inverse of the affine map of the byte, in the field of 256 elements with the polynomial 0x1f5 |
| `Sm4Box.BoxOfZero` | lib/gm/source/SM4.c:27-43 | and where there is no inverse, the affine image of zero |
| `Sm4Check.Example` | lib/gm/source/SM4.c:194-211 | the example of the standard, encrypted and decrypted by the model with the program's tables |
| `Sm4Check.SelfCheck` | lib/gm/source/SM4.c:194-217 | SM4_SelfCheck returns zero |
| `Sm4Core.MachineOk` | lib/gm/source/SM4.c:63-177 | SM4's words and rounds meet the conditions for that, whatever the S-box |
| `Cbc.CbcEncrypt` | lib/gm/source/SM4_Enc.c:35-72 | whole blocks, each chained with the one before; nothing is written when the buffer is too small |
| `Cbc.CbcDecrypt` | lib/gm/source/SM4_Enc.c:86-127 | as much of the unchained text as fits; nothing unless whole blocks were given |
| `Cbc.ChainedByte` | lib/gm/source/SM4_Enc.c:52-65 | the cipher undone on a ciphertext byte is the sum of the message byte and the ciphertext byte sixteen before, or of the IV |
| `Cbc.SameChain` | lib/gm/source/SM4_Enc.c:35-72 | messages that agree before a block agree in its ciphertext exactly if they agree in it |
| `Cbc.BlockBack` | lib/gm/source/SM4_Enc.c:86-127 | decrypting block by block gives back the blocks |
| `Cbc.CbcBack` | lib/gm/source/SM4_Enc.c:35-127 | decryption with the original length gives back the message, for every length |
| `Ocb.NtzInTable` | lib/gm/source/SM4_Enc.c:19-20 | every table index used up to n blocks is below the table's length |
| `Ocb.NtzPower` | lib/gm/source/SM4_Enc.c:19-20 | the index of a block is the exponent of two in its number |
| `Ocb.TableDoubled` | lib/gm/source/SM4_Enc.c:210-224 | entry i of the table is the zero block enciphered and doubled i + 2 times |
| `OcbForm.OffsetStep` | lib/gm/source/SM4_Enc.c:243-250 | for i = 2^e(2m+1) the offset of block i is the one before plus the zero block enciphered and doubled e + 2 times |
| `OcbForm.LastOffsetStep` | lib/gm/source/SM4_Enc.c:252-262 | and one more after the whole blocks: the zero block enciphered, when bytes are left |
| `OcbForm.SealedUndone` | lib/gm/source/SM4_Enc.c:245-249 | the cipher undone on a sealed block without its offset is the block with its offset |
| `OcbForm.PadShown` | lib/gm/source/SM4_Enc.c:257-268 | last bytes and their ciphertext add up to the enciphered last offset |
| `OcbForm.TagUndone` | lib/gm/source/SM4_Enc.c:269-277 | the cipher undone on the tag without the hash is checksum, last offset and the zero block enciphered and doubled |
| `OcbForm.NonceBytesAt` | lib/gm/source/SM4_Enc.c:225-229 | the nonce block: zeros, a one, the nonce |
| `OcbForm.WindowOfKey` | lib/gm/source/SM4_Enc.c:234-241 | bit m of Offset_0 is bit m + bottom of Ktop followed by the sums of its bits eight places apart |
| `Ocb.TableServes` | lib/gm/source/SM4_Enc.c:204-205 | the table made for the longer of message and associated data serves both |
| `Ocb.TableEmpty` | lib/gm/source/SM4_Enc.c:204-205 | the table is empty if and only if neither has a whole block |
| `Ocb.OpenSealed` | lib/gm/source/SM4_Enc.c:342-348 | opening a block undoes sealing it |
| `Ocb.OcbBack` | lib/gm/source/SM4_Enc.c:199-381 | decrypting a ciphertext gives back the message, for every length |
| `OcbProgram.BuildTable` | lib/gm/source/SM4_Enc.c:210-224 | L_*, L_$ and the table of section 4.1 of RFC 7253 |
| `OcbProgram.DoubleArr` | lib/gm/source/SM4_Enc.c:129-141 | the in-place form doubles the block |
| `OcbBytes.DoubleBits` | lib/gm/source/SM4_Enc.c:129-141 | bit by bit: everything moves up one place and the last byte takes 135 when a one moved out, as double of section 2 of RFC 7253 |
| `OcbProgram.CutWindow` | lib/gm/source/SM4_Enc.c:238-241 | the window is cut in place without reading what was already written |
| `OcbBytes.TopBlockBits` | lib/gm/source/SM4_Enc.c:225-233 | the block enciphered for Ktop is the first 122 bits of the nonce block and six zeros, as in section 4.2 of RFC 7253 |
| `OcbBytes.WindowBits` | lib/gm/source/SM4_Enc.c:238-241 | each bit of the initial offset is the bit of the stretch that many places further |
| `OcbProgram.InitialOffset` | lib/gm/source/SM4_Enc.c:225-241 | Offset_0 of section 4.2 of RFC 7253 from the nonce, for every nonce of at most 15 bytes |
| `OcbProgram.SealBlocks` | lib/gm/source/SM4_Enc.c:243-250 | each whole block is sealed in place under its own offset |
| `OcbProgram.SumBlocks` | lib/gm/source/SM4_Enc.c:254-256 | the byte-wise checksum is the xor of the whole blocks |
| `OcbProgram.HashData` | lib/gm/source/SM4_Enc.c:149-184 | HASH of section 4.1 of RFC 7253 for every length of associated data |
| `OcbDistinct.ChecksumIsTotal` | lib/gm/source/SM4_Enc.c:254-262 | the checksum is the sum of all parts of the message, the last filled up |
| `OcbDistinct.ChecksumApart` | lib/gm/source/SM4_Enc.c:254-262 | messages of one length that differ in one part have different checksums |
| `OcbDistinct.HashIsTotal` | lib/gm/source/SM4_Enc.c:149-184 | the hash is the sum over all parts of the data, each enciphered under its own offset |
| `OcbDistinct.HashTail` | lib/gm/source/SM4_Enc.c:171-183 | data that agree in their whole blocks have the same hash exactly if they agree in their last bytes |
| `OcbDistinct.HashBlock` | lib/gm/source/SM4_Enc.c:157-170 | data that differ in one whole block only have different hashes |
| `OcbDistinct.SameHash` | lib/gm/source/SM4_Enc.c:149-184 | data that differ in one part at most have the same hash exactly if they are the same |
| `OcbProgram.SealMessage` | lib/gm/source/SM4_Enc.c:199-278 | ciphertext and tag of section 4.2 of RFC 7253, nothing written beyond them |
| `OcbProgram.OpenMessage` | lib/gm/source/SM4_Enc.c:295-381 | the decrypted text, nothing written beyond it, and zero exactly when the given tag is its tag |
| `OcbProgram.OpenSealedMessage` | lib/gm/source/SM4_Enc.c:199-381 | opening a sealed message with the same nonce and data gives it back and returns zero, for every length |
| `OcbDistinct.ChangeFound` | lib/gm/source/SM4_Enc.c:199-381 | what was sealed, changed in one part of the ciphertext, in one part of the associated data or in the tag, is accepted exactly if nothing was changed |
| `OcbInPlace.OpenInPlace` | lib/gm/source/SM4_Enc.c:295-381 | with input and output in one buffer decryption does the same |
| `OcbInPlace.SealInPlace` | lib/gm/source/SM4_Enc.c:199-278 | with input and output in one buffer encryption seals the whole blocks, leaves zeros for the last bytes and writes the tag of that |
| `OcbInPlace.InPlaceExact` | lib/gm/source/SM4_Enc.c:252-278 | which is ciphertext and tag of the message exactly if its last bytes are those of the pad and the checksums agree |
| `OcbInPlace.InPlaceFails` | lib/gm/source/SM4_Enc.c:252-278 | so of two messages of one length with different last bytes at most one is encrypted rightly in place |
| `Sm4Modes.Sm4CbcRoundTrip` | lib/gm/source/SM4_Enc.c:35-127 | CBC with SM4 itself, whatever the S-box, the key and the IV: the message comes back for every length |
| `Sm4Modes.Sm4OcbRoundTrip` | lib/gm/source/SM4_Enc.c:199-381 | OCB with SM4 itself, whatever the S-box, the key and the nonce: the message comes back and its tag is accepted |
| `Sm4Modes.Sm4OcbChangeFound` | lib/gm/source/SM4_Enc.c:199-381 | the same with SM4 itself |
| `HashStream.OneCut` | lib/gm/source/SM3.c:263-279 | there is only one way to cut a message into blocks |
| `HashStream.OneHash` | lib/gm/source/SM3.c:263-339 | the hash of a message is unique, so it cannot depend on how the message was split when it was fed in |
| `Sm3.Sm3State.constructor` | lib/gm/source/SM3.c:212-223 | an empty state |
| `Sm3.Sm3State.Process` | lib/gm/source/SM3.c:263-279 | whatever was fed before, the state is that of everything fed so far, in any split |
| `Sm3Block.BiToW` | lib/gm/source/SM3.c:39-52 | the message expansion of section 5.3.2 of GM/T 0004-2012 |
| `Sm3Block.TurnOnce` | lib/gm/source/SM3.c:106-112 | the constant turned by one place each round is the standard's constant turned by the round number modulo 32 |
| `Sm3Block.Cf` | lib/gm/source/SM3.c:82-163 | the 64 rounds and the last xor of section 5.3.3 |
| `Sm3Bits.P0Bits` | lib/gm/source/SM3.c:20-20 | bit by bit: P0 adds bits i, i-9 and i-17 |
| `Sm3Bits.P1Bits` | lib/gm/source/SM3.c:21-21 | P1 adds bits i, i-15 and i-23 |
| `Sm3Bits.ParityBits` | lib/gm/source/SM3.c:14-16 | for the first 16 rounds both functions add their arguments |
| `Sm3Bits.MajorityBits` | lib/gm/source/SM3.c:15-15 | then the first takes the majority of each place |
| `Sm3Bits.ChoiceBits` | lib/gm/source/SM3.c:17-17 | and the second chooses by its first argument |
| `Sm3Bits.NewWords` | lib/gm/source/SM3.c:82-163 | the two new words of each round from the words of the rounds before, as two sequences |
| `Sm3Bits.ExpandedAt` | lib/gm/source/SM3.c:39-52 | each word of the message expansion from the words before it |
| `Sm3Check.AbcDigest` | lib/gm/source/SM3.c:374-399 | the digest of the standard's example abc, from the definition |
| `Sm3Check.SelfTest` | lib/gm/source/SM3.c:374-399 | the program's hash of abc is that digest |
| `Sm3Words.ProgramTurns` | lib/gm/source/SM3.c:106-112 | on 32-bit words sixteen places are sixteen turns and thirty-two are none |
| `Sm3.TurnBytes` | lib/gm/source/SM3.c:179-194 | the bytes of each word the other way round, in place |
| `Sm3.Sm3State.Compress` | lib/gm/source/SM3.c:241-253 | the buffer in memory is compressed as the standard compresses its bytes |
| `Sm3.Sm3State.Done` | lib/gm/source/SM3.c:291-339 | the 32 bytes of the digest of all that was fed, padded with 0x80, zeros and the low 32 bits of the length |
| `Sm3.Output` | lib/gm/source/SM3.c:336-338 | the state copied out of little-endian memory and turned round is the big-endian digest |
| `Sm3.Hash` | lib/gm/source/SM3.c:353-359 | SM3_256 with the program's constants: the digest of GM/T 0004-2012 for every message of fewer than 2^32 bits |
| `Sm3.OneDigest` | lib/gm/source/SM3.c:263-339 | a message has one digest, however it was fed |
| `Sm3.DigestExists` | lib/gm/source/SM3.c:263-339 | and it has one |
| `Sm3.FieldIsStandard` | lib/gm/source/SM3.c:324-332 | that length field is the one of section 5.2 of GM/T 0004-2012 if and only if the message has fewer than 2^32 bits |
| `Sm3.ShortestWrap` | lib/gm/source/SM3.c:324-332 | a message of 2^29 bytes is hashed with length zero |
| `Sha512.Sha512State.constructor` | demo/crypt/crypt.c:134-139 | an empty state |
| `Sha512.Sha512State.Update` | demo/crypt/crypt.c:141-161 | whatever was fed before, the state is that of everything fed so far, in any split |
| `Sha512.Sha512State.Process` | demo/crypt/crypt.c:89-132 | the block in memory is compressed as the standard compresses its bytes |
| `Sha512.Sha512State.Final` | demo/crypt/crypt.c:163-183 | the 64 bytes of the SHA-512 digest of all that was fed, by sections 5.1.2 and 6.4 of FIPS 180-4, and an empty state again |
| `Sha512.Output` | demo/crypt/crypt.c:178-181 | the swapped words copied out of little-endian memory are the big-endian digest |
| `Sha512.HashParts` | demo/crypt/crypt.c:185-196 | with the program's constants, init, any number of updates and final give the SHA-512 digest of the parts end to end |
| `Sha512.OneDigest` | demo/crypt/crypt.c:141-183 | a message has one digest, however it was fed |
| `Sha512.FieldIsStandard` | demo/crypt/crypt.c:174-176 | the length field is the standard's 128-bit one for every length the program accepts |
| `Sha512Block.RingNext` | demo/crypt/crypt.c:110-114 | at each round the ring holds the sixteen words before it where the indices look for them |
| `Sha512Block.TurnIsRound` | demo/crypt/crypt.c:100-108 | the program's order of additions is the standard's round |
| `Sha512Block.ProcessBlock` | demo/crypt/crypt.c:89-132 | the in-place ring computes the compression over the 80-word schedule of section 6.4.2 of FIPS 180-4 |
| `Sha512Words.ProgramIsStandard` | demo/crypt/crypt.c:61-132 | with the program's forms of Ch and Maj the result is that of the standard's forms |
| `Sha512Words.CompressesBytes` | demo/crypt/crypt.c:89-132 | sixteen words read from little-endian memory and swapped are the big-endian words of the block, so the compression is the standard's on bytes |
| `Sha512Bits.SigmaBits` | demo/crypt/crypt.c:64-84 | bit by bit: each of the four sigma functions adds three bits |
| `Sha512Bits.ChBits` | demo/crypt/crypt.c:81-83 | Ch chooses by its first argument, place by place |
| `Sha512Bits.MajBits` | demo/crypt/crypt.c:85-87 | Maj takes the majority of each place |
| `Sha512Bits.NewWords` | demo/crypt/crypt.c:100-108 | the two new words of each round from the words of the rounds before, as two sequences |
| `Sha512Bits.ScheduleWord` | demo/crypt/crypt.c:110-114 | each word of the schedule from the words before it |
| `Sha512Bits.AddedWords` | demo/crypt/crypt.c:116-132 | the compression adds the last four words of either sequence to the state |
| `Sha512Bits.InitialRoots` | demo/crypt/crypt.c:32-36 | the initial state holds the fractional parts of the square roots of the first eight primes |
| `Sha512Bits.Roots0` | demo/crypt/crypt.c:40-41 | round constants 0 to 7 are the fractional parts of the cube roots of primes number 1 to 8 |
| `Sha512Bits.Roots1` | demo/crypt/crypt.c:42-43 | round constants 8 to 15 are the fractional parts of the cube roots of primes number 9 to 16 |
| `Sha512Bits.Roots2` | demo/crypt/crypt.c:44-45 | round constants 16 to 23 are the fractional parts of the cube roots of primes number 17 to 24 |
| `Sha512Bits.Roots3` | demo/crypt/crypt.c:46-47 | round constants 24 to 31 are the fractional parts of the cube roots of primes number 25 to 32 |
| `Sha512Bits.Roots4` | demo/crypt/crypt.c:48-49 | round constants 32 to 39 are the fractional parts of the cube roots of primes number 33 to 40 |
| `Sha512Bits.Roots5` | demo/crypt/crypt.c:50-51 | round constants 40 to 47 are the fractional parts of the cube roots of primes number 41 to 48 |
| `Sha512Bits.Roots6` | demo/crypt/crypt.c:52-53 | round constants 48 to 55 are the fractional parts of the cube roots of primes number 49 to 56 |
| `Sha512Bits.Roots7` | demo/crypt/crypt.c:54-55 | round constants 56 to 63 are the fractional parts of the cube roots of primes number 57 to 64 |
| `Sha512Bits.Roots8` | demo/crypt/crypt.c:56-57 | round constants 64 to 71 are the fractional parts of the cube roots of primes number 65 to 72 |
| `Sha512Bits.Roots9` | demo/crypt/crypt.c:58-59 | round constants 72 to 79 are the fractional parts of the cube roots of primes number 73 to 80 |
| `Sha512.PaddedMessage` | demo/crypt/crypt.c:163-177 | what is hashed: message, 0x80, zeros, and its length in bits in the last sixteen bytes, highest first |
| `Sha512.DigestWord` | demo/crypt/crypt.c:178-181 | eight bytes of the digest make up one word of the state |

## Left out

- PointMult.EccPointMult: the point has odd order, as every point of a curve of odd prime order but zero has.
- The zero point as an operand of ecc_point_mult2: Shamir.EccPointMult2 covers its coordinates (0,0), the group statements do not.
- PointMult.CurveGroup is a hypothesis: that the points of the curve form a group is not derived from the curve equation.
- vli_square and _vli_mult: their column carry test can lose a carry, so an exact square is not promised; the curve model takes field operations as exact.
- _vli_mod and vli_mmod_fast_nist_256: not used by the SM2 path.
- Sm2Sign.Sign: point decompression checks of MIRACL and random numbers are parameters.
- Linker.DsoList.QueueCtors: allocation failure, ldd mode and the built-in queue of the main program are not modelled; objects are indices, not linked records.
- Linker.DsoList.ExtendBfsDeps: allocation failure and the choice between malloc and realloc are not modelled.
- CtorProtocol.StepInv: one thread at most calls exit; a thread in pthread_cond_wait may wake at any time, as POSIX allows; that a thread which can go on does so in the end is not stated.
- GnuHash: the older System V hash table, and the checks on symbol type and binding after the lookup.
- PageTable.EnclaveMem: the free list is a sequence, not linked records; a walk that runs out of pages is modelled, the store through its null result is not.
- Sm4Core.MachineOk: the S-box is a parameter there, since these results hold for any; its 256 entries are in Sm4Box.
- Sm3Check.SelfTest: the first of the two messages of SM3_SelfTest.
- OcbProgram.BuildTable: doubles blocks as values; DoubleArr states the same of the in-place form.
- OcbProgram.SealMessage: input and output are apart; OcbInPlace has them at the same place, other overlaps are not modelled.
- Cbc.CbcEncrypt: lengths are natural numbers; negative lengths are not modelled.
- load_library, relocation, path search, thread-local storage and the rest of dynlink.c: system calls and raw memory.
- sign_tool.c, parse_key_file.c, seal.c, the host library and the demos other than SHA-512: input and output, ecalls and ioctls.
- sign_tool/gm/sm2.c, sm3.c and random.c: a second SM2 and SM3 that would repeat the results here.
