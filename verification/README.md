# Replicated secret sharing over Z_{2^k}: a verified model

Several parties hold additive or exclusive-or shares of numbers, each share at more than one party, and
compute on them.  This project models that computation as it is written, word by word, and proves what it
computes and that the copies of every share stay equal.

**Words.** A machine word has W bits, W being 32 or 64; stored words are natural numbers, arithmetic on
them wraps explicitly (`Words.Wrap`), and a share means something only mod 2^k.  The bits above k are
whatever the code leaves there: words that are only partly overwritten keep arbitrary upper bytes.

**Parties.** The parties run in lockstep.  A vector of shared numbers is an array whose elements hold what
every party stores of that number (`Sharings.Sharing`: two words at each of three parties;
`FiveParty.Sharing5`: six at each of five; `SevenPartyMult.Sharing7`: twenty at each of seven).  Per-party
loops over the vector are one loop over the array, and in-place updates are assignments to it.  Each party's
generators live in a `NodeNetwork` object with the source's fields: keys, containers, positions, mask tables.

**What the contracts say.** `Additive(x, v, k)` says that the holders of every share of x agree mod 2^k and
that the shares sum to v mod 2^k; `Bitwise(x, v, k)` says the same of exclusive or and the low k bits.
Nearly every protocol contract has the form: from agreeing operands, and whatever the generators hold,
the result is `Additive` or `Bitwise` for a stated number, and the holders of every key are still at the
same point of its stream (`InStep`, `Follows`).  The numbers are stated by plain functions on secrets
(`LT.PickLarger`, `Truncation.Truncated`, `Convolution.ConvolutionSum`), about which separate lemmas prove
what the protocol promises.

**Layers.**

- `Ring`, `Words`: congruences mod 2^k, wrap-around, bits, bytes.
- `Stream`, `NodeNetworks`, `Cluster`: the buffered byte stream against one infinite block stream, the mask
  tables, key hand-out, drawing and exchanging in lockstep.
- `Sharings`, `Linear`, `Multiplication`, `PublicProduct`, `Opening`: sharings and the basic protocols.
- `SqrtInv`, `RandBits`: the 2-adic inverse square root and shared random bits.
- `Carries`, `BitShares`, `BitLT`, `PrefixIndices`, `BitAdd`: carry circuits as algebra of (propagate,
  generate) pairs, then on packed shares.
- `EdaBits`, `EdaBitTruncs`, `B2a`, `MSB`, `LT`, `ReLU6`, `Truncation`, `Convert`: composed protocols.
- `MatMult`, `Convolution`, `MaxPool`: batched products, convolution, pooling.
- `FiveParty`, `FivePartySetup`, `FivePartyMult`, `FivePartyBits`, `FivePartyOpen`, `FivePartyMultPub`,
  `SevenParty`, `SevenPartyMult`: the larger party sets.
- `Machine`, `Calls`, `Session`: any script of three-party calls after key set-up, against a machine on plain
  numbers whose registers have their own kind of content, ring and length.

**Where the code falls short of a claim, or goes beyond it.**

- `Rss_MultPub_mp` copies its random bytes in one block into words that were never cleared
  (src/protocols_basic/Mult_5pc.cpp:440-448).  Behind the last byte the holders of a share have different
  memory contents, so the masks cancel for all contents only if the vector has one element or k-bit words
  have as many bytes as machine words (`FivePartyMultPub.PublicProductExact`); in all other cases one stray
  bit makes the opened word wrong, whatever the operands (`FivePartyMultPub.StrayBitSpoils`).
- `new_Rss_LT` is a maximum exactly when the signed difference of the operands fits the ring
  (`LT.PickLargerIsMaximum`); the clamp built from it needs no such condition (`ReLU6.ClampedIsClamp`).
- `Rss_truncPr_1` asks for a clear top bit.  Without one it is still right exactly when the number plus the
  mask without its top bit stays below 2^k (`Truncation.TruncatedIsNear`), and numbers read in two's
  complement are truncated correctly exactly when that sum overflows for the negative ones
  (`Truncation.SignedTruncation`).
- `eda_MaxPool` compares the rows of a window only in square images (`MaxPool.WindowIffSquare`), and there it
  finds the maximum whenever the signed differences fit the ring (`MaxPool.EdaMaxPool`).
- `Rss_Mult_mp` resets its tracker for every party, so all masks of a share are one and the same word; the
  product is correct all the same.
- The padding branch of `im2col` is never taken (`Convolution.WindowInside`).

## Model

| member | source | states |
|---|---|---|
| `Session.Run` | src/connection/NodeNetwork.cpp:1106-1194 | for any script of the 25 modelled calls after key set-up, registers of any kinds, rings and lengths, any random bytes: at every point of the run the shares of every register agree and hold the numbers of the plain machine's trace from the inputs, and both holders of every key are at the same point of its stream |
| `Session.Execute` | src/protocols_basic/Mult.cpp:60-100 | one call, whichever of the 25: from registers that hold a memory to registers that hold the machine's next memory, generators in step |
| `Machine.Concludes` | src/protocols_basic/Mult.cpp:60-100 | written registers that share the call's meaning, and all others still holding their numbers, are the machine's next memory |
| `Machine.OtherCallsAreExact` | src/protocols_composite/LT.cpp:70-115 | all calls but random numbers and truncations leave the same numbers whatever is drawn |
| `Machine.ArithmeticStep` | src/protocols_basic/Mult.cpp:60-100 | products and sums step to the product and sum in the ring |
| `Machine.ConjunctionStep` | src/protocols_basic/Mult.cpp:25-58 | bits multiply as conjunctions |
| `Machine.ExactStep` | src/protocols_composite/MSB.cpp:22-143 | the top bit is one for the upper half of the ring; single bits and larger rings keep the number |
| `Machine.LargerStep` | src/protocols_composite/LT.cpp:70-168 | maxima step to the larger number when the signed difference fits the ring |
| `Machine.ClampStep` | src/protocols_ml/neural_ops.cpp:453-473 | clamping steps to the clamped signed number |
| `Machine.TruncateStep` | src/protocols_composite/Trunc.cpp:50-146 | truncating a number with a clear top bit steps to its quotient or one more, whatever was drawn |
| `Machine.SpotInside` | src/protocols_ml/neural_ops.cpp:41-61 | every element of a convolution's result is the output at exactly one image, kernel and window |
| `Calls.OneTarget` | src/protocols_basic/Mult.cpp:60-100 | a protocol that leaves its result in one register and keeps all others makes one step of the machine |
| `Calls.RunOpen` | src/protocols_basic/Open.cpp:22-42 | opening publishes the numbers; the register masked in place holds them still |
| `Calls.RunTruncate` | src/protocols_composite/Trunc.cpp:50-146 | a truncation makes the machine's step, whatever mask the parties drew |
| `Calls.RunRandomTruncated` | src/protocols_rand/edaBit.cpp:301-354 | its three registers make the machine's step: one drawn number, its high part and its top bit |
| `Calls.RunConvolve` | src/benchmarks/minionn.cpp:223-226 | a convolution makes the machine's step on numbers |
| `Calls.RunPool` | src/protocols_ml/neural_ops.cpp:308-392 | and so does pooling |
| `Stream.ContainerFirst` | src/connection/NodeNetwork.cpp:1568-1574 | the stream starts with the rest of the container, ... |
| `Stream.SuccessorNext` | src/connection/NodeNetwork.cpp:1575-1587 | ... goes on with the block function of the container, ... |
| `Stream.StepShifts` | src/connection/NodeNetwork.cpp:1575-1587 | ... and stepping the container shifts it by one block: the three laws fix the stream through the block function |
| `Stream.AdvanceOneBlock` | src/connection/NodeNetwork.cpp:1561-1592 | a request that ends in the container keeps it, one that ends in its successor steps it once |
| `Stream.SplitTake` | src/connection/NodeNetwork.cpp:1561-1592 | a request of m+n bytes returns what requests of m and of n bytes return |
| `Stream.SplitAdvance` | src/connection/NodeNetwork.cpp:1561-1592 | and leaves the generator in the same state |
| `Stream.RequestsAreOneStream` | src/connection/NodeNetwork.cpp:1561-1592 | any sequence of positive requests outputs one prefix of one infinite block stream, whatever the cuts, and the final state depends on the total only |
| `NodeNetworks.NodeNetwork.PrgGetrandom` | src/connection/NodeNetwork.cpp:1561-1592 | writes exactly the next n stream bytes at the front of dest, touches nothing behind them or in other slots, keeps the position within 0..16 |
| `NodeNetworks.SeededStream` | src/connection/NodeNetwork.cpp:1172-1194 | after set-up the first block of a stream is the block function of the seed |
| `NodeNetworks.RoundsIsBlockIndex` | src/connection/NodeNetwork.cpp:1566 | the rounds formula counts the blocks entered |
| `NodeNetworks.FillBlocks` | src/connection/NodeNetwork.cpp:1571-1587 | the multi-block branches write one contiguous piece of the stream and leave the last block as container |
| `NodeNetworks.NodeNetwork.constructor` | src/connection/NodeNetwork.cpp:52-75 | the SHIFT, EVEN and ODD tables hold the low-bit, even-bit and odd-bit masks, SHIFT for every entry up to the word width |
| `NodeNetworks.NodeNetwork.ShiftCuts` | src/connection/NodeNetwork.cpp:57-66 | masking with a SHIFT entry is reduction mod 2^r |
| `NodeNetworks.MaskBits` | src/connection/NodeNetwork.cpp:67-75 | bit j of the EVEN (ODD) table entry is set exactly for even (odd) j below the ring size |
| `NodeNetworks.NodeNetwork.InstallKeys` | src/connection/NodeNetwork.cpp:1129-1168 | which seed ends in which slot, every container stepped once, positions zero |
| `Cluster.PrgSetup` | src/connection/NodeNetwork.cpp:1106-1194 | whatever the random bytes, both holders of every key start with the same container and position |
| `Cluster.Exchange` | src/connection/NodeNetwork.cpp:336-356 | message by message (any number of messages) every word is masked in place on its sender and arrives masked at the previous party |
| `Cluster.ChunksCover` | src/connection/NodeNetwork.cpp:943-953 | the message counts cover exactly the words to send |
| `Cluster.Draw` | src/connection/NodeNetwork.cpp:1561-1592 | a draw returns and consumes the same stretch of every party's stream and leaves the other slots alone |
| `Words.BitSetBit` | include/mpc_util.h:44-49 | SET_BIT changes exactly the named bit, to the given one |
| `Words.GetBitIsShift` | include/mpc_util.h:44-46 | GET_BIT is shift and mask |
| `Words.LoadByte` | src/protocols_basic/Mult.cpp:66-74 | byte t of the word loaded at i is byte t of the i-th group of the buffer, and zero above |
| `Words.BytesDetermine` | src/protocols_basic/Mult.cpp:66-74 | a number is determined by its bytes |
| `Words.WireExact` | src/connection/NodeNetwork.cpp:345-356 | the bytes sent carry a masked word without loss |
| `Multiplication.RequestSizeIs` | src/protocols_basic/Mult.cpp:62-67 | a request asks for ceil(k / 8) bytes per word |
| `Multiplication.DrawnByte` | src/protocols_basic/Mult.cpp:66-74 | byte t of the word a party draws for element i is byte i * ceil(k / 8) + t of its stream |
| `Multiplication.LocalProductsCover` | src/protocols_basic/Mult.cpp:79-81 | the three local products sum to the product of the secrets mod 2^k |
| `Multiplication.Reshared` | src/protocols_basic/Mult.cpp:75-98 | masked words, with masks that agree between holders, form a consistent sharing of the sum of the local values |
| `Multiplication.Mult` | src/protocols_basic/Mult.cpp:60-100 | for all inputs and generator contents c shares the product over Z_{2^k}, consistently, and the generators stay in step |
| `Multiplication.MultBitwise` | src/protocols_basic/Mult.cpp:25-58 | every low bit of c shares the conjunction of that bit of a and b, bit by bit, for any inputs |
| `Multiplication.FactoredIsLocal` | src/protocols_basic/Mult.cpp:147-179 | the factored term of the byte version is the same word |
| `Multiplication.MultByte` | src/protocols_basic/Mult.cpp:147-179 | the same on bytes, with the factored term |
| `PublicProduct.SignedMasksCancel` | src/protocols_basic/Mult.cpp:200-235 | the signed words of the two holders of every key cancel |
| `PublicProduct.MultPub` | src/protocols_basic/Mult.cpp:181-249 | every party obtains the product of the secrets mod 2^k |
| `PublicProduct.MultFixedB` | src/protocols_basic/Mult.cpp:105-145 | every element is multiplied by the one fixed element, also when the result array is an operand |
| `Opening.Open` | src/protocols_basic/Open.cpp:22-42 | every party obtains the secret; slot 1 of the operand is masked in place and nothing else changes |
| `Opening.OpenBitwise` | src/protocols_basic/Open.cpp:66-84 | the same for bitwise sharings |
| `Opening.MaskSlot1Agreed` | src/protocols_basic/Open.cpp:22-42 | the in-place masking keeps the sharing consistent |
| `SqrtInv.LiftStep` | src/protocols_rand/randBit.cpp:102-114 | one round keeps c1^2 = e mod 2^(j+1), c1*c2 = 1 mod 2^j and c1 odd |
| `SqrtInv.InverseRootCorrect` | src/protocols_rand/randBit.cpp:93-119 | for every ring size and every e = 1 mod 8 the result is the inverse of a square root of e |
| `SqrtInv.SqrtInvWord` | src/protocols_rand/randBit.cpp:93-119 | the loop computes that inverse root |
| `SqrtInv.InverseRootUnique` | src/protocols_rand/randBit.cpp:93-119 | it is the only number below 2^k that inverts the only root that is 1 mod 4 and below 2^(k-1) |
| `SqrtInv.RootsOfOne` | src/protocols_rand/randBit.cpp:68-75 | y^2 = 1 mod 2^k forces y = 1 or -1 mod 2^(k-1) |
| `RandBits.HalveExact` | src/protocols_rand/randBit.cpp:71-75 | when every share is even the per-share right shift of wrapped words halves the secret exactly |
| `RandBits.InverseTimesSecret` | src/protocols_rand/randBit.cpp:60-69 | the inverse root times the odd secret squares to one |
| `RandBits.RandBitElement` | src/protocols_rand/randBit.cpp:60-75 | the result of one element is a consistent sharing of 0 or 1 |
| `RandBits.OneBit` | src/protocols_rand/randBit.cpp:60-75 | an odd secret has one bit only: 2 * bit - 1 is the secret over the root of its square |
| `RandBits.OppositeBits` | src/protocols_rand/randBit.cpp:60-75 | s and -s, which have the same square, have opposite bits |
| `RandBits.RandBit` | src/protocols_rand/randBit.cpp:22-91 | every element becomes a consistent sharing of the bit of the odd secret that the drawn words make, whatever the generators and uninitialised words hold; both shared slots advance by the two draws |
| `Carries.OpAssoc` | src/protocols_composite/bitAdd.cpp:355-400 | combining (propagate, generate) pairs is associative |
| `Carries.SpanSplit` | src/protocols_composite/bitAdd.cpp:355-400 | a span is the combination of its upper and lower part |
| `Carries.CarryOverflow` | src/protocols_composite/bitLT.cpp:72-123 | the recursively defined carry into bit j is the overflow of the low j bits |
| `Carries.SumBit` | src/protocols_composite/bitAdd.cpp:118-130 | bit j of a sum is the exclusive or of the operand bits and the carry |
| `Carries.AdderCarry` | src/protocols_composite/bitLT.cpp:72-123 | the generate bit of a prefix is the carry into the next position |
| `Carries.HalveKeepsTotal` | src/protocols_composite/bitLT.cpp:294-405 | one tree round, the odd leftover pair moved up, keeps the ordered composition of all pairs |
| `Carries.PrefixRoundDoubles` | src/protocols_composite/bitAdd.cpp:264-297 | one prefix round turns prefixes of blocks of size h into prefixes of blocks of size 2h, for any length |
| `Carries.WholePrefix` | src/protocols_composite/bitAdd.cpp:264-297 | blocks at least as long as the word are full prefixes |
| `BitShares.CopiedBit` | include/mpc_util.h:44-49 | SET_BIT of GET_BIT on all shares moves the shared bit and keeps all others |
| `BitShares.SplitBytes` | src/protocols_composite/bitLT.cpp:160-190 | byte t of every word, element after element |
| `BitShares.MultiplyPacked` | src/protocols_composite/bitLT.cpp:190-215 | packing into bytes, multiplying under sharing and reading back yields the conjunction of every packed bit |
| `BitLT.OptimalAgreesWithCarryBuffer` | src/protocols_composite/bitLT.cpp:237-292 | both masked word-level operands have, on every bit later read, the bit the bit-by-bit operands have |
| `BitLT.TreeFoldIsSpan` | src/protocols_composite/bitLT.cpp:294-405 | the tree reduction of any number of pairs is their ordered composition |
| `BitLT.NewCarryOutAux` | src/protocols_composite/bitLT.cpp:294-405 | the loop leaves bit 0 of each result sharing the generate bit of the composition, for every ring size, and terminates |
| `BitLT.CarryOutAux` | src/protocols_composite/bitLT.cpp:125-235 | the recursive form, on its own buffers, ends with the same result and leaves its operands alone, so the loop refines it |
| `BitLT.CarryOut` | src/protocols_composite/bitLT.cpp:72-123 | bit 0 shares the carry out of public a plus shared b plus one |
| `BitLT.CarryIsNotLess` | src/protocols_composite/bitLT.cpp:26-70 | that carry, for the complement of b, is the negation of a < b |
| `BitLT.BitLT` | src/protocols_composite/bitLT.cpp:26-70 | the six words of each result are single bits that share a < b, for all k-bit numbers, the result being b too |
| `PrefixIndices.BuildIndices` | src/protocols_composite/bitAdd.cpp:264-290 | the index lists of a round name exactly the upper half positions of every block with their block middles, for ring sizes that are not powers of two too |
| `PrefixIndices.OperationsFit` | src/protocols_composite/bitAdd.cpp:264-297 | a round has at most half the ring size operations, so 2*op_r bits fit the byte buffers |
| `PrefixIndices.ModsUnneeded` | src/protocols_composite/bitAdd.cpp:275-286 | the index reductions in the source never change an index that is used |
| `BitAdd.CarryBuffer2` | src/protocols_composite/bitAdd.cpp:523-571 | packs for every listed operation the operand bits of the two products |
| `BitAdd.CircleRound` | src/protocols_composite/bitAdd.cpp:264-397 | one round on shares doubles the block prefixes |
| `BitAdd.CircleOpL` | src/protocols_composite/bitAdd.cpp:212-428 | every position ends with the pair of all positions up to it, for every ring size |
| `BitAdd.PrefixIsCarry` | src/protocols_composite/bitAdd.cpp:212-428 | then bit j of g shares the carry out of bits 0..j |
| `BitAdd.BitAddCarries` | src/protocols_composite/bitAdd.cpp:74-139 | the carries and the sum, as shared bits |
| `BitAdd.BitAdd` | src/protocols_composite/bitAdd.cpp:74-139 | res shares a + b mod 2^k bitwise, for two shared operands |
| `BitAdd.BitAddPublic` | src/protocols_composite/bitAdd.cpp:141-210 | the same with one public operand |
| `EdaBits.AdditiveContribution` | src/protocols_rand/edaBit.cpp:104-154 | what the three parties store of one party's number is a consistent additive sharing of it |
| `EdaBits.BitwiseContribution` | src/protocols_rand/edaBit.cpp:104-154 | and a consistent bitwise sharing |
| `EdaBits.DrawContributions` | src/protocols_rand/edaBit.cpp:104-136 | own masks of one holder are the drawn masks of the other, although slots and order differ |
| `EdaBits.GenerateRandomShares` | src/protocols_rand/edaBit.cpp:55-165 | res shares the sums, the two bitwise groups the numbers of parties 1 and 2, as drawn |
| `EdaBits.EdaNumberByBytes` | src/protocols_rand/edaBit.cpp:104-108 | the number of element i is the sum of the two numbers whose bytes stand at their places in the private streams of parties 1 and 2 |
| `EdaBits.SegmentWordByte` | src/protocols_rand/edaBit.cpp:104-136 | byte t of word i of a drawn segment is the byte at its place in the stream |
| `EdaBits.EdaBit` | src/protocols_rand/edaBit.cpp:22-53 | r and b_2 share one number, additively and bit by bit, for any private draws |
| `EdaBits.SharesNumberMeans` | src/protocols_rand/edaBit.cpp:22-53 | the opened bits are the binary digits of the additive secret |
| `EdaBitTruncs.ShiftedSum` | src/protocols_rand/edaBit.cpp:330-344 | the two carries turn the sum of shifted numbers into the shifted sum |
| `EdaBitTruncs.GenerateTrunc` | src/protocols_rand/edaBit.cpp:414-526 | the three kinds of sharings of the numbers parties 1 and 2 drew |
| `EdaBitTruncs.BitAddTrunc` | src/protocols_composite/bitAddTrunc.cpp:68-134 | the sum and, as single bits, the carries into bits m and k and the top bit |
| `EdaBitTruncs.EdaBitTrunc` | src/protocols_rand/edaBit.cpp:301-354 | r shares a number v, r_prime floor(v / 2^m) exactly and r_km1 the top bit of v |
| `B2a.LowBitShared` | src/protocols_composite/b2a.cpp:46-53 | the low bits of an additive sharing share the parity of its secret |
| `B2a.B2a` | src/protocols_composite/b2a.cpp:22-77 | bits shared by exclusive or become additive sharings of the same bits, also in place |
| `MSB.WrapTest` | src/protocols_composite/MSB.cpp:78-104 | removing the mask's low part with the outcome of c' < r' recovers the low part of a |
| `MSB.ShiftLifts` | src/protocols_composite/MSB.cpp:86-104 | shifting a sharing over Z_2 by k-1 makes a sharing over Z_{2^k} of the bit in the top place |
| `MSB.TopBitRemains` | src/protocols_composite/MSB.cpp:78-104 | what is left of a is its top bit in place |
| `MSB.TopBitOfSum` | src/protocols_composite/MSB.cpp:104-119 | the top bit opened under a random bit is their exclusive or |
| `MSB.UnmaskAdditive` | src/protocols_composite/MSB.cpp:110-119 | e*ai + b - 2*e*b shares the bit under the mask |
| `MSB.CompareMasked` | src/protocols_composite/MSB.cpp:61-95 | the masked opening, the in-place cut of b_2 and the comparison |
| `MSB.NewMSB` | src/protocols_composite/MSB.cpp:22-143 | res shares bit k-1 of the secret of a, whatever the generators hold; in place too |
| `LT.LessIsSign` | src/protocols_composite/LT.cpp:84-104 | the tested bit is the sign of the signed difference if and only if that difference fits the ring |
| `LT.PickLargerIsMaximum` | src/protocols_composite/LT.cpp:84-104 | the picked number is the maximum if and only if the signed difference fits the ring |
| `LT.PickSmallerIsMinimum` | src/protocols_composite/LT.cpp:191-215 | the same for the minimum |
| `LT.NewLT` | src/protocols_composite/LT.cpp:70-117 | res shares the larger operand by the tested bit |
| `LT.FixedLT` | src/protocols_composite/LT.cpp:119-168 | the same against one fixed element |
| `LT.FixedGT` | src/protocols_composite/LT.cpp:173-222 | the smaller of each element and one fixed element |
| `ReLU6.ClampedIsClamp` | src/protocols_ml/neural_ops.cpp:453-473 | lower bound zero, then the upper bound: exactly the clamp of the signed number, with no condition on it |
| `ReLU6.ReLU6Alpha` | src/protocols_ml/neural_ops.cpp:453-473 | res shares the clamped numbers, also in place |
| `Truncation.TruncatedIs` | src/protocols_composite/Trunc.cpp:110-135 | c_prime, the mask's high part and the carry bit put together are x / 2^m, plus the low carry, less the ring overflow |
| `Truncation.TruncatedIsNear` | src/protocols_composite/Trunc.cpp:50-146 | the result is floor(x / 2^m) or one more if and only if x plus the mask without its top bit stays below 2^k |
| `Truncation.LowCarryIs` | src/protocols_composite/Trunc.cpp:110-135 | the low carry is one exactly when the low parts of the number and the mask reach 2^m |
| `Truncation.ClearTopNeverOverflows` | src/protocols_composite/Trunc.cpp:48-50 | a clear top bit rules the overflow out for every mask |
| `Truncation.SignedTruncation` | src/protocols_composite/Trunc.cpp:50-146 | read in two's complement the result is the rounded signed quotient exactly when overflow and negative sign coincide |
| `Truncation.TruncPr1` | src/protocols_composite/Trunc.cpp:50-146 | for every secret and every drawn mask the exact result, res being x allowed |
| `Truncation.TruncPriv` | src/protocols_composite/Trunc.cpp:25-35 | the same after multiplying by the private factor in place |
| `Truncation.PrivateAmount` | src/protocols_composite/Trunc.cpp:25-35 | scaling by 2^(M-m) first truncates by m when the scaled number keeps a clear top bit |
| `Convert.ToBits` | src/protocols_composite/convert.cpp:66-84 | every secret becomes a bitwise sharing |
| `Convert.OpenMaskedBits` | src/protocols_composite/convert.cpp:86-118 | every opened bit is the secret's bit under its own random bit |
| `Convert.RecomposeAll` | src/protocols_composite/convert.cpp:130-145 | the weighted sum of the unmasked bits shares the integer over the new ring |
| `Convert.ConvertRing` | src/protocols_composite/convert.cpp:25-160 | the integer shared over Z_{2^k} is shared over Z_{2^k'}, for all k and k', in place too |
| `FiveParty.TablesAreShares` | include/Mult_5pc.h:28-35 | the T_map tables and both predicates describe the ten shares, and the masking condition holds exactly for holders whose own product goes elsewhere |
| `FiveParty.HoldersAreNotMissing` | src/connection/NodeNetwork.cpp:97-109 | a share is in a party's slots exactly when the party is not one of the two it misses |
| `FiveParty.EveryProductOnce` | src/protocols_basic/Mult_5pc.cpp:130-136 | the five local expressions together are the product of the sums: each of the hundred cross products exactly once |
| `FivePartySetup.SeedsReachHolders` | src/connection/NodeNetwork.cpp:1243-1306 | every route of the key hand-out ends at a holder of the sender's share, in the right slot |
| `FivePartySetup.OwnKeys` | src/connection/NodeNetwork.cpp:1204-1260 | the keys a party makes, byte by byte of what it drew |
| `FivePartySetup.PrgSetup5` | src/connection/NodeNetwork.cpp:1204-1322 | the three holders of each share start with one generator |
| `FivePartyMult.MaskLoop` | src/protocols_basic/Mult_5pc.cpp:137-160 | the double loop adds to every share one mask per owing party and takes off the party's own |
| `FivePartyMult.OwingTotal` | src/protocols_basic/Mult_5pc.cpp:109 | two parties owe an adjacent share a mask, three any other, as prg_ctrs says |
| `FivePartyMult.ArrivesAtHolders` | src/protocols_basic/Mult_5pc.cpp:162-172 | each masked sum reaches exactly the holders of the share it is added to |
| `FivePartyMult.Product5` | src/protocols_basic/Mult_5pc.cpp:130-172 | the ten reshared words agree at their holders and sum to the product |
| `FivePartyMult.Mult5` | src/protocols_basic/Mult_5pc.cpp:102-181 | for all inputs and generator contents c shares the product; the three holders of every key stay together |
| `FivePartyBits.MasksBalance` | src/protocols_basic/Mult_5pc.cpp:47-77 | every tracked mask is put on its share once and taken off its party's word once |
| `FivePartyBits.MultBitwise5` | src/protocols_basic/Mult_5pc.cpp:22-100 | every bit with consistent operands shares the conjunction; the running trackers agree between holders |
| `FivePartyBits.OpenBitwise5` | src/protocols_basic/Open_5pc.cpp:88-118 | every party obtains every consistently shared bit below k and zero above |
| `FivePartyOpen.OpenCovers` | src/protocols_basic/Open_5pc.cpp:37-46 | own shares and the two received sums are all ten shares |
| `FivePartyOpen.Open5` | src/protocols_basic/Open_5pc.cpp:22-56 | every party obtains the secret |
| `FivePartyMultPub.SignsOf` | src/protocols_basic/Mult_5pc.cpp:363-438 | the ops and prg_ctrs tables: twice minus one or once plus one |
| `FivePartyMultPub.SameWordsCancel` | src/protocols_basic/Mult_5pc.cpp:363-482 | words that agree at the three holders of every share cancel with signs +1, +1, -2 |
| `FivePartyMultPub.MultPub5` | src/protocols_basic/Mult_5pc.cpp:340-482 | all parties obtain the same word: the product plus what the given memory contents leave behind the loaded bytes |
| `FivePartyMultPub.ResidueVanishes` | src/protocols_basic/Mult_5pc.cpp:440-448 | that rest vanishes for all contents of machine words if and only if k bits of the word were loaded |
| `FivePartyMultPub.OneWordOfJunk` | src/protocols_basic/Mult_5pc.cpp:440-448 | one stray bit in one machine word leaves a rest that is not zero in the ring |
| `FivePartyMultPub.StrayBitSpoils` | src/protocols_basic/Mult_5pc.cpp:340-482 | with that memory content the word all parties open is not the product, for all operands |
| `FivePartyMultPub.PublicProductExact` | src/protocols_basic/Mult_5pc.cpp:340-482 | all opened words are the products, for all contents of machine words, if and only if there is one element or a k-bit word has as many bytes as a machine word |
| `SevenParty.EveryProductOnce7` | src/protocols_basic/Mult_7pc.cpp:54 | the seven local expressions together are the product of the sums: each of the 1225 cross products exactly once |
| `SevenPartyMult.MasksByDistance` | include/Mult_7pc.h:32-45 | the masking condition depends only on the distance between the parties |
| `SevenPartyMult.CountIs` | src/protocols_basic/Mult_7pc.cpp:35 | three parties owe a share of three consecutive parties a mask, four any other |
| `SevenPartyMult.MaskLoop7` | src/protocols_basic/Mult_7pc.cpp:56-77 | the double loop over parties and shares |
| `SevenPartyMult.Product7` | src/protocols_basic/Mult_7pc.cpp:54-90 | the thirty-five reshared words agree at their holders and sum to the product |
| `SevenPartyMult.SameCtr` | src/protocols_basic/Mult_7pc.cpp:35 | every holder draws as many words of a share's stream as there are parties that owe it a mask |
| `SevenPartyMult.DrawShares7` | src/protocols_basic/Mult_7pc.cpp:43-46 | all parties draw from their twenty slots and the holders of every key stay together |
| `SevenPartyMult.Mult7` | src/protocols_basic/Mult_7pc.cpp:25-100 | for all inputs and generator contents c shares the product; the four holders of every key stay together |
| `MatMult.DotsCover` | src/protocols_basic/matMult.cpp:225-232 | summed local products cover the dot product of the secrets |
| `MatMult.Transpose` | src/protocols_basic/matMult.cpp:204-212 | row j of the transposed operand is column j of b, for every matrix of the batch |
| `MatMult.Positions` | src/protocols_basic/matMult.cpp:217-232 | where the product reads its operands and leaves its result, number by number |
| `MatMult.EntryIsSum` | src/protocols_basic/matMult.cpp:217-232 | an entry is the sum of the products of n neighbours of a and n elements of b in steps of s |
| `MatMult.Starts` | src/protocols_basic/matMult.cpp:217-232 | and starts in the l-th matrix for a flag of 1, in the first one for a flag of 0 |
| `MatMult.EntryOfSlices` | src/protocols_basic/matMult.cpp:204-263 | an entry of a batch is that entry of the product of the l-th matrices alone |
| `MatMult.TimesIdentity` | src/protocols_basic/matMult.cpp:217-232 | times the identity an entry is the first operand's element |
| `MatMult.IdentityTimes` | src/protocols_basic/matMult.cpp:217-232 | the identity times a matrix: an entry is the second operand's element |
| `MatMult.MatMultBatch` | src/protocols_basic/matMult.cpp:171-263 | every entry of every product of the batch shares the dot product of its row and column, for all shapes and flags |
| `Convolution.WindowInside` | src/protocols_ml/neural_ops.cpp:34-48 | the padding branch is never taken |
| `Convolution.CellsDiffer` | src/protocols_ml/neural_ops.cpp:41-61 | different patch cells have different places |
| `Convolution.Im2Col` | src/protocols_ml/neural_ops.cpp:25-70 | every cell of every patch holds its pixel |
| `Convolution.SourcePosition` | src/protocols_ml/neural_ops.cpp:41-61 | cell (ch, r, t) of the patch at (h, w) is the pixel of channel ch in row r + h * stride and column t + w * stride, number by number |
| `Convolution.CellPosition` | src/protocols_ml/neural_ops.cpp:41-61 | and where it is put |
| `Convolution.DeltaKernel` | src/protocols_ml/neural_ops.cpp:41-61 | a kernel that is 1 at (ch, r, t) and 0 elsewhere yields exactly that pixel of the window |
| `Convolution.ConvolutionLinear` | src/protocols_ml/neural_ops.cpp:41-61 | the convolution is linear in the weights |
| `Convolution.OutputPosition` | src/benchmarks/minionn.cpp:223-226 | where an output stands |
| `Convolution.DotIsConvolution` | src/benchmarks/minionn.cpp:223-226 | a row of weights times a patch column is the triple sum of the direct convolution |
| `Convolution.Convolve` | src/benchmarks/minionn.cpp:223-226 | im2col and the batched product share the direct unpadded convolution, for every shape, stride and batch |
| `MaxPool.WindowIffSquare` | src/protocols_ml/neural_ops.cpp:359-379 | the compared cells are the 2 x 2 window if and only if the image is square |
| `MaxPool.SquareWindow` | src/protocols_ml/neural_ops.cpp:308-392 | in square images the output is picked from its window |
| `MaxPool.PooledIsMaximum` | src/protocols_ml/neural_ops.cpp:308-392 | and is the window's maximum when the pairwise signed differences fit the ring |
| `MaxPool.EdaMaxPool` | src/protocols_ml/neural_ops.cpp:308-392 | every output shares the number two rounds of comparison pick; in square images that is the maximum of its 2 x 2 window whenever the window's signed differences fit the ring |

## Left out

- Sockets, link encryption, key files, timers, command line, benchmarks and data loading: only what a message or draw does to the words is modelled.
- The block function behind the generators is an arbitrary fixed function, and private and local random bytes are arbitrary; secrecy and randomness quality are not stated.
- Threads and message interleaving: parties move in lockstep, one protocol step at a time, as their blocking exchanges force them to.
- Sizes and indices are unbounded: overflow of the 32-bit size products is not modelled, and vectors have at least one element, which the round counts assume.
- NodeNetworks.NodeNetwork.constructor: SHIFT entries past the word width come from a shift that C++ leaves undefined and are not stated. The protocols mask with `Masked` where the source reads the table; a ring more than 19 bits above the network's, as Convert.ConvertRing allows, would be read past the table's end.
- The byte counter numBytesSent.
- Message splitting is modelled in the three-party exchange only; in the five- and seven-party exchanges and the multicast a vector travels in one piece.
- Multiplication.MultByte: bytes are words over the ring of eight bits; so are the packed byte buffers of the carry circuits. `Rss_Mult_Byte_mp` is not modelled apart from FivePartyBits.MultBitwise5.
- PublicProduct.MultFixedB: the loops are those of the general product with the fixed element repeated; LT.FixedLT and LT.FixedGT repeat it likewise.
- BitAdd.BitAdd: `Rss_nBitAdd` is its single round for three parties; EdaBits.SplitContributions is its copying.
- Powers, logarithms and ceilings that the source takes in floating point are exact integer functions.
- MaxPool.EdaMaxPool: the loops over the batch and over the rows of one image are one loop over all rows; images with more rows than columns are excluded, because the source reads past the end there, and so are odd sizes, where neighbours lie in different rows.
- SevenPartyMult.Mult7: starts from generators on which the four holders of every key agree; the seven-party key hand-out (src/connection/NodeNetwork.cpp:1335-1517) is not modelled.
- `Rss_Mult_fixed_b_mp`, `Rss_Open_Byte_mp`, `Rss_MultPub_7pc`, the bitwise and byte products of seven parties: the same arguments again.
- Five- and seven-party comparison and what is built on it: their base cases write shares 0 and 1 of six and of twenty (src/protocols_composite/bitLT_5pc.cpp:299-303, src/protocols_composite/bitLT_7pc.cpp:305-309).
- `Rss_nBitAdd_trunc_mp`: it passes size and m in each other's place (src/protocols_composite/bitAddTrunc_5pc.cpp:50 and 69).
- `Rss_Open_7pc`: the sums it sends contain slot 1 twice (src/protocols_basic/Open_7pc.cpp:36-38).
- The seven-party matrix product: it assigns each product to the entry without adding to it (src/protocols_basic/matMult_7pc.cpp:93).
- `Rss_MSB` and `Rss_truncPr_time`: they count the public constant at party 2 (src/protocols_composite/MSB.cpp:622-626, src/protocols_composite/Trunc.cpp:184-188); `new_Rss_MSB` and `Rss_truncPr_1` are modelled.
- `Rss_LT`, `fixed_Rss_GT_LT_time`, `Rss_dw_matrixmul`, `Rss_EQZ`, the `_Lint` and `_time` variants, the bit_length overload of `Rss_edaBit`, the old `Rss_Convert` and the older pooling: other versions of what is modelled, or not used by it.
- Session.Run: the protocols' subroutines (carry trees, prefix circuits, `Rss_CarryOut`, `Rss_BitAdd_trunc`) are reached through their callers only, and arithmetic that a party does alone on its shares is no call. Convolution's patch buffer is a scratch vector of the call.
- Initial distribution of inputs: operands are assumed to be consistent sharings.
