# Verified models of the BHTE/BHC core

Dafny models of five parts of the repository, with proofs over all inputs, all reachable states or
all runs.

* **ML-DSA signatures** (`BHTE/mldsa`, with its C++ twin `BHC/src/crypto/mldsa_fips204.h`), sections
  6.1 to 6.3 and 7.1 to 7.5 of FIPS 204. The in-place number-theoretic transform, rounding and
  hints, bit packing, the hint codec, the samplers, key generation, the rejection loop of signing
  and verification. The main results are that the transform multiplies in Z_q[x]/(x^256 + 1), that
  the codecs are bijections, that whatever `Sign` returns under a generated key `Verify` accepts, exactly
  which signatures `Verify` accepts, and that one accepted for two messages yields a hash collision.
* **The BHTE node** (`BHTE/cmd/geth/main.go`): submission, mining, import of peer blocks by replay,
  validation, audit and reorganisation. In every reachable state the live accounts are the newest
  snapshot and the snapshots are the fold of execution over the canonical blocks, for balances, nonces
  and storage without exception, and for contract code exactly as far as the node's treatment of code
  keys allows; every balance, slot, receipt and withdrawal is told by the transactions on the chain.
* **The L1 withdrawal validator** (`BHC/src/script/withdrawal_script.cpp`): safety over every run, and
  exactly which executions succeed, told by the calls alone.
* **The payment-channel manager** (`BHTE/consensus/bhc/state_channel.go`): safety over every run,
  and exactly which calls succeed, told by the calls before them.
* **Retargeting** (`BHC/src/pow.cpp`): the value of a retarget, and exactly when it is a permitted
  transition.

## How the project is laid out

Each file is one module. For ML-DSA: `Modular`, `Zetas` and `NttTree` hold the arithmetic, the table of
roots and the transform as a tree of splits; `Convolution` and `Transform` its algebra; `NttLoops` the
in-place loops; `Evaluation` says what the transform is. `Rounding`, `BitPacking`, `HintCodec`,
`Sampling` and `Challenge` hold one component each, `Draws` says byte by byte what the samplers draw.
`Scheme` states key generation, one signing pass and verification as functions, `Completeness` proves
that they fit together, `Schoolbook`, `Acceptance` and `Signing` characterise them without the
transform, `Encodings`, `KeyCodec` and `Layouts` treat byte strings, and `Signer` holds the procedures.
For the node: `Ledger` holds accounts and execution, `CodeKeys` the two spellings of code keys, `Chain`
what each operation does to the whole state, `ChainLaws`, `ChainAudit`, `Reorg` and `ForkChoice` the
laws, `Runs` and `CleanRuns` the statements about whole runs, `Accounting` and `Records` what a run
leaves in accounts and in receipts, logs, withdrawals and anchors, `FailingRuns` runs that end badly,
and `Node` the object with its procedures. `Withdrawals` and `Channels` hold the two managers,
`WithdrawalHistory` and `ChannelHistory` their runs told by the calls alone. `Targets` stands alone.
`Arith` and `Outcomes` are shared helpers.

SHAKE is a parameter: a function from absorbed bytes to an endless stream. The rejection samplers of the
source do not return on a stream without as many acceptable candidates as they draw, so the procedures
that call them assume as many (`LiveXof`). The functions of `Scheme` are total, and the acceptance
theorem `SignThenVerify` needs no such assumption. Random bytes, clock readings, drawn hashes and what
peers answer are inputs, and so are the orders in which the node walks Go maps (`Moment`). Trie roots,
blooms and hashes of the node are functions of their arguments, held in the record `Env`; `GoodRoots`
says that they are never the empty or the zero string, and `RootsTellCode`, which only the "only if"
directions about code need, that accounts with different code have different roots.

## What turned out not to hold as one might expect

* Contract code is written under the mixed-case spelling of an address, and every snapshot, restore and
  state root lower-cases the keys while walking a Go map, so of two keys for one address the one
  visited last wins. Two raw transactions in two blocks deploy to one address; the second block is
  canonical and need not validate (`FailingRuns.TwoRawTransactions`), and once a replay has restored the
  live accounts a third one can leave a chain that fails its own audit (`FailingRuns.RestoredThenRaw`).
  Exactly: a canonical block validates whatever the order when it does not redeploy over the snapshot
  below it (`ChainAudit.CanonicalBlockValidIff`); the audit still succeeds after mining when the pool does
  not redeploy over lower-case keys of the live accounts (`ChainAudit.MineThenAuditIff`), of which a node
  that has restored nothing has none (`CleanRuns.QuietRunIsClean`); mining after a reorganisation
  reproduces the state root when the requeued transactions do not redeploy over the restored snapshot
  (`Reorg.ReorgThenMine`). A replay leaves everything as it was but the spelling of code keys, and
  it can lose code exactly when an address has two different ones (`CodeKeys.CopyIffNoClash`).
* Importing a block does not take its transactions out of the pool. One that was waiting is mined again;
  when that block is then undone, the transaction still sits in the imported block and its receipt is gone
  (`Records.PooledImportLosesReceipt`). A reorganisation keeps receipts in step with the blocks exactly when
  no hash sits on both sides of it (`Records.ReorgReceiptsIff`).
* Quantities are signed. A negative transfer takes coins from its recipient (`Ledger.WhoLoses`), and an
  uncovered one destroys them: supply falls exactly when the uncovered values add up to less than zero
  (`Ledger.SupplyAfter`, and `FailingRuns.NegativeTransferBurns` for a run).
* An uncovered transfer debits nobody and still credits its recipient, so with values that are not
  negative supply never falls but may rise (`Ledger.SupplyConstantIff` gives the exact condition,
  `FailingRuns.UncoveredTransferMints` a run). Strict mode prevents it only while the pool is empty at
  submission: `FailingRuns.StrictRunMints` mints behind a requeued payment. Peer blocks are not checked
  for it at all.
* Nothing checks that an imported block's hash is new. A reused one is accepted, as
  `ForkChoice.ReusedHashAccepted` shows on a fresh node, and corrupts the block index;
  `ForkChoice.ImportedIndex` states that the index stays right exactly when the hash is new.
* `DisputeChannel` overwrites the state before testing it, so it never refiles a channel: the list of
  disputed channels is always empty (`Channels.DisputedListEmpty`).
* A retarget is refused for some block times exactly when four timespans times the target do not fit 256
  bits, for timespans of at least eight seconds whose lower product fits (`Targets.AlwaysPermittedIff`).
  For an unchanged timespan the condition is that the wrapped product still covers the target
  (`Targets.UnchangedPermittedIff`), which some overflowing targets meet and others do not
  (`Targets.OverflowIsRefused`).
* The C++ bit writer never flushes; that makes no difference exactly when the bits fill whole bytes
  (`BitPacking.FlushMatters`), as 256 coefficients always do.

## Model

| member | source | states |
|---|---|---|
| Modular.ModQ | BHTE/mldsa/mldsa_core.go:82-88 | Go's truncated remainder, corrected, is the residue in [0, Q) for every int64 |
| Modular.Centered | BHTE/mldsa/mldsa_core.go:91-96 | the result is congruent to the input and lies in [-(Q-1)/2, (Q-1)/2] |
| Zetas.BitRev8 | BHTE/mldsa/mldsa_core.go:48-54 | eight shift-and-or steps reverse the low eight bits |
| Zetas.ModPow | BHTE/mldsa/mldsa_core.go:56-70 | square-and-multiply computes the power modulo Q for every base, with every product in int64 |
| Zetas.InitTables | BHTE/mldsa/mldsa_core.go:39-44 | the initialiser builds 1753^bitrev(i) for all i, and the inverse of 256 |
| Zetas.RootHalfOrder | BHTE/mldsa/mldsa_core.go:27-28 | 1753^256 is -1 modulo Q |
| Zetas.FermatInverse | BHTE/mldsa/mldsa_core.go:43-43 | the power Q-2 of 256 is its inverse: times 256 it is 1 |
| Zetas.ChildSquares | BHTE/mldsa/mldsa_core.go:33-44 | the roots at the children of a node square to plus and minus the root of the node |
| Zetas.MirrorSum | BHTE/mldsa/mldsa_core.go:175-187 | reversed indices mirrored within a layer add up to 256 |
| Zetas.MirrorInverse | BHTE/mldsa/mldsa_core.go:175-187 | Q minus the mirrored table entry, which the inverse transform uses, is the inverse of the forward root |
| NttTree.NttLinear | BHTE/mldsa/mldsa_core.go:159-173 | the transform is linear modulo Q at every depth |
| NttTree.InvNtt | BHTE/mldsa/mldsa_core.go:159-192 | merging after splitting multiplies by 2 per layer and restores the input |
| NttTree.NttInv | BHTE/mldsa/mldsa_core.go:159-192 | splitting after merging does the same in the other order |
| Convolution.FoldProduct | BHTE/mldsa/mldsa_ntt_test.go:12-25 | the product modulo x^2L - z^2, folded at z, is the product of the folds modulo x^L - z |
| Convolution.NttProduct | BHTE/mldsa/mldsa_core.go:159-200 | the transform of a product modulo x^n - r is the pointwise product of the transforms |
| Transform.BackwardOfForward | BHTE/mldsa/mldsa_core.go:159-192 | inverse after forward gives the residues back, for every polynomial |
| Transform.ForwardOfBackward | BHTE/mldsa/mldsa_core.go:159-192 | forward after inverse too |
| Transform.ProductTheorem | BHTE/mldsa/mldsa_core.go:159-214 | inverse of the pointwise product of transforms is the schoolbook product modulo x^256 + 1 and Q, for all integer coefficients |
| Evaluation.ForwardEvaluates | BHTE/mldsa/mldsa_core.go:159-173 | coefficient i of the transform is the residue of the value of the polynomial at 1753^(2·bitrev8(i) + 1), for every polynomial |
| Evaluation.BackwardInterpolates | BHTE/mldsa/mldsa_core.go:175-192 | the inverse transform gives a polynomial with the given values at those points |
| NttLoops.NttForward | BHTE/mldsa/mldsa_core.go:159-173 | the in-place loops compute the transform for any int32 input, results in [0, Q) |
| NttLoops.NttInverse | BHTE/mldsa/mldsa_core.go:175-192 | the in-place loops compute the scaled inverse for any int32 input, results in [0, Q) |
| NttLoops.NttCopy | BHTE/mldsa/mldsa_core.go:209-214 | transforms a copy |
| NttLoops.PointwiseMul | BHTE/mldsa/mldsa_core.go:195-201 | congruent to the coefficient-wise products for all int32 coefficients and equal to their residues for reduced ones, without leaving int64 |
| NttLoops.PolyAddInto | BHTE/mldsa/mldsa_core.go:203-207 | coefficient-wise sum modulo Q, in place |
| Rounding.Power2Round | BHTE/mldsa/mldsa_core.go:218-225 | r1·2^13 + r0 is the residue, with r1 below 1024 and r0 in (-2^12, 2^12] |
| Rounding.Decompose | BHTE/mldsa/mldsa_core.go:227-238 | r1·2·gamma2 + r0 is the residue with r0 centered, or the wrap case at Q-1 |
| Rounding.HintRecovery | BHTE/mldsa/mldsa_core.go:250-266 | a hint set when high bits differ recovers the high bits of r from r + t, for every absolute t up to gamma2, wrap included |
| Rounding.HintRecoveryIsSharp | BHTE/mldsa/mldsa_core.go:250-266 | one more than gamma2 is too much |
| Rounding.HighBitsStable | BHTE/mldsa/mldsa.go:313-333 | an error below beta does not move high bits when the low bits pass the signer's bound |
| BitPacking.BitWriter.Write | BHTE/mldsa/mldsa_core.go:411-419 | appends the value's bits to the stream; the accumulator stays below 2^39 |
| BitPacking.BitWriter.Bytes | BHTE/mldsa/mldsa_core.go:421-426 | the stream's bytes, the last one padded |
| BitPacking.BitWriter.Unflushed | BHC/src/crypto/mldsa_fips204.h:326-333 | the whole bytes of the stream, without a flush |
| BitPacking.BitReader.Read | BHTE/mldsa/mldsa_core.go:435-449 | takes the next bits, zeros past the end |
| BitPacking.UnpackPack | BHTE/mldsa/mldsa_core.go:452-468 | unpacking what was packed gives back any list of values below 2^width |
| BitPacking.PackUnpack | BHTE/mldsa/mldsa_core.go:452-468 | every buffer of the right length is the packing of what it unpacks to |
| Layouts.PackNumber | BHTE/mldsa/mldsa_core.go:452-458 | the packed bytes, read as a little-endian number, are the number whose digits are the values |
| Layouts.UnpackNumber | BHTE/mldsa/mldsa_core.go:460-468 | and unpacking reads its digits |
| BitPacking.FlushMatters | BHC/src/crypto/mldsa_fips204.h:326-333 | leaving out the flush changes nothing exactly when the bits fill whole bytes |
| BitPacking.SimpleBitPack | BHTE/mldsa/mldsa_core.go:452-458 | the loop packs the list |
| BitPacking.BitPack | BHTE/mldsa/mldsa_core.go:470-476 | the loop packs b minus each coefficient |
| BitPacking.SimpleBitPackCpp | BHC/src/crypto/mldsa_fips204.h:352-356 | without a flush the same bytes on 256 coefficients |
| BitPacking.SimpleBitUnpack | BHTE/mldsa/mldsa_core.go:460-468 | the loop unpacks 256 values, for every buffer |
| BitPacking.BitUnpack | BHTE/mldsa/mldsa_core.go:478-485 | the loop unpacks b minus each value |
| BitPacking.OffsetRoundTrip | BHTE/mldsa/mldsa_core.go:470-485 | offset packing gives every fitting polynomial back |
| HintCodec.HintPack | BHTE/mldsa/mldsa_core.go:488-506 | nil exactly when there are more than omega ones; otherwise the encoding |
| HintCodec.HintUnpack | BHTE/mldsa/mldsa_core.go:508-536 | accepts exactly the canonical buffers and decodes them, for every buffer |
| HintCodec.EncodingIsHintBytes | BHTE/mldsa/mldsa_core.go:488-506 | a hint has exactly one encoding |
| HintCodec.UnpackOfPack | BHTE/mldsa/mldsa_core.go:488-536 | an encoding is accepted and decodes to the 0/1 hint it came from |
| HintCodec.PackOfUnpack | BHTE/mldsa/mldsa_core.go:488-536 | an accepted buffer is the encoding, and the only one, of the 0/1 hint it decodes to |
| Sampling.RejNTTPoly | BHTE/mldsa/mldsa_core.go:296-309 | the loop returns the first 256 accepted candidates in order |
| Sampling.RejBoundedPoly | BHTE/mldsa/mldsa_core.go:324-345 | the same for half bytes, stopping in the middle of a byte if need be |
| Sampling.CoeffFromHalfByte | BHTE/mldsa/mldsa_core.go:347-359 | accepted coefficients lie in [-eta, eta] |
| Sampling.MatrixEntryReduced | BHTE/mldsa/mldsa_core.go:296-309 | matrix entries lie in [0, Q) |
| Sampling.BoundedPolySmall | BHTE/mldsa/mldsa_core.go:324-345 | secret polynomials are bounded by eta |
| Draws.MatrixDrawn | BHTE/mldsa/mldsa_core.go:285-309 | entry (row, column) of A holds the first 256 three-byte values below Q, in order, of SHAKE128 on rho, column, row; every one skipped is Q or more |
| Draws.BoundedDrawn | BHTE/mldsa/mldsa_core.go:324-359 | a secret polynomial holds 2 - (z mod 5) or 4 - z for the first 256 half bytes below 15 or 9, in order, of SHAKE256 on the seed and the nonce's two bytes; every one skipped is too large |
| Challenge.SampleInBall | BHTE/mldsa/mldsa_core.go:376-401 | the loop computes the challenge polynomial of the stream |
| Challenge.ChallengeWeight | BHTE/mldsa/mldsa_core.go:376-401 | exactly tau coefficients are +1 or -1, the rest zero |
| Draws.ChallengeDrawn | BHTE/mldsa/mldsa_core.go:376-401 | after eight bytes of signs, each of the tau positions is the first byte not above its index, and every coefficient traces back to its sign bit or to zero |
| Challenge.ProductBound | BHTE/mldsa/mldsa.go:313-323 | every coefficient of c·s is congruent to a number of absolute value at most tau·eta |
| Scheme.BetaFacts | BHTE/mldsa/mldsa.go:67-78 | beta is eta·tau and below both gammas in every set |
| Scheme.ZBitsFacts | BHTE/mldsa/mldsa.go:269-270 | the z width holds exactly 2·gamma1 values |
| Encodings.SizesAgree | BHTE/mldsa/mldsa.go:93-130 | the declared signature and key sizes are the sums of the parts |
| Encodings.SignatureParts | BHTE/mldsa/mldsa.go:367-378 | where cTilde, each z and the hints sit in a signature |
| Acceptance.SignatureWriteBack | BHTE/mldsa/mldsa.go:367-407 | a byte string of the right size with canonical hint bytes is the encoding of what it decodes to |
| Encodings.ZReadBack | BHTE/mldsa/mldsa.go:367-402 | z is decoded as it was encoded |
| Encodings.HintsReadBack | BHTE/mldsa/mldsa.go:367-407 | so are the hints |
| PolyAlgebra.VerifyEquation | BHTE/mldsa/mldsa.go:436-445 | the verifier's combination, in the transformed domain, is A·y - c·s2 + c·t0 |
| Schoolbook.RowAt | BHTE/mldsa/mldsa.go:203-214 | a row of the matrix times a vector, through the transform, is the sum of schoolbook products |
| Schoolbook.RecomputedAt | BHTE/mldsa/mldsa.go:436-445 | what Verify recomputes is the schoolbook A·z - c·t1·2^13 |
| Completeness.RecomputedValue | BHTE/mldsa/mldsa.go:425-445 | what the verifier recomputes is w - c·s2 + c·t0 |
| Completeness.RowHighBits | BHTE/mldsa/mldsa.go:313-362 | when the checks pass, the hints recover the high bits of w in every coefficient |
| Completeness.GeneratedKeyPair | BHTE/mldsa/mldsa.go:189-234 | generated keys have short secrets and both halves of A·s1 + s2 |
| Completeness.TrialVerifies | BHTE/mldsa/mldsa.go:276-456 | the signature of a pass that survives is accepted |
| Completeness.SignThenVerify | BHTE/mldsa/mldsa.go:189-457 | for every set, seed, message and random string: what Sign returns, Verify accepts, and it has the declared size |
| Acceptance.VerifyIff | BHTE/mldsa/mldsa.go:384-457 | Verify accepts exactly when the size is right, the hint bytes are canonical, every z coefficient is below gamma1 - beta in absolute value, and cTilde is the hash of mu and the packed high bits that the hints select for the schoolbook A·z - c·t1·2^13 |
| Acceptance.OneMessage | BHTE/mldsa/mldsa.go:238-243 | a signature accepted for two messages gives a SHAKE collision: equal hashes of tr, 0, 0 and the messages, or equal challenge hashes of two different mu and one packed w1 |
| Signing.KeyEquation | BHTE/mldsa/mldsa.go:189-234 | every part of a generated pair from the seed: rho, K and the nonces at their byte positions, and t1·2^13 + t0 = A·s1 + s2 in schoolbook products |
| Signing.MaskMeaning | BHTE/mldsa/mldsa_core.go:362-373 | mask coefficients are gamma1 minus the fields of SHAKE256 on the seed and the two bytes of the wrapped nonce |
| Signing.PassMeaning | BHTE/mldsa/mldsa.go:272-359 | one pass is the only solution of its equations: w = A·y, z = y + c·s1 centered, r = w - c·s2, hints where c·t0 moves the high bits |
| Signing.SignMeaning | BHTE/mldsa/mldsa.go:246-381 | Sign fails exactly when none of a thousand passes meets the four bounds, and otherwise returns the encoding of the first that does; mu and the mask seed are spelt out in bytes |
| KeyCodec.PublicKeyReadBack | BHTE/mldsa/mldsa.go:491-535 | decode(encode(pk)) = pk |
| KeyCodec.PublicKeyWriteBack | BHTE/mldsa/mldsa.go:491-535 | encode(decode(data)) = data, and decoding fails on the wrong size only |
| KeyCodec.SecretKeyReadBack | BHTE/mldsa/mldsa.go:501-567 | decode(encode(sk)) = sk exactly when every coefficient fits its field |
| KeyCodec.SecretKeyWriteBack | BHTE/mldsa/mldsa.go:501-567 | encode(decode(data)) = data for every byte string of the right size |
| KeyCodec.GeneratedKeyReadBack | BHTE/mldsa/mldsa.go:189-234 | generated secret keys decode back exactly |
| Layouts.PublicKeyLayout | BHTE/mldsa/mldsa.go:491-498 | rho in the first 32 bytes and t1 polynomial i as a number of ten-bit digits at 32 + 320·i |
| Layouts.SecretKeyLayout | BHTE/mldsa/mldsa.go:501-518 | rho, K, tr, then s1, s2 and t0 as numbers whose digits are eta or 2^12 minus the coefficients, at the offsets written out |
| KeyCodec.PublicKeyToBytes | BHTE/mldsa/mldsa.go:491-498 | the loop computes the encoding |
| KeyCodec.SecretKeyToBytes | BHTE/mldsa/mldsa.go:501-518 | the loops compute the encoding |
| KeyCodec.PublicKeyFromBytes | BHTE/mldsa/mldsa.go:521-535 | the loop computes the decoding, errors included |
| KeyCodec.SecretKeyFromBytes | BHTE/mldsa/mldsa.go:538-567 | the loops compute the decoding, errors included |
| Signer.BitLength | BHTE/mldsa/mldsa_core.go:72-79 | the number of bits |
| Signer.ExpandA | BHTE/mldsa/mldsa_core.go:285-294 | every entry of the matrix |
| Signer.ExpandS | BHTE/mldsa/mldsa_core.go:312-322 | both secret vectors, with consecutive nonces |
| Signer.ExpandMask | BHTE/mldsa/mldsa_core.go:362-373 | the masking vector, nonce wrap included |
| Signer.PolyInfNorm | BHTE/mldsa/mldsa_core.go:268-280 | the largest absolute centered residue |
| Signer.PolyVecInfNorm | BHTE/mldsa/mldsa.go:467-475 | below a positive bound exactly when every coefficient is |
| Signer.PackW1 | BHTE/mldsa/mldsa.go:459-465 | the packed rows one after the other |
| Signer.ConstantTimeEqual | BHTE/mldsa/mldsa.go:477-486 | zero accumulated difference exactly when the strings are equal |
| Signer.KeyGen | BHTE/mldsa/mldsa.go:189-234 | the generated pair, or an error for an unknown parameter set |
| Signer.Respond | BHTE/mldsa/mldsa.go:299-308 | z = y + c·s1, centered |
| Signer.Residual | BHTE/mldsa/mldsa.go:313-333 | w - c·s2, with a norm that is below the bound exactly when every low part is |
| Signer.MakeHints | BHTE/mldsa/mldsa.go:335-359 | the hints, their exact number, and a norm of c·t0 |
| Signer.Attempt | BHTE/mldsa/mldsa.go:272-378 | one pass returns a signature exactly when all four checks hold, and then the encoded one |
| Signer.Sign | BHTE/mldsa/mldsa.go:246-381 | the bounded rejection loop computes the signature, or the failure, that `Signing.SignMeaning` describes |
| Signer.Verify | BHTE/mldsa/mldsa.go:384-457 | the procedure accepts, or fails with the same error, as the function does whose acceptance `Acceptance.VerifyIff` characterises |
| Ledger.RunIgnoresPlace | BHTE/cmd/geth/main.go:1098-1201 | execution does not depend on where a transaction was mined |
| Ledger.OutcomesIgnorePlace | BHTE/cmd/geth/main.go:1116-1152 | neither does what the receipt root sees |
| Ledger.NonceCounts | BHTE/cmd/geth/main.go:1098-1110 | a nonce grows by the number of the account's transactions with a recipient |
| Ledger.SupplyAfter | BHTE/cmd/geth/main.go:1098-1110 | supply is the old supply plus the signed values of the uncovered transfers, and falls exactly when those add up to less than zero |
| Ledger.SupplyConstantIff | BHTE/cmd/geth/main.go:1098-1110 | when no value is negative, supply never falls and is constant exactly when every transfer is covered at its turn or moves nothing |
| Ledger.WhoLoses | BHTE/cmd/geth/main.go:1098-1110 | exactly whom a transfer costs coins: an account other than the sender exactly when it is sent a negative value |
| CodeKeys.CopyIffNoClash | BHTE/cmd/geth/main.go:2771-2777 | every walk over the code map gives the same copy exactly when no address has two different codes |
| CodeKeys.ClashIff | BHTE/cmd/geth/main.go:1136-1140 | executing transactions makes the two spellings disagree exactly when one of them redeploys over a lower-case key |
| CodeKeys.NormRun | BHTE/cmd/geth/main.go:1136-1152 | up to spelling, executing on a copy is executing on the original |
| CodeKeys.BareRun | BHTE/cmd/geth/main.go:1098-1152 | balances, nonces and storage do not depend on the code |
| Accounting.BalanceAfter | BHTE/cmd/geth/main.go:1098-1110 | each balance is what it was plus what the account was sent minus the transfers it had the coins for at their turn |
| Accounting.StorageAfter | BHTE/cmd/geth/main.go:1190-1201 | slot zero of a contract other than the bridge holds the value of the last store call to it, or what it held; no other slot or contract changes |
| Accounting.CodeLast | BHTE/cmd/geth/main.go:1136-1140 | the code at an address is the input of the last deployment there, or what it was |
| ChainLaws.FreshFaithful | BHTE/cmd/geth/main.go:526-614 | a fresh node satisfies both invariants |
| ChainLaws.PassedFacts | BHTE/cmd/geth/main.go:1063-1071 | applying a list of transactions executes it on the accounts, code keys included, and leaves the chain alone |
| ChainLaws.MinedGrows | BHTE/cmd/geth/main.go:1047-1096 | mining adds one block that holds the pool, with the root and the snapshot that the walks of the moment give |
| ChainLaws.MinedConsistent | BHTE/cmd/geth/main.go:1047-1096 | mining keeps the chain consistent |
| ChainLaws.MinedClashIff | BHTE/cmd/geth/main.go:1047-1096 | the live code clashes after mining exactly when the pool redeploys |
| ChainLaws.MinedFaithful | BHTE/cmd/geth/main.go:1047-1096 | mining a pool that does not redeploy keeps the chain faithful |
| ChainLaws.SubmittedConsistent | BHTE/cmd/geth/main.go:964-1045 | so does submitting, with and without mining |
| ChainLaws.RestoredKeeps | BHTE/cmd/geth/main.go:2028-2038 | a restore keeps the chain consistent, and faithful if it was |
| ChainLaws.ImportedGrows | BHTE/cmd/geth/main.go:1848-1883 | importing adds one block with the peer's transactions, the declared root and the snapshot that the walks give |
| ChainLaws.ImportedConsistent | BHTE/cmd/geth/main.go:1818-1932 | importing keeps the chain consistent |
| ChainLaws.ImportedFaithful | BHTE/cmd/geth/main.go:1818-1932 | importing a block that does not redeploy keeps the chain faithful |
| ChainAudit.AuditMeaning | BHTE/cmd/geth/main.go:1934-2026 | an audit is valid exactly when every block follows its predecessor and declares the roots of executing all blocks from genesis; otherwise it stops at the first that does not |
| ChainAudit.SnapshotIsFold | BHTE/cmd/geth/main.go:1295-1299 | in a faithful chain every snapshot is, up to spelling, the fold of execution over the canonical blocks |
| ChainAudit.AuditIffRootsRight | BHTE/cmd/geth/main.go:1934-2026 | in every reachable state the verdict does not depend on the walks: valid exactly when every block declares the root of the fold with the newer code keys |
| ChainAudit.AuditSucceeds | BHTE/cmd/geth/main.go:1934-2026 | a faithful chain passes with Height - 1 blocks checked, whatever the walks |
| ChainAudit.CanonicalBlockValid | BHTE/cmd/geth/main.go:2205-2293 | a canonical block that does not redeploy over the snapshot below it validates |
| ChainAudit.CanonicalBlockValidIff | BHTE/cmd/geth/main.go:2205-2293 | a canonical block validates whatever the walk exactly when none of its deployments leaves a different code where the snapshot below holds one |
| ChainAudit.GrownAuditIff | BHTE/cmd/geth/main.go:1934-2026 | a block on a faithful chain passes the audit exactly when it declares the root in which the newer keys win |
| ChainAudit.MineThenAuditIff | BHTE/cmd/geth/main.go:1047-1096 | after mining the audit succeeds whatever the walks exactly when the pool does not redeploy over the live accounts |
| ChainAudit.RecordValidIff | BHTE/cmd/geth/main.go:2205-2293 | a record validates exactly when its parent is canonical and its roots are those of executing it on the parent's snapshot, copied as walked |
| ChainAudit.AcceptedIff | BHTE/cmd/geth/main.go:1818-1932 | a peer's block is accepted exactly when it is numbered next, names the last block as parent, has usable hashes, and declares the roots of executing it on the live accounts |
| Reorg.ReorgUndoes | BHTE/cmd/geth/main.go:2840-2947 | a reorganisation returns to the view of head h - 1 and the accounts of its snapshot, and requeues the removed transactions in order |
| Reorg.ReorgActsIff | BHTE/cmd/geth/main.go:2840-2853 | it acts exactly when asked to replace a block above genesis by another |
| Reorg.ReorgedConsistent | BHTE/cmd/geth/main.go:2840-2947 | it keeps the chain consistent, and faithful if it was |
| Reorg.ReorgThenMine | BHTE/cmd/geth/main.go:2840-2947 | with an empty pool, mining the requeued transactions reproduces the accounts up to spelling, and the state root whatever the walks exactly when they do not redeploy over the restored snapshot |
| Reorg.MiningConserves | BHTE/cmd/geth/main.go:1047-1082 | mining keeps the multiset of pool and block transactions |
| Reorg.ReorgConserves | BHTE/cmd/geth/main.go:2854-2926 | so does a reorganisation |
| Reorg.ImportAdds | BHTE/cmd/geth/main.go:1848-1883 | importing adds the peer's transactions only |
| Reorg.SubmitAdds | BHTE/cmd/geth/main.go:964-1045 | submitting adds one transaction |
| ForkChoice.IndexKeptIffNew | BHTE/cmd/geth/main.go:2075-2119 | a new block keeps weights equal to heights exactly when its hash is new |
| ForkChoice.MinedIndex | BHTE/cmd/geth/main.go:1047-1096 | the same for mining |
| ForkChoice.ImportedIndex | BHTE/cmd/geth/main.go:1818-1883 | the same for importing |
| ForkChoice.ReusedHashAccepted | BHTE/cmd/geth/main.go:1818-1883 | a fresh node accepts a block that carries the genesis hash, and its index breaks |
| ForkChoice.ReorgIndex | BHTE/cmd/geth/main.go:2913-2917 | a reorganisation restores the index of the earlier head |
| ForkChoice.BestIndexedHead | BHTE/cmd/geth/main.go:2135-2146 | a validated entry that none beats, whatever the order of the walk |
| ForkChoice.ForkChoiceTips | BHTE/cmd/geth/main.go:2148-2160 | exactly the validated entries that no entry names as parent |
| ForkChoice.OneTip | BHTE/cmd/geth/main.go:2148-2160 | the last block is the only tip |
| ForkChoice.BestIsLast | BHTE/cmd/geth/main.go:2135-2146 | the last block beats every other entry |
| Runs.RunConsistent | BHTE/cmd/geth/main.go:1047-1096 | every run, with any walks, keeps the chain consistent |
| CleanRuns.RunFaithful | BHTE/cmd/geth/main.go:1047-1096 | every run in which no block redeploys over a live lower-case key keeps the chain faithful |
| CleanRuns.CleanRunAudits | BHTE/cmd/geth/main.go:1934-2293 | after such a run from a fresh node the audit is valid with Height - 1 checked whatever the walks, and each block validates whatever the walk exactly when it does not redeploy over the snapshot below |
| CleanRuns.QuietRunIsClean | BHTE/cmd/geth/main.go:1885-1932 | runs without audits, validations, refused blocks and reorganisations are always of that kind |
| Runs.EveryRunConserves | BHTE/cmd/geth/main.go:2854-2926 | over every run the transactions held are those held before plus those submitted or imported |
| Runs.ReorgUndoesRun | BHTE/cmd/geth/main.go:2840-2947 | after any run that stays above a head, a reorganisation just above it brings back height, blocks, canonical map and snapshots, the accounts but for code, and from a faithful head the code up to spelling |
| Runs.ReorgUndoesIndex | BHTE/cmd/geth/main.go:2913-2917 | and, with new hashes, the block index |
| Runs.ChainAccounting | BHTE/cmd/geth/main.go:1098-1110 | in every reachable state nonces and supply are those of genesis plus what the canonical transactions did |
| Runs.StrictRunKeepsSupply | BHTE/cmd/geth/main.go:995-1022 | strict runs that mine at once, without reorganisations and peer blocks, keep the supply |
| Accounting.ChainAccounts | BHTE/cmd/geth/main.go:1098-1201 | in every consistent state balances and storage are those after genesis plus what the chain's transactions did, by the laws above |
| Accounting.ChainCode | BHTE/cmd/geth/main.go:1136-1140 | in every faithful state the live code and the newest snapshot's at an address are the input of the chain's last deployment there |
| Accounting.AccountsOfRun | BHTE/cmd/geth/main.go:1098-1201 | after every run from a fresh node: each balance is the opening one plus received minus paid, each nonce the number of transfers sent, each slot what the last store call on the chain put there |
| Records.ReorgForgets | BHTE/cmd/geth/main.go:2877-2910 | a reorganisation keeps exactly the receipts, withdrawals and logs whose transaction sits in no removed block, and the anchors below its height |
| Records.RunRecords | BHTE/cmd/geth/main.go:1047-1096 | every run that brings transactions with different, non-empty hashes keeps the records those of the blocks: transactions in order, receipts, logs, withdrawals, anchors and trie commits |
| Records.RecordsOfRun | BHTE/cmd/geth/main.go:1047-1201 | after every such run from a fresh node: a receipt for exactly the transactions in blocks, with block, index, sender, recipient and the logs of a bridge call; a withdrawal for exactly the withdraw calls; an anchor for exactly the blocks above genesis; the receipt tries of every block |
| Records.ReorgReceiptsIff | BHTE/cmd/geth/main.go:2854-2887 | a reorganisation keeps receipts in step with blocks exactly when no hash sits both in a kept and in a removed block |
| Records.PooledImportLosesReceipt | BHTE/cmd/geth/main.go:1874-1881 | a waiting transaction that a peer's block brings stays in the pool; mined again and undone, it sits in a block without a receipt |
| Records.MinedTimes | BHTE/cmd/geth/main.go:1047-1096 | a mined block, its anchor and the withdrawals it opens carry the time of mining, and their challenge windows end a challenge period later |
| Records.ImportedTimes | BHTE/cmd/geth/main.go:1848-1883 | an imported block keeps the peer's time; its anchor and withdrawals carry the time of importing |
| Records.MinedLogIndex | BHTE/cmd/geth/main.go:1063-1076 | in a mined block every log of a receipt sits in the node's list where its index says |
| Records.ReplayedLogIndex | BHTE/cmd/geth/main.go:1885-1932 | in a replayed block every log carries the number of logs before the replay, so only the first of several sits there once kept |
| Records.FirstInFirstOut | BHTE/cmd/geth/main.go:964-1096 | without peers and reorganisations, transactions are mined in the order of submission |
| FailingRuns.UncoveredTransferMints | BHTE/cmd/geth/main.go:1098-1110 | a run in which one coin is paid twice |
| FailingRuns.NegativeTransferBurns | BHTE/cmd/geth/main.go:1098-1110 | a run in which three coins vanish |
| FailingRuns.StrictRunMints | BHTE/cmd/geth/main.go:995-1022 | a run of strictly valid payments and a reorganisation that creates a coin |
| FailingRuns.TwoRawTransactions | BHTE/cmd/geth/main.go:1024-1045 | a run of two raw transactions after which the audit succeeds and the last block need not validate |
| FailingRuns.RestoredThenRaw | BHTE/cmd/geth/main.go:1024-1045 | after a restore, a raw transaction that can leave a chain failing its own audit |
| Runs.ForkChoiceFollowsChain | BHTE/cmd/geth/main.go:2075-2172 | after every run with new hashes: weight is height, the last block is best and the only tip |
| Node.RpcNode.constructor | BHTE/cmd/geth/main.go:526-614 | the state of a fresh node |
| Node.RpcNode.ApplyMinedTransaction | BHTE/cmd/geth/main.go:1098-1201 | the whole state, the placed transaction and the receipt; what that leaves in accounts and records is in `Accounting` and `Records` |
| Node.RpcNode.MinePendingBlock | BHTE/cmd/geth/main.go:1047-1096 | the whole state after mining, one block longer |
| Node.RpcNode.ValidateTransaction | BHTE/cmd/geth/main.go:995-1022 | passes exactly under the listed conditions; in strict mode only what the sender can pay |
| Node.RpcNode.AddTransaction | BHTE/cmd/geth/main.go:964-1045 | the whole state after a submission, with and without mining |
| Node.RpcNode.IndexBlock | BHTE/cmd/geth/main.go:2075-2119 | the new index, for known and unknown hashes |
| Node.RpcNode.CopyStringMap | BHTE/cmd/geth/main.go:2771-2777 | the lower-cased copy of the code that a walk gives |
| Node.RpcNode.ReplayPeerBlock | BHTE/cmd/geth/main.go:1885-1932 | succeeds exactly when the declared roots are those of the replay; otherwise nothing has changed but that the accounts were copied |
| Node.RpcNode.RestoreReplayState | BHTE/cmd/geth/main.go:2028-2038 | puts the whole state back, with the accounts as they were copied |
| Node.RpcNode.ValidatePeerBlock | BHTE/cmd/geth/main.go:1818-1846 | the conditions on a peer block |
| Node.RpcNode.ImportPeerBlock | BHTE/cmd/geth/main.go:1848-1883 | the whole state after an import, a refusal and a block already there |
| Node.RpcNode.SyncPeerBlocks | BHTE/cmd/geth/main.go:1797-1816 | keeps the invariant, only appends, and stops only at the limit or at a block that is missing or not acceptable |
| Node.RpcNode.ValidateBlockRecord | BHTE/cmd/geth/main.go:2205-2293 | the verdict, with the whole state as before on every path, accounts copied if the block was replayed |
| Node.RpcNode.ReplayChain | BHTE/cmd/geth/main.go:1934-2026 | the verdict and count of the audit, with the whole state as before on every path, accounts copied |
| Node.RpcNode.HandleReorg | BHTE/cmd/geth/main.go:2840-2939 | whether it acts, and the whole new state, for which see `Reorg.ReorgUndoes` and `Records.ReorgForgets` |
| Withdrawals.Validator.InitWithdrawalEpoch | BHC/src/script/withdrawal_script.cpp:90-106 | one confirmed root, no requests, no proofs |
| Withdrawals.Validator.SubmitWithdrawal | BHC/src/script/withdrawal_script.cpp:170-185 | appends a pending copy when signed and anchored, which `WithdrawalHistory.SubmittedIff` says by the calls |
| Withdrawals.Validator.ChallengeWithdrawal | BHC/src/script/withdrawal_script.cpp:187-206 | the first match becomes challenged, whatever its status |
| Withdrawals.Validator.ApproveWithdrawal | BHC/src/script/withdrawal_script.cpp:208-229 | the first match, if pending and past its window |
| Withdrawals.Validator.ExecuteWithdrawal | BHC/src/script/withdrawal_script.cpp:231-250 | the first match, if approved and within the amount bound |
| Withdrawals.Validator.ExpireWithdrawal | BHC/src/script/withdrawal_script.cpp:252-268 | the first match that is pending or challenged |
| Withdrawals.NeverExecutedAgain | BHC/src/script/withdrawal_script.cpp:187-250 | within an epoch no execution of an id follows an execution or a challenge of it, repeated submissions included |
| Withdrawals.ExecutedWasApproved | BHC/src/script/withdrawal_script.cpp:208-250 | every execution follows an approval in the same epoch at or after the end of the challenge window, with no challenge before it |
| WithdrawalHistory.SubmittedIff | BHC/src/script/withdrawal_script.cpp:170-185 | in every run a submission succeeds exactly when it is signed and names the height and state root its epoch was opened with |
| WithdrawalHistory.HistoryAt | BHC/src/script/withdrawal_script.cpp:170-268 | in every run an id stands for the first anchored submission of the epoch, in the state that the calls since then brought it to |
| WithdrawalHistory.ExecutedIff | BHC/src/script/withdrawal_script.cpp:231-250 | in every run, told by the calls alone: an execution succeeds exactly when the epoch's first anchored submission of the id, of a bounded amount, was approved past its window before any proven challenge, expiry or earlier approval, and was neither challenged nor executed since |
| WithdrawalHistory.ExecutedWasAnchored | BHC/src/script/withdrawal_script.cpp:170-250 | every execution follows, in the same epoch, a signed submission of its id with the height and state root of the epoch's opening call |
| WithdrawalHistory.ApprovedIff | BHC/src/script/withdrawal_script.cpp:208-229 | an approval succeeds exactly when nothing was decided about the request and its window is over |
| WithdrawalHistory.ProofsKept | BHC/src/script/withdrawal_script.cpp:187-206 | the proofs kept are those of the challenges upheld in the epoch, in order |
| Channels.Manager.OpenChannel | BHTE/consensus/bhc/state_channel.go:79-107 | the new channel and all three indices |
| Channels.Manager.UpdateBalance | BHTE/consensus/bhc/state_channel.go:121-159 | accepts exactly under the listed conditions, wrapping sums included |
| Channels.Manager.CloseChannel | BHTE/consensus/bhc/state_channel.go:161-185 | Open becomes Closing with a challenge window |
| Channels.Manager.ConfirmClose | BHTE/consensus/bhc/state_channel.go:187-209 | Closing becomes Closed after the window |
| Channels.Manager.DisputeChannel | BHTE/consensus/bhc/state_channel.go:211-234 | the channel becomes disputed and stays filed where it was |
| Channels.Manager.UpdateStateIndex | BHTE/consensus/bhc/state_channel.go:314-325 | the id leaves one list and joins the other |
| Channels.RunEvolves | BHTE/consensus/bhc/state_channel.go:121-234 | over every stretch of a run: integer sum kept, sequences do not fall, balances change only while open and only with a higher sequence, closed is final |
| Channels.DepositConserved | BHTE/consensus/bhc/state_channel.go:79-159 | from its opening on, a channel's balances add up to the deposit |
| Channels.ClosedOnlyAfterWindow | BHTE/consensus/bhc/state_channel.go:161-209 | in every run a closed channel has been through an accepted close and, at least the challenge period later, an accepted confirmation, with no accepted update since the close |
| Channels.UpdatesRise | BHTE/consensus/bhc/state_channel.go:121-159 | accepted updates of one channel in a run have strictly rising sequences |
| Channels.AfterIndexed | BHTE/consensus/bhc/state_channel.go:314-325 | each channel stays filed exactly once, under its own state or the one before its dispute, exactly when a call does not reuse an id |
| Channels.DisputedListEmpty | BHTE/consensus/bhc/state_channel.go:211-234 | in every reachable state no channel is filed as disputed |
| ChannelHistory.UpdateAcceptedIff | BHTE/consensus/bhc/state_channel.go:121-159 | in every run, told by the calls alone: an update is accepted exactly when it is signed, splits the deposit of the id's latest opening exactly, comes before any close or dispute, and carries a higher sequence than every such split before |
| ChannelHistory.OthersAcceptedIff | BHTE/consensus/bhc/state_channel.go:161-234 | a close, a confirmation and a dispute succeed exactly when the calls before them allow it |
| ChannelHistory.ChannelMeaning | BHTE/consensus/bhc/state_channel.go:79-234 | in every run a channel is open, closing and closed exactly as the calls say, and its balances are those of the latest split or the deposit and nothing |
| ChannelHistory.ParticipantLists | BHTE/consensus/bhc/state_channel.go:79-107 | a participant's list holds exactly the channels opened with it, in order |
| Targets.RoundIsFloor | BHC/src/pow.cpp:230-231 | a trip through compact form cuts a target down to a multiple of the unit of its size |
| Targets.RoundMonotone | BHC/src/pow.cpp:230-249 | rounding is monotone |
| Targets.CompactRoundsToItself | BHC/src/pow.cpp:218-231 | values read from compact form round to themselves |
| Targets.CompactForm | BHC/src/pow.cpp:230-231 | the size written is the least n with the target below 128·256^(n-1), and the rest are the leading bits |
| Targets.CompactCanonical | BHC/src/pow.cpp:230-231 | a rounded target has the compact form of the target |
| Targets.RetargetPermitted | BHC/src/pow.cpp:42-69 | when the target's products fit, the new bits are a permitted transition at an adjustment height for any block times, but for a network that repeats a target above its limit |
| Targets.RetargetValue | BHC/src/pow.cpp:42-69 | when the products fit, the new target is the old one times the clamped time over the timespan, at most the limit, less one part in 32768 |
| Targets.PermittedIff | BHC/src/pow.cpp:205-255 | when the products fit: permitted exactly if unchanged between adjustments, and at one between the rounded quarter-timespan share and four times the old target, both limited |
| Targets.AlwaysPermittedIff | BHC/src/pow.cpp:205-255 | every retarget is permitted whatever the block times exactly when four timespans times the target fit |
| Targets.UnchangedPermittedIff | BHC/src/pow.cpp:205-255 | a retarget that changes nothing is permitted exactly when the wrapped product still covers the target |
| Targets.OverflowIsRefused | BHC/src/pow.cpp:205-255 | two overflowing targets, one refused unchanged and one permitted |

## Left out

- SHAKE, SHA-256, ECDSA, tries, RLP and blooms are parameters; the block buffering of `xofStream` is not modelled.
- The security of the signature scheme is not a subject; neither are timing properties of the comparison.
- Sign and Verify for an unknown parameter set, which divide by zero in the source, are not modelled.
- BitPacking.BitWriter.Write: requires a value below 2^bits, as every caller in the source supplies; larger values would spill into later fields.
- BitPacking.SimpleBitPack: requires coefficients that fit the width, for the same reason.
- BitPacking.BitPack: requires coefficients whose offset fits the width, for the same reason.
- BitPacking.SimpleBitPackCpp: requires coefficients that fit the width, for the same reason.
- KeyCodec.SecretKeyToBytes: requires coefficients that fit their fields, which generated and decoded keys have.
- Signer.Sign: requires int32 coefficients and vectors of the parameter set's lengths, which the Go types and the decoders give.
- The C++ signing and verification procedures, which repeat the Go ones with a context string, are not modelled beyond their bit writer.
- Senders, recipients, hashes and storage keys are modelled in normalised form, as submissions store them; a peer block that spells them otherwise is not modelled. Contract code keys are modelled in both spellings.
- Code is compared as a string; the root sees its bytes, so codes that differ in spelling only count as different here.
- Signed quantities have no size limit; the truncation to 256 bits inside the state root belongs to the root function. Nonces are natural numbers.
- JSON-RPC dispatch, persistence, peers' scores, withdrawal processing, proof endpoints and other RPC writes to anchors are not modelled.
- The opening balances of a fresh node are an input; the source gives one default account 1000·10^18.
- The clock is read once per operation; the source reads it several times.
- ForkChoice.BestIndexedHead: uses an optional result where the source tests for an empty hash, which no indexed entry has.
- ForkChoice.ForkChoiceTips: does not sort the tips; reachable states have one.
- Runs.ReorgUndoesRun: does not cover logs, receipts, withdrawals, anchors and trie commits, for which `Records.ReorgForgets` and `Records.RunRecords` state what remains.
- Records.RunRecords: does not say how often a log is listed, nor which index it carries once a reorganisation has filtered the list.
- Node.RpcNode.SyncPeerBlocks: the network answers are an input list, and the limit of 128 is a parameter.
- `SubmitWithdrawal` assigns to a constant reference in the source; it is modelled as appending a pending copy. Signature and fraud-proof checks are inputs, and request parsing is not modelled.
- `PaymentChannel` pointers handed out by the manager are not modelled: only its own methods change a channel. Locks make each call atomic, and signature checks are inputs.
- `arith_uint256` is not part of the repository; its compact conversions, 256-bit wrap and 32-bit factor are modelled as in Bitcoin Core. LWMA, ProgPoW and the choice of adjustment heights are not modelled.
- Targets.AlwaysPermittedIff: assumes a timespan of at least eight seconds and a lower product that fits, without which the refused block times are not characterised.
- Escape hatch, gas regulator, observer clients, wallets and user interface are not modelled.
