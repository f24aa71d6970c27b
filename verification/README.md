# Verified model of a DAP Helper and its Prio3Count VDAF

This project models dap-go, a Go implementation of the Helper role of the Distributed Aggregation Protocol together
with the Prio3Count VDAF it aggregates with, and proves what the two are for: a client's 0/1 measurement is split
into shares that add up to it, a malformed report is caught by a proof spread over the shares, and the sum of what the
Helper commits, added to what the Leader holds, is the number of ones, each report counted once.

The layers, bottom up:

- `Fp`, `Prime`: the field of p = 2^64 - 2^32 + 1 elements; p is prime (7 has order p - 1), Fermat's theorem, orders.
- `Word64`, `Field64`, `FieldVec`: the word arithmetic of the implementation, wrap by wrap, and vector encoding.
- `Poly`, `Dft`, `Lagrange`, `Accumulators`, `LagrangeBasis`: polynomials, the transform at roots of unity,
  interpolation, and the imperative algorithms of the Lagrange basis proved against them for every power-of-two size.
- `GadgetCheck`, `Flp`, `FlpTheorems`: gadget recorders, the Count circuit, prove / query / decide; completeness,
  soundness against every proof vector, linearity.
- `Sponge`, `Turboshake`, `XofFormat`, `Xof`: the incremental sponge (RFC 9861) as a refinement of the one-shot stream,
  injective padding and framing, rejection sampling.
- `Prio3`, `Prio3Encode`, `Prio3Xof`: sharding, preparation, aggregation and unsharding for any share count in
  [2, 256), the share encodings, and the scheme over its real expansion (sections 7.2 to 7.4 of
  draft-irtf-cfrg-vdaf-18).
- `Bytes`, `Wire`, `Messages`, `Layout`, `Codec`: the message formats in the four dialects (RFC 8446, section 3), their
  bytes spelled out field by field, and the cursor decoders and builder encoders proved to agree with them.
- `HelperJobs`, `Jobs`, `Store`, `Handlers`: one report, one aggregation job, the in-memory store, and the request
  handlers as a few atomic store steps each.
- `Sums`, `Aggregates`, `Interleavings`, `Retries`, `Vetting`, `Collection`: the state machine of all requests in
  flight, with every interleaving of their store steps, and what holds in every reachable state.
- `Creation`: what an uninterrupted request is answered with and leaves behind, case by case.

The Keccak permutation, HPKE opening and SHA-256 are arbitrary deterministic functions: parameters of the theorems.
What is assumed of them, and where: for `Retries.Setting.SameAnswer`, that the hash tells the creation bodies sent for
the task apart; for `Collection.Batch.ShareIsCount`, that a report ciphertext that opens under the key of a task
registered under the ID, in the dialect its route reads it in, opens to what its client sealed; for
`Collection.Trial.CommittedGenuine`, the same, and that the Leader's message is honest.

Two places where the code and its comments differ. The comment on `DeleteJob` says that keeping the claims avoids
reopening the replay window for the reports already counted. The window does stay open for requests under the deleted
job's own ID: a claim held by that ID is not foreign to it, so a different request put under the same ID commits again
the report the deleted job had committed (`Interleavings.DeleteReopens`). The exact condition: a stored job, and with it
every commitment in it, stays as it is exactly until a request to delete that job is served
(`Interleavings.StoredUntilDeleted`), and until then no other row commits its reports (`Interleavings.CommitmentStays`);
over every history a report is only ever committed under one job ID (`Interleavings.CommittedUnderOneJob`). And `Decode`
converts the aggregate to a signed 64-bit integer, so a sum of 2^63 or more comes out negative; `Flp.Decode` states
exactly when it does not.

Verify with `dafny verify dfyconfig.toml`.

## Model

| member | source | states |
|---|---|---|
| `Prime.NoFactors` | pkg/vdaf/field/field64.go:21-22 | the modulus 2^64 - 2^32 + 1 has no factorisation into two numbers above 1 |
| `Prime.Fermat` | pkg/vdaf/field/field64.go:118-123 | every nonzero element raised to p - 1 is 1 |
| `Prime.FermatInverse` | pkg/vdaf/field/field64.go:118-123 | a^(p-2) is the inverse of every nonzero a, and 0 for 0 |
| `Prime.SevenChain` | pkg/vdaf/field/field64.go:125-129 | the generator constant is 7^(2^32 - 1) |
| `Prime.GenOrder` | pkg/vdaf/field/field64.go:30-32 | the generator's 2^32-th power is 1 |
| `Dft.GenDistinct` | pkg/vdaf/field/field64.go:30-32 | no smaller positive power of the generator is 1, so its order is exactly 2^32 |
| `Field64.New` | pkg/vdaf/field/field64.go:46-51 | one conditional subtraction reduces any 64-bit word modulo p |
| `Field64.Add` | pkg/vdaf/field/field64.go:54-65 | the carry-corrected word sum is addition modulo p, canonical |
| `Field64.Sub` | pkg/vdaf/field/field64.go:68-74 | the borrow-corrected word difference is subtraction modulo p, canonical |
| `Field64.Mul` | pkg/vdaf/field/field64.go:83-102 | for all pairs of 64-bit words, every wrap included, the result is the canonical product modulo p |
| `Field64.Pow` | pkg/vdaf/field/field64.go:106-115 | the 64-step square-and-multiply loop computes a^e for every 64-bit e |
| `Field64.Inv` | pkg/vdaf/field/field64.go:118-123 | Inv(a) times a is 1 for nonzero a; Inv(0) is 0 |
| `Field64.NthRoot` | pkg/vdaf/field/field64.go:131-138 | succeeds exactly for powers of two in [1, 2^32], with the generator's power |
| `Dft.RootIsRoot` | pkg/vdaf/field/field64.go:131-138 | the principal n-th root has multiplicative order exactly n |
| `Dft.RootSquare` | pkg/vdaf/field/field64.go:131-138 | the principal 2n-th root squares to the principal n-th root |
| `FieldVec.VecAdd` | pkg/vdaf/field/field64.go:184-194 | element-wise sum, failing exactly on a length mismatch |
| `FieldVec.VecSub` | pkg/vdaf/field/field64.go:196-206 | element-wise difference, failing exactly on a length mismatch |
| `FieldVec.EncodeVec` | pkg/vdaf/field/field64.go:159-166 | the concatenated little-endian encodings |
| `FieldVec.DecodeVec` | pkg/vdaf/field/field64.go:168-182 | accepts exactly the encodings of vectors (canonical elements, whole words) and inverts them |
| `FieldVec.EncodingInjective` | pkg/vdaf/field/field64.go:140-166 | distinct vectors have distinct encodings |
| `Bytes.LEDigits` | pkg/vdaf/field/field64.go:140-147 | byte i of a little-endian number is its i-th base-256 digit |
| `Bytes.BEDigits` | pkg/dap/wire/types.go:102-107 | byte i of a big-endian number is its i-th base-256 digit from the other end |
| `LagrangeBasis.NextPowerOf2` | pkg/vdaf/flp/lagrange.go:19-28 | the least power of two that is at least n |
| `LagrangeBasis.Log2` | pkg/vdaf/flp/lagrange.go:30-37 | the exponent of a power of two |
| `LagrangeBasis.NthRootPowers` | pkg/vdaf/flp/lagrange.go:42-55 | the n powers of the principal n-th root, in order |
| `LagrangeBasis.EvalMonomial` | pkg/vdaf/flp/lagrange.go:58-64 | the polynomial's value at x |
| `LagrangeBasis.Ntt` | pkg/vdaf/flp/lagrange.go:66-89 | the values at the n-th roots, or at the odd powers of the 2n-th root |
| `LagrangeBasis.InvNtt` | pkg/vdaf/flp/lagrange.go:91-112 | the inverse transform of the first n values |
| `Dft.Orthogonality` | pkg/vdaf/flp/lagrange.go:66-112 | evaluating the transform at the inverse root's powers isolates n times each coefficient |
| `Dft.InvAfterTransform` | pkg/vdaf/flp/lagrange.go:66-112 | transforming and inverting returns every coefficient, at every root order |
| `Dft.TransformAfterInv` | pkg/vdaf/flp/lagrange.go:66-112 | inverting and transforming returns every value, at every root order |
| `LagrangeBasis.DoubleEvaluations` | pkg/vdaf/flp/lagrange.go:114-130 | the same polynomial's values at all 2n-th roots, in order |
| `LagrangeBasis.PolyMul` | pkg/vdaf/flp/lagrange.go:132-146 | the product polynomial's values at the 2n-th roots |
| `LagrangeBasis.PolyEvalBatched` | pkg/vdaf/flp/lagrange.go:148-184 | for every batch, power-of-two node count and x (nodes included): each polynomial's interpolant evaluated at x |
| `Accumulators.BatchedIsInterpolation` | pkg/vdaf/flp/lagrange.go:148-184 | the running accumulator times the final factor is evaluation of the inverse transform |
| `LagrangeBasis.PolyEval` | pkg/vdaf/flp/lagrange.go:186-189 | evaluation of one polynomial's interpolant |
| `Lagrange.LagrangeFormula` | pkg/vdaf/flp/lagrange.go:191-229 | a polynomial of degree below n equals, coefficient by coefficient, the Lagrange sum through n distinct points |
| `Lagrange.RootWeight` | pkg/vdaf/flp/lagrange.go:148-184 | the inverse of the product of differences at the i-th root is w^i / n |
| `LagrangeBasis.CommonFraction` | pkg/vdaf/flp/lagrange.go:215-219 | the running denominator is never zero and the fraction equals the sum of p[i] / w[i] |
| `LagrangeBasis.ExtendValuesToPowerOf2` | pkg/vdaf/flp/lagrange.go:191-229 | keeps the given values and appends those of the polynomial through them at the remaining roots |
| `LagrangeBasis.ExtendedRecovers` | pkg/vdaf/flp/lagrange.go:191-229 | extending the first values of any short enough polynomial gives back all its values |
| `GadgetCheck.CallReads` | pkg/vdaf/flp/gadget.go:61-83 | call number k reads the recovered gadget polynomial at the k-th power of the wire root |
| `GadgetCheck.GadgetCompleteness` | pkg/vdaf/flp/gadget.go:55-83 | for every wire length: an honest gadget polynomial passes at every point and answers every call with the product |
| `GadgetCheck.ManyPassesOnlyHonest` | pkg/vdaf/flp/flp.go:161-179 | passing at more than 2(p - 1) distinct points forces the honest gadget polynomial |
| `GadgetCheck.GadgetSoundness` | pkg/vdaf/flp/flp.go:161-179 | one call answered with anything but the product leaves at most 2(p - 1) query points that pass |
| `Flp.UnityRoots` | pkg/vdaf/flp/flp.go:168-172 | for every wire length p, t^p is 1 exactly at the p powers of the principal p-th root |
| `Flp.RefusedPoints` | pkg/vdaf/flp/flp.go:168-172 | Count's refused query points are exactly 1 and p - 1 |
| `Flp.RecoverPoly` | pkg/vdaf/flp/gadget.go:61-69 | the proof's 2p - 1 values become the recovered polynomial's 2p values, read with step 2 |
| `Flp.GadgetCall.NewProve` | pkg/vdaf/flp/gadget.go:43-50 | seeds in slot 0 of each wire, zeros after, no substituted outputs |
| `Flp.GadgetCall.NewQuery` | pkg/vdaf/flp/gadget.go:55-70 | the same wires, with outputs read back from the recovered polynomial |
| `Flp.GadgetCall.Call` | pkg/vdaf/flp/gadget.go:74-83 | records the inputs in the next slot and returns the product, or the recovered value in query mode |
| `Flp.Encode` | pkg/vdaf/flp/count.go:17-22 | exactly 0 and 1 encode, each to itself |
| `Flp.Decode` | pkg/vdaf/flp/count.go:33-34 | the aggregate as a signed 64-bit integer, itself exactly below 2^63 |
| `Flp.EvalCircuit` | pkg/vdaf/flp/count.go:24-28 | x * x - x with the product taken from the gadget, one call recorded |
| `Flp.Prove` | pkg/vdaf/flp/flp.go:107-133 | the wire seeds and the first values of the wires' product polynomial |
| `Flp.Query` | pkg/vdaf/flp/flp.go:135-179 | fails exactly at the query points 1 and p - 1, the powers of the wire root; otherwise the verifier vector of the shares it was given |
| `FlpTheorems.FewRefused` | pkg/vdaf/flp/flp.go:168-172 | at most as many query points are refused as a wire has values |
| `FlpTheorems.VerifierReads` | pkg/vdaf/flp/flp.go:135-179 | for any polynomials that fit the shares: the gadget's value at the call less the share, both wires at the query point, the gadget there |
| `FlpTheorems.ProofReads` | pkg/vdaf/flp/flp.go:107-133 | the proof is the two seeds and the product of the wire polynomials at the first three fourth roots of unity |
| `FlpTheorems.Exactness` | pkg/vdaf/flp/flp.go:107-197 | an honestly proved element is accepted exactly when it is 0 or 1, for all randomness and every query point |
| `FlpTheorems.Soundness` | pkg/vdaf/flp/flp.go:135-197 | outside {0, 1}, any proof vector whatsoever is accepted at no more than 2 query points |
| `FlpTheorems.VerifierLinear` | pkg/vdaf/flp/flp.go:135-179 | the verifier of a sum of measurements and proofs is the sum of the verifiers |
| `Prio3.NewCount` | pkg/vdaf/prio3/count.go:47-53 | fails exactly below two shares |
| `Prio3.Count.LeaderMeas` | pkg/vdaf/prio3/count.go:124-134 | the measurement minus every helper's expanded share |
| `Prio3.Count.LeaderProofs` | pkg/vdaf/prio3/count.go:136-155 | the proof minus every helper's expanded share |
| `Prio3.Count.Shard` | pkg/vdaf/prio3/count.go:103-162 | fails exactly on wrong sizes, a non-0/1 measurement or an over-long context; otherwise Helper j gets the j-th seed of the sharding randomness and the Leader what makes all shares add up to the measurement and its proof |
| `Prio3.Count.SharesShowSeeds` | pkg/vdaf/prio3/count.go:112-160 | sharings from different Helper seeds are different |
| `Prio3.Count.Expansions` | pkg/vdaf/prio3/count.go:82-101 | each of the four expansions, argument by argument: seed or key, eight tag bytes and the context, binder, length; the query point binds the nonce |
| `Prio3.Count.ExpansionsApart` | pkg/vdaf/prio3/count.go:82-101 | different usages, contexts, seeds or keys, aggregators or nonces absorb different strings |
| `Prio3.Count.VerifyInit` | pkg/vdaf/prio3/count.go:180-212 | each error case, query points 1 and p - 1 among them; otherwise the aggregator's output share (all of a Leader's measurement vector, a Helper's expansion) and its verifier share over the first proof elements |
| `Prio3.Count.CombinedIsVerifier` | pkg/vdaf/prio3/count.go:214-233 | for any number of shares, the summed verifier shares are the verifier of the summed shares |
| `Prio3.Count.HonestAccepted` | pkg/vdaf/prio3/count.go:180-233 | honest shares of x pass exactly when x is 0 or 1 |
| `Prio3.Count.ForgedRejected` | pkg/vdaf/prio3/count.go:180-233 | shares of anything outside {0, 1}, honest or not, pass at no more than 2 query points |
| `Prio3.VerifierSharesToMessage` | pkg/vdaf/prio3/count.go:214-233 | accepts exactly when the lengths agree and the summed verifier decides |
| `Prio3.AggregateUpdate` | pkg/vdaf/prio3/count.go:248-251 | adds an output share of matching length |
| `Prio3.Unshard` | pkg/vdaf/prio3/count.go:253-263 | the summed aggregate shares, decoded |
| `Prio3.HonestRun` | pkg/vdaf/prio3/count.go:103-263 | shard, prepare at every aggregator, verify, aggregate, unshard: returns the measurement whenever every input is admissible |
| `Prio3Encode.EncodeInputShare` | pkg/vdaf/prio3/encode.go:9-17 | fails exactly on a share its aggregator cannot hold; otherwise the Leader's two vectors end to end, or the Helper's seed |
| `Prio3Encode.DecodeInputShare` | pkg/vdaf/prio3/encode.go:48-77 | accepts exactly the encodings of shares the aggregator can hold, and inverts them |
| `Prio3Encode.InputShareInjective` | pkg/vdaf/prio3/encode.go:9-17 | distinct shares of one aggregator have distinct encodings |
| `Prio3Encode.DecodeVerifierShare` | pkg/vdaf/prio3/encode.go:24-36 | accepts exactly the encodings of verifier vectors |
| `Turboshake.New128` | internal/turboshake/turboshake.go:30-37 | refuses exactly the domain bytes outside [0x01, 0x7F] |
| `Sponge.XorBits` | internal/turboshake/turboshake.go:39-45 | bit i of the exclusive or is set exactly when the two i-th bits differ |
| `Sponge.MixedTwice` | internal/turboshake/turboshake.go:39-45 | mixing a block in twice gives the state back, and the lanes past the rate stay |
| `Sponge.MixedInjective` | internal/turboshake/turboshake.go:39-45 | different blocks mix to different states |
| `Sponge.MixedReadsBack` | internal/turboshake/turboshake.go:39-53 | a block mixed into the zero state reads back unchanged |
| `Turboshake.TurboShake128.AbsorbBuf` | internal/turboshake/turboshake.go:39-45 | exclusive-ors the whole buffer into the state and permutes |
| `Turboshake.TurboShake128.FillBuf` | internal/turboshake/turboshake.go:47-53 | serialises the first 21 lanes little-endian |
| `Turboshake.TurboShake128.Write` | internal/turboshake/turboshake.go:55-71 | for every chunk: the message grows by it, and state and buffer stay those of the message so far |
| `Turboshake.TurboShake128.Pad` | internal/turboshake/turboshake.go:73-86 | absorbs the padded last block of the whole message and exposes the first output block |
| `Turboshake.TurboShake128.Read` | internal/turboshake/turboshake.go:88-105 | for every split into reads: the next bytes of the one-shot output stream |
| `Turboshake.Sum128` | internal/turboshake/turboshake.go:107-118 | the one-shot stream's prefix |
| `Sponge.AbsorbBlocks` | internal/turboshake/turboshake.go:39-45 | absorbing one block more mixes it into the state and permutes, from the zero state on |
| `Sponge.SqueezeBlocks` | internal/turboshake/turboshake.go:88-105 | the k-th output block reads the absorbed state permuted k times more |
| `Sponge.PaddedShape` | internal/turboshake/turboshake.go:73-86 | the message, the domain byte, zeros, and the top bit of the last byte |
| `Sponge.StreamSplit` | internal/turboshake/turboshake.go:88-105 | consecutive reads concatenate to one longer read |
| `Sponge.PaddedInjective` | internal/turboshake/turboshake.go:73-86 | distinct (message, domain byte) pairs absorb distinct block sequences, the domain byte in the last position included |
| `XofFormat.TagInjective` | pkg/vdaf/xof/xof.go:120-138 | the domain-separation tag determines usage, algorithm and context |
| `XofFormat.TagBytes` | pkg/vdaf/xof/xof.go:120-138 | the tag byte by byte: version 18, class 0, algorithm, usage, context |
| `XofFormat.InputBytes` | pkg/vdaf/xof/xof.go:51-73 | the absorbed string byte by byte, each length in its place |
| `XofFormat.InputInjective` | pkg/vdaf/xof/xof.go:51-73 | the absorbed string determines seed, tag and binder |
| `XofFormat.UsageSeparation` | pkg/vdaf/xof/xof.go:51-138 | different usages, contexts, seeds or binders never absorb the same string |
| `Xof.Xof.constructor` | pkg/vdaf/xof/xof.go:61-73 | five writes absorb exactly the framed input |
| `Xof.New` | pkg/vdaf/xof/xof.go:51-73 | fails exactly on a seed over 255 or a tag over 65535 bytes |
| `Xof.Xof.Next` | pkg/vdaf/xof/xof.go:75-81 | the next n bytes of the stream |
| `Xof.Xof.NextVecField64` | pkg/vdaf/xof/xof.go:83-97 | exactly the first words below p in stream order, consuming no word more than needed, and terminating whenever the stream holds enough |
| `Xof.WordReads` | pkg/vdaf/xof/xof.go:83-97 | a word is eight stream bytes, low byte first |
| `Xof.AcceptedNext` | pkg/vdaf/xof/xof.go:83-97 | a word below p is kept and any other skipped |
| `Xof.DrawsCompose` | pkg/vdaf/xof/xof.go:83-97 | two consecutive draws are one draw of their combined length |
| `Xof.DrawsFirst` | pkg/vdaf/xof/xof.go:83-97 | a draw is the prefix of the accepted words of any long enough stretch |
| `Xof.DeriveSeed` | pkg/vdaf/xof/xof.go:99-108 | the first 32 stream bytes, with the framing errors |
| `Prio3Xof.XofIsExpander` | pkg/vdaf/prio3/count.go:82-101 | the XOF's accepted words, taken as a function, are an expansion Prio3Count can be built on |
| `Prio3Xof.ExpandByXof` | pkg/vdaf/prio3/count.go:82-101 | over streams with enough words below p, what the sponge computes is that expansion, errors included |
| `Xof.ExpandIntoVecField64` | pkg/vdaf/xof/xof.go:110-118 | the first accepted words of the seeded stream, with the framing errors |
| `Wire.RegistryBijective` | pkg/dap/wire/aggregation.go:71-136 | in every variant, decoding an error code point and encoding an error invert each other |
| `Layout.ErrorCodes` | pkg/dap/wire/aggregation.go:71-136 | every error's code point in both registries |
| `Layout.ExtensionVecLayout` | pkg/dap/wire/types.go:148-179 | type, length, data of each extension, behind a two-byte length |
| `Layout.CiphertextLayout` | pkg/dap/wire/types.go:199-208 | configuration ID, encapsulated key, payload, with their prefixes |
| `Layout.MetadataLayout` | pkg/dap/wire/types.go:237-246 | report ID, time, extensions |
| `Layout.ReportLayout` | pkg/dap/wire/types.go:268-279 | metadata, public share, the Leader's ciphertext, the Helper's |
| `Layout.VerifyInitLayout` | pkg/dap/wire/aggregation.go:217-252 | metadata, public share, ciphertext, the Leader's payload |
| `Layout.InitReqLayout` | pkg/dap/wire/aggregation.go:274-306 | the drafts' fields in order with an implicit-length report vector, and Janus's with a prefixed one |
| `Layout.VerifyRespLayout` | pkg/dap/wire/aggregation.go:367-385 | report ID, kind, and what each kind carries |
| `Layout.JobRespLayout` | pkg/dap/wire/aggregation.go:429-452 | the answers end to end, prefixed in Janus only |
| `Layout.PingPongLayout` | pkg/dap/wire/pingpong.go:42-64 | which fields each of the three message types carries |
| `Layout.PlaintextLayout` | pkg/dap/wire/types.go:301-307 | private extensions, then the payload |
| `Layout.TaskConfigLayout` | pkg/dap/wire/taskconfig.go:84-120 | the ten fields in order with their widths |
| `Layout.AadLayout` | pkg/dap/wire/aggregation.go:485-502 | task ID, configuration unless Janus, metadata, public share |
| `Wire.OpaqueTrip` | pkg/dap/wire/types.go:367-377 | a length-prefixed string decodes to itself, whatever follows it |
| `Wire.OpaqueCanon` | pkg/dap/wire/types.go:367-377 | an accepted length-prefixed string re-encodes to the bytes read |
| `Messages.ExtensionVecTrip` | pkg/dap/wire/types.go:173-195 | an extension vector decodes to itself |
| `Messages.ExtensionVecCanon` | pkg/dap/wire/types.go:173-195 | an accepted extension vector re-encodes to the bytes read |
| `Messages.HpkeCiphertext.Trip` | pkg/dap/wire/types.go:199-230 | a ciphertext with non-empty parts decodes to itself |
| `Messages.HpkeCiphertext.Canon` | pkg/dap/wire/types.go:199-230 | an accepted ciphertext is well formed and re-encodes to the bytes read |
| `Messages.ReportMetadata.Trip` | pkg/dap/wire/types.go:237-261 | report metadata decodes to itself |
| `Messages.ReportMetadata.Canon` | pkg/dap/wire/types.go:237-261 | accepted metadata re-encodes to the bytes read |
| `Messages.Report.Trip` | pkg/dap/wire/types.go:268-294 | a report decodes to itself |
| `Messages.Report.Canon` | pkg/dap/wire/types.go:268-294 | an accepted report re-encodes to the bytes read |
| `Messages.PlaintextInputShare.Trip` | pkg/dap/wire/types.go:301-324 | a plaintext input share decodes to itself |
| `Messages.PlaintextInputShare.Canon` | pkg/dap/wire/types.go:301-324 | an accepted plaintext input share re-encodes to the bytes read |
| `Messages.VerifyInit.Trip` | pkg/dap/wire/aggregation.go:244-267 | a report's initialization message decodes to itself |
| `Messages.VerifyInit.Canon` | pkg/dap/wire/aggregation.go:244-267 | an accepted initialization message re-encodes to the bytes read |
| `Messages.InitReq.Trip` | pkg/dap/wire/aggregation.go:274-360 | in all four variants, a well-formed request decodes to itself, the implicit-length report vector included |
| `Messages.InitReq.Canon` | pkg/dap/wire/aggregation.go:274-360 | in all four variants, an accepted request is well formed and re-encodes to exactly its bytes |
| `Messages.VerifyResp.Trip` | pkg/dap/wire/aggregation.go:367-422 | a report's answer decodes to itself in its variant |
| `Messages.VerifyResp.Canon` | pkg/dap/wire/aggregation.go:367-422 | an accepted answer re-encodes to the bytes read |
| `Messages.JobResp.Trip` | pkg/dap/wire/aggregation.go:429-478 | in all four variants, a well-formed response marshals and decodes to itself |
| `Messages.JobResp.Canon` | pkg/dap/wire/aggregation.go:429-478 | in all four variants, an accepted response re-encodes to exactly its bytes |
| `Messages.PingPong.Trip` | pkg/dap/wire/pingpong.go:42-101 | a ping-pong message decodes to itself |
| `Messages.PingPong.Canon` | pkg/dap/wire/pingpong.go:42-101 | an accepted ping-pong message re-encodes to exactly its bytes |
| `Messages.TaskConfig.Trip` | pkg/dap/wire/taskconfig.go:84-183 | a task configuration decodes to itself under the variant's task_info bound |
| `Messages.TaskConfig.Canon` | pkg/dap/wire/taskconfig.go:84-183 | an accepted configuration meets the variant's bound and re-encodes to the bytes read |
| `Messages.InputShareAad.Trip` | pkg/dap/wire/aggregation.go:485-523 | the associated data decodes to itself in every variant |
| `Messages.InputShareAad.Canon` | pkg/dap/wire/aggregation.go:485-523 | accepted associated data re-encodes to exactly its bytes |
| `Messages.InputShareAad.Injective` | pkg/dap/wire/aggregation.go:485-502 | within one variant, the associated data determines the task, metadata, public share and (outside Janus) the configuration |
| `Codec.Cursor.ReadLengthPrefixed` | pkg/dap/wire/types.go:367-377 | the cursor splits off what the format says, or reports failure |
| `Codec.ReadExtensionVec` | pkg/dap/wire/types.go:181-195 | the decode loop reads exactly the vector the format describes and leaves the cursor behind it |
| `Codec.ReadCiphertext` | pkg/dap/wire/types.go:210-230 | the cursor decoder agrees with the format on every input |
| `Codec.ReadMetadata` | pkg/dap/wire/types.go:248-261 | the cursor decoder agrees with the format on every input |
| `Codec.ReadVerifyInit` | pkg/dap/wire/aggregation.go:227-267 | the cursor decoder agrees with the format on every input |
| `Codec.UnmarshalInitReq` | pkg/dap/wire/aggregation.go:308-360 | the decoder, with its loop to the end of the message, accepts exactly what the format does, in every variant |
| `Codec.UnmarshalJobResp` | pkg/dap/wire/aggregation.go:454-478 | the decoder accepts exactly what the format does, in every variant |
| `Codec.UnmarshalPingPong` | pkg/dap/wire/pingpong.go:66-101 | the decoder accepts exactly what the format does, with nothing left over |
| `Codec.UnmarshalPlaintext` | pkg/dap/wire/types.go:309-324 | the decoder accepts exactly what the format does, with nothing left over |
| `Codec.UnmarshalReport` | pkg/dap/wire/types.go:281-294 | the decoder accepts exactly what the format does, with nothing left over |
| `Codec.ReadTaskConfig` | pkg/dap/wire/taskconfig.go:122-183 | the cursor decoder agrees with the format on every input and variant |
| `Codec.UnmarshalAad` | pkg/dap/wire/aggregation.go:504-523 | the decoder accepts exactly what the format does, in every variant |
| `Codec.MarshalInitReq` | pkg/dap/wire/aggregation.go:274-306 | fails exactly when a length overflows its prefix, never on a well-formed request; otherwise the encoding |
| `Codec.MarshalJobResp` | pkg/dap/wire/aggregation.go:429-452 | fails exactly when an error has no code point in the variant or a length overflows; otherwise the encoding |
| `Codec.MarshalPingPong` | pkg/dap/wire/pingpong.go:42-64 | fails exactly on an unknown type or an overlong field it carries; otherwise the encoding |
| `Codec.AddTaskConfig` | pkg/dap/wire/taskconfig.go:84-120 | fails exactly on a task_info the variant forbids or an overlong field; otherwise appends the encoding |
| `Codec.MarshalAad` | pkg/dap/wire/aggregation.go:485-502 | fails exactly on a task_info the variant forbids or an overlong field; otherwise the encoding |
| `HelperJobs.OpenShare` | pkg/dap/helper/helper.go:214-246 | the candidate loop opens with the first dialect whose associated data marshals and authenticates |
| `HelperJobs.Transition` | pkg/dap/helper/helper.go:281-296 | own preparation, both verifier shares combined, the output share or a verification failure |
| `HelperJobs.AggregateInit` | pkg/dap/helper/helper.go:184-318 | every rejection in its order, and otherwise the committed output share |
| `HelperJobs.OpenedEither` | pkg/dap/helper/helper.go:214-246 | a share opens exactly when it opens under the associated data of the request's own dialect or of the other shape, the own one first |
| `HelperJobs.InfoText` | pkg/dap/helper/helper.go:61-72 | the HPKE info string of each dialect |
| `HelperJobs.RejectedUnopened` | pkg/dap/helper/helper.go:184-246 | a foreign configuration ID or a ciphertext that does not open is rejected for just that |
| `HelperJobs.RejectedUnread` | pkg/dap/helper/helper.go:248-279 | what opens to anything but a seed without extensions, or comes with anything but a verifier share, is an invalid message |
| `HelperJobs.DecidedOnVerifiers` | pkg/dap/helper/helper.go:281-318 | every other report is decided by the sum of both verifier shares at its query point, the Helper's read off its seed's expansions |
| `Jobs.BuildInitJob` | pkg/dap/helper/helper.go:373-407 | one row and one answer per report in request order: committed with its output share, and answered continue with the finish message, exactly when it is no replay and its outcome finished; otherwise answered reject with the same error the row records |
| `Jobs.InitJobRows` | pkg/dap/helper/helper.go:373-407 | the same of the specification the interleavings run on |
| `Jobs.BuildRejectAllJob` | pkg/dap/helper/helper.go:342-371 | every report rejected and answered with the same error, in request order |
| `Jobs.OutcomeUsable` | pkg/dap/helper/helper.go:184-407 | a row is rejected only with an error of the registry, and as replayed exactly when it is |
| `Jobs.InitJobEncodes` | pkg/dap/helper/helper.go:377-407 | the response of every job built encodes under the job's variant, length prefix included |
| `Jobs.RejectAllJobEncodes` | pkg/dap/helper/helper.go:342-371 | so does the response rejecting an unknown verification key after draft-18 |
| `Store.MemStore.AddTask` | pkg/dap/helper/store.go:90-94 | registers or replaces the task, nothing else |
| `Store.MemStore.JobsForTask` | pkg/dap/helper/store.go:110-120 | every stored job of the task exactly once, in an unspecified order |
| `Store.MemStore.PutJob` | pkg/dap/helper/store.go:122-134 | stores a new job, keeps an existing one, fails exactly when the existing request hash differs |
| `Store.MemStore.ClaimReportIDs` | pkg/dap/helper/store.go:136-153 | unclaimed reports go to this job, claimed ones stay, and exactly the foreign ones are returned |
| `Store.MemStore.DeleteJob` | pkg/dap/helper/store.go:155-159 | removes the job and leaves every claim |
| `Store.ClaimingIsStable` | pkg/dap/helper/store.go:136-153 | claims never move, all requested reports end up claimed, and what counts as replayed never changes afterwards |
| `Handlers.ValidateExtensions` | pkg/dap/helper/handler.go:330-362 | passes exactly no extension on other tasks, or one leader-selected batch ID (32 bytes where the task needs it) |
| `Handlers.IsStrictlyIncreasing` | pkg/dap/wire/extensions.go:121-128 | neighbour comparisons establish strict order of all pairs |
| `Handlers.HasDuplicateReportIDs` | pkg/dap/helper/handler.go:368-378 | reports a duplicate exactly when two reports share an ID |
| `Handlers.Handler.HandleCreate` | pkg/dap/helper/handler.go:99-186 | the answer and the store after it are those of the request's store steps run without interruption, which the `Creation` rows describe |
| `Handlers.Handler.HandleJanusInit` | pkg/dap/helper/handler.go:192-260 | the same for the Janus creation route |
| `Handlers.Handler.HandleGet` | pkg/dap/helper/handler.go:278-287 | the stored response, or not found |
| `Creation.PostUnread` | pkg/dap/helper/handler.go:99-130 | no task, no request, or an unknown key before draft-19: the problem, and nothing stored |
| `Creation.PostUnknownKey` | pkg/dap/helper/handler.go:119-146 | an unknown key from draft-19 on: a stored job and an answer that reject every report for it, claiming none |
| `Creation.PostRefused` | pkg/dap/helper/handler.go:148-160 | under a known key, the first failing check names the problem, and nothing is stored |
| `Creation.PostAccepted` | pkg/dap/helper/handler.go:161-186 | a request that passes is answered with the new job's response, its rows, claims and hash as stored; or, if its job is there, with that job's response or a conflict |
| `Creation.PostExactly` | pkg/dap/helper/handler.go:99-186 | a new request under a known key gets a response exactly when its extensions suit the task, its aggregation parameter is empty and its report IDs are distinct |
| `Creation.PutUnread` | pkg/dap/helper/handler.go:192-222 | the same for PUT: no task, a task after draft-18 (405), no Janus request |
| `Creation.PutRefused` | pkg/dap/helper/handler.go:223-238 | an aggregation parameter, duplicates or no key 0: the problem, and nothing stored |
| `Creation.PutAccepted` | pkg/dap/helper/handler.go:239-260 | a PUT that passes is served as Janus under key 0 and the Leader's job ID |
| `Creation.PutExactly` | pkg/dap/helper/handler.go:192-260 | a new readable PUT gets a response exactly when those three checks pass |
| `Creation.Polled` | pkg/dap/helper/handler.go:86-92 | a poll answers with the stored job's response or not found; a deletion removes the job and leaves tasks and claims |
| `Creation.RetrySucceeds` | pkg/dap/helper/handler.go:165-185 | a creation request sent again gets the same answer and changes nothing |
| `Handlers.Handler.HandleAggregateShare` | pkg/dap/helper/handler.go:386-426 | each problem case (500 exactly when committed shares differ in length), and otherwise the element-wise field sum over all committed rows with their number, whatever the iteration order |
| `Interleavings.ServedAlone` | pkg/dap/helper/handler.go:99-260 | a handler that runs uninterrupted is one of the interleavings |
| `Interleavings.StepKeeps` | pkg/dap/helper/handler.go:99-287 | any store operation of any request keeps the store and request invariants and every claim |
| `Interleavings.RunKeeps` | pkg/dap/helper/handler.go:99-287 | the invariant holds in every state of every interleaving |
| `Interleavings.CommittedOnce` | pkg/dap/helper/store.go:136-153 | in every reachable state a (task, report) pair is committed in at most one row of one stored job, which holds its claim |
| `Interleavings.StoredAsAnswered` | pkg/dap/helper/helper.go:298-317 | in every reachable state, a row of a stored job is committed exactly when its report was answered continue |
| `Interleavings.CommittedUnderOneJob` | pkg/dap/helper/store.go:43-50 | over a whole history, deletions included, a report is only ever committed under one job ID |
| `Interleavings.StoredUntilDeleted` | pkg/dap/helper/store.go:122-159 | a stored job stays stored through a stretch of a run exactly when no deletion of it is served there |
| `Interleavings.JobStays` | pkg/dap/helper/store.go:122-159 | until then its record does not change |
| `Interleavings.DeletedByRequest` | pkg/dap/helper/handler.go:90-92 | a deletion is served only for a request to delete that job |
| `Interleavings.CommitmentStays` | pkg/dap/helper/store.go:43-50 | a committed report keeps its row, and no other row ever commits it, while its job is not deleted |
| `Interleavings.DeleteReopens` | pkg/dap/helper/store.go:47-50 | once a job that committed a report is deleted, another request under the same job ID commits the same report again |
| `Interleavings.ReplayedExactly` | pkg/dap/helper/helper.go:386-400 | report_replayed answers exactly the reports another job of the task holds |
| `Interleavings.AlwaysAnswers` | pkg/dap/helper/handler.go:293-303 | no request ends in an internal error, and every stored response decodes to itself |
| `Retries.Setting.SameAnswer` | pkg/dap/helper/handler.go:161-185 | two successful answers to one body under one job ID are equal in every interleaving, deletions included |
| `Retries.Setting.StaysSettled` | pkg/dap/helper/helper.go:377-425 | once a request's reports are claimed, the job it makes never changes |
| `Sums.SumWithout` | pkg/dap/helper/handler.go:403-422 | a field sum over a set does not depend on the order of summation |
| `Collection.HonestReport` | pkg/dap/helper/helper.go:184-318 | a faithfully delivered report finishes exactly when it measures 0 or 1, with the Helper's part as output |
| `Collection.HonestPost` | pkg/dap/helper/handler.go:99-186 | the first faithful delivery of a report, posted in a request that passes the checks, is committed with the Helper's part and answered continue if it measures 0 or 1, and rejected otherwise |
| `Vetting.Watch.CommittedGood` | pkg/dap/helper/handler.go:99-260 | what holds of the outcome of every report a request carries, read against any registration of the task, holds of every committed row |
| `Collection.ForgedReport` | pkg/dap/helper/helper.go:281-296 | a client whose shares add up to anything but 0 or 1 is accepted at no more than two query points when the Leader prepares honestly |
| `Collection.Trial.CommittedGenuine` | pkg/dap/helper/helper.go:184-318 | with an honest Leader and arbitrary clients, in every reachable state each committed report's shares add up to 0 or 1, unless a verify key puts its query point where the check is fooled |
| `Collection.Trial.FewFooled` | pkg/vdaf/flp/flp.go:135-197 | there are at most two such points for a report |
| `Collection.EntriesAreReports` | pkg/dap/helper/handler.go:403-422 | in every reachable state, summing committed rows is summing distinct committed reports |
| `Collection.Batch.ShareIsCount` | pkg/dap/helper/handler.go:403-426 | over honest reports, the Helper's sum plus the Leader's parts is exactly how many measured 1, while fewer than p are committed |

## Left out

- Prio3's XOF expansion is a parameter of `Prio3`: any function returning vectors of the length asked for. `Prio3Xof` builds it from the sponge, for streams that hold enough words below p, a condition that cannot be discharged for an arbitrary permutation.
- The polynomial identity behind the proof system is proved for every wire length in `GadgetCheck`; only its use in `Flp` is the Count instance.
- Flp.Prove: the Count circuit's one gadget and one call, where the code loops over any circuit's gadgets.
- Flp.Query: the same, and without reducing the outputs of a circuit that has several.
- A Leader share with too few elements makes the code's slicing panic; `Prio3.Count.VerifyInit` requires enough of them.
- Panics on wrong sizes in the Lagrange algorithms, and on writing to a sponge after reading, are preconditions.
- Secrecy of single shares, a statement about probability, is not part of this model; soundness is stated as a bound on the number of query points.
- The permutation inside TurboSHAKE, HPKE, and SHA-256: parameters.
- Handlers.Handler.HandleAggregateShare: does not model parsing the request body (a flag says whether it parsed), nor sealing and encoding the sum.
- Handlers run as one uninterrupted method; interleaving is modelled on values, by program counters over the same store steps, and the methods are proved to run those steps in order.
- The report, task and aggregation-job extension types share one model type: they have the same wire form.
- Integer fields of tasks and messages are unbounded where the format bounds them by their width; well-formedness states the bounds.
- The HPKE-configuration and aggregate-share messages (`hpkeconfig.go`, `aggshare.go`): they use the same field encodings and add no new format.
- Path parsing, headers, problem-document bodies, logging, unsupported-method answers, and the continuation, Leader and Collector roles.
- Job state and the stored aggregation parameter's later use: never read by the code modelled.
