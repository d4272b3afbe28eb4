# Tsetlin machines in C, with scikit-learn wrappers — a Dafny model

This project models the core of `tsetlin_machine_c`: three C engines of a
multi-class Tsetlin machine and the Python code around them.

- **Dense engine** (`tsetlin_machine.c`). It keeps one `int8_t` state per
  Tsetlin automaton (two automata per literal per clause) and one `int16_t`
  weight per clause and class. It computes clause outputs, clipped class
  votes, the type Ia, Ib and II feedback, class-index and binary-vector
  feedback, training over rows and epochs, and prediction. It saves and
  loads a packed binary file: a 27-byte header, then the weights, then the
  states.
- **Sparse engine** (`sparse_tsetlin_machine.c`). It keeps only the automata
  that matter for each clause, in a sorted singly linked list. It tracks
  per class, in a bit array, the literals seen active. It removes an
  automaton whose state falls below `sparse_min_state`, and inserts new
  automata at `sparse_init_state`.
- **Stateless engine** (`stateless_tsetlin_machine.c`). It is for inference
  only: per clause, the sorted list of the ids of the included literals.
- **Shared pieces:** the `xorshift32` generator (`fast_prng.c`), `clip` and
  `min` (`utility.h`), and the converter from a green-tsetlin machine to the
  dense file format (`gt_to_bin.py`).
- **The scikit-learn classifiers** `CTsetlinClassifier` and
  `CTsetlinSparseClassifier`. They cover the label encoder, fit,
  init_empty_state, partial_fit, reset, predict, pickling, the model-size
  estimate, and the sparse classifier's model loading.

## How it is modelled

- **Engines as classes over arrays.** Each engine is a Dafny class whose
  fields are the engine's buffers:
  - `taState`, `weights`, `clauseOutput` and `votes` are `array`s;
  - the active-literal bitmap is an `array<bv8>`;
  - each clause's linked list is an element of an `array<seq<Node>>`, with
    the C `prev` pointer as an optional position.

  Each method is proved against a specification function of the parameters
  and of a snapshot of the learned arrays (`DenseSpec`, `SparseSpec`,
  `StatelessSpec`).
- **The random draws.**
  - Clause gates and automaton coins are oracle booleans. They stand for
    the float comparisons with `s_inv`, `s_min1_inv` and the update
    probabilities.
  - The roulette draws that choose a class are oracle numbers.
  - Initialisation calls the generator for real. It compares the float with
    0.5, which is exact on the 23-bit mantissa, so the model keeps this
    comparison.
- **Integer widths.** Integers are unbounded. `int8_t`, `int16_t`,
  `int32_t`, `uint8_t` and `uint32_t` conversions are written out where the
  code performs them:
  - the state and weight saturations;
  - `mid_state` with C's truncating division;
  - the `int32_t` threshold;
  - the roulette's `int32_t` running totals, the `uint32_t` modulo of the
    draw and the fallback to class 0 when the scan never reaches the draw.

  The `uint8_t` store of `al_row_size` is the exception. It is modelled
  as written in `SparseClause.AlRowSizeAsWritten`, but
  `SparseMachine.SparseTsetlinMachine` uses the full-width row size
  `AlRowSize`, as the row under "## Findings" explains.
- **Python classifiers.** A classifier is a value `Clf`: its
  hyperparameters, whether the library is loaded, its handle and its
  learned attributes. The native library is a value `Native`: its live
  handles, the next fresh handle, each handle's header and the training
  calls each handle received. Each method of the classifier classes is
  proved against a function returning the new instance, the new library
  and the exception raised.
- **Struct layout.** The sparse classifier reads the engine's struct
  through a `ctypes` mirror. Module `StructLayout` lays out both
  declarations by the usual C rule, with 64-bit pointer sizes, to compare
  where their fields lie.

Files: `wrappers` (Option and Result), `utility`, `fast_prng`, `bytes`
(little-endian codecs), `votes` (module `Inference`), `class_selection`,
`dense_codec`, `dense_spec`, `dense_machine`, `ta_list`, `sparse_clause`,
`sparse_walk`, `sparse_spec`, `sparse_codec`, `sparse_machine`,
`stateless_spec`, `stateless_codec`, `stateless_machine`, `gt_to_bin`,
`lifecycle`, `dense_clf`, `sparse_clf`, `struct_layout`.

Where the repository's documentation and the code disagree, the model follows the code:
- The dense file header is packed at 27 bytes. There is no padding before
  `s` or before the weights.
- The dense `fit` does not free a machine it already holds. Only the sparse
  `fit` does.
- The dense `__getstate__` keeps `tm_instance_` in the pickled state. The
  sparse one drops it.

## Model

| member | source | states |
|---|---|---|
| Utility.Clip | src/tsetlin_machine_c/include/utility.h:6-10 | the result lies in [-t, t], equals x inside that range, and is the nearer bound outside it |
| Utility.ClipIdempotent | src/tsetlin_machine_c/include/utility.h:6-10 | clipping twice is clipping once |
| Utility.ClipMonotone | src/tsetlin_machine_c/include/utility.h:6-10 | clipping preserves order |
| Utility.Min | src/tsetlin_machine_c/include/utility.h:12-15 | the result is at most both arguments and is one of them |
| Utility.ToInt8 | src/tsetlin_machine_c/src/tsetlin_machine.c:451 | the conversion to `int8_t` lands in range, is congruent modulo 256, and is the identity on values already in range |
| Utility.ToInt16 | src/tsetlin_machine_c/src/tsetlin_machine.c:550-555 | the conversion to `int16_t` lands in range, is congruent modulo 2^16, and is the identity on values in range |
| Utility.ToInt32 | src/tsetlin_machine_c/src/tsetlin_machine.c:516-533 | the `(int32_t)threshold` cast lands in range, is congruent modulo 2^32, and is the identity on values in range |
| Utility.ToUint8 | src/tsetlin_machine_c/src/sparse_tsetlin_machine.c:129 | the store into a `uint8_t` field lands in [0, 256), is congruent modulo 256, and is the identity on values in range |
| Utility.ToUint32 | src/tsetlin_machine_c/src/tsetlin_machine.c:24-88 | the `uint32_t` conversion lands in range, is congruent modulo 2^32, and is the identity on values in range |
| Utility.HalfTowardZero | src/tsetlin_machine_c/src/tsetlin_machine.c:451 | C's `/ 2` truncates toward zero: the remainder has the sign of the dividend |
| FastPrng.SeedState | src/tsetlin_machine_c/src/fast_prng.c:5-8 | the seeded state is never 0; a nonzero seed is kept as is |
| FastPrng.Step | src/tsetlin_machine_c/src/fast_prng.c:11-18 | one xorshift step maps nonzero states to nonzero states and 0 to 0 |
| FastPrng.FloatBits | src/tsetlin_machine_c/src/fast_prng.c:21-40 | the float's bits have exponent 127 (a value in [1, 2)) and the state's top 23 bits as mantissa |
| FastPrng.Mantissa | src/tsetlin_machine_c/src/fast_prng.c:37 | the mantissa fits in 23 bits |
| FastPrng.AdvanceNonzero | src/tsetlin_machine_c/src/fast_prng.c:11-18 | from a nonzero state, any number of steps never reaches 0 |
| FastPrng.Prng.constructor | src/tsetlin_machine_c/src/fast_prng.c:5-8 | `prng_seed` leaves a nonzero state, the seed itself when it is nonzero |
| FastPrng.Prng.NextUint32 | src/tsetlin_machine_c/src/fast_prng.c:11-18 | returns the next state and stores it; a nonzero state stays nonzero |
| FastPrng.Prng.NextFloat | src/tsetlin_machine_c/src/fast_prng.c:21-40 | advances the state one step and returns the mantissa of the new state, which orders the floats in [0, 1) |
| Bytes.DecodeEncodeUnsigned | src/tsetlin_machine_c/src/tsetlin_machine.c:172-211 | a little-endian unsigned field of n bytes decodes to the value written |
| Bytes.EncodeDecodeUnsigned | src/tsetlin_machine_c/src/tsetlin_machine.c:111-117 | every byte string is the encoding of the value read from it |
| Bytes.DecodeEncodeSigned | src/tsetlin_machine_c/src/tsetlin_machine.c:172-211 | a two's-complement field decodes to the value written |
| Bytes.U32RoundTrip | src/tsetlin_machine_c/src/tsetlin_machine.c:172-190 | a `uint32_t` field reads back as written |
| Bytes.U8RoundTrip | src/tsetlin_machine_c/src/tsetlin_machine.c:200-205 | a `uint8_t` field reads back as written |
| Bytes.I8RoundTrip | src/tsetlin_machine_c/src/tsetlin_machine.c:191-199 | an `int8_t` field reads back as written |
| Bytes.I16RoundTrip | src/tsetlin_machine_c/src/tsetlin_machine.c:213-219 | an `int16_t` field reads back as written |
| Bytes.DecodeSignedByte | src/tsetlin_machine_c/src/tsetlin_machine.c:149-155 | whatever byte is read as a state, it is an `int8_t` |
| Bytes.DecodeSignedShort | src/tsetlin_machine_c/src/tsetlin_machine.c:140-146 | whatever two bytes are read as a weight, they are an `int16_t` |
| Bytes.DecodeInt16s | src/tsetlin_machine_c/src/tsetlin_machine.c:140-146 | reading `count` weights yields `count` `int16_t` values |
| Bytes.DecodeInt8s | src/tsetlin_machine_c/src/tsetlin_machine.c:149-155 | reading `count` states yields `count` `int8_t` values |
| Bytes.Int16sRoundTrip | src/tsetlin_machine_c/src/tsetlin_machine.c:213-219 | a block of `int16_t` weights reads back as written, whatever follows it |
| Bytes.Int8sRoundTrip | src/tsetlin_machine_c/src/tsetlin_machine.c:221-227 | a block of `int8_t` states reads back as written, whatever follows it |
| Bytes.EncodeInt16sSnoc | src/tsetlin_machine_c/src/tsetlin_machine.c:213-219 | writing one more weight appends its two bytes |
| Bytes.EncodeInt8sSnoc | src/tsetlin_machine_c/src/tsetlin_machine.c:221-227 | writing one more state appends its byte |
| Inference.ClassVotes | src/tsetlin_machine_c/src/tsetlin_machine.c:516-533 | one vote per class, each within [-threshold, threshold] |
| Inference.SilentClausesVoteZero | src/tsetlin_machine_c/src/tsetlin_machine.c:516-533 | when no clause fires, every class sums to 0 |
| Inference.SumVotes | src/tsetlin_machine_c/src/tsetlin_machine.c:516-533 | the loop leaves in `votes` the clipped sums of the weights of the firing clauses, per class |
| Inference.ArgMax | src/tsetlin_machine_c/src/tsetlin_machine.c:705-723 | the index of a maximal vote, the first one on ties |
| Inference.ClassIdx | src/tsetlin_machine_c/src/tsetlin_machine.c:705-723 | the scan returns `ArgMax` of the votes |
| Inference.BinVector | src/tsetlin_machine_c/src/tsetlin_machine.c:727-738 | class k is marked exactly when its vote exceeds `mid_state` |
| Inference.ClauseOutputExample | src/tsetlin_machine_c/src/tsetlin_machine.c:487-512 | a clause whose included literals all hold fires; one that includes a negated true literal does not |
| Inference.SumVotesExample | src/tsetlin_machine_c/src/tsetlin_machine.c:516-533 | two clauses, one firing: the votes are that clause's weights |
| ClassSelection.Weight | src/tsetlin_machine_c/src/tsetlin_machine.c:792-809 | a class's roulette weight, `clip(vote, T) + T` as an `int32_t`, lies in [0, 2T] whenever 2T fits in `int32_t` |
| ClassSelection.Pool | src/tsetlin_machine_c/src/tsetlin_machine.c:792-797 | the running total of the candidates' weights is an `int32_t` at every step |
| ClassSelection.PoolBound | src/tsetlin_machine_c/src/tsetlin_machine.c:792-797 | while `n * 2T` fits in `int32_t`, the running total never wraps: it lies in [0, n * 2T] |
| ClassSelection.Target | src/tsetlin_machine_c/src/tsetlin_machine.c:799 | the `uint32_t` draw modulo a positive total, read back as `int32_t`, lies in [0, total) |
| ClassSelection.Pick | src/tsetlin_machine_c/src/tsetlin_machine.c:776-809 | no class is picked exactly when the `int32_t` total is 0; otherwise the picked class is below `num_classes`, whether the scan stops on a candidate or falls back to class 0 |
| ClassSelection.FirstReachingFinds | src/tsetlin_machine_c/src/tsetlin_machine.c:800-808 | a draw no larger than the total always stops at some candidate while a later candidate still adds weight |
| ClassSelection.PickFindsCandidate | src/tsetlin_machine_c/src/tsetlin_machine.c:792-809 | while the total fits in `int32_t`, the draw stops at a candidate: the loop ends by its `break`, never by the class-0 fallback |
| ClassSelection.PickFallsBack | src/tsetlin_machine_c/src/tsetlin_machine.c:776-809 | with the threshold `0xFFFFFFFF` read as -1, the only candidate weighs -2, and class 0, which is not a candidate, is picked |
| ClassSelection.PickWeighted | src/tsetlin_machine_c/src/tsetlin_machine.c:792-809 | the two loops, with their `int32_t` totals and `uint32_t` modulo, return `Pick` |
| ClassSelection.SumWeights | src/tsetlin_machine_c/src/tsetlin_machine.c:792-797 | the first loop's `int32_t` accumulation returns `Pool` over all classes |
| ClassSelection.Scan | src/tsetlin_machine_c/src/tsetlin_machine.c:800-808 | the second loop returns the first candidate whose running total reaches the draw, or nothing when none does |
| DenseCodec.EncodeHeader | src/tsetlin_machine_c/src/tsetlin_machine.c:172-211 | the packed header is 27 bytes |
| DenseCodec.Encode | src/tsetlin_machine_c/src/tsetlin_machine.c:163-235 | the file is the header, two bytes per weight, then one byte per state |
| DenseCodec.DecodeHeader | src/tsetlin_machine_c/src/tsetlin_machine.c:111-126 | any 27 bytes give a header with `int8_t` states and `uint32_t` counts |
| DenseCodec.Decode | src/tsetlin_machine_c/src/tsetlin_machine.c:92-159 | a short header is reported as such; a successful load gives an image of matching sizes from a file long enough for it |
| DenseCodec.HeaderRoundTrip | src/tsetlin_machine_c/src/tsetlin_machine.c:111-126 | the header reads back as written |
| DenseCodec.HeaderIgnoresS | src/tsetlin_machine_c/src/tsetlin_machine.c:117 | the eight bytes of `s` do not affect the decoded header |
| DenseCodec.DecodeEncode | src/tsetlin_machine_c/src/tsetlin_machine.c:92-159 | `tm_load` of what `tm_save` wrote gives back the same header, weights and states, whatever follows |
| DenseCodec.DecodeTruncated | src/tsetlin_machine_c/src/tsetlin_machine.c:119-155 | a truncated file fails with a short header, short weights or short states, according to where it was cut |
| DenseSpec.MidState | src/tsetlin_machine_c/src/tsetlin_machine.c:451 | `mid_state` is an `int8_t` between `min_state` and `max_state` |
| DenseSpec.ClauseBounds | src/tsetlin_machine_c/src/tsetlin_machine.c:494-495 | a clause's automata lie inside the state array |
| DenseSpec.Clause | src/tsetlin_machine_c/src/tsetlin_machine.c:487-512 | a clause has two automata per literal |
| DenseSpec.Outputs | src/tsetlin_machine_c/src/tsetlin_machine.c:487-512 | one output per clause |
| DenseSpec.Raise | src/tsetlin_machine_c/src/tsetlin_machine.c:565-571 | a reward moves a state up by one, never past `max_state`, and only when its gate is open |
| DenseSpec.Lower | src/tsetlin_machine_c/src/tsetlin_machine.c:573-578 | a penalty moves a state down by one, never past `min_state`, and only when its coin is set |
| DenseSpec.Reinforce | src/tsetlin_machine_c/src/tsetlin_machine.c:550-555 | type I moves a weight one step away from 0, keeps its sign, and saturates at the `int16_t` bounds |
| DenseSpec.Weaken | src/tsetlin_machine_c/src/tsetlin_machine.c:617-618 | type II moves a nonzero weight one step toward 0, and a 0 weight to -1 |
| DenseSpec.TypeIIRaisesOnlyBlockers | src/tsetlin_machine_c/src/tsetlin_machine.c:620-630 | type II raises by one exactly the excluded automata whose literal would block the clause, and leaves every other state alone |
| DenseSpec.WeightAfter | src/tsetlin_machine_c/src/tsetlin_machine.c:543-631 | every feedback keeps a weight within `int16_t` |
| DenseSpec.TaAfterBounds | src/tsetlin_machine_c/src/tsetlin_machine.c:543-631 | every feedback keeps a state within `int8_t`, and within [`min_state`, `max_state`] when it started there |
| DenseSpec.ClauseStart | src/tsetlin_machine_c/src/tsetlin_machine.c:557 | clause c's block of automata ends inside the state array |
| DenseSpec.ClauseUpdatesAt | src/tsetlin_machine_c/src/tsetlin_machine.c:557-581 | literal l's pair of new states is the per-automaton feedback of its old pair, its input bit and its coins |
| DenseSpec.ClauseUpdatesWithin | src/tsetlin_machine_c/src/tsetlin_machine.c:557-581 | a clause's new states stay in `int8_t`, and in [`min_state`, `max_state`] |
| DenseSpec.ClauseFeedbackPointwise | src/tsetlin_machine_c/src/tsetlin_machine.c:543-631 | feedback on a clause changes its own automata, each by the per-automaton rule, and leaves every other entry of the array as it was |
| DenseSpec.ClauseFeedbackWithin | src/tsetlin_machine_c/src/tsetlin_machine.c:543-631 | feedback on a clause keeps the whole array in `int8_t` and in [`min_state`, `max_state`] |
| DenseSpec.WeightIndex | src/tsetlin_machine_c/src/tsetlin_machine.c:550 | `clause * num_classes + class` indexes the weight array |
| DenseSpec.ApplyToClause | src/tsetlin_machine_c/src/tsetlin_machine.c:752-765 | the dispatch of one feedback to one clause keeps the snapshot's shape |
| DenseSpec.ClassPass | src/tsetlin_machine_c/src/tsetlin_machine.c:785-789 | a pass over the clauses for one class keeps the snapshot's shape |
| DenseSpec.ApplyToClauseConsistent | src/tsetlin_machine_c/src/tsetlin_machine.c:752-765 | one feedback keeps every state in [`min_state`, `max_state`] and every weight in `int16_t` |
| DenseSpec.ClassPassConsistent | src/tsetlin_machine_c/src/tsetlin_machine.c:785-818 | a pass over the clauses keeps those bounds |
| DenseSpec.OtherClasses | src/tsetlin_machine_c/src/tsetlin_machine.c:792-809 | one candidate flag per class |
| DenseSpec.NegativeClassIsAnotherClass | src/tsetlin_machine_c/src/tsetlin_machine.c:792-809 | while `num_classes * 2T` fits in `int32_t`, the negative class is never the label's class, and some class is drawn unless all the others weigh nothing |
| DenseSpec.FeedbackClassIdx | src/tsetlin_machine_c/src/tsetlin_machine.c:770-819 | class-index feedback keeps the snapshot's shape |
| DenseSpec.Unmarked | src/tsetlin_machine_c/src/tsetlin_machine.c:821-891 | one flag per class |
| DenseSpec.FeedbackBinVector | src/tsetlin_machine_c/src/tsetlin_machine.c:821-891 | binary-vector feedback keeps the snapshot's shape |
| DenseSpec.TrainRow | src/tsetlin_machine_c/src/tsetlin_machine.c:634-651 | one training row keeps the snapshot's shape |
| DenseSpec.TrainRows | src/tsetlin_machine_c/src/tsetlin_machine.c:634-651 | one epoch keeps the snapshot's shape |
| DenseSpec.TrainEpochs | src/tsetlin_machine_c/src/tsetlin_machine.c:634-651 | training keeps the snapshot's shape |
| DenseSpec.TrainRowConsistent | src/tsetlin_machine_c/src/tsetlin_machine.c:634-651 | one row keeps states and weights in their bounds |
| DenseSpec.TrainRowsConsistent | src/tsetlin_machine_c/src/tsetlin_machine.c:634-651 | one epoch keeps them in their bounds |
| DenseSpec.TrainKeepsStatesInRange | src/tsetlin_machine_c/src/tsetlin_machine.c:634-651 | any number of epochs, on any data and draws, keeps every state in [`min_state`, `max_state`] and every weight in `int16_t` |
| DenseMachine.InitState | src/tsetlin_machine_c/src/tsetlin_machine.c:457-469 | every initial state is an `int8_t` |
| DenseMachine.InitWeight | src/tsetlin_machine_c/src/tsetlin_machine.c:472-476 | every initial weight is -1 or 1 |
| DenseMachine.InitialPairsIncludeOne | src/tsetlin_machine_c/src/tsetlin_machine.c:457-469 | of each literal's two automata, exactly one starts included |
| DenseMachine.InitPair | src/tsetlin_machine_c/src/tsetlin_machine.c:457-469 | the pair for literal p is decided by the (p+1)-th float: at most 0.5 puts the positive automaton at `mid_state - 1` and the negated one at `mid_state`, and otherwise the reverse |
| DenseMachine.TsetlinMachine.constructor | src/tsetlin_machine_c/src/tsetlin_machine.c:24-88 | `tm_create` gives a valid machine with the given parameters, seeded generator, initial states and weights from the generator, and the generator advanced by one draw per pair and per weight |
| DenseMachine.TsetlinMachine.Initialize | src/tsetlin_machine_c/src/tsetlin_machine.c:450-477 | states, then weights, are drawn in order from the generator |
| DenseMachine.TsetlinMachine.InitializeStates | src/tsetlin_machine_c/src/tsetlin_machine.c:457-469 | every state equals `InitState` of the starting generator state, and one draw is consumed per literal pair |
| DenseMachine.TsetlinMachine.InitializeClauseStates | src/tsetlin_machine_c/src/tsetlin_machine.c:459-468 | one clause's pairs are drawn in order, and earlier clauses are kept |
| DenseMachine.TsetlinMachine.InitializePair | src/tsetlin_machine_c/src/tsetlin_machine.c:460-467 | one draw sets one literal's pair, and earlier entries are kept |
| DenseMachine.TsetlinMachine.InitializeWeights | src/tsetlin_machine_c/src/tsetlin_machine.c:472-476 | every weight equals `InitWeight` of the generator state after the states, with one draw per weight |
| DenseMachine.TsetlinMachine.InitializeClauseWeights | src/tsetlin_machine_c/src/tsetlin_machine.c:473-475 | one clause's weights are drawn in order |
| DenseMachine.TsetlinMachine.CalculateClauseOutput | src/tsetlin_machine_c/src/tsetlin_machine.c:487-512 | `clause_output` holds `Outputs` of the states and the input |
| DenseMachine.TsetlinMachine.ClauseFires | src/tsetlin_machine_c/src/tsetlin_machine.c:490-510 | the scan with early exit computes whether no included literal blocks the clause, and whether the empty clause is skipped |
| DenseMachine.TsetlinMachine.TypeIaFeedback | src/tsetlin_machine_c/src/tsetlin_machine.c:543-582 | the clause's states become their type Ia update, and its weight for the class is reinforced; nothing else changes |
| DenseMachine.TsetlinMachine.TypeIaLiterals | src/tsetlin_machine_c/src/tsetlin_machine.c:557-581 | the loop over the literals writes the type Ia update of the clause |
| DenseMachine.TsetlinMachine.TypeIaLiteral | src/tsetlin_machine_c/src/tsetlin_machine.c:558-580 | one literal's pair is written |
| DenseMachine.TsetlinMachine.TypeIaPair | src/tsetlin_machine_c/src/tsetlin_machine.c:558-580 | the new pair is the type Ia update of each automaton |
| DenseMachine.TsetlinMachine.TypeIbFeedback | src/tsetlin_machine_c/src/tsetlin_machine.c:589-604 | the clause's states become their type Ib update (coin-gated penalties); weights are untouched |
| DenseMachine.TsetlinMachine.TypeIbLiterals | src/tsetlin_machine_c/src/tsetlin_machine.c:593-603 | the loop writes the type Ib update of the clause |
| DenseMachine.TsetlinMachine.TypeIbLiteral | src/tsetlin_machine_c/src/tsetlin_machine.c:594-602 | one literal's pair is written |
| DenseMachine.TsetlinMachine.TypeIIFeedback | src/tsetlin_machine_c/src/tsetlin_machine.c:614-631 | the clause's states become their type II update, and its weight is weakened |
| DenseMachine.TsetlinMachine.TypeIILiterals | src/tsetlin_machine_c/src/tsetlin_machine.c:620-630 | the loop writes the type II update of the clause |
| DenseMachine.TsetlinMachine.TypeIILiteral | src/tsetlin_machine_c/src/tsetlin_machine.c:621-629 | one literal's pair is written |
| DenseMachine.TsetlinMachine.ApplyFeedback | src/tsetlin_machine_c/src/tsetlin_machine.c:752-765 | the snapshot becomes `ApplyToClause`. When the clause's weight sign (`weight >= 0`) agrees with the class's role, a firing clause gets type Ia and a silent one type Ib. When it disagrees, a firing clause gets type II and a silent one nothing |
| DenseMachine.TsetlinMachine.FeedbackPass | src/tsetlin_machine_c/src/tsetlin_machine.c:814-818 | the loop over the clauses gives `ClassPass` |
| DenseMachine.TsetlinMachine.GatedFeedback | src/tsetlin_machine_c/src/tsetlin_machine.c:815-817 | one gated clause extends the pass by one |
| DenseMachine.TsetlinMachine.FeedbackClassIdx | src/tsetlin_machine_c/src/tsetlin_machine.c:770-819 | the snapshot becomes `FeedbackClassIdx` |
| DenseMachine.TsetlinMachine.FeedbackBinVector | src/tsetlin_machine_c/src/tsetlin_machine.c:821-891 | the snapshot becomes `FeedbackBinVector` |
| DenseMachine.TsetlinMachine.Train | src/tsetlin_machine_c/src/tsetlin_machine.c:634-651 | the snapshot becomes `TrainEpochs` of the rows, labels and draws; with `TrainKeepsStatesInRange` the bounds hold afterwards |
| DenseMachine.TsetlinMachine.TrainRow | src/tsetlin_machine_c/src/tsetlin_machine.c:637-648 | one row: the snapshot becomes `DenseSpec.TrainRow` of it, i.e. clause outputs with empty clauses kept, clipped votes, then class-index feedback, and the machine stays valid |
| DenseMachine.TsetlinMachine.Predict | src/tsetlin_machine_c/src/tsetlin_machine.c:656-670 | one prediction per row, the first class with the largest clipped vote of that row |
| DenseMachine.TsetlinMachine.PredictRow | src/tsetlin_machine_c/src/tsetlin_machine.c:659-668 | one row's class index |
| DenseMachine.TsetlinMachine.PredictBinVector | src/tsetlin_machine_c/src/tsetlin_machine.c:727-738 | per row and class, marked exactly when the vote exceeds `mid_state` |
| DenseMachine.TsetlinMachine.Save | src/tsetlin_machine_c/src/tsetlin_machine.c:163-235 | the bytes written are `Encode` of the machine's contents |
| DenseMachine.TsetlinMachine.Load | src/tsetlin_machine_c/src/tsetlin_machine.c:92-159 | loading fails exactly when the file is short, with the same error, and otherwise yields a fresh machine holding the decoded header, weights and states, whose generator is in the state `tm_create` leaves it with seed 42 |
| TaList.PrevOf | src/tsetlin_machine_c/src/sparse_tsetlin_machine.c:15-39 | the `prev` for cursor position j designates position j |
| TaList.InsertAfter | src/tsetlin_machine_c/src/sparse_tsetlin_machine.c:15-39 | `ta_state_insert` puts the node at the head (prev NULL) or right after prev, and shifts the rest by one |
| TaList.RemoveAfter | src/tsetlin_machine_c/src/sparse_tsetlin_machine.c:46-72 | `ta_state_remove` drops the head (prev NULL) or the node after prev, and leaves a list with nothing to remove unchanged |
| TaList.RemoveInsert | src/tsetlin_machine_c/src/sparse_tsetlin_machine.c:15-72 | removing after an insert at the same place gives back the list |
| TaList.InsertRemove | src/tsetlin_machine_c/src/sparse_tsetlin_machine.c:15-72 | re-inserting a removed node at its place gives back the list |
| TaList.InsertExample | src/tsetlin_machine_c/src/sparse_tsetlin_machine.c:15-39 | insertions into an empty list, at the head, at the tail and in the middle |
| TaList.RemoveExample | src/tsetlin_machine_c/src/sparse_tsetlin_machine.c:46-72 | removals from the middle, the tail and the head, down to the empty list |
| SparseClause.PruneExact | src/tsetlin_machine_c/src/sparse_tsetlin_machine.c:235-243 | building a clause's list from its dense states keeps exactly the included automata, in id order, with their states |
| SparseClause.PruneLookup | src/tsetlin_machine_c/src/sparse_tsetlin_machine.c:235-243 | automaton i is in the list, with its state, exactly when it is included |
| SparseClause.PruneNoBlock | src/tsetlin_machine_c/src/sparse_tsetlin_machine.c:411-436 | no node of the pruned list blocks the input exactly when no automaton of the dense clause does |
| SparseClause.PruneKeepsIncluded | src/tsetlin_machine_c/src/sparse_tsetlin_machine.c:235-243 | a clause with an included automaton has a nonempty list with an included node |
| SparseClause.PruneEmpty | src/tsetlin_machine_c/src/sparse_tsetlin_machine.c:235-243 | the pruned list has no including node exactly when the dense clause is empty |
| SparseClause.PruneFires | src/tsetlin_machine_c/src/sparse_tsetlin_machine.c:411-436 | a clause fires on the sparse list exactly when it fires on the dense states it was built from |
| SparseClause.SparseThresholds | src/tsetlin_machine_c/src/sparse_tsetlin_machine.c:387-391 | `sparse_min_state` is `mid_state - 40` and `sparse_init_state` is 5 above it; a new automaton starts excluded |
| SparseClause.AlRowSizeAsWritten | src/tsetlin_machine_c/src/sparse_tsetlin_machine.c:129 | the row size as stored in a `uint8_t` field is below 256 |
| SparseClause.AlRowSizeFits | src/tsetlin_machine_c/src/sparse_tsetlin_machine.c:488 | with the corrected row size, every literal's byte lies in its class's row, and the row has no spare byte |
| SparseClause.AlRowSizeAgrees | src/tsetlin_machine_c/src/sparse_tsetlin_machine.c:129 | for at most 2040 literals the stored size equals the exact one |
| SparseClause.AlRowSizeWraps | src/tsetlin_machine_c/src/sparse_tsetlin_machine.c:129 | for 2041 literals the stored size wraps to 0, so a literal's byte lands outside its row |
| SparseClause.Activate | src/tsetlin_machine_c/src/sparse_tsetlin_machine.c:497 | setting a literal's bit keeps the bitmap's size |
| SparseClause.ActivateBits | src/tsetlin_machine_c/src/sparse_tsetlin_machine.c:488-497 | after setting literal l's bit, a literal of that class is active exactly when it was before or is l |
| SparseClause.ActivateActive | src/tsetlin_machine_c/src/sparse_tsetlin_machine.c:497 | setting a bit already set changes nothing |
| SparseClause.SparseLower | src/tsetlin_machine_c/src/sparse_tsetlin_machine.c:512-514 | the penalty as written keeps an `int8_t` |
| SparseClause.SparseLowerQuirk | src/tsetlin_machine_c/src/sparse_tsetlin_machine.c:512-514 | as written, the penalty is coin-gated above `min_state` (as in the dense engine), but at or below it the comparison always subtracts 1 |
| SparseClause.ActiveRow | src/tsetlin_machine_c/src/sparse_tsetlin_machine.c:585 | one active flag per literal |
| SparseClause.ActiveRowAt | src/tsetlin_machine_c/src/sparse_tsetlin_machine.c:585 | flag l is the bit of literal l in the class's row |
| SparseClause.ListAfterSorted | src/tsetlin_machine_c/src/sparse_tsetlin_machine.c:467-611 | after any feedback the list is strictly sorted by id, below `2 * num_literals`, with `int8_t` states |
| SparseClause.ListAfterLookup | src/tsetlin_machine_c/src/sparse_tsetlin_machine.c:467-611 | after feedback each id's entry is that id's segment: updated, removed below `sparse_min_state`, inserted at `sparse_init_state`, or unchanged |
| SparseClause.ListAfterFloor | src/tsetlin_machine_c/src/sparse_tsetlin_machine.c:516-519 | no automaton stays in a list below `sparse_min_state` |
| SparseClause.ActivateMissing | src/tsetlin_machine_c/src/sparse_tsetlin_machine.c:490-499 | the bitmap keeps its size |
| SparseClause.ActivateMissingBits | src/tsetlin_machine_c/src/sparse_tsetlin_machine.c:490-499 | after type Ia, literal l of the class is active exactly when it was, or is true in X and has no positive automaton in the list |
| SparseClause.ActivateMissingOutside | src/tsetlin_machine_c/src/sparse_tsetlin_machine.c:490-499 | type Ia touches no byte outside its class's row |
| SparseSpec.Row | src/tsetlin_machine_c/src/sparse_tsetlin_machine.c:488 | class k's row lies inside the bitmap |
| SparseSpec.SparseOutputs | src/tsetlin_machine_c/src/sparse_tsetlin_machine.c:411-436 | one output per clause |
| SparseSpec.ClauseAfter | src/tsetlin_machine_c/src/sparse_tsetlin_machine.c:467-611 | a clause's list after feedback is sorted by id with `int8_t` states |
| SparseSpec.ActiveAfter | src/tsetlin_machine_c/src/sparse_tsetlin_machine.c:490-499 | the bitmap keeps its size |
| SparseSpec.SparseApply | src/tsetlin_machine_c/src/sparse_tsetlin_machine.c:732-745 | one feedback keeps the snapshot well formed |
| SparseSpec.SparseClassPass | src/tsetlin_machine_c/src/sparse_tsetlin_machine.c:785-798 | a pass over the clauses keeps it well formed |
| SparseSpec.SparseFeedbackClassIdx | src/tsetlin_machine_c/src/sparse_tsetlin_machine.c:750-799 | class-index feedback keeps it well formed |
| SparseSpec.SparseFeedbackBinVector | src/tsetlin_machine_c/src/sparse_tsetlin_machine.c:801-871 | binary-vector feedback keeps it well formed |
| SparseSpec.SparseTrainRow | src/tsetlin_machine_c/src/sparse_tsetlin_machine.c:614-631 | one row keeps it well formed |
| SparseSpec.SparseTrainRows | src/tsetlin_machine_c/src/sparse_tsetlin_machine.c:614-631 | one epoch keeps it well formed |
| SparseSpec.SparseTrainEpochs | src/tsetlin_machine_c/src/sparse_tsetlin_machine.c:614-631 | training keeps it well formed |
| SparseSpec.EmptyListsConsistent | src/tsetlin_machine_c/src/sparse_tsetlin_machine.c:93-164 | a new machine (empty lists, `int16_t` weights) satisfies the sparse invariant |
| SparseSpec.SparseApplyConsistent | src/tsetlin_machine_c/src/sparse_tsetlin_machine.c:732-745 | one feedback keeps the invariant: sorted lists, `int8_t` states at or above `sparse_min_state`, `int16_t` weights |
| SparseSpec.SparseClassPassConsistent | src/tsetlin_machine_c/src/sparse_tsetlin_machine.c:785-798 | a pass keeps the invariant |
| SparseSpec.SparseTrainRowConsistent | src/tsetlin_machine_c/src/sparse_tsetlin_machine.c:614-631 | one row keeps the invariant |
| SparseSpec.SparseTrainRowsConsistent | src/tsetlin_machine_c/src/sparse_tsetlin_machine.c:614-631 | one epoch keeps the invariant |
| SparseSpec.SparseTrainKeepsInvariant | src/tsetlin_machine_c/src/sparse_tsetlin_machine.c:614-631 | any number of epochs, on any data and draws, keeps the invariant |
| SparseSpec.LoadedLists | src/tsetlin_machine_c/src/sparse_tsetlin_machine.c:233-244 | one list per clause |
| SparseSpec.NoActiveLiterals | src/tsetlin_machine_c/src/sparse_tsetlin_machine.c:393-398 | a cleared bitmap: every byte 0 |
| SparseSpec.LoadedListExact | src/tsetlin_machine_c/src/sparse_tsetlin_machine.c:233-244 | a loaded list holds automaton i, with its dense state, exactly when it is included |
| SparseSpec.LoadedConsistent | src/tsetlin_machine_c/src/sparse_tsetlin_machine.c:168-249 | a machine loaded from a dense file satisfies the sparse invariant |
| SparseSpec.LoadedOutputsAgree | src/tsetlin_machine_c/src/sparse_tsetlin_machine.c:411-436 | the loaded sparse machine's clause outputs equal the dense machine's on every input |
| SparseCodec.EncodeList | src/tsetlin_machine_c/src/sparse_tsetlin_machine.c:311-324 | five bytes per node: the id as `uint32_t`, the state as `int8_t` |
| SparseCodec.DecodeList | src/tsetlin_machine_c/src/sparse_tsetlin_machine.c:309-331 | reading a list consumes at least its delimiter |
| SparseCodec.DecodeLists | src/tsetlin_machine_c/src/sparse_tsetlin_machine.c:309-331 | reading `count` lists yields `count` lists |
| SparseCodec.DecodeModel | src/tsetlin_machine_c/src/sparse_tsetlin_machine.c:253-338 | a decoded file has one weight per clause and class and one list per clause |
| SparseCodec.ListRoundTrip | src/tsetlin_machine_c/src/sparse_tsetlin_machine.c:309-331 | a list and its `UINT_MAX` delimiter read back as written, whatever follows |
| SparseCodec.ListsRoundTrip | src/tsetlin_machine_c/src/sparse_tsetlin_machine.c:309-331 | all lists read back as written |
| SparseCodec.ModelRoundTrip | src/tsetlin_machine_c/src/sparse_tsetlin_machine.c:253-338 | the whole file reads back as the header, weights and lists written |
| SparseCodec.EncodeListSnoc | src/tsetlin_machine_c/src/sparse_tsetlin_machine.c:311-323 | writing one more node appends its five bytes |
| SparseCodec.EncodeListsSnoc | src/tsetlin_machine_c/src/sparse_tsetlin_machine.c:309-331 | writing one more list appends it and a delimiter |
| SparseCodec.EncodeListExample | src/tsetlin_machine_c/src/sparse_tsetlin_machine.c:309-331 | the bytes of a two-node list and its delimiter |
| SparseMachine.SparseTsetlinMachine.constructor | src/tsetlin_machine_c/src/sparse_tsetlin_machine.c:93-164 | `stm_create` gives a valid machine: empty lists, a cleared bitmap, and weights drawn from the seeded generator |
| SparseMachine.SparseTsetlinMachine.Initialize | src/tsetlin_machine_c/src/sparse_tsetlin_machine.c:387-406 | clears the bitmap and draws every weight, one draw each |
| SparseMachine.SparseTsetlinMachine.InitializeWeights | src/tsetlin_machine_c/src/sparse_tsetlin_machine.c:399-405 | every weight is `InitWeight` of the starting generator state |
| SparseMachine.SparseTsetlinMachine.InitializeClauseWeights | src/tsetlin_machine_c/src/sparse_tsetlin_machine.c:400-404 | one clause's weights are drawn in order |
| SparseMachine.SparseTsetlinMachine.ClearLists | src/tsetlin_machine_c/src/sparse_tsetlin_machine.c:341-348 | every list is empty |
| SparseMachine.SparseTsetlinMachine.PruneClause | src/tsetlin_machine_c/src/sparse_tsetlin_machine.c:237-242 | the insert loop builds `Prune` of the clause's dense states |
| SparseMachine.SparseTsetlinMachine.LoadLists | src/tsetlin_machine_c/src/sparse_tsetlin_machine.c:233-244 | the lists become `LoadedLists` of the dense states |
| SparseMachine.SparseTsetlinMachine.LoadDense | src/tsetlin_machine_c/src/sparse_tsetlin_machine.c:168-249 | loading fails exactly when the dense file is short, with the same error; otherwise the machine's snapshot is the loaded one |
| SparseMachine.SparseTsetlinMachine.SaveList | src/tsetlin_machine_c/src/sparse_tsetlin_machine.c:311-323 | the node loop writes `EncodeList` |
| SparseMachine.SparseTsetlinMachine.Save | src/tsetlin_machine_c/src/sparse_tsetlin_machine.c:253-338 | the bytes written are `EncodeModel` of the header, the weights and the lists |
| SparseMachine.SparseTsetlinMachine.SaveLists | src/tsetlin_machine_c/src/sparse_tsetlin_machine.c:309-331 | the clause loop writes `EncodeLists` |
| SparseMachine.SparseTsetlinMachine.CalculateClauseOutput | src/tsetlin_machine_c/src/sparse_tsetlin_machine.c:411-436 | `clause_output` holds `SparseOutputs` of the lists |
| SparseMachine.SparseTsetlinMachine.ClauseFires | src/tsetlin_machine_c/src/sparse_tsetlin_machine.c:414-434 | the list walk with early exit computes `ListFires` |
| SparseMachine.SparseTsetlinMachine.TypeIaWalk | src/tsetlin_machine_c/src/sparse_tsetlin_machine.c:481-526 | the walk leaves the list `ListAfter` type Ia, and the bitmap `ActivateMissing` |
| SparseMachine.SparseTsetlinMachine.TypeIaStep | src/tsetlin_machine_c/src/sparse_tsetlin_machine.c:482-525 | one id of the walk keeps the walk invariant |
| SparseMachine.SparseTsetlinMachine.MarkActive | src/tsetlin_machine_c/src/sparse_tsetlin_machine.c:497 | sets literal l's bit of the row |
| SparseMachine.SparseTsetlinMachine.TypeIbWalk | src/tsetlin_machine_c/src/sparse_tsetlin_machine.c:539-562 | the walk leaves the list `ListAfter` type Ib |
| SparseMachine.SparseTsetlinMachine.TypeIbStep | src/tsetlin_machine_c/src/sparse_tsetlin_machine.c:540-561 | one node of the walk keeps the walk invariant |
| SparseMachine.SparseTsetlinMachine.TypeIIWalk | src/tsetlin_machine_c/src/sparse_tsetlin_machine.c:580-610 | the walk leaves the list `ListAfter` type II for the class's active literals |
| SparseMachine.SparseTsetlinMachine.TypeIIStep | src/tsetlin_machine_c/src/sparse_tsetlin_machine.c:581-609 | one id of the walk keeps the walk invariant |
| SparseMachine.SparseTsetlinMachine.TypeIIMissing | src/tsetlin_machine_c/src/sparse_tsetlin_machine.c:588-600 | a missing id is inserted at `sparse_init_state` exactly when the literal is active and either the automaton is positive (even id) or the literal's input is 1; a positive automaton is so inserted even when its input is 1, where an existing node would not be raised (that needs `i % 2 == x`) |
| SparseMachine.SparseTsetlinMachine.LiteralActive | src/tsetlin_machine_c/src/sparse_tsetlin_machine.c:585 | reads literal l's bit of the row |
| SparseMachine.SparseTsetlinMachine.TypeIaFeedback | src/tsetlin_machine_c/src/sparse_tsetlin_machine.c:467-527 | reinforces the weight, rewrites the clause's list and sets the missing bits; nothing else changes |
| SparseMachine.SparseTsetlinMachine.TypeIbFeedback | src/tsetlin_machine_c/src/sparse_tsetlin_machine.c:534-563 | rewrites the clause's list only |
| SparseMachine.SparseTsetlinMachine.TypeIIFeedback | src/tsetlin_machine_c/src/sparse_tsetlin_machine.c:573-611 | weakens the weight and rewrites the clause's list |
| SparseMachine.SparseTsetlinMachine.ReinforceWeight | src/tsetlin_machine_c/src/sparse_tsetlin_machine.c:473-478 | one weight reinforced, the rest unchanged |
| SparseMachine.SparseTsetlinMachine.WeakenWeight | src/tsetlin_machine_c/src/sparse_tsetlin_machine.c:573-611 | one weight weakened, the rest unchanged |
| SparseMachine.SparseTsetlinMachine.ClassRow | src/tsetlin_machine_c/src/sparse_tsetlin_machine.c:488 | the class's row start, with room for the row |
| SparseMachine.SparseTsetlinMachine.ApplyFeedback | src/tsetlin_machine_c/src/sparse_tsetlin_machine.c:732-745 | the snapshot becomes `SparseApply`, which dispatches on the weight sign as the dense engine does: type Ia or Ib when `weight >= 0` agrees with the class's role, type II for a firing clause otherwise |
| SparseMachine.SparseTsetlinMachine.FeedbackPass | src/tsetlin_machine_c/src/sparse_tsetlin_machine.c:785-798 | the loop gives `SparseClassPass` |
| SparseMachine.SparseTsetlinMachine.GatedFeedback | src/tsetlin_machine_c/src/sparse_tsetlin_machine.c:786-790 | one gated clause extends the pass by one |
| SparseMachine.SparseTsetlinMachine.FeedbackClassIdx | src/tsetlin_machine_c/src/sparse_tsetlin_machine.c:750-799 | the snapshot becomes `SparseFeedbackClassIdx` |
| SparseMachine.SparseTsetlinMachine.FeedbackBinVector | src/tsetlin_machine_c/src/sparse_tsetlin_machine.c:801-871 | the snapshot becomes `SparseFeedbackBinVector` |
| SparseMachine.SparseTsetlinMachine.Train | src/tsetlin_machine_c/src/sparse_tsetlin_machine.c:614-631 | the snapshot becomes `SparseTrainEpochs`; with `SparseTrainKeepsInvariant` the invariant holds afterwards |
| SparseMachine.SparseTsetlinMachine.TrainRow | src/tsetlin_machine_c/src/sparse_tsetlin_machine.c:617-628 | one row: the snapshot becomes `SparseSpec.SparseTrainRow` of it (outputs with empty clauses kept, clipped votes, class-index feedback), and the machine stays valid |
| SparseMachine.SparseTsetlinMachine.Predict | src/tsetlin_machine_c/src/sparse_tsetlin_machine.c:636-650 | one prediction per row, the first class with the largest vote |
| SparseMachine.SparseTsetlinMachine.PredictRow | src/tsetlin_machine_c/src/sparse_tsetlin_machine.c:639-648 | one row's class index |
| SparseMachine.SparseTsetlinMachine.PredictBinVector | src/tsetlin_machine_c/src/sparse_tsetlin_machine.c:707-718 | per row and class, marked exactly when the vote exceeds `mid_state` |
| StatelessSpec.PruneIdsExact | src/tsetlin_machine_c/src/stateless_tsetlin_machine.c:250-261 | a clause's id list is sorted and holds exactly the included automata |
| StatelessSpec.PruneIdsOfPrune | src/tsetlin_machine_c/src/stateless_tsetlin_machine.c:250-261 | the stateless list is the sparse list without the states |
| StatelessSpec.PruneIdsFire | src/tsetlin_machine_c/src/stateless_tsetlin_machine.c:409-435 | a clause fires on its id list exactly when it fires on the dense states (empty clauses skipped) |
| StatelessSpec.IdsOutputs | src/tsetlin_machine_c/src/stateless_tsetlin_machine.c:409-435 | one output per clause |
| StatelessSpec.LoadedIds | src/tsetlin_machine_c/src/stateless_tsetlin_machine.c:250-261 | one id list per clause |
| StatelessSpec.LoadedIdsExact | src/tsetlin_machine_c/src/stateless_tsetlin_machine.c:250-261 | a loaded list is sorted and holds id i exactly when automaton i is included |
| StatelessSpec.LoadedIdsSorted | src/tsetlin_machine_c/src/stateless_tsetlin_machine.c:250-261 | every loaded list is sorted |
| StatelessSpec.LoadedIdsOfSparse | src/tsetlin_machine_c/src/stateless_tsetlin_machine.c:250-261 | the loaded lists are the sparse engine's loaded lists without the states |
| StatelessSpec.LoadedIdsOutputs | src/tsetlin_machine_c/src/stateless_tsetlin_machine.c:409-435 | the loaded machine's clause outputs equal the dense machine's on every input |
| StatelessCodec.EncodeIds | src/tsetlin_machine_c/src/stateless_tsetlin_machine.c:327-343 | four bytes per id |
| StatelessCodec.DecodeIds | src/tsetlin_machine_c/src/stateless_tsetlin_machine.c:327-343 | reading a list consumes at least its delimiter |
| StatelessCodec.DecodeIdLists | src/tsetlin_machine_c/src/stateless_tsetlin_machine.c:327-343 | reading `count` lists yields `count` lists |
| StatelessCodec.DecodeIdModel | src/tsetlin_machine_c/src/stateless_tsetlin_machine.c:271-351 | a decoded file has one weight per clause and class and one list per clause |
| StatelessCodec.IdsRoundTrip | src/tsetlin_machine_c/src/stateless_tsetlin_machine.c:327-343 | an id list and its delimiter read back as written |
| StatelessCodec.IdListsRoundTrip | src/tsetlin_machine_c/src/stateless_tsetlin_machine.c:327-343 | all lists read back as written |
| StatelessCodec.IdModelRoundTrip | src/tsetlin_machine_c/src/stateless_tsetlin_machine.c:271-351 | the whole file reads back as the header, weights and lists written |
| StatelessCodec.EncodeIdsSnoc | src/tsetlin_machine_c/src/stateless_tsetlin_machine.c:327-343 | writing one more id appends four bytes |
| StatelessCodec.EncodeIdListsSnoc | src/tsetlin_machine_c/src/stateless_tsetlin_machine.c:327-343 | writing one more list appends it and a delimiter |
| StatelessCodec.EncodeIdListsExample | src/tsetlin_machine_c/src/stateless_tsetlin_machine.c:327-343 | the bytes of two lists, one empty |
| StatelessMachine.StatelessTsetlinMachine.constructor | src/tsetlin_machine_c/src/stateless_tsetlin_machine.c:102-168 | a valid machine with the given parameters and empty lists |
| StatelessMachine.StatelessTsetlinMachine.FreeLists | src/tsetlin_machine_c/src/stateless_tsetlin_machine.c:356-363 | every list is empty |
| StatelessMachine.StatelessTsetlinMachine.PruneClause | src/tsetlin_machine_c/src/stateless_tsetlin_machine.c:252-260 | the insert loop builds `PruneIds` of the clause |
| StatelessMachine.StatelessTsetlinMachine.LoadLists | src/tsetlin_machine_c/src/stateless_tsetlin_machine.c:250-261 | the lists become `LoadedIds` |
| StatelessMachine.StatelessTsetlinMachine.LoadDense | src/tsetlin_machine_c/src/stateless_tsetlin_machine.c:184-266 | loading fails exactly when the dense file is short; otherwise the machine has the file's header and weights and the loaded id lists |
| StatelessMachine.StatelessTsetlinMachine.SaveIds | src/tsetlin_machine_c/src/stateless_tsetlin_machine.c:328-337 | the node loop writes `EncodeIds` |
| StatelessMachine.StatelessTsetlinMachine.Save | src/tsetlin_machine_c/src/stateless_tsetlin_machine.c:271-351 | the bytes written are `EncodeIdModel` |
| StatelessMachine.StatelessTsetlinMachine.SaveIdLists | src/tsetlin_machine_c/src/stateless_tsetlin_machine.c:327-343 | the clause loop writes `EncodeIdLists` |
| StatelessMachine.StatelessTsetlinMachine.CalculateClauseOutput | src/tsetlin_machine_c/src/stateless_tsetlin_machine.c:409-435 | `clause_output` holds `IdsOutputs` |
| StatelessMachine.StatelessTsetlinMachine.ClauseFires | src/tsetlin_machine_c/src/stateless_tsetlin_machine.c:412-433 | the walk computes `IdsFire` |
| StatelessMachine.StatelessTsetlinMachine.Predict | src/tsetlin_machine_c/src/stateless_tsetlin_machine.c:467-483 | one prediction per row, the first class with the largest vote |
| StatelessMachine.StatelessTsetlinMachine.PredictBinVector | src/tsetlin_machine_c/src/stateless_tsetlin_machine.c:545-556 | per row and class, marked exactly when the vote exceeds `mid_state` |
| GtToBin.SourceIndex | src/tsetlin_machine_py/gt_to_bin.py:20 | the reordering reads every position of a row from within the row |
| GtToBin.TargetIndex | src/tsetlin_machine_py/gt_to_bin.py:20 | every position of a row goes somewhere in the row |
| GtToBin.IndexInverse | src/tsetlin_machine_py/gt_to_bin.py:20 | the two index maps are inverse bijections |
| GtToBin.ReorderRow | src/tsetlin_machine_py/gt_to_bin.py:20 | a reordered clause has two automata per literal |
| GtToBin.UnorderRow | src/tsetlin_machine_py/gt_to_bin.py:20 | the inverse reordering keeps the size |
| GtToBin.ReorderRowAt | src/tsetlin_machine_py/gt_to_bin.py:20 | position 2l+p of the reordered row is position p * n_literals + l of the original: the literal-major interleaving the engines expect |
| GtToBin.UnorderReorder | src/tsetlin_machine_py/gt_to_bin.py:20 | reordering loses nothing |
| GtToBin.ReorderUnorder | src/tsetlin_machine_py/gt_to_bin.py:20 | every engine row is the reordering of some green-tsetlin row |
| GtToBin.FlattenSize | src/tsetlin_machine_py/gt_to_bin.py:46-47 | `tobytes` of a rectangular array writes every cell |
| GtToBin.ReorderAll | src/tsetlin_machine_py/gt_to_bin.py:20 | every clause is reordered to width `2 * n_literals` |
| GtToBin.CastInt16s | src/tsetlin_machine_py/gt_to_bin.py:46 | `astype(int16)` keeps the count, lands in range, and is the identity on values in range |
| GtToBin.CastInt8s | src/tsetlin_machine_py/gt_to_bin.py:47 | `astype(int8)` keeps the count, lands in range, and is the identity on values in range |
| GtToBin.GtImage | src/tsetlin_machine_py/gt_to_bin.py:8-47 | the converted machine is a valid dense image |
| GtToBin.SaveToBin | src/tsetlin_machine_py/gt_to_bin.py:8-47 | the conversion fails exactly when a count does not fit in `uint32`; otherwise the file has the dense size and the dense loader reads it back as the converted machine |
| GtToBin.GtClause | src/tsetlin_machine_py/gt_to_bin.py:19-20 | clause c of the loaded machine is the `int8` cast of the reordered green-tsetlin clause c |
| GtToBin.GtClauseAt | src/tsetlin_machine_py/gt_to_bin.py:19-20 | the loaded automaton 2l+p of clause c is the green-tsetlin automaton at p * n_literals + l |
| GtToBin.GtWeightAt | src/tsetlin_machine_py/gt_to_bin.py:18 | the loaded weight of clause c and class k is the green-tsetlin weight cast to `int16` |
| Lifecycle.InsertSorted | src/tsetlin_machine_py/c_tsetlin_clf.py:217-222 | inserting a label into the encoder's classes keeps them strictly increasing and adds exactly that label |
| Lifecycle.Unique | src/tsetlin_machine_py/c_tsetlin_clf.py:217-223 | `LabelEncoder.fit` gives the distinct labels, strictly increasing |
| Lifecycle.Range | src/tsetlin_machine_py/c_tsetlin_sparse_clf.py:266-270 | the classes of a loaded model are 0 to n_classes-1 |
| Lifecycle.IndexOf | src/tsetlin_machine_py/c_tsetlin_clf.py:374-377 | a known label's position holds that label |
| Lifecycle.Transform | src/tsetlin_machine_py/c_tsetlin_clf.py:374-377 | encoding succeeds exactly when every label is a known class, and maps each label to its class's position |
| Lifecycle.InverseTransform | src/tsetlin_machine_py/c_tsetlin_clf.py:469 | decoding succeeds exactly when every position is in range, and yields known classes |
| Lifecycle.TransformRoundTrip | src/tsetlin_machine_py/c_tsetlin_clf.py:217-223 | labels seen at fit encode and decode back to themselves |
| Lifecycle.InverseTransformRoundTrip | src/tsetlin_machine_py/c_tsetlin_clf.py:469 | positions decode and encode back to themselves |
| Lifecycle.CreateHeader | src/tsetlin_machine_py/c_tsetlin_clf.py:236-248 | `tm_create` receives the feature count as literals, the class count and the clause count |
| Lifecycle.FromHeader | src/tsetlin_machine_py/c_tsetlin_sparse_clf.py:249-272 | attributes taken from a loaded machine are consistent, with classes 0 to n_classes-1 |
| Lifecycle.Allocated | src/tsetlin_machine_c/src/tsetlin_machine.c:24-88 | a created machine gets a handle distinct from every live one |
| Lifecycle.Released | src/tsetlin_machine_c/src/tsetlin_machine.c:420-447 | a freed handle is no longer live |
| Lifecycle.Trained | src/tsetlin_machine_c/src/tsetlin_machine.c:634-651 | a training call is recorded against its handle only |
| Lifecycle.Backend.constructor | src/tsetlin_machine_py/c_tsetlin_clf.py:87-122 | a freshly loaded library holds no machine |
| Lifecycle.Backend.Create | src/tsetlin_machine_c/src/tsetlin_machine.c:24-88 | a create returns a fresh handle, or NULL and no change |
| Lifecycle.Backend.Free | src/tsetlin_machine_c/src/tsetlin_machine.c:420-447 | a free releases the handle |
| Lifecycle.Backend.Train | src/tsetlin_machine_c/src/tsetlin_machine.c:634-651 | a training call is recorded |
| Lifecycle.HandleChecks | src/tsetlin_machine_py/c_tsetlin_clf.py:359-372 | `partial_fit` on an existing machine passes exactly when the column count and any `classes` argument match what was learned |
| Lifecycle.TrainStepConsistent | src/tsetlin_machine_py/c_tsetlin_clf.py:373-395 | training leaves the classes as they were |
| Lifecycle.PredictLabels | src/tsetlin_machine_py/c_tsetlin_clf.py:432-470 | `predict` succeeds exactly on a fitted instance with a machine, binary rows of the learned width and engine indices in range; it then returns one known class per row whose encoding is the engine's index, and changes nothing learned |
| DenseClassifier.EstimateModelSize | src/tsetlin_machine_py/c_tsetlin_clf.py:483-538 | the estimate is available exactly when the feature and class counts are known |
| DenseClassifier.EstimateCoversModelFile | src/tsetlin_machine_py/c_tsetlin_clf.py:483-538 | the estimate is the bytes of the states and weights the file holds, plus one clause-output byte per clause, a three-byte feedback entry per weight and a four-byte vote per class |
| DenseClassifier.FitChecksFirst | src/tsetlin_machine_py/c_tsetlin_clf.py:207-228 | non-binary or empty input, or fewer than two classes, raises ValueError before any machine is created |
| DenseClassifier.FitNullHandle | src/tsetlin_machine_py/c_tsetlin_clf.py:236-250 | a NULL from `tm_create` raises RuntimeError with no live machine recorded |
| DenseClassifier.FitFresh | src/tsetlin_machine_py/c_tsetlin_clf.py:192-264 | a successful fit creates one new machine with the encoded labels, trains it once on the rows, sets the learned attributes, and leaves an old machine live |
| DenseClassifier.PartialFitInPlace | src/tsetlin_machine_py/c_tsetlin_clf.py:327-395 | `partial_fit` on an existing machine trains that machine with the encoded labels and the given or default epochs, and allocates nothing |
| DenseClassifier.PartialFitMismatch | src/tsetlin_machine_py/c_tsetlin_clf.py:359-372 | a column or `classes` mismatch raises ValueError and changes nothing |
| DenseClassifier.PartialFitFirstCall | src/tsetlin_machine_py/c_tsetlin_clf.py:356-358 | the first `partial_fit` is `init_empty_state` with the given classes or the labels seen, then a training step |
| DenseClassifier.ResetIdempotent | src/tsetlin_machine_py/c_tsetlin_clf.py:397-430 | `reset` frees the machine and clears the learned attributes; a second reset changes nothing |
| DenseClassifier.PickleKeepsHandle | src/tsetlin_machine_py/c_tsetlin_clf.py:173-190 | unpickling gives back the same instance, handle included, with the library not loaded |
| DenseClassifier.KeepsConsistent | src/tsetlin_machine_py/c_tsetlin_clf.py:192-430 | fit, init_empty_state, partial_fit and reset all leave consistent learned attributes |
| DenseClassifier.PartialFitConsistent | src/tsetlin_machine_py/c_tsetlin_clf.py:327-395 | partial_fit leaves consistent learned attributes |
| DenseClassifier.InitConsistent | src/tsetlin_machine_py/c_tsetlin_clf.py:266-324 | init_empty_state leaves consistent learned attributes |
| DenseClassifier.CTsetlinClassifier.constructor | src/tsetlin_machine_py/c_tsetlin_clf.py:58-85 | a new instance has no machine and no learned attribute |
| DenseClassifier.CTsetlinClassifier.FromState | src/tsetlin_machine_py/c_tsetlin_clf.py:183-190 | an unpickled instance is `SetState` of the state |
| DenseClassifier.CTsetlinClassifier.GetPickledState | src/tsetlin_machine_py/c_tsetlin_clf.py:173-181 | the pickled state is `GetState` of the instance |
| DenseClassifier.CTsetlinClassifier.InitEmptyState | src/tsetlin_machine_py/c_tsetlin_clf.py:266-324 | the instance and the library become `InitSpec` |
| DenseClassifier.CTsetlinClassifier.Fit | src/tsetlin_machine_py/c_tsetlin_clf.py:192-264 | the instance and the library become `FitSpec` |
| DenseClassifier.CTsetlinClassifier.PartialFit | src/tsetlin_machine_py/c_tsetlin_clf.py:327-395 | the instance and the library become `PartialFitSpec` |
| DenseClassifier.CTsetlinClassifier.Predict | src/tsetlin_machine_py/c_tsetlin_clf.py:432-470 | the instance and the result become `PredictSpec` |
| DenseClassifier.CTsetlinClassifier.Reset | src/tsetlin_machine_py/c_tsetlin_clf.py:397-430 | the instance and the library become `ResetSpec` |
| SparseClassifier.UpdateFromHeader | src/tsetlin_machine_py/c_tsetlin_sparse_clf.py:249-272 | reading the machine's parameters back keeps the handle, the library flag and the epochs |
| SparseClassifier.EstimateModelSize | src/tsetlin_machine_py/c_tsetlin_sparse_clf.py:644-701 | the estimate is available exactly when there is a machine and a class count; without a machine it is RuntimeError |
| SparseClassifier.PruneLength | src/tsetlin_machine_c/src/sparse_tsetlin_machine.c:233-244 | a clause built from n automata has at most n nodes |
| SparseClassifier.TotalNodesBound | src/tsetlin_machine_c/src/sparse_tsetlin_machine.c:233-244 | the node count over all clause lists, the intended `total_literals`, is at most the number of clauses times the per-clause bound |
| SparseClassifier.LoadedListsShort | src/tsetlin_machine_c/src/sparse_tsetlin_machine.c:233-244 | a loaded clause has at most `2 * num_literals` nodes |
| SparseClassifier.ModelBytesMonotone | src/tsetlin_machine_py/c_tsetlin_sparse_clf.py:644-701 | the estimate grows with the node count |
| SparseClassifier.LoadedEstimateBound | src/tsetlin_machine_py/c_tsetlin_sparse_clf.py:665-701 | with `total_literals` taken as the node count, as intended (see "## Findings"), a loaded machine's estimate is at most that of one holding every automaton |
| StructLayout.AlignUp | src/tsetlin_machine_c/include/sparse_tsetlin_machine.h:19-43 | a field starts at the first offset at or after the previous field's end that its alignment allows, less than one alignment further |
| StructLayout.OffsetAt | src/tsetlin_machine_c/include/sparse_tsetlin_machine.h:19-43 | a field lies at or after the end of the fields before it, less than its size past that end, and ends where the layout up to it ends |
| StructLayout.EndMonotone | src/tsetlin_machine_c/include/sparse_tsetlin_machine.h:19-43 | the layout's end never shrinks as fields are added |
| StructLayout.NoOverlap | src/tsetlin_machine_c/include/sparse_tsetlin_machine.h:19-43 | no two fields overlap: each ends before any later one starts |
| StructLayout.SamePrefix | src/tsetlin_machine_c/include/sparse_tsetlin_machine.h:19-43 | two declarations that begin with the same fields place those fields at the same offsets |
| StructLayout.SharedPrefix | src/tsetlin_machine_py/c_tsetlin_sparse_clf.py:20-40 | the `ctypes` mirror and the engine's struct agree field for field up to `mid_state`, at the same offsets |
| StructLayout.EngineEnds | src/tsetlin_machine_c/include/sparse_tsetlin_machine.h:19-43 | the engine's fields up to `mid_state` end at byte 65; `s_min1_inv` lies at 72 and `ta_state` at 80 |
| StructLayout.ClauseSizesSlot | src/tsetlin_machine_py/c_tsetlin_sparse_clf.py:37-39 | the mirror's `clause_sizes` pointer lies at offset 72, where the engine keeps the 4-byte `s_min1_inv` followed by padding up to `ta_state` at 80, and the engine declares no `clause_sizes` |
| SparseClassifier.FitChecksFirst | src/tsetlin_machine_py/c_tsetlin_sparse_clf.py:288-309 | bad input or fewer than two classes raises ValueError before the old machine is touched |
| SparseClassifier.FitFreesOld | src/tsetlin_machine_py/c_tsetlin_sparse_clf.py:316-347 | fit frees the old machine, then creates one new machine and trains it once on the rows, or raises RuntimeError on NULL |
| SparseClassifier.PartialFitInPlace | src/tsetlin_machine_py/c_tsetlin_sparse_clf.py:411-469 | `partial_fit` on an existing machine trains that machine and allocates nothing |
| SparseClassifier.PartialFitMismatch | src/tsetlin_machine_py/c_tsetlin_sparse_clf.py:443-447 | a column or `classes` mismatch raises ValueError and changes nothing |
| SparseClassifier.ResetIdempotent | src/tsetlin_machine_py/c_tsetlin_sparse_clf.py:471-489 | `reset` frees the machine and clears the learned attributes; a second reset changes nothing |
| SparseClassifier.PickleDropsHandle | src/tsetlin_machine_py/c_tsetlin_sparse_clf.py:231-247 | unpickling drops the handle, so predicting on the copy reaches the engine with a NULL machine |
| SparseClassifier.LoadDenseResult | src/tsetlin_machine_py/c_tsetlin_sparse_clf.py:547-577 | loading frees the old machine; a short file raises RuntimeError with no machine; otherwise a new machine with the file's header, hyperparameters read back from it and classes 0 to n_classes-1 |
| SparseClassifier.FbsMissing | src/tsetlin_machine_py/c_tsetlin_sparse_clf.py:578-632 | a library without the FlatBuffers entry points raises NotImplementedError and changes nothing; an unfitted save raises NotFittedError first |
| SparseClassifier.LoadFbsAsDense | src/tsetlin_machine_py/c_tsetlin_sparse_clf.py:600-632 | a FlatBuffers load that yields a header behaves as a dense load of a file with that header |
| SparseClassifier.KeepsConsistent | src/tsetlin_machine_py/c_tsetlin_sparse_clf.py:273-632 | fit, init_empty_state, partial_fit, reset and the loads all leave consistent learned attributes |
| SparseClassifier.PartialFitConsistent | src/tsetlin_machine_py/c_tsetlin_sparse_clf.py:411-469 | partial_fit leaves consistent learned attributes |
| SparseClassifier.InitConsistent | src/tsetlin_machine_py/c_tsetlin_sparse_clf.py:350-409 | init_empty_state leaves consistent learned attributes |
| SparseClassifier.CTsetlinSparseClassifier.constructor | src/tsetlin_machine_py/c_tsetlin_sparse_clf.py:81-111 | a new instance has no machine and no learned attribute |
| SparseClassifier.CTsetlinSparseClassifier.FromState | src/tsetlin_machine_py/c_tsetlin_sparse_clf.py:241-247 | an unpickled instance is `SetState` of the state |
| SparseClassifier.CTsetlinSparseClassifier.GetPickledState | src/tsetlin_machine_py/c_tsetlin_sparse_clf.py:231-240 | the pickled state is `GetState` of the instance |
| SparseClassifier.CTsetlinSparseClassifier.InitEmptyState | src/tsetlin_machine_py/c_tsetlin_sparse_clf.py:350-409 | the instance and the library become `InitSpec` |
| SparseClassifier.CTsetlinSparseClassifier.Fit | src/tsetlin_machine_py/c_tsetlin_sparse_clf.py:273-348 | the instance and the library become `FitSpec` |
| SparseClassifier.CTsetlinSparseClassifier.PartialFit | src/tsetlin_machine_py/c_tsetlin_sparse_clf.py:411-469 | the instance and the library become `PartialFitSpec` |
| SparseClassifier.CTsetlinSparseClassifier.Predict | src/tsetlin_machine_py/c_tsetlin_sparse_clf.py:490-528 | the instance and the result become `PredictSpec` |
| SparseClassifier.CTsetlinSparseClassifier.Reset | src/tsetlin_machine_py/c_tsetlin_sparse_clf.py:471-489 | the instance and the library become `ResetSpec` |
| SparseClassifier.CTsetlinSparseClassifier.UpdateFromCModel | src/tsetlin_machine_py/c_tsetlin_sparse_clf.py:249-272 | with a machine, the attributes are read back from its header; without one nothing changes |
| SparseClassifier.CTsetlinSparseClassifier.Adopt | src/tsetlin_machine_py/c_tsetlin_sparse_clf.py:568-576 | adopting a loaded machine, or raising RuntimeError on NULL, is `AdoptSpec` |
| SparseClassifier.CTsetlinSparseClassifier.LoadModelDense | src/tsetlin_machine_py/c_tsetlin_sparse_clf.py:547-577 | the instance and the library become `LoadDenseSpec` |
| SparseClassifier.CTsetlinSparseClassifier.LoadModelFbs | src/tsetlin_machine_py/c_tsetlin_sparse_clf.py:600-632 | the instance and the library become `LoadFbsSpec` |
| SparseClassifier.CTsetlinSparseClassifier.SaveModelFbs | src/tsetlin_machine_py/c_tsetlin_sparse_clf.py:578-599 | the fitted check, then NotImplementedError without the entry point |

## Left out

- Random draws. The float comparisons with `s_inv`, `s_min1_inv` and the
  class update probabilities are oracle booleans, and the roulette draws
  are oracle numbers. So the model says nothing about which way they fall,
  how many generator draws training consumes, or the state of the
  generator after training.
- The `s` hyperparameter and all floating point. The dense file carries `s`
  as eight opaque bytes.
- `tm_save`, `stm_save` (sparse_tsetlin_machine.c:297) and `sltm_save`
  (stateless_tsetlin_machine.c:315) write `sizeof(double)` bytes starting at a `float` field. The
  model treats the eight bytes as given.
- The update probability computed from `votes[negative_class]` in the
  positive half of `tm_feedback_bin_vector` (tsetlin_machine.c:851). Only
  the probability is affected, and that is an oracle here.
- Integer overflow:
  - of the `uint32_t` size products in the create and load functions;
  - of the `int32_t` vote sums before clipping (sums are unbounded here).
- Allocation failure inside the engines. The engines' create and load
  always succeed in the model. Only the classifiers' view of a NULL handle
  is modelled.
- File I/O: opening, partial writes and `fclose`.
  - A save is the byte string it writes.
  - A load is a function of the file's bytes.
  - `gt_to_bin.save_to_bin` leaving a partial file on an overflowing count
    is not modelled. The model returns no bytes instead.
- Function pointers. `output_activation` and `calculate_feedback` are fixed
  to the class-index functions for `Train` and `Predict`. The binary-vector
  variants are their own methods.
- `y_size` and the `exit(1)` paths on an unsupported label size.
- The `*_evaluate` functions and the FlatBuffers serialisers and
  deserialisers in C. The classifiers see a FlatBuffers load only through
  the header it yields.
- Decoders for the sparse and stateless formats. Neither engine has a
  loader for its own format. The codec modules define the inverse and prove
  the round trip.
- Node identity and pointer aliasing. Each linked list is a sequence, and
  `prev` is a position in it. `free` of nodes and of whole machines is
  `ClearLists`/`FreeLists` or the library's `Released`.
- The stateless engine leaves its weights uninitialised after
  `sltm_create`. The model's constructor does not constrain them.
- The sklearn and ctypes glue:
  - `check_X_y` and `check_array` conversion, beyond "at least one row and
    column, only 0s and 1s";
  - parameter-constraint validation;
  - the OSError when the library cannot be found;
  - ctypes argument truncation;
  - `_fit_context`;
  - the `check_is_fitted` test, modelled on `is_fitted_` only.
- `__del__`. The dense one looks for `_tm_instance`, which never holds a
  handle (`__setstate__` sets it to `None`), so it frees nothing. The sparse one is not modelled either.
- The sparse classifier's `save_model`. It is a plain call to `stm_save`,
  modelled by `SparseTsetlinMachine.Save`.
- PredictLabels: the indices the engine writes for the rows are the
  parameter `ks`. The engines' `Predict` methods state separately what
  those indices are.
- SparseClassifier.EstimateModelSize: `total_literals` is a parameter.
  The code reads it through a pointer the engine's struct does not have,
  as the row under "## Findings" shows, so the model does not say what
  value it takes. `LoadedEstimateBound` bounds the intended value, the
  number of list nodes, for a loaded machine.
- DenseSpec.NegativeClassIsAnotherClass: proved only while
  `num_classes * 2 * T` fits in `int32_t`. Beyond that, the running total
  wraps. The scan may then never reach the draw and fall back to class 0,
  which can be the label's own class. `ClassSelection.PickFallsBack` shows
  one such input: a threshold of `0xFFFFFFFF`, read as -1.

## Findings

| source | as written | input that shows it | evidently intended | confidence | as-written member | corrected member |
|---|---|---|---|---|---|---|
| src/tsetlin_machine_c/src/sparse_tsetlin_machine.c:129 | `al_row_size = (num_literals - 1) / 8 + 1` is stored in a `uint8_t` field, so it wraps modulo 256 | `num_literals = 2041`: the stored row size is 0, so every class's row of the active-literal bitmap starts at byte 0, and literal 2040's byte (255) is outside every row | the row size `(num_literals - 1) / 8 + 1` kept at full width, so every literal's bit lies in its own class's row | high (not executed) | SparseClause.AlRowSizeWraps | SparseClause.AlRowSizeFits |
| src/tsetlin_machine_py/c_tsetlin_sparse_clf.py:661-663 | `estimate_model_size` sums `num_clauses` `uint32_t` values read through `tm.clause_sizes`, a field only the `ctypes` mirror declares (c_tsetlin_sparse_clf.py:39) | any fitted classifier: the mirror puts the `clause_sizes` pointer at offset 72, where the engine keeps `float s_min1_inv` and four bytes of padding (include/sparse_tsetlin_machine.h:35), so the pointer is made of a float's bits | `total_literals` is the number of nodes in all clause lists | high (not executed) | StructLayout.ClauseSizesSlot | SparseClassifier.LoadedEstimateBound |
