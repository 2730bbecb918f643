# AOTriton: what its kernels, kernel store and dispatch tables compute

AOTriton ships FlashAttention kernels for AMD GPUs, compiled ahead of time, together with the archive they
are stored in and the tables that choose among them. This project models four parts of it in Dafny 4.11 and
proves what each is for.

**Attention, forward and backward.** `Attention` and `Gradients` define masked softmax attention, its
log-sum-exp and its three gradients as plain sums over all keys or queries, with no tile in them.
`Intervals` is the planner that splits the blocks of a tile into a left-masked, a full and a right-masked
range; `Sweep` is the order in which a kernel walks them. `ForwardKernel`, `Preprocess` and
`BackwardKernels` are the kernels, loop by loop, proved to store exactly the unblocked sums for every choice
of block sizes, windows, bias and dropout. `SoftmaxGradient` says exactly how the forward pass responds to a
change of scores or of V, and `Derivatives`, on the little calculus of `Slopes`, that dQ, dK and ds are the
derivatives of the loss out . dO. `KernelGradients` relates what the kernels compute with their decimal
constants to these exact gradients, `Exp2` computes ln 2 to eight digits from exp2(1) = 2, `Accuracy` turns that
into a bound on how far those constants can move a gradient, and `TrainingStep` runs forward, preprocess, dq and
dk/dv one after the other on what each leaves in memory. `Dropout` is the counter-based random numbers,
`DropoutLaws` what dropping pairs by them does on average; `HeadDims` and `ComposedTensors` are the three-piece
head dimension. exp2 and log2 are function parameters with the hypotheses that exp2 turns sums into products, is
positive, and is undone by log2; for the derivatives also that exp2 has a derivative at zero, and for the bounds
that exp2(1) = 2 as well. Scores are `NegInf` or a real.

**Work distribution.** `WorkDistribution` has the XCD remap, the launch grids and the program-id decodes, and
`Launches` whole launches: all tiles of a head, in any order, on shared memory. `PersistentTiles` is the
dynamic persistent kernel as a step system in which any number of workgroups share one atomic counter, and
`PersistentForward` that kernel with the planner's early exit in it.

**The kernel store.** `FlatZip` and `Aks2` hold the build-time writers and the run-time readers of the two
file layers, `KernelStore` their composition. `KernelCache` is the two-level, double-checked cache above
them as a step system of threads, with every call that can fail allowed to fail, `ModuleLoads` says when
it loads a module once, and `CallOutcomes` how every call ends. The archive layout follows
sections 4.3.7, 4.3.12 and 4.3.16 of the PKWARE APPNOTE.

**Dispatch.** `Godel` numbers the combinations of template-parameter choices, `TuningLut` is the look-up
table compressed from the tuning database, `StringRegistry` packs the strings from which kernel names are
rebuilt. `Arith`, `RealSums`, `Bytes`, `CStrings` and `Options` are shared groundwork.

`dafny verify dfyconfig.toml` checks the whole project.

## Where the code does less than it seems to

Each of these is stated by a lemma, with the exact condition where there is one:

- With zero keys block 0 stays unmasked unless the tile overflows the queries or the window happens to mask it;
  a window that spans block 0 for the whole tile does not (`Intervals.ZeroKeysExactly`).
- The early exit misses tiles whose window starts past the last key but inside the partial last key block;
  they are computed, correctly, through the sink (`Intervals.EarlyExitExact`).
- In the persistent kernel the flag cleared by an exiting tile is never set again, so later tiles of that
  workgroup are drawn and not written. `PersistentForward.NothingLostExactly` says for which windows, lengths,
  block sizes and head counts that can happen, `PersistentForward.BottomRightLosesATile` shows it.
- The early exit stores BLOCK_DMODEL columns instead of the head dimension and overwrites later rows when the
  row stride is smaller (`ComposedTensors.ExitStoreConfinedExactly`, `ComposedTensors.ExitStoreSpills`).
- The forward and the dk/dv kernel scale scores by 1.44269504089, the dq kernel by 1.4426950408889634, and
  the product of the constants that store and read the log-sum-exp is not one. So dV and the ds of the dk/dv
  kernel are off by one factor per row and the ds of the dq kernel by one factor per pair, both explicit in
  `Gradients.StoredPair`, carried through to DQ, DK and DV in `TrainingStep.TrainStep`, and bounded in
  `Accuracy.PairFactorNearOne`.
- The seed of the running maximum acts as one more key whose value is zero; the probabilities of a row sum to
  one only together with it (`Gradients.ProbsAndSinkSumToOne`), and ds only to zero up to its share
  (`Gradients.DsRowSum`). For scores of any ordinary size that share is negligible
  (`Accuracy.SinkIsNegligible`).
- When opening an object's image fails for one caller, the object is marked as loaded without it, and every other
  caller gets null although nothing failed for it (`CallOutcomes.OneFailureIsEverybodys`).
- A module whose function lookup fails is neither cached nor unloaded, and the next caller loads it again: with
  two calls for the same function this is reachable from the first state (`ModuleLoads.LoadedOnceExactly`).
- Names with an embedded NUL, or equal names, hide kernels from lookups (`Aks2.OwnNamesFound`).
- A parameter that lists a choice twice sends calls to the wrong functional (`Godel.RuntimeFindsFunctional`).

## Model

| member | source | states |
|---|---|---|
| Intervals.PlanIsCorrect | tritonsrc/masked_load_store.py:67-210 | For all integer windows, negative ones included, and all block sizes: the three planned ranges are pairwise disjoint, hold no negative block, cover the block of every visible (m, n) of the tile, and every pair of every block of the full range is visible and inside both tensors, so that range may run with no mask and unpadded loads. |
| Intervals.DivRdIsFloor | tritonsrc/masked_load_store.py:25-27 | The correction of truncating division gives the floor, also for negative numerators. |
| Intervals.IsectExact | tritonsrc/masked_load_store.py:9-15 | The intersection holds exactly the common blocks, whether or not it returns the sentinel. |
| Intervals.Range.Size | tritonsrc/masked_load_store.py:21-22 | Zero exactly for an empty range, else the number of blocks from lo to hi. |
| Intervals.WindowedShape | tritonsrc/masked_load_store.py:67-183 | Each range of the windowed plan characterised as a set of blocks, in both directions, late fix-up of the partial last block included. |
| Intervals.FullRangeExactly | tritonsrc/masked_load_store.py:67-183 | Under a window the unmasked range holds exactly the whole blocks between the two lines of every row of a tile that does not overflow the queries: no block is masked that need not be. |
| Intervals.DensePlanIsCorrect | tritonsrc/masked_load_store.py:184-202 | The plan without a window is correct, the extra block past the end included. |
| Intervals.DenseFullRangeExactly | tritonsrc/masked_load_store.py:184-202 | Without a window it holds exactly the whole blocks. |
| Intervals.TrimShape | tritonsrc/masked_load_store.py:170-183 | The late fix-up moves the last block out of the full range exactly when the range reaches it and it is partial; otherwise it changes nothing. |
| Intervals.PlannedBlockSees | tritonsrc/masked_load_store.py:74-210 | For a window that is not inverted, a planned block holds a visible pair if and only if the left line of the tile's first row has not passed the last key. |
| Intervals.EarlyExitExact | tritonsrc/fwd_kernel.py:316-355 | The early exit is taken only for tiles without a visible pair; it is taken for all of them except exactly those whose window starts past the last key but inside the partial last key block. |
| Intervals.EarlyExitMissesATile | tritonsrc/fwd_kernel.py:320-326 | A concrete tile that sees nothing and does not exit early. |
| Intervals.ZeroKeysExactly | tritonsrc/masked_load_store.py:67-210 | For every mode, window and block size, with or without keys: the plan is correct if and only if there is a key, or the tile overflows the queries, or there is a window and block 0 holds a single key or does not lie between the window's two lines for the whole tile. |
| Intervals.SpecialWindows | tritonsrc/masked_load_store.py:43-65 | With a special value on both sides the causal masks are exactly n <= m and n <= m + seqlen_k - seqlen_q. |
| Intervals.ParsedWindowExactly | tritonsrc/masked_load_store.py:43-65 | For every pair of arguments, mixed pairs included: a pair (m, n) inside the tensors is visible if and only if its left side asks nothing or m - left <= n, and its right side is n <= m + right, n <= m or n <= m + seqlen_k - seqlen_q. |
| Intervals.Transposed | tritonsrc/bwd_kernel_dk_dv.py:255-279 | Exchanging the axes and the two windows keeps the visible set. |
| RealSums.SumOverSpans | tritonsrc/fwd_kernel_inner.py:90-100 | Adding up three disjoint spans in any order gives the sum over the whole axis. |
| RealSums.MaxOverSpans | tritonsrc/fwd_kernel_inner.py:90-100 | The running maximum over the spans is the maximum over the axis. |
| Sweep.FusedStep | tritonsrc/fwd_kernel_inner.py:93-98 | Each iteration of the loop fused over two ranges visits exactly one new block of one of them. |
| Sweep.LoopSpans | tritonsrc/fwd_kernel_inner.py:90-98 | After its last iteration the fused loop has visited both ranges completely. |
| Sweep.SumOverPlan | tritonsrc/fwd_kernel.py:464-553 | The unmasked call and the masked call together count every key exactly once. |
| Dropout.LanesInterleave | tritonsrc/dropout.py:16-38 | The joins and the reshape give each of the four lanes of an offset a random word of its own. |
| Dropout.TileSlotIsPairSlot | tritonsrc/dropout.py:41-71 | A tile reads the random number of the pair itself if and only if its first key is a multiple of four. |
| Dropout.MaskIsBlockIndependent | tritonsrc/dropout.py:41-71 | The keep decision depends only on the head's base and (m, n), not on the tile or the block sizes. |
| Dropout.SlotsAreDistinct | tritonsrc/fwd_kernel.py:404-408 | Distinct (batch-head, m, n) in range never share a (offset, lane) of the random stream. |
| Dropout.SlotsAreRowMajor | tritonsrc/fwd_kernel.py:404-408 | The random numbers of a launch lie in the stream as its score matrices do in memory, row by row, rows padded to a multiple of four. |
| DropoutLaws.WordsKeepOneMinusP | tritonsrc/fwd_kernel.py:195-195 | Of the 2^32 words a generator can draw, (1 - p) 2^32 keep a pair, to within three. |
| DropoutLaws.EveryMaskIsDrawn | tritonsrc/dropout.py:41-71 | Every keep mask of a row is drawn by some random numbers, so the mean below is over all of them. |
| DropoutLaws.DropoutIsUnbiased | tritonsrc/fwd_kernel.py:573-580 | The mean of a row's output over all keep masks, each key kept with probability 1 - p, is the attention without dropout. |
| DropoutLaws.KeptRowIsScaled | tritonsrc/fwd_kernel.py:573-575 | A row all of whose visible keys are kept is the attention without dropout divided by 1 - p. |
| Attention.DenominatorPositive | tritonsrc/fwd_kernel.py:416-418 | With the seed as a zero-valued extra key the softmax denominator is positive for every row. |
| Attention.LseIsLogOfDenominator | tritonsrc/fwd_kernel.py:611-612 | exp2 of m + log2(l) is the denominator, whatever the maximum was. |
| Accuracy.WeightsAreSoftmax | tritonsrc/fwd_kernel_inner.py:107-214 | Any two visible keys of a row weigh in the ratio of the exponentials of scale * q.k + bias, and the seed as one more key of score -3.40282e38. |
| Accuracy.SinkIsNegligible | tritonsrc/fwd_kernel.py:416-418 | With scores within s in size the seed's share is at most exp2(s log2(e) - 3.40282e38), so below 1e-37 for any s up to about 2e38. |
| ForwardKernel.RowStepAbsorbs | tritonsrc/fwd_kernel_inner.py:203-276 | One online-softmax step, rescaling included, adds exactly the block's terms: m, l exp2(m) and acc exp2(m) are plain maxima and sums. |
| ForwardKernel.TileAgrees | tritonsrc/fwd_kernel_inner.py:107-186 | For any ready block, masked or not, the tile's scores, mask bits and values are those of the unblocked definition. |
| ForwardKernel.StepRowsAbsorbs | tritonsrc/fwd_kernel_inner.py:93-276 | A loop iteration absorbs its key block into every row of the tile. |
| ForwardKernel.AttnFwdInner | tritonsrc/fwd_kernel_inner.py:88-287 | The block loop absorbs exactly the columns of its two block ranges into every row, for any starting state. |
| ForwardKernel.BothCallsFinishRow | tritonsrc/fwd_kernel.py:464-553 | After the unmasked call over the full range and the masked call over the other two, a row has absorbed every key of the axis exactly once. |
| ForwardKernel.ComputeTile | tritonsrc/fwd_kernel.py:416-553 | From the kernel's own seed, every existing row ends with the row maximum, the denominator and the unnormalised output over exactly the visible keys. |
| ForwardKernel.EpilogueIsAttention | tritonsrc/fwd_kernel.py:573-580 | Dividing by l and rescaling for dropout gives plain masked softmax attention with the seed as a sink. |
| ForwardKernel.ExitedRowIsZero | tritonsrc/fwd_kernel.py:326-355 | The zeros stored by an early exit are the attention of those rows. |
| ForwardKernel.AttnFwdTile | tritonsrc/fwd_kernel.py:297-636 | The whole tile, on flat memory: Out and L hold the unblocked attention and log-sum-exp of the tile's rows (plus infinity where the tile exits early). Every other cell keeps its value, except what an early exit zeroes in the BLOCK_DMODEL columns of its rows and the infinities it stores up to the maximum length. For every choice of block sizes, windows, bias and dropout. |
| Preprocess.BwdPreprocess | tritonsrc/bwd_preprocess.py:27-131 | Delta of every existing row of the block is the unsplit row sum of out * dO over the true head dimension; no other cell changes. |
| Preprocess.StoredDeltaIsDelta | tritonsrc/bwd_preprocess.py:112-118 | On the forward kernel's output this is the delta of the gradient formulas. |
| Gradients.RebuiltProbIsForwardWeight | tritonsrc/bwd_inner_dq.py:134-153 | The probability rebuilt from the stored log-sum-exp, bias divided by the scale and all, is the forward softmax weight times exp2 of an explicit error that vanishes when the decimal constants agree. |
| Gradients.StoredPair | tritonsrc/bwd_inner_dq.py:134-182 | From what the forward and the preprocess kernel store, at any constants: the rebuilt probability, ds and dropped probability of every pair are the exact ones times one explicit factor. |
| Gradients.ProbsAndSinkSumToOne | tritonsrc/fwd_kernel.py:611-612 | The rebuilt probabilities of a stored row sum to one minus the seed's share, times the row's factor, for any constants. |
| Gradients.AttentionFromProbs | tritonsrc/bwd_inner_dk_dv.py:188-203 | The dropped rebuilt probabilities times V are the forward output times the row's factor, for any constants. |
| Gradients.DsRowSum | tritonsrc/bwd_inner_dq.py:153-182 | Each row of ds sums to delta times (the row's factor minus the row's probabilities), which is that factor times delta times the seed's share; with or without dropout, for any constants. |
| Gradients.QueryKeyBalance | tritonsrc/bwd_kernel_dk_dv.py:232-391 | dQ of the dq kernel contracted with Q and dK of the dk/dv kernel contracted with K differ by exactly the sum over all pairs of the difference of their two factors times the exact ds times the score. |
| SoftmaxGradient.TrueDsIsTheGradient | tritonsrc/bwd_inner_dq.py:153-182 | Whatever the scores of a row change by, its out . dO changes by exactly the sum of the exact ds times the growth of each key's weight, divided by one plus the same sum for the weights; with or without dropout. |
| SoftmaxGradient.DsIsTheGradient | tritonsrc/bwd_inner_dq.py:153-182 | The same of the ds and p that a backward kernel computes from a stored row with the forward scale: the row's factor takes the place of the one. |
| SoftmaxGradient.LossIsInnerProduct | tritonsrc/bwd_preprocess.py:112-118 | The loss, a sum of row deltas, is the inner product of the forward output with dO. |
| SoftmaxGradient.ShiftedWeights | tritonsrc/fwd_kernel_inner.py:203-214 | Shifting scores changes the denominator by exactly each key's weight times its growth. |
| SoftmaxGradient.ValueDoIsDp | tritonsrc/bwd_inner_dq.py:168-180 | What a key contributes to the unnormalised out . dO is its weight times dp after dropout. |
| SoftmaxGradient.MovedBiasShifts | tritonsrc/fwd_kernel_inner.py:170-186 | Moving the bias shifts each score by its own move, converted to base 2. |
| SoftmaxGradient.MovedQueryShifts | tritonsrc/fwd_kernel_inner.py:159-168 | Moving a query shifts the scores of its row by the scale times the move against each key. |
| SoftmaxGradient.MovedKeysShift | tritonsrc/fwd_kernel_inner.py:159-168 | Moving all keys shifts each score by the scale times the row's query against that key's move. |
| SoftmaxGradient.DvIsTheGradient | tritonsrc/bwd_inner_dk_dv.py:188-229 | Replacing V, whatever it becomes, changes the loss by exactly the exact dV against the change of V. |
| Slopes.ExpandsUniquely | tritonsrc/bwd_inner_dq.py:153-182 | A function has at most one derivative at zero, so the derivatives below are determined. |
| Derivatives.LossDerivative | tritonsrc/bwd_inner_dq.py:153-182 | If exp2 has a derivative at zero, the loss along any move of the scores, all rows and keys at once, has the exact ds against that move as its derivative. |
| Derivatives.DqIsTheDerivative | tritonsrc/bwd_kernel_dq.py:373-377 | Along any move of the whole Q the derivative of the loss is the exact dQ against the move, times ln 2 as exp2 has it times the kernel's log2(e). |
| Derivatives.DkIsTheDerivative | tritonsrc/bwd_kernel_dk_dv.py:387-389 | Likewise for K: the derivative of the loss of all rows along any move of all keys is the exact dK against the move. |
| Derivatives.DsIsTheBiasDerivative | tritonsrc/bwd_inner_dq.py:200-204 | The derivative of the loss along any move of the bias is the exact ds against the move. |
| KernelGradients.DqIsFactored | tritonsrc/bwd_inner_dq.py:134-215 | dQ computed from a stored row is, term by term, the exact dQ times the factor of each pair, for any constants. |
| KernelGradients.DkDvAreFactored | tritonsrc/bwd_inner_dk_dv.py:165-260 | dK and dV computed from stored rows are, term by term, the exact ones times the factor of each pair. |
| KernelGradients.ExactConstantsGiveDq | tritonsrc/bwd_kernel_dq.py:301-305 | If the storing and reading constants multiply to one and both passes use one scale, the dQ sums are the exact dQ. |
| KernelGradients.ExactConstantsGiveDkDv | tritonsrc/bwd_kernel_dk_dv.py:232-389 | Under the same condition the dK and dV sums are the exact dK and dV. |
| KernelGradients.GroupDkIsTheDerivative | tritonsrc/bwd_kernel_dk_dv.py:285-389 | For a K shared by a group of query heads, the derivative of the group's loss along any move of K is the sum of the heads' dK against it. |
| Exp2.TangentBelow | tritonsrc/fwd_kernel_inner.py:203-214 | An exponential with a derivative at zero lies above its tangent there, everywhere. |
| Exp2.SlopeIsLn2 | tritonsrc/bwd_kernel_dq.py:84-84 | From exp2(1) = 2 alone, the slope of exp2 at zero is 0.693147 to eight digits. |
| Exp2.ConstantsAreRight | tritonsrc/bwd_kernel_dq.py:178-178 | The kernels' constants are log2(e) and ln(2): they invert each other and the slope of exp2 to within 1e-8, and the two log2(e) agree to 1e-11. |
| Accuracy.PairFactorNearOne | tritonsrc/bwd_kernel_dq.py:301-305 | For scores within s the factor of every visible pair lies between exp2(-eps) and exp2(eps), at most 2 eps from one, with eps = 1e-11 s + 1e-8 (s log2(e) + log2(keys + 1)). |
| Accuracy.DqNear | tritonsrc/bwd_inner_dq.py:134-215 | Every entry of dQ is then within 2 eps of the exact one, relative to the sum of the sizes of its terms. |
| Accuracy.DkNear | tritonsrc/bwd_inner_dk_dv.py:165-260 | The same of dK. |
| Accuracy.DvNear | tritonsrc/bwd_inner_dk_dv.py:165-260 | The same of dV. |
| BackwardKernels.MaskExact | tritonsrc/bwd_inner_dq.py:113-132 | The backward masks hide exactly the invisible pairs of a ready tile. |
| BackwardKernels.ElementAgrees | tritonsrc/bwd_inner_dq.py:111-182 | ds and the dropped probability of a tile element are those of the unblocked definition; invisible pairs give zero. |
| BackwardKernels.TermsVanish | tritonsrc/bwd_inner_dk_dv.py:131-260 | An invisible pair contributes nothing to dQ, dK or dV. |
| BackwardKernels.BwdInnerDq | tritonsrc/bwd_inner_dq.py:87-215 | The key-block loop adds exactly the terms of its two ranges to every row of dq. |
| BackwardKernels.ComputeDqTile | tritonsrc/bwd_kernel_dq.py:281-373 | Both calls together give every existing row the sum of its terms over the whole key axis. |
| BackwardKernels.BwdDqTile | tritonsrc/bwd_kernel_dq.py:281-388 | DQ holds the unblocked sum over all keys for exactly the tile's rows, for every choice of block sizes. |
| BackwardKernels.KeyPlanReady | tritonsrc/bwd_kernel_dk_dv.py:255-282 | The planner called with axes, windows and block sizes exchanged plans disjoint query blocks that hold every visible pair of the key tile, and unmasked ones only where every pair is visible. |
| BackwardKernels.BwdInnerDkDv | tritonsrc/bwd_inner_dk_dv.py:94-268 | The query-block loop adds exactly the terms of its two ranges to every row of dk and dv. |
| BackwardKernels.AddHead | tritonsrc/bwd_kernel_dk_dv.py:319-385 | One query head adds its complete dK and dV sums over all queries. |
| BackwardKernels.ComputeDkDvTile | tritonsrc/bwd_kernel_dk_dv.py:285-385 | The head loop adds up all heads of the group. |
| BackwardKernels.BwdDkDvTile | tritonsrc/bwd_kernel_dk_dv.py:262-418 | DK and DV hold the unblocked sums over all queries of all heads of the group for exactly the tile's rows, for every choice of block sizes. |
| HeadDims.FactorHeadDim | tritonsrc/attn_torch_function.py:101-118 | Terminates for every head dimension with three descending powers of two or zeros, never rounds down, wastes less than 16 columns or less than a quarter, and the kernels' own split of the sum leaves no remainder. |
| HeadDims.SplitSucceedsExactly | tritonsrc/fwd_kernel.py:168-182 | The kernels' greedy split has remainder zero if and only if the dimension has at most three one bits; only trailing pieces are empty. |
| ComposedTensors.ComposedDotIsDot | tritonsrc/composed_tensors.py:60-160 | The dot product of three loaded pieces is the dot product over the true head dimension, with or without padding. |
| ComposedTensors.Mstore2d | tritonsrc/masked_load_store.py:285-307 | Exactly the in-bounds cells of the register tile are written in flat memory, each with its value. |
| ComposedTensors.ComposedStore | tritonsrc/composed_tensors.py:267-312 | Three stores write exactly the in-bounds cells of the unsplit tile and nothing else. |
| ComposedTensors.ExitStore | tritonsrc/fwd_kernel.py:326-339 | The early exit's three stores into flat memory zero exactly the BLOCK_DMODEL cells from the start of each of the tile's rows, wherever they lie, and nothing else. |
| ComposedTensors.ExitStoreConfinedExactly | tritonsrc/fwd_kernel.py:326-339 | Whatever the memory holds, that store changes no cell outside the tile's rows if and only if BLOCK_DMODEL does not exceed the row stride. |
| ComposedTensors.ExitStoreSpills | tritonsrc/fwd_kernel.py:326-339 | A concrete input: rows of 40 cells and BLOCK_DMODEL 48 overwrite the row after the tile. |
| WorkDistribution.RemapIsContiguous | tritonsrc/fwd_kernel.py:52-80 | All pids of one residue class modulo NUM_XCDS land in one contiguous range, in order. |
| WorkDistribution.BasesAreContiguous | tritonsrc/fwd_kernel.py:52-80 | These ranges follow each other and end at the grid size. |
| WorkDistribution.RemapIsInjective | tritonsrc/fwd_kernel.py:52-80 | The remap stays inside the grid and is injective, for every grid and XCD count. |
| WorkDistribution.RemapIsOnto | tritonsrc/fwd_kernel.py:52-80 | The remap reaches every pid of the grid. |
| WorkDistribution.TiledGridCoversOnce | v3src/flash/attn_bwd.cc:37-49 | Launch grid and program-id decode together: each (batch, head, block) is computed by exactly one workgroup, remapped or not. |
| WorkDistribution.HeadsStayOnTheirXcd | tritonsrc/fwd_kernel.py:52-80 | What the remap is for: when the heads divide evenly, all workgroups of a head run on one XCD, and each XCD serves consecutive heads. |
| WorkDistribution.BlocksOfAHeadAreConsecutive | v3src/flash/attn_fwd.cc:26-38 | Without XCDs the workgroups run through the blocks of a head, then the heads, then the batches. |
| WorkDistribution.BlocksPartitionAxis | v3src/flash/attn_fwd.cc:26-38 | The launched blocks partition the tiled axis and all of them start inside it. |
| WorkDistribution.FusedItemHasItsPid | tritonsrc/bwd_kernel_fuse.py:107-118 | Every key block and every (query head, query block) has a launched pid that decodes to it. |
| WorkDistribution.FusedPidHasItsItem | v3src/flash/attn_bwd_fused.cc:14-23 | Every launched pid decodes to a valid item and is that item's pid; a kv workgroup takes its own head and block, a q workgroup a query head of its own kv head. |
| WorkDistribution.GroupHeadsAgree | tritonsrc/bwd_kernel_dk_dv.py:285-285 | The query heads a kv head loops over are exactly those that read it. |
| Launches.GridRunsAllBlocks | tritonsrc/attn_torch_function.py:233-239 | In whatever order the workgroups of a grid run, every tile of every (batch, head) is among them, and none outside the axis. |
| Launches.ForwardLaunch | tritonsrc/fwd_kernel.py:242-636 | All tiles of a head in any order, each on the memory the others left: Out and L are complete and correct in every row, provided the zeros of early exits stay inside their rows. |
| Launches.ForwardOnGrid | tritonsrc/attn_torch_function.py:233-239 | The same for any order of the workgroups of the whole grid, XCD remap included. |
| Launches.PreprocessLaunch | tritonsrc/attn_torch_function.py:476-478 | All preprocess programs of a head in any order: delta of every row; cells of other heads are unchanged. |
| Launches.DqLaunch | tritonsrc/attn_torch_function.py:604-620 | All dq tiles of a head in any order: the complete DQ, from memory with arbitrary contents. |
| Launches.DkDvLaunch | tritonsrc/attn_torch_function.py:520-542 | All dk/dv tiles of a kv head in any order: the complete DK and DV. |
| TrainingStep.LaunchesStoreRow | tritonsrc/bwd_kernel_dq.py:303-305 | What the forward and the preprocess launch leave in memory for a row, early exits included, is what the backward formulas ask for. |
| TrainingStep.TrainStep | tritonsrc/attn_torch_function.py:437-663 | Forward, preprocess, dq and dk/dv launches of a group of query heads, each reading what the earlier ones stored, at the kernels' own constants: Out is the attention of every head, and DQ, DK and DV are the exact gradients of that attention, every term times its factor. With exp2(1) = 2 and scores within a bound every entry lies within 2 eps of the exact gradient, relative to the sizes of its terms. For all block sizes, windows, orders, bias and dropout. |
| PersistentTiles.StepInv | tritonsrc/fwd_kernel.py:222-241 | Every step of every workgroup keeps: drawn tiles are disjoint and increasing, all ids below the counter are drawn, the counter is exact, the flag and the written tiles follow from the drawn ones. |
| PersistentTiles.EveryTileDispensedOnce | tritonsrc/fwd_kernel.py:222-228 | In every finished interleaving each tile is dispensed to exactly one workgroup, nothing else is, and the counter ends at tiles plus workgroups. |
| PersistentTiles.StepsTerminate | tritonsrc/fwd_kernel.py:638-644 | Every step decreases a measure, so every interleaving ends. |
| PersistentTiles.NotDoneCanStep | tritonsrc/fwd_kernel.py:638-644 | A workgroup that has not finished can always step. |
| PersistentTiles.TileWrittenExactly | tritonsrc/fwd_kernel.py:289-357 | A dispensed tile is written if and only if no earlier tile of its workgroup exited early. |
| PersistentTiles.AllWrittenInEveryRunExactly | tritonsrc/fwd_kernel.py:226-357 | For any set of exiting tiles, every schedule writes every tile if and only if no tile but the last one exits. |
| PersistentTiles.TileDecodeIsBijection | tritonsrc/fwd_kernel.py:229-233 | The tile id decode is a bijection onto (batch, head, query block). |
| PersistentForward.AllWrittenExactly | tritonsrc/fwd_kernel.py:215-357 | With the planner's own early exit behind the tile decode: every schedule writes every tile if and only if no query block takes the early exit, the last one excepted when there is only one head in one batch. |
| PersistentForward.NothingLostExactly | tritonsrc/fwd_kernel.py:215-357 | The same in windows, lengths, block sizes and batch * heads: no window, or the first block's right line reaches key 0 and the last counted block's left line starts before the end of the last key block. |
| PersistentForward.BottomRightLosesATile | tritonsrc/fwd_kernel.py:320-357 | A concrete input: bottom-right causal attention of 32 queries on 16 keys in 16 x 16 blocks has a finished schedule, for any number of workgroups, heads and batches, that never writes a tile which sees keys. |
| PersistentForward.PersistentRunsAllBlocks | tritonsrc/fwd_kernel.py:229-233 | Where every tile is written, the written tiles are those of an ordinary launch, head by head. |
| PersistentForward.ForwardPersistent | tritonsrc/fwd_kernel.py:215-644 | Under that exact condition every finished persistent run leaves Out and L of every head complete and correct. |
| Bytes.LittleEndian | v3src/lszip.cc:32-40 | Reading is the only inverse of writing, and the least significant byte comes first. |
| FlatZip.LocalFileHeader | v3python/flatzip.py:44-58 | Every field of the local header, as numbers at offsets, lies where section 4.3.7 of the APPNOTE puts it, followed by the name. |
| FlatZip.CentralDirEntry | v3python/flatzip.py:61-81 | Every field, as numbers at offsets, lies where section 4.3.12 of the APPNOTE puts it, followed by the name. |
| FlatZip.Eocd | v3python/flatzip.py:84-95 | Signature, counts, directory size and offset lie where section 4.3.16 of the APPNOTE puts them. |
| FlatZip.BuildZip | v3python/flatzip.py:98-133 | Writes locals, directory and end record of exactly the given entries, or raises exactly when some number does not fit its field. |
| FlatZip.ArchiveFitsExactly | v3python/flatzip.py:30-133 | An archive can be written if and only if it has at most 65535 entries with names of at most 65535 bytes and checksums of 32 bits, and takes less than 4 GiB before the directory and in it. |
| FlatZip.Lszip | v3src/lszip.cc:45-134 | The reader on any byte string, with all its rejections; every read is inside its buffer. |
| FlatZip.FindEocd | v3src/lszip.cc:58-64 | The last signature in the searched tail, or none. |
| FlatZip.ListExactly | v3src/lszip.cc:45-134 | On any bytes at all: the reader succeeds with given entries if and only if the last end record in the searched tail points at a directory that holds exactly their records one after the other. |
| FlatZip.ListInvertsBuild | v3src/lszip.cc:45-134 | For every writable archive the reader succeeds and reports exactly the written entries in order, and each reported range slices out that entry's data. |
| Aks2.Metadata | v3python/aks2.py:83-90 | The five numbers of a directory entry read back from their offsets. |
| Aks2.Aks2Writer.Load | v3python/aks2.py:92-111 | Fails exactly when side files are read and some source without bytes is marked as compiled; else the directory tells every source's name, size, running offset, shared memory and threads, the last two zero without bytes or side file, and the sizes add up. |
| Aks2.Aks2Writer.Write | v3python/aks2.py:113-124 | Writes the image of the loaded sources, or raises exactly when some number needs more than 32 bits. |
| Aks2.ImageFitsExactly | v3python/aks2.py:77-124 | An image can be written if and only if it takes less than 4 GiB before compression and the launch numbers that are read fit 32 bits. |
| Aks2.PackedKernel.constructor | v3src/packed_kernel_common.cc:187-271 | Opening any bytes: status, content, first entry of each name and kernel start, with every error branch. |
| Aks2.OpenExactly | v3src/packed_kernel_common.cc:187-271 | On any bytes at all: which fail with which status, and for the others that the listed names are exactly those of a directory of complete entries, each at its first place. |
| Aks2.PackedKernel.Filter | v3src/packed_kernel_common.cc:276-295 | On a kernel opened from the image of any sources, looking up any name gives the slice of the content that holds the kernel packed first under that name, with that source's numbers; null if and only if the name is absent or its kernel empty. |
| Aks2.LookupReads | v3src/packed_kernel_common.cc:276-295 | The lemma behind it: the listed entry's offset and size, taken from the start of the binaries, cut out the packed kernel. |
| Aks2.SizesAreBytes | v3python/aks2.py:110-111 | The directory size the writer adds up is the number of directory bytes it writes, which is what the reader checks. |
| Aks2.OpenedWellPlaced | v3src/packed_kernel_common.cc:245-271 | Whatever the bytes, every listed entry lies inside the content, so lookups never read outside it. |
| Aks2.ParseLists | v3src/packed_kernel_common.cc:245-256 | Parsing a written directory lists exactly the sources' names, each at its first entry, and ends where the binaries start. |
| Aks2.OpenInvertsWrite | v3src/packed_kernel_common.cc:187-295 | For every list of sources that fits, wherever the image lies in a file: opening succeeds and every lookup gives exactly the kernel packed first under that name, null if and only if it is absent or empty. |
| Aks2.OwnNamesFound | v3src/packed_kernel_common.cc:246-255 | Every kernel is found under its own name if and only if no name holds a NUL and all names differ. |
| KernelStore.InnerMapHoldsFirsts | v3src/packed_kernel_common.cc:110-122 | The cached directory holds, for each name, the first entry of that name. |
| KernelStore.StoredKernelComesBack | v3src/packed_kernel_common.cc:57-156 | Packed, archived, listed, opened and looked up: the original kernel comes back. |
| KernelCache.InitInv | v3src/on_device_kernel.cc:29-52 | The invariant holds before any call. |
| KernelCache.StepInv | v3src/on_device_kernel.cc:29-134 | Every step of every thread keeps mutual exclusion, whole directories and the truth about essentials and cached functions; directories never change, an opened image stays, essentials stay once loaded, functions stay once cached, and a module is loaded only for a device that has none. |
| KernelCache.RunInv | v3src/on_device_kernel.cc:29-134 | All of this in every reachable state of every interleaving. |
| KernelCache.NothingBad | v3src/packed_kernel_common.cc:61-73 | A thread that may look into the registry never sees an image that failed to open. |
| KernelCache.StagingStepOk | v3src/packed_kernel_common.cc:97-122 | A directory is published only complete; a failed or partial parse is dropped. |
| KernelCache.RunAccounts | v3src/on_device_kernel.cc:101-107 | Every module ever loaded is cached, on its way into the cache, or lost to a failed function lookup. |
| KernelCache.OneModulePerDevice | v3src/on_device_kernel.cc:37-50 | At most one module per object and device, not counting those lost. |
| KernelCache.LostModuleIsLoadedAgain | v3src/on_device_kernel.cc:101-103 | When finding the function fails, a waiting caller loads a second module for the same device: why the lost ones must not be counted. |
| ModuleLoads.CoincidingCallsLoadTwice | v3src/on_device_kernel.cc:29-108 | From the first state on: for any two calls for the same function of a loadable kernel there is a run that loads its module twice. |
| ModuleLoads.LoadedOnceExactly | v3src/on_device_kernel.cc:29-108 | Every reachable state has at most one module per object and device if and only if no two calls ask for the same function of an object whose image the archive holds. |
| KernelCache.ReturnedFunction | v3src/on_device_kernel.cc:29-52 | A returned function is the cached one, loaded for this object and device from the image the archive holds; null is returned only once the object is known to have no image. That calls do return functions is `CallOutcomes.CallOutcome`. |
| KernelCache.FunctionComesFromItsKernel | v3src/on_device_kernel.cc:63-108 | If the archive was written with the object's image in it, the bytes a function was loaded from are the kernel packed first under the object's name. |
| CallOutcomes.CallOutcome | v3src/on_device_kernel.cc:29-134 | In every run, a call that is over returned null if and only if the archive has no image for it or some caller of the object failed to open it, threw if and only if it had an image and its own loading failed, and returned a function in all other cases. |
| CallOutcomes.FunctionIfNothingFails | v3src/on_device_kernel.cc:29-108 | If nothing fails for any caller of the object and the archive holds its image, every call that is over returned a function. |
| CallOutcomes.NeverThrowsByItself | v3src/on_device_kernel.cc:98-104 | A call for which nothing fails never throws, whatever fails for others. |
| CallOutcomes.OneFailureIsEverybodys | v3src/packed_kernel_common.cc:57-122 | A run in which nothing fails for one of two callers and it returns null, because opening failed once for the other: why the lemma before last must ask for all callers. |
| CallOutcomes.EveryRunCompletes | v3src/on_device_kernel.cc:29-134 | Every run can be continued until all calls are over. |
| CallOutcomes.WrittenIsLoadable | v3src/packed_kernel_common.cc:57-156 | An image the build wrote is one a call can load if and only if the source packed first under the object's name has a binary. |
| CallOutcomes.PackedKernelIsReturned | v3src/on_device_kernel.cc:29-134 | From the build to the call: with such an archive, and nothing failing for the object's callers, a call that is over returned a function if that binary is not empty and null otherwise. |
| KernelCache.SomeoneCanMove | v3src/on_device_kernel.cc:111-134 | No deadlock: while some call has not returned, some thread can step. |
| KernelCache.StepsTerminate | v3src/on_device_kernel.cc:29-134 | Every step of every thread decreases a measure. |
| KernelCache.RunsAreShort | v3src/on_device_kernel.cc:29-134 | The length of any run is bounded by the measure of its first state. |
| Godel.AssignGodelNumber | v3python/base/parameter.py:97-107 | Each parameter gets the number of combinations of the parameters after it. |
| Godel.NumberDecodes | v3python/base/functional.py:95-96 | Every number below the product of the choice counts is the number of a combination. |
| Godel.DecodeNumbers | v3python/base/functional.py:95-96 | Every combination has a number below the product and is recovered from it. |
| Godel.DistinctNumbers | v3python/base/functional.py:95-96 | Two combinations share a number if and only if they are equal. |
| Godel.EnumeratedInOrder | v3python/base/interface.py:159-166 | The product enumeration lists the combinations in increasing order of their numbers, each once. |
| Godel.GodelNumber | v3python/codegen/interface.py:181-219 | The emitted code returns -1 exactly when some argument of a parameter with several choices matches none, and else the number of the combination that takes each argument's last matching choice, the only one where there is a single choice. |
| Godel.RuntimeFindsFunctional | v3python/codegen/interface.py:181-219 | The run-time number of every functional's arguments is the functional's own number if and only if no parameter lists a choice twice. |
| Godel.TuneTableEntries | v3python/codegen/interface.py:147-163 | A slot is non-null exactly where some functional of that architecture has that number, and then it points at its own function. |
| Godel.DispatchReachesFunctional | v3python/codegen/template/shim.cc:28-83 | A call with a functional's arguments reaches a slot that is non-null if and only if that very functional was generated. |
| TuningLut.SortedUnique | v3python/kernel/kdesc.py:150-152 | The representatives of a key are its distinct database values in increasing order. |
| TuningLut.BinsToSmallestAbove | v3python/autotune/binning.py:21-29 | The emitted comparison chain picks the smallest representative not below the length, or the largest. |
| TuningLut.RowHitsItsCell | v3python/kernel/kdesc.py:177-196 | A row is written to exactly the cell that stands for its keys. |
| TuningLut.Overlay | v3python/kernel/kdesc.py:189-196 | One GPU's rows over its row of the table: cells with a database row get the last one, all others keep their value. |
| TuningLut.FillLut | v3python/kernel/kdesc.py:156-196 | Every cell says the last row of its own GPU with its keys, else the last such row of the first GPU, else -1. |
| TuningLut.NarrowingIsLossless | v3python/kernel/kdesc.py:197-205 | The narrowed element type holds every entry that the wide one can hold. |
| TuningLut.TranslateDataframe | v3python/kernel/kdesc.py:143-209 | The representatives, and a narrowed table every cell of which says that, for any database of uniform rows. |
| TuningLut.Lookup | v3python/codegen/basetune.py:44-79 | The generated look-up indexes the cell of the binned lengths and gives up exactly when it names no kernel. |
| TuningLut.TunedSignature | v3python/codegen/template/autotune_table_entry.cc:74-92 | Building the table and looking up any lengths: at the smallest recorded values not below the lengths (the largest where there are none), the signature of the last row the GPU itself has there; else of the last row the first GPU has there; else none. |
| TuningLut.ClampedIsUnique | v3python/autotune/binning.py:21-29 | The recorded values that serve given lengths are determined. |
| StringRegistry.PackedStringComesBack | v3python/utils/registry.py:11-27 | The C string at a string's offset is that string if and only if it holds no NUL, whatever the others hold. |
| StringRegistry.Registry.Register | v3python/utils/registry.py:11-18 | A known string keeps its offset, a new one is appended; what was registered stays where it is. |
| StringRegistry.Registry.GetData | v3python/utils/registry.py:25-27 | The packed data is all strings in order of registration, each followed by a NUL. |
| StringRegistry.CompactKernels | v3python/codegen/autotune.py:133-155 | After all registrations every kernel's two offsets point at its two sections. |
| StringRegistry.ConstructStemName | v3src/triton_kernel.cc:28-43 | The name built by appending is the entry name of the same parts. |
| StringRegistry.StemIsEntryName | v3src/triton_kernel.cc:28-76 | The name rebuilt at run time from two offsets is the name the binary was stored under. |
| StringRegistry.EntryNameShape | v3python/kernel/ksignature.py:63-81 | What an entry name and its compiler-option section look like, mark by mark. |
| StringRegistry.SameNameSameKernel | v3python/kernel/ksignature.py:63-81 | Two kernels of the same parameters share an entry name if and only if all choices, values, options and architectures agree, as long as no value holds a semicolon. |

## Left out

- Rounding, underflow, NaN and infinities of floating point: arithmetic is over reals, and the guards against NaN for a zero softmax scale are not modelled.
- Wrap-around of 32-bit and 64-bit integers in the kernels, the host code and numpy: integers are unbounded, and only the format fields have their widths.
- INT8, alibi, encoded-softmax output, CAUSAL_TYPE 1 and 2 and the fixed persistent mode: not among the compiled configurations.
- Variable-length layouts and most tensor strides: inputs and gradients are (m, n)-indexed slices of one head, and only Out lies in flat memory with a row stride; offsets into batches and heads appear in the grids, the tile ids, the dropout offsets and delta.
- The dq kernel's store of ds as the gradient of the bias (that ds is that gradient is `Derivatives.DsIsTheBiasDerivative`), and the near copies of the inner loops inside the fused kernel, whose program-id decode is modelled.
- The BLOCK_M == 1 special case of the backward kernels, which multiplies elementwise instead of calling the matrix product.
- Pipelining, preloading, warp and stage choices, and the order of additions inside one tensor reduction.
- Philox, LZMA, CRC and the hash functions: philox is a function of offset and word, compression a pair of functions of which the second undoes the first, applied to the whole content at once; checksums are carried and not computed.
- Files, manifests and side files are values; a read returns what is stored, and failures of opening, reading and of HIP calls appear as choices in `KernelCache`.
- Launches.ForwardLaunch: for launches whose early exits stay inside their rows, or that have none; what other launches overwrite is `ComposedTensors.ExitStoreConfinedExactly`. Tiles run one after the other, in any order; that they write disjoint cells is what makes their interleaving immaterial, and is proved tile against tile in `Launches.OtherTileSpares`.
- TrainingStep.TrainStep: every head's output, log-sum-exp, delta and gradients lie in memory of their own; which cells of a shared tensor a tile touches is proved for Out and delta only. The non-persistent launches; the persistent one is `PersistentForward.ForwardPersistent`.
- Gradients.DsRowSum: rows as a whole have one factor only when both passes use the same scale, as the forward and the dk/dv kernel do; for the dq kernel the factors are per pair, in `Gradients.StoredPair`.
- PersistentForward.NothingLostExactly: for windows with window_left + window_right >= 0; `PersistentForward.AllWrittenExactly` has no such restriction.
- Intervals.PlannedBlockSees: for windows with window_left + window_right >= 0; inverted windows see nothing, and their plans are covered by `Intervals.PlanIsCorrect`.
- HeadDims.FactorHeadDim: models the default of three pieces.
- PersistentTiles.AllWrittenInEveryRunExactly: a tile is written or not as a whole; which cells it writes is `ForwardKernel.AttnFwdTile`.
- Aks2.PackedKernel.constructor: where the code would read past its buffer on a directory that does not fit the content, the model stops with its own status `ReadPastBuffer`.
- FlatZip.ListExactly: what the reader reports before it fails on a damaged archive is computed by `FlatZip.Lszip`'s function and not characterised further.
- Accuracy.PairFactorNearOne: for scores of which eps stays at most one half, that is up to about thirty million in size; beyond that only the exact factor is stated.
- Accuracy.SinkIsNegligible: for rows that see a key; in the others the seed is all there is.
- DropoutLaws.DropoutIsUnbiased: the mean is over independent keep decisions; that philox words are independent and uniform is not part of this model.
- CallOutcomes.CallOutcome: which calls fail is the run's choice, the archive on disk stays as it is.
- Aks2.Aks2Writer.Load: for a new writer, as the build uses it; what a failed load leaves behind is not stated.
- KernelCache.StepInv: no concurrent clear_device_kernel or clear_decompressed_image; essentials are read by reference in the code and by value here; the archive on disk does not change.
- KernelCache.SomeoneCanMove: a free lock may go to any waiting thread; fairness and writer preference of the mutexes are not modelled.
- Godel.EnumeratedInOrder: one architecture; the loop over architectures repeats it. Settling conditional choices does not change a functional's number and is left out.
- TuningLut.TunedSignature: numpy's row deduplication is a parameter described by its guarantees; with several rows of one GPU and the same keys the last one counts. The placeholder table for an empty database is left out.
- StringRegistry.Registry.GetData: strings are one byte per character and need no escaping in a C string literal; that larger offsets do not compile into the 16-bit fields is left out.
- The operator-level tables, argument marshalling, bindings, templates as text and benchmarking: nothing harder than what is modelled.
