# Phase unwrapping and strided file writing, modelled in Dafny

This project models two C MEX routines from a MATLAB MRI toolbox.

**Region-growing phase unwrapping** (`MEX_Unwrap2D.c`, `MEX_Unwrap3D.c`).
`[psi_uw, mask] = MEX_Unwrap2D(psi_w, mag, magth)` takes a wrapped phase
image and a magnitude image. A voxel is *trusted* when its magnitude
reaches the threshold. Growth starts at the trusted voxel of largest
magnitude (`find_seed`). Every resolved voxel appends its unvisited, trusted
neighbours to a FIFO queue (`add_neighbours`, `add_pixel`): 8 compass
neighbours in 2D, 26 in 3D. A queued voxel is resolved as follows:
`predict_phase` takes the weighted mean of its resolved neighbours' phases
(`extrap_phase`, nearest-neighbour prediction). The voxel then gets the
multiple of 2π that brings its wrapped phase nearest that prediction. When
the queue runs dry, a new seed is chosen. In 2D the seed's wrap count comes
from the nearest off-axis resolved voxel (`seed_ambiguity`). In 3D it is
left at 0, exactly as the C code does.

The model is imperative, like the source:
- the images, visit map, trust map and queue are `array`s;
- `downstack`, `add_pixel`, `find_seed`, `predict_phase` and
  `seed_ambiguity` are methods with their loops;
- the main loop keeps a ghost invariant (`Inv`) on the state.

That invariant says that:
- every output phase equals the input plus a whole number of turns (ghost
  wrap counts);
- unresolved voxels keep their input phase;
- the queue is repetition-free and every queued voxel has a resolved
  neighbour, so `predict_phase` never divides 0 by 0;
- the queue never overflows;
- `nunwrapped` stays in step with the number of resolved trusted voxels.

At the end, every trusted voxel of positive magnitude is resolved, whatever the threshold. A trusted voxel of magnitude 0 or less may stay unresolved, because `find_seed` only picks a seed of positive magnitude. In 3D, voxel 0 ends with its wrapped phase.

**`mat2file.c`** writes a MATLAB array into a subregion of a raw image file
(`@file_array`). The model covers:
- the byte-swapping routines (`swap8/16/32/64`);
- the datatype table and `open_file`'s checks of the file description
  (`getpr`);
- `mexFunction`'s validation of the subscript arguments and the padding of
  the dimension lists;
- `put`'s stride tables;
- the recursive `put_bytes`, which gathers contiguous runs of elements into
  a 1024-byte buffer and writes each run with one `fwrite`.

The file is modelled as the log of writes (`Record`: position, input offset,
swapped bytes). The main properties are these:
- each record holds the group-swapped input bytes of its run;
- the records together cover exactly the element stream that `put_bytes`
  visits, in order;
- every visited element lies inside the file region the description
  declares;
- every byte read comes from the data array.

Modules: `Wrappers` (Option/Result), `Grid` (arithmetic and counting
helpers), `Phase` (2π turns, the rounding of `m`, weighted means), `Growth`
(`downstack` and the scans shared by both unwrappers), `Unwrap2D`,
`Unwrap3D`, `ByteSwap`, `Dtypes`, `MexArgs`, `StridedWrite`, `Mat2File`.

## Model

| member | source | states |
|---|---|---|
| Phase.RoundHalfUp | PhaseUnwrap/MEX_Unwrap2D.c:214 | `(int)(x + 0.5)` for x >= 0 is the integer within a half of x, rounding halves up |
| Phase.Ambiguity | PhaseUnwrap/MEX_Unwrap2D.c:213-215 | the wrap count m has the sign of dp and m·2π lies within half a turn of dp |
| Phase.AmbiguityIsNearest | PhaseUnwrap/MEX_Unwrap2D.c:213-218 | no other whole number of turns lies closer to dp than the one chosen |
| Phase.AmbiguityTieAwayFromZero | PhaseUnwrap/MEX_Unwrap2D.c:214-215 | on a tie between two nearest multiples the one of larger magnitude is chosen |
| Phase.SumNonNegative | PhaseUnwrap/MEX_Unwrap2D.c:369-376 | the weight sum is non-negative, and zero exactly when every weight is zero |
| Phase.SumAbove | PhaseUnwrap/MEX_Unwrap2D.c:369-376 | sum(p·w) is at least lo·sum(w) when every contributing phase is at least lo |
| Phase.SumBelow | PhaseUnwrap/MEX_Unwrap2D.c:369-376 | sum(p·w) is at most hi·sum(w) when every contributing phase is at most hi |
| Phase.MeanWithin | PhaseUnwrap/MEX_Unwrap2D.c:369-376 | the weighted mean is defined iff some weight is positive, and then lies between the least and greatest contributing phase |
| Phase.MeanOf | PhaseUnwrap/MEX_Unwrap2D.c:369-376 | the closing loop of predict_phase (in both unwrappers) computes sum(p·w) / sum(w), or None when the weight sum is 0 |
| Growth.Downstack | PhaseUnwrap/MEX_Unwrap2D.c:448-461 | removes the queue's front by shifting the rest down one place, keeping their order; forces the length to 0 when it was at most 1; entries from the new length on are untouched |
| Growth.SeedScanIsFirstMax | PhaseUnwrap/MEX_Unwrap2D.c:477-489 | SeedScan, find_seed's running maximum, yields the first candidate of greatest positive magnitude, or (0.0, 0) when no candidate is positive |
| Growth.NearestScanIsFirstMin | PhaseUnwrap/MEX_Unwrap2D.c:529-548 | NearestScan, seed_ambiguity's running minimum, yields the first candidate at least distance, or index 0 when there is no candidate |
| Unwrap2D.Loc | PhaseUnwrap/MEX_Unwrap2D.c:49 | LOC2D lies in the image and `% nx`, `/ nx` recover x and y |
| Unwrap2D.InBounds | PhaseUnwrap/MEX_Unwrap2D.c:321-324 | a voxel that passes inbounds has its LOC2D index inside the image, so add_pixel and extrap_phase index the maps safely |
| Unwrap2D.LocBounds | PhaseUnwrap/MEX_Unwrap2D.c:49 | the same facts about `x + nx * y` written out |
| Unwrap2D.CoordsRoundTrip | PhaseUnwrap/MEX_Unwrap2D.c:353-354 | every index is the LOC2D of its own (loc % nx, loc / nx) |
| Unwrap2D.DirSymmetric | PhaseUnwrap/MEX_Unwrap2D.c:270-288 | stepping in compass direction d and then d + 4 returns to the start |
| Unwrap2D.DirInjective | PhaseUnwrap/MEX_Unwrap2D.c:270-288 | different compass directions reach different voxels |
| Unwrap2D.FreshExcludesLater | PhaseUnwrap/MEX_Unwrap2D.c:270-288 | a voxel enqueued by an earlier direction is never the neighbour in a later one |
| Unwrap2D.FreshExact | PhaseUnwrap/MEX_Unwrap2D.c:270-316 | add_neighbours enqueues each admitted neighbour exactly once and nothing else |
| Unwrap2D.FreshStep | PhaseUnwrap/MEX_Unwrap2D.c:296-316 | marking earlier neighbours queued does not change add_pixel's verdict on a later one |
| Unwrap2D.FreshGrows | PhaseUnwrap/MEX_Unwrap2D.c:270-288 | later directions only add to the queue |
| Unwrap2D.AddPixel | PhaseUnwrap/MEX_Unwrap2D.c:296-316 | an in-bounds, unvisited, trusted voxel is appended and marked queued; otherwise nothing changes |
| Unwrap2D.AddNeighbours | PhaseUnwrap/MEX_Unwrap2D.c:270-288 | the queue grows by exactly the admitted neighbours in compass order, and those become queued |
| Unwrap2D.OfferNeighbour | PhaseUnwrap/MEX_Unwrap2D.c:296-316 | one compass direction extends the queue and the visit map by one step of the specification |
| Unwrap2D.PredictionDefined | PhaseUnwrap/MEX_Unwrap2D.c:345-376 | predict_phase's weight sum is non-zero iff some compass neighbour is resolved |
| Unwrap2D.Extrap | PhaseUnwrap/MEX_Unwrap2D.c:389-438 | extrap_phase gives weight 1 exactly when the neighbour in direction d is in bounds and resolved, and then contributes that neighbour's unwrapped phase; otherwise weight 0 and phase 0 |
| Unwrap2D.PredictionWithin | PhaseUnwrap/MEX_Unwrap2D.c:345-441 | the prediction lies between the least and greatest phase of the resolved neighbours |
| Unwrap2D.PredictPhase | PhaseUnwrap/MEX_Unwrap2D.c:345-441 | returns the weighted mean of the extrapolated neighbour phases (None where C divides 0 by 0) |
| Unwrap2D.Seed | PhaseUnwrap/MEX_Unwrap2D.c:477-491 | find_seed's choice is a voxel of the image |
| Unwrap2D.Nearest | PhaseUnwrap/MEX_Unwrap2D.c:529-548 | seed_ambiguity's reference voxel is a voxel of the image |
| Unwrap2D.FindSeed | PhaseUnwrap/MEX_Unwrap2D.c:468-507 | picks the first trusted unresolved voxel of greatest positive magnitude (else 0), marks it resolved, counts it, and rebuilds the queue from its admitted neighbours |
| Unwrap2D.FreshRoom | PhaseUnwrap/MEX_Unwrap2D.c:468-507 | the neighbours of a resolved voxel fit in the queue |
| Unwrap2D.NearestStep | PhaseUnwrap/MEX_Unwrap2D.c:529-548 | one step of the search: a resolved off-axis voxel strictly nearer than the best so far replaces it |
| Unwrap2D.NearestResolved | PhaseUnwrap/MEX_Unwrap2D.c:529-548 | the y/x search loop with its running index finds the first nearest off-axis resolved voxel |
| Unwrap2D.SeedAmbiguity | PhaseUnwrap/MEX_Unwrap2D.c:513-559 | the seed's wrap count rounds the phase difference to that nearest voxel to whole turns |
| Unwrap2D.MarkKeepsResolved | PhaseUnwrap/MEX_Unwrap2D.c:296-316 | queueing unvisited voxels leaves the resolved set unchanged |
| Unwrap2D.FreshUnvisited | PhaseUnwrap/MEX_Unwrap2D.c:296-316 | every enqueued voxel was unvisited and trusted |
| Unwrap2D.DequeueKeepsQueue | PhaseUnwrap/MEX_Unwrap2D.c:201-222 | resolving the front keeps the rest of the queue valid |
| Unwrap2D.GrowKeepsQueue | PhaseUnwrap/MEX_Unwrap2D.c:225-230 | enqueueing the neighbours keeps the queue valid, repetition-free and within the stack's size |
| Unwrap2D.ResolveStep | PhaseUnwrap/MEX_Unwrap2D.c:198-232 | one pass of the inner loop keeps the loop invariant and resolves one more voxel |
| Unwrap2D.SeedStep | PhaseUnwrap/MEX_Unwrap2D.c:234-253 | reseeding with any wrap count keeps the loop invariant |
| Unwrap2D.SeedStepAt | PhaseUnwrap/MEX_Unwrap2D.c:234-253 | SeedStep for the state after find_seed and the seed update |
| Unwrap2D.SeedCount | PhaseUnwrap/MEX_Unwrap2D.c:477-495 | the seed is trusted or the fallback 0, and nunwrapped stays in step with the resolved trusted voxels |
| Unwrap2D.InitialInv | PhaseUnwrap/MEX_Unwrap2D.c:165-175 | the initialised state satisfies the loop invariant |
| Unwrap2D.Completion | PhaseUnwrap/MEX_Unwrap2D.c:196 | once nunwrapped reaches nmask, the count can no longer be in step, so every trusted voxel of positive magnitude is resolved |
| Unwrap2D.ResolveFront | PhaseUnwrap/MEX_Unwrap2D.c:198-232 | takes the front voxel, gives it the wrap count nearest its prediction, and keeps the invariant; fewer voxels remain unresolved |
| Unwrap2D.TakeFront | PhaseUnwrap/MEX_Unwrap2D.c:201-215 | dequeues the front and computes its wrap count from the prediction |
| Unwrap2D.WrapCount | PhaseUnwrap/MEX_Unwrap2D.c:206-215 | a queued voxel's prediction is defined and m rounds its difference from the wrapped phase |
| Unwrap2D.Commit | PhaseUnwrap/MEX_Unwrap2D.c:218-230 | stores psi_w + m·2π, marks the voxel resolved and enqueues its admitted neighbours |
| Unwrap2D.Reseed | PhaseUnwrap/MEX_Unwrap2D.c:234-253 | find_seed, then the seed gets psi_w + m·2π with m the phase difference to the nearest off-axis resolved voxel rounded to whole turns; the invariant is kept |
| Unwrap2D.SeedPhase | PhaseUnwrap/MEX_Unwrap2D.c:247-253 | m is seed_ambiguity's wrap count from the phases before the update, and only the seed's phase changes, to psi_w + m·2π |
| Unwrap2D.Initialise | PhaseUnwrap/MEX_Unwrap2D.c:165-175 | output starts as the input; trusted and mask mark magnitude >= threshold; nmask counts them |
| Unwrap2D.AboveThresholdStep | PhaseUnwrap/MEX_Unwrap2D.c:174 | nmask goes up by one exactly for a voxel at or above the threshold |
| Unwrap2D.TrustedAboveThreshold | PhaseUnwrap/MEX_Unwrap2D.c:169 | the trusted set is the set of voxels at or above the threshold |
| Unwrap2D.Outcome | PhaseUnwrap/MEX_Unwrap2D.c:196-258 | the final state: unresolved voxels keep their phase, resolved ones are trusted (or voxel 0), every trusted voxel of positive magnitude is resolved |
| Unwrap2D.FirstSeed | PhaseUnwrap/MEX_Unwrap2D.c:181-194 | the first find_seed and the reset of nunwrapped establish the invariant |
| Unwrap2D.Grow | PhaseUnwrap/MEX_Unwrap2D.c:196-255 | the main loop terminates with nunwrapped >= nmask and the invariant |
| Unwrap2D.Unwrap | PhaseUnwrap/MEX_Unwrap2D.c:104-265 | output = input + whole turns; mask = threshold test; untrusted voxels other than 0 unchanged; every trusted voxel of positive magnitude resolved; no stack overflow |
| Unwrap3D.Loc | PhaseUnwrap/MEX_Unwrap3D.c:54 | LOC3D of an in-bounds voxel lies in the volume and toxyz inverts it |
| Unwrap3D.InBounds | PhaseUnwrap/MEX_Unwrap3D.c:388-393 | a voxel that passes inbounds has its LOC3D index inside the volume |
| Unwrap3D.ToXyz | PhaseUnwrap/MEX_Unwrap3D.c:634-640 | toxyz gives x in [0, nx), the coordinates rebuild the index as x + y·nx + z·nx·ny, and a non-negative index has non-negative y and z |
| Unwrap3D.LocBounds | PhaseUnwrap/MEX_Unwrap3D.c:54 | the same facts about `x + nx * (y + ny * z)` written out |
| Unwrap3D.PlaneSplit | PhaseUnwrap/MEX_Unwrap3D.c:54 | LOC3D is the in-plane index plus z whole planes |
| Unwrap3D.CoordsRoundTrip | PhaseUnwrap/MEX_Unwrap3D.c:634-640 | every index is the LOC3D of its toxyz coordinates, which are in bounds |
| Unwrap3D.CoordsSplit | PhaseUnwrap/MEX_Unwrap3D.c:634-640 | toxyz's coordinates and the plane/row decomposition of an index |
| Unwrap3D.OffsetIndexed | PhaseUnwrap/MEX_Unwrap3D.c:320-352 | the 26 offsets are distinct unit steps, none the centre, in add_neighbours' order |
| Unwrap3D.OffsetOpposite | PhaseUnwrap/MEX_Unwrap3D.c:320-352 | direction 25 - d is the opposite of direction d |
| Unwrap3D.DirSymmetric | PhaseUnwrap/MEX_Unwrap3D.c:309-353 | stepping in direction d and then 25 - d returns to the start |
| Unwrap3D.DirInjective | PhaseUnwrap/MEX_Unwrap3D.c:309-353 | different directions reach different voxels |
| Unwrap3D.LocInjective | PhaseUnwrap/MEX_Unwrap3D.c:54 | LOC3D is injective on in-bounds coordinates |
| Unwrap3D.FreshExcludesLater | PhaseUnwrap/MEX_Unwrap3D.c:309-353 | a voxel enqueued by an earlier direction is never the neighbour in a later one |
| Unwrap3D.FreshExact | PhaseUnwrap/MEX_Unwrap3D.c:309-383 | add_neighbours enqueues each admitted neighbour exactly once and nothing else |
| Unwrap3D.FreshStep | PhaseUnwrap/MEX_Unwrap3D.c:361-383 | marking earlier neighbours queued does not change add_pixel's verdict on a later one |
| Unwrap3D.FreshGrows | PhaseUnwrap/MEX_Unwrap3D.c:309-353 | later directions only add to the queue |
| Unwrap3D.AddPixel | PhaseUnwrap/MEX_Unwrap3D.c:361-383 | an in-bounds, unvisited voxel of positive trust is appended and marked queued; otherwise nothing changes |
| Unwrap3D.AddNeighbours | PhaseUnwrap/MEX_Unwrap3D.c:309-353 | the queue grows by exactly the admitted neighbours in order, and those become queued |
| Unwrap3D.OfferNeighbour | PhaseUnwrap/MEX_Unwrap3D.c:361-383 | one direction extends the queue and the visit map by one step of the specification |
| Unwrap3D.PredictionDefined | PhaseUnwrap/MEX_Unwrap3D.c:402-500 | the weight sum is non-zero iff some neighbour is resolved; a weight is positive exactly for a resolved neighbour |
| Unwrap3D.Extrap | PhaseUnwrap/MEX_Unwrap3D.c:468-500 | a resolved neighbour in direction d contributes its unwrapped phase with weight trust + 1; with trust values 0 or 1 the weight is non-zero exactly when the neighbour is in bounds and resolved, and weight 0 means phase 0 |
| Unwrap3D.FrontPredicted | PhaseUnwrap/MEX_Unwrap3D.c:240-244 | a voxel with a resolved neighbour has a defined prediction |
| Unwrap3D.PredictionWithin | PhaseUnwrap/MEX_Unwrap3D.c:402-500 | the trust-weighted prediction lies between the least and greatest resolved neighbour phase |
| Unwrap3D.PredictPhase | PhaseUnwrap/MEX_Unwrap3D.c:402-500 | returns the weighted mean of the 26 extrapolated phases, with weight trust + 1 |
| Unwrap3D.Seed | PhaseUnwrap/MEX_Unwrap3D.c:542-551 | find_seed's choice is a voxel of the volume |
| Unwrap3D.FindSeed | PhaseUnwrap/MEX_Unwrap3D.c:527-567 | picks the first unresolved voxel of positive trust and greatest positive magnitude (else 0), marks it resolved, counts it and rebuilds the queue |
| Unwrap3D.FreshRoom | PhaseUnwrap/MEX_Unwrap3D.c:527-567 | the neighbours of a resolved voxel fit in the queue |
| Unwrap3D.Nearest | PhaseUnwrap/MEX_Unwrap3D.c:592-617 | seed_ambiguity's reference voxel is a voxel of the volume |
| Unwrap3D.NearestStep | PhaseUnwrap/MEX_Unwrap3D.c:598-613 | one step of the search: a resolved voxel off the seed's x and y lines, strictly nearer, replaces the best |
| Unwrap3D.NearestResolved | PhaseUnwrap/MEX_Unwrap3D.c:588-617 | the z/y/x search loop finds the first nearest candidate |
| Unwrap3D.NearestPlane | PhaseUnwrap/MEX_Unwrap3D.c:595-616 | one z plane of the search advances the scan by nx·ny voxels |
| Unwrap3D.NearestRow | PhaseUnwrap/MEX_Unwrap3D.c:596-615 | one row of the search advances the scan by nx voxels |
| Unwrap3D.NearestVisit | PhaseUnwrap/MEX_Unwrap3D.c:598-613 | one voxel of the search advances the scan by one |
| Unwrap3D.SeedAmbiguity | PhaseUnwrap/MEX_Unwrap3D.c:573-629 | the wrap count rounds the phase difference to the nearest candidate to whole turns |
| Unwrap3D.MarkKeepsResolved | PhaseUnwrap/MEX_Unwrap3D.c:361-383 | queueing unvisited voxels leaves the resolved set unchanged |
| Unwrap3D.FreshUnvisited | PhaseUnwrap/MEX_Unwrap3D.c:361-383 | every enqueued voxel was unvisited and of positive trust |
| Unwrap3D.DequeueKeepsQueue | PhaseUnwrap/MEX_Unwrap3D.c:235-256 | resolving the front keeps the rest of the queue valid |
| Unwrap3D.GrowKeepsQueue | PhaseUnwrap/MEX_Unwrap3D.c:259-264 | enqueueing the neighbours keeps the queue valid and within the stack's size |
| Unwrap3D.ResolveStep | PhaseUnwrap/MEX_Unwrap3D.c:232-266 | one pass of the inner loop keeps the loop invariant and resolves one more voxel |
| Unwrap3D.ResolveKeepsWraps | PhaseUnwrap/MEX_Unwrap3D.c:252-255 | resolving a voxel with wrap count m keeps output = input + whole turns |
| Unwrap3D.InvQueueRoom | PhaseUnwrap/MEX_Unwrap3D.c:232 | the queue after a pass stays below the volume size |
| Unwrap3D.SeedStep | PhaseUnwrap/MEX_Unwrap3D.c:272-292 | reseeding with any wrap count keeps the loop invariant |
| Unwrap3D.SeedStepAt | PhaseUnwrap/MEX_Unwrap3D.c:272-292 | SeedStep for the state after find_seed and the seed update |
| Unwrap3D.SeedCount | PhaseUnwrap/MEX_Unwrap3D.c:542-555 | the seed has positive trust or is the fallback 0, and nunwrapped stays in step |
| Unwrap3D.InitialInv | PhaseUnwrap/MEX_Unwrap3D.c:195-203 | the initialised state satisfies the loop invariant |
| Unwrap3D.Completion | PhaseUnwrap/MEX_Unwrap3D.c:230 | once nunwrapped reaches ntrust, the count can no longer be in step, so every trusted voxel of positive magnitude is resolved |
| Unwrap3D.FinalSeed | PhaseUnwrap/MEX_Unwrap3D.c:272-292 | the last reseed comes when every trusted voxel of positive magnitude is resolved, so it falls back to voxel 0 |
| Unwrap3D.ResolveFront | PhaseUnwrap/MEX_Unwrap3D.c:232-266 | takes the front voxel, gives it the wrap count nearest its prediction, and keeps the invariant |
| Unwrap3D.TakeFront | PhaseUnwrap/MEX_Unwrap3D.c:235-249 | dequeues the front and computes its wrap count from the prediction |
| Unwrap3D.WrapCount | PhaseUnwrap/MEX_Unwrap3D.c:240-249 | a queued voxel's prediction is defined and m rounds its difference from the wrapped phase |
| Unwrap3D.Commit | PhaseUnwrap/MEX_Unwrap3D.c:252-264 | stores psi_w + m·2π, marks the voxel resolved and enqueues its admitted neighbours |
| Unwrap3D.Reseed | PhaseUnwrap/MEX_Unwrap3D.c:272-292 | find_seed, then the seed keeps its wrapped phase (m = 0); the invariant is kept |
| Unwrap3D.Initialise | PhaseUnwrap/MEX_Unwrap3D.c:195-203 | output starts as the input; trust is 1.0 or 0.0 by the threshold; ntrust counts the trusted voxels |
| Unwrap3D.AboveThresholdStep | PhaseUnwrap/MEX_Unwrap3D.c:202 | ntrust goes up by one exactly for a voxel at or above the threshold |
| Unwrap3D.TrustedAboveThreshold | PhaseUnwrap/MEX_Unwrap3D.c:200 | the trusted set is the set of voxels at or above the threshold |
| Unwrap3D.Outcome | PhaseUnwrap/MEX_Unwrap3D.c:230-297 | the final state: unresolved voxels keep their phase, resolved ones are trusted (or voxel 0), every trusted voxel of positive magnitude is resolved, and voxel 0 keeps its wrapped phase |
| Unwrap3D.FirstSeed | PhaseUnwrap/MEX_Unwrap3D.c:211-228 | the first find_seed and the reset of nunwrapped establish the invariant |
| Unwrap3D.Grow | PhaseUnwrap/MEX_Unwrap3D.c:230-294 | the main loop terminates with nunwrapped >= ntrust and the invariant, and the last reseed leaves voxel 0 with its wrapped phase |
| Unwrap3D.Unwrap | PhaseUnwrap/MEX_Unwrap3D.c:129-304 | output = input + whole turns; trust = threshold test; untrusted voxels other than 0 unchanged; every trusted voxel of positive magnitude resolved; voxel 0 keeps its wrapped phase; no stack overflow |
| ByteSwap.Reverse | IO/Nifti/niftimatlib-1.0/matlab/@file_array/private/src/mat2file.c:33-62 | one group of bytes in reverse order |
| ByteSwap.ReverseInvolution | IO/Nifti/niftimatlib-1.0/matlab/@file_array/private/src/mat2file.c:33-62 | reversing twice restores a group |
| ByteSwap.SwapGroupsAppend | IO/Nifti/niftimatlib-1.0/matlab/@file_array/private/src/mat2file.c:33-62 | swapping distributes over concatenation at a group boundary |
| ByteSwap.SwapGroupsAfter | IO/Nifti/niftimatlib-1.0/matlab/@file_array/private/src/mat2file.c:33-62 | the group after a whole number of groups is reversed in place |
| ByteSwap.SwapGroupsReversesEachGroup | IO/Nifti/niftimatlib-1.0/matlab/@file_array/private/src/mat2file.c:33-62 | group q of the output is group q of the input reversed |
| ByteSwap.SwapGroupsSnoc | IO/Nifti/niftimatlib-1.0/matlab/@file_array/private/src/mat2file.c:33-62 | each loop pass appends one reversed group |
| ByteSwap.SwapGroupsInvolution | IO/Nifti/niftimatlib-1.0/matlab/@file_array/private/src/mat2file.c:33-62 | swapping twice with the same width restores the bytes |
| ByteSwap.SwapGroupsOne | IO/Nifti/niftimatlib-1.0/matlab/@file_array/private/src/mat2file.c:22-31 | width-1 swapping is the identity (copy) |
| ByteSwap.GroupWritten | IO/Nifti/niftimatlib-1.0/matlab/@file_array/private/src/mat2file.c:36-39 | a group written mirror-wise extends the output by that reversed group |
| ByteSwap.Swap8 | IO/Nifti/niftimatlib-1.0/matlab/@file_array/private/src/mat2file.c:22-31 | copies n bytes and leaves the rest of the output alone |
| ByteSwap.ReversePair | IO/Nifti/niftimatlib-1.0/matlab/@file_array/private/src/mat2file.c:38 | one pass of swap16 exchanges two bytes |
| ByteSwap.Swap16 | IO/Nifti/niftimatlib-1.0/matlab/@file_array/private/src/mat2file.c:33-40 | the first n output bytes are the input with every 2-byte group reversed; the rest unchanged |
| ByteSwap.ReverseQuad | IO/Nifti/niftimatlib-1.0/matlab/@file_array/private/src/mat2file.c:47-48 | one pass of swap32 reverses four bytes |
| ByteSwap.Swap32 | IO/Nifti/niftimatlib-1.0/matlab/@file_array/private/src/mat2file.c:42-50 | every 4-byte group reversed; the rest unchanged |
| ByteSwap.ReverseOctet | IO/Nifti/niftimatlib-1.0/matlab/@file_array/private/src/mat2file.c:57-60 | one pass of swap64 reverses eight bytes |
| ByteSwap.Swap64 | IO/Nifti/niftimatlib-1.0/matlab/@file_array/private/src/mat2file.c:52-62 | every 8-byte group reversed; the rest unchanged |
| ByteSwap.Apply | IO/Nifti/niftimatlib-1.0/matlab/@file_array/private/src/mat2file.c:106 | calling a table entry's swap routine reverses groups of its width |
| Dtypes.FirstMatch | IO/Nifti/niftimatlib-1.0/matlab/@file_array/private/src/mat2file.c:218-225 | the table search finds the first entry with the code, or reports that none has it |
| Dtypes.Lookup | IO/Nifti/niftimatlib-1.0/matlab/@file_array/private/src/mat2file.c:216-225 | open_file's table loop: the entry found has the requested code, and none is found exactly when no entry has that code |
| Dtypes.CodesDistinct | IO/Nifti/niftimatlib-1.0/matlab/@file_array/private/src/mat2file.c:65-77 | no two table entries share a code |
| Dtypes.LookupFinds | IO/Nifti/niftimatlib-1.0/matlab/@file_array/private/src/mat2file.c:218-225 | every table entry is found by its own code |
| Dtypes.WritableCodes | IO/Nifti/niftimatlib-1.0/matlab/@file_array/private/src/mat2file.c:216-228 | exactly the codes 2, 4, 8, 16, 64, 256, 512, 768 pass the lookup, logical and complex checks |
| Dtypes.WritableWidth | IO/Nifti/niftimatlib-1.0/matlab/@file_array/private/src/mat2file.c:65-77 | for a writable entry the swap width, bits / 8 and MATLAB's element size agree |
| Dtypes.LookupWidth | IO/Nifti/niftimatlib-1.0/matlab/@file_array/private/src/mat2file.c:216-228 | the same agreement for the entry a code looks up |
| MexArgs.GetPr | IO/Nifti/niftimatlib-1.0/matlab/@file_array/private/src/mat2file.c:164-204 | succeeds iff the field exists, is double and has exactly len (len >= 0) or at most -len elements, and then gives its elements; each of the five failures (missing, not numeric, not double, wrong count, too many) has its own message |
| MexArgs.Trunc | IO/Nifti/niftimatlib-1.0/matlab/@file_array/private/src/mat2file.c:216 | the `(int)` cast truncates toward zero |
| MexArgs.ToUnsigned | IO/Nifti/niftimatlib-1.0/matlab/@file_array/private/src/mat2file.c:242 | storing an int into the unsigned offset wraps negatives modulo 2^32 |
| MexArgs.ToSigned | IO/Nifti/niftimatlib-1.0/matlab/@file_array/private/src/mat2file.c:152 | the unsigned offset passed as put_bytes's int: below 2^31 it is unchanged, and storing the int back as unsigned restores the field |
| MexArgs.OpenFile | IO/Nifti/niftimatlib-1.0/matlab/@file_array/private/src/mat2file.c:207-274 | accepts exactly the well-formed descriptions; the map holds the looked-up writable type, one dimension per element of the "dim" field (at most 256), each the truncated absolute value of that element, the swap flag by host endianness and the offset |
| MexArgs.OffsetNotClamped | IO/Nifti/niftimatlib-1.0/matlab/@file_array/private/src/mat2file.c:242-243 | the `< 0` clamp on the unsigned offset never fires: put receives the offset as given |
| MexArgs.CheckIndices | IO/Nifti/niftimatlib-1.0/matlab/@file_array/private/src/mat2file.c:313-340 | no error iff every subscript argument is int32, has idim[i] elements and each lies in 1..extent |
| MexArgs.PadDims | IO/Nifti/niftimatlib-1.0/matlab/@file_array/private/src/mat2file.c:347-352 | the file dimensions come first, unchanged, and 1s follow up to the subscript count |
| MexArgs.PadIDims | IO/Nifti/niftimatlib-1.0/matlab/@file_array/private/src/mat2file.c:322-325 | one data extent per subscript argument (1 beyond the data's own dimensions), then 1s up to ndim |
| MexArgs.PadSubscripts | IO/Nifti/niftimatlib-1.0/matlab/@file_array/private/src/mat2file.c:333-346 | each index argument's elements as given, then the single subscript 1 for each remaining dimension up to ndim |
| MexArgs.PaddedSubscriptsInRange | IO/Nifti/niftimatlib-1.0/matlab/@file_array/private/src/mat2file.c:313-352 | after validation and padding every list has idim entries, each within the padded dimension |
| StridedWrite.Strides | IO/Nifti/niftimatlib-1.0/matlab/@file_array/private/src/mat2file.c:140-146 | the stride table starts at the element size and has one entry per dimension plus one |
| StridedWrite.StridesCum | IO/Nifti/niftimatlib-1.0/matlab/@file_array/private/src/mat2file.c:142-146 | each stride is the previous one times the extent |
| StridedWrite.CumIsProd | IO/Nifti/niftimatlib-1.0/matlab/@file_array/private/src/mat2file.c:142-146 | stride i is the element size times the product of the first i extents |
| StridedWrite.StridesBound | IO/Nifti/niftimatlib-1.0/matlab/@file_array/private/src/mat2file.c:142-146 | strides are non-negative and the last spans the whole array |
| StridedWrite.CumProducts | IO/Nifti/niftimatlib-1.0/matlab/@file_array/private/src/mat2file.c:140-146 | the loop fills icumprod and ocumprod with the stride tables |
| StridedWrite.Stream | IO/Nifti/niftimatlib-1.0/matlab/@file_array/private/src/mat2file.c:93-129 | at level 0, put_bytes visits one element per subscript, in order: the k-th has file offset indo + (subscript − 1)·nb and input offset indi + k·nb (the higher levels are stated by StreamOffsets and StreamInputs) |
| StridedWrite.StreamLength | IO/Nifti/niftimatlib-1.0/matlab/@file_array/private/src/mat2file.c:93-129 | put_bytes visits the product of the data extents many elements |
| StridedWrite.Digit | IO/Nifti/niftimatlib-1.0/matlab/@file_array/private/src/mat2file.c:93-129 | the subscript position put_bytes' loop at level e is on for the k-th element lies within idim[e]: k's mixed-radix digit, dimension 0 fastest |
| StridedWrite.StreamOffsets | IO/Nifti/niftimatlib-1.0/matlab/@file_array/private/src/mat2file.c:101-127 | at every level, the k-th element visited is written at file offset indo + Σ over the levels e of (ptr[e][digit e of k] − 1)·ocumprod[e]; any element at all means every extent up to the level is positive |
| StridedWrite.StreamInputs | IO/Nifti/niftimatlib-1.0/matlab/@file_array/private/src/mat2file.c:101-127 | the k-th element visited is read at input offset k·nb: the data are read in order |
| StridedWrite.StreamInFile | IO/Nifti/niftimatlib-1.0/matlab/@file_array/private/src/mat2file.c:101-127 | every element written lies within the region from the offset spanned by the file dimensions |
| StridedWrite.StreamGrows | IO/Nifti/niftimatlib-1.0/matlab/@file_array/private/src/mat2file.c:101-127 | each loop pass appends one element (level 0) or one sub-stream (higher levels) |
| StridedWrite.CoveredRun | IO/Nifti/niftimatlib-1.0/matlab/@file_array/private/src/mat2file.c:104-118 | a contiguous run is exactly what its record covers |
| StridedWrite.RunExtends | IO/Nifti/niftimatlib-1.0/matlab/@file_array/private/src/mat2file.c:104-118 | an element just after the run, with buffer room, extends the run |
| StridedWrite.RunStarts | IO/Nifti/niftimatlib-1.0/matlab/@file_array/private/src/mat2file.c:113-118 | a flush starts a new one-element run at the element's offsets |
| StridedWrite.RunStaysFaithful | IO/Nifti/niftimatlib-1.0/matlab/@file_array/private/src/mat2file.c:117-118 | extending the run keeps the log plus the run equal to the stream seen |
| StridedWrite.RunWhole | IO/Nifti/niftimatlib-1.0/matlab/@file_array/private/src/mat2file.c:106 | a run's length is a whole number of swap groups |
| StridedWrite.FlushLogged | IO/Nifti/niftimatlib-1.0/matlab/@file_array/private/src/mat2file.c:106-107 | flushing a run appends a record of its swapped input bytes |
| StridedWrite.RunRecordOk | IO/Nifti/niftimatlib-1.0/matlab/@file_array/private/src/mat2file.c:106-107 | the flushed record is well formed |
| StridedWrite.FlushAll | IO/Nifti/niftimatlib-1.0/matlab/@file_array/private/src/mat2file.c:155-156 | after the final flush the records cover exactly the elements seen |
| StridedWrite.FlushFaithful | IO/Nifti/niftimatlib-1.0/matlab/@file_array/private/src/mat2file.c:104-118 | flushing and restarting keeps the log plus the run equal to the stream seen |
| StridedWrite.SwapFor | IO/Nifti/niftimatlib-1.0/matlab/@file_array/private/src/mat2file.c:148-151 | with swapping the routine is the data type's own swap routine, without it the routine is copy |
| StridedWrite.StartValid | IO/Nifti/niftimatlib-1.0/matlab/@file_array/private/src/mat2file.c:136-141 | the initial state is an empty, valid run with poff = -999999 |
| StridedWrite.StridesReady | IO/Nifti/niftimatlib-1.0/matlab/@file_array/private/src/mat2file.c:142-146 | the input strides fit the data |
| StridedWrite.Writer.Flush | IO/Nifti/niftimatlib-1.0/matlab/@file_array/private/src/mat2file.c:106-107 | swaps the buffered run into wbuf and logs it when non-empty |
| StridedWrite.Writer.Restart | IO/Nifti/niftimatlib-1.0/matlab/@file_array/private/src/mat2file.c:104-118 | flush, seek, and start a new run at the element |
| StridedWrite.Writer.Extend | IO/Nifti/niftimatlib-1.0/matlab/@file_array/private/src/mat2file.c:117-118 | grow the run by one element |
| StridedWrite.Writer.Feed | IO/Nifti/niftimatlib-1.0/matlab/@file_array/private/src/mat2file.c:103-118 | a non-adjacent element or a full buffer flushes and restarts; otherwise the run grows |
| StridedWrite.Writer.PutBytes | IO/Nifti/niftimatlib-1.0/matlab/@file_array/private/src/mat2file.c:93-129 | put_bytes at level d feeds exactly the specified element stream |
| StridedWrite.Writer.PutElements | IO/Nifti/niftimatlib-1.0/matlab/@file_array/private/src/mat2file.c:98-120 | the level-0 loop feeds the row's elements in order |
| StridedWrite.Writer.PutElement | IO/Nifti/niftimatlib-1.0/matlab/@file_array/private/src/mat2file.c:103-118 | one element at file offset indo + (ptr - 1)·nb and input offset indi + i·nb |
| StridedWrite.Writer.PutPlanes | IO/Nifti/niftimatlib-1.0/matlab/@file_array/private/src/mat2file.c:121-128 | the higher-level loop feeds each sub-stream in order |
| StridedWrite.Writer.PutPlane | IO/Nifti/niftimatlib-1.0/matlab/@file_array/private/src/mat2file.c:125-126 | one recursive call with the offsets advanced by the strides |
| StridedWrite.Writer.Start | IO/Nifti/niftimatlib-1.0/matlab/@file_array/private/src/mat2file.c:136-146 | initialises the run state and fills the stride tables |
| StridedWrite.Writer.Finish | IO/Nifti/niftimatlib-1.0/matlab/@file_array/private/src/mat2file.c:155-156 | the last flush leaves a log of well-formed records covering the stream |
| StridedWrite.Writer.Transfer | IO/Nifti/niftimatlib-1.0/matlab/@file_array/private/src/mat2file.c:153-156 | put_bytes from the top level, then the last flush |
| StridedWrite.Writer.Put | IO/Nifti/niftimatlib-1.0/matlab/@file_array/private/src/mat2file.c:131-162 | put: strides set, every record holds swapped input bytes, and the records cover exactly the visited elements |
| Mat2File.Refusal | IO/Nifti/niftimatlib-1.0/matlab/@file_array/private/src/mat2file.c:292-340 | mexFunction's checks as written: nothing is refused exactly when there is a subscript argument and no output, open_file succeeds with fewer than 256 dimensions, the classes match, and every subscript list is int32, as long as the data's extent in its dimension and within the file's extent; the data's further dimensions are never checked |
| Mat2File.CheckedRefusal | IO/Nifti/niftimatlib-1.0/matlab/@file_array/private/src/mat2file.c:292-340 | the checks as written, plus a refusal when the data's element count differs from the selection |
| Mat2File.ProdOnes | IO/Nifti/niftimatlib-1.0/matlab/@file_array/private/src/mat2file.c:342-346 | extents of 1 do not change the product |
| Mat2File.PaddedProd | IO/Nifti/niftimatlib-1.0/matlab/@file_array/private/src/mat2file.c:322-325 | the padded extents multiply to the selected element count |
| Mat2File.PaddedShaped | IO/Nifti/niftimatlib-1.0/matlab/@file_array/private/src/mat2file.c:313-352 | after validation the padded lists match the padded extents and stay in range |
| Mat2File.PaddedCount | IO/Nifti/niftimatlib-1.0/matlab/@file_array/private/src/mat2file.c:342-346 | with the element count checked, the padded extents multiply to the data's size |
| Mat2File.ReadyPadded | IO/Nifti/niftimatlib-1.0/matlab/@file_array/private/src/mat2file.c:342-353 | validated, padded arguments meet put's needs |
| Mat2File.Prepare | IO/Nifti/niftimatlib-1.0/matlab/@file_array/private/src/mat2file.c:292-352 | fails exactly with the checks' first error, else yields arguments put can work on |
| Mat2File.CheckIndexArgs | IO/Nifti/niftimatlib-1.0/matlab/@file_array/private/src/mat2file.c:313-340 | the subscript loop reports the first error of the specification |
| Mat2File.Validate | IO/Nifti/niftimatlib-1.0/matlab/@file_array/private/src/mat2file.c:292-352 | the checks, in order, and the padding |
| Mat2File.MexFunction | IO/Nifti/niftimatlib-1.0/matlab/@file_array/private/src/mat2file.c:282-355 | errors exactly as the checks say; otherwise the records are swapped data bytes covering exactly the elements put_bytes visits |
| Mat2File.SampleOpens | IO/Nifti/niftimatlib-1.0/matlab/@file_array/private/src/mat2file.c:207-243 | a sample description opens with the double type and no swap |
| Mat2File.EmptyDataAdmitted | IO/Nifti/niftimatlib-1.0/matlab/@file_array/private/src/mat2file.c:313-353 | the checks as written admit empty data with one subscript, so put would read past the data |
| Mat2File.CheckedDataSuffices | IO/Nifti/niftimatlib-1.0/matlab/@file_array/private/src/mat2file.c:313-353 | under the corrected check the selection is exactly the data's size |

## Left out

- MATLAB marshalling (`mxArray`, `plhs`, `prhs`) is not modelled. Inputs and outputs are sequences of reals, bytes and small datatypes. The `mxAssert` argument-count and size checks of the unwrappers become preconditions on the sizes.
- In `mat2file`, `nrhs < 3` is the same `IncorrectUsage` refusal as an empty subscript list. `nrhs` is the subscript count plus two.
- `fopen` and the `fname` string (its retrieval and `Cant get 'fname'`, `Cant open file`) are not modelled. The description must only hold a char `fname` field.
- `fwrite` failures and `fclose` are not modelled. `fseek` is modelled only as the file position of the next record. A failed seek is not modelled (see StridedWrite.Writer.Restart).
- Floating point: phases are exact reals. 2π is the literal 6.283185307179586, and rounding error and NaN are not modelled.
- The square root in `seed_ambiguity` is replaced by the squared distance. It orders candidates the same way.
- The `1e30` starting value of `min_dr` is modelled as "no candidate yet", so distances of 1e30 or more are not distinguished.
- Unwrap2D.Unwrap and Unwrap3D.Unwrap require a non-empty image (nx, ny, nz >= 1).
- The `Stack grew too large` message is not modelled. The model proves instead that the queue never reaches the image size.
- The `LINEAR` (two-voxel) extrapolation of the 2D `extrap_phase` is compiled out (`LINEAR 0`) and is not modelled.
- `dump_stack` and the `DEBUG` messages are not modelled.
- `Unwrap3D.SeedAmbiguity` is modelled though the 3D main loop never calls it: the C code sets `m = 0` for every new seed, and so does the model.
- Unwrap2D.TakeFront and Unwrap3D.TakeFront compute the prediction before `downstack` rather than after. Neither `predict_phase` nor `downstack` reads what the other writes, so the result is the same.
- ByteSwap.Swap8, Swap16, Swap32 and Swap64 read from a sequence and write an array, so in-place calls (the same buffer for input and output) are not modelled.
- C integer widths: the `int` and `long` products of extents, offsets and strides are unbounded integers. The offset's conversion to `unsigned int` and back is modelled (ToUnsigned, ToSigned). Overflow of the stride products is not.
- MexArgs.Trunc: out-of-range double-to-int casts, which are undefined in C, are not modelled.
- Mat2File.MexFunction: requires fewer than 256 subscript arguments. With 256 of them, `map.ndim` becomes 256 and `put`'s stride loop writes `icumprod[256]` and `ocumprod[256]`, one past the `MXDIMS`-entry arrays. With more, the subscript loop also overruns `ptr` and `idim`. The C behaviour is undefined in both cases.
- Mat2File.MexFunction: uses the corrected element-count check (see Findings). Its record-coverage promise assumes the first element is not at file offset `-999999 + nb` (StartOk), where the C sentinel `poff` would merge it into an empty run.
- StridedWrite.Writer.Restart: records the new run at the seek offset even when that offset is negative. `put` passes the unsigned `map.off` to `put_bytes` as an `int` (ToSigned), so a description `offset` of -1, or one of 2^31 or more, arrives negative. The C `fseek` then fails and the run is written at the current file position, which the model does not track.
- Mat2File.MexFunction: for the same reason, its records give the C file positions only when ToSigned of the description's offset is non-negative. Every element offset is then non-negative, because subscripts start at 1.
- StridedWrite.StreamInFile: bounds each element by the region the file dimensions span. When the file has a zero extent in a dimension that no subscript indexes, the padding admits subscript 1 there, and this bound is not claimed.

## Findings

| source | as written | input that shows it | evidently intended | confidence | as-written member | corrected member |
|---|---|---|---|---|---|---|
| IO/Nifti/niftimatlib-1.0/matlab/@file_array/private/src/mat2file.c:313-353 | the subscript loop compares each subscript count with the data's extent only for the dimensions that have subscripts, so data with more elements in later dimensions than the subscripts select, or fewer, passes | a double description with `dim = [2]`, data of size 2×0 (no bytes) and one int32 subscript `[1, 2]`: every check passes, and `put` reads 16 bytes from empty data | refuse data whose element count differs from the selected count, so that `put` reads only the data | not executed | Mat2File.EmptyDataAdmitted | Mat2File.CheckedDataSuffices |
