# SSIMULACRA2 on SYCL: a verified model of the scoring core

This project models the part of the VSCycle plugin that turns two
images into one SSIMULACRA2 score, together with the colour-conversion
helpers that feed it, and proves properties of that model in Dafny.

The pipeline, following `ssimu2process` and `ssimu2GPUProcess`:

1. The three staged planes of each image are packed into one float3
   buffer (`memoryorganizer`, `convertPointer`) and linearised
   (`rgb_to_linear`).
2. Five half-size levels are built behind the base image (`downsample`),
   giving `getTotalScaleSize` pixels per image.
3. The whole pyramid goes to positive XYB (`rgb_to_positive_xyb`).
4. For each of six levels, `allscore_map_Kernel` blurs the two images,
   their squares and their product with the 17-tap Gaussian
   (`GaussianSmart_Device`). It computes the SSIM error and the
   artifact and detail-loss terms, and reduces each 16×16 block in
   local memory.
5. `allscore_map` reduces the block partials further on the device,
   copies them to the pinned host buffer, sums them per level and takes
   the fourth roots of the 4-norms.
6. The 108 measures are laid out, weighted and mapped to the final
   score (`final_score`).

Besides the scoring core, the project models:
- the conversion of integer and float planes of any bit depth to
  floats (`anyDepthToFloat.hpp`);
- the bicubic chroma upsampler (`chromaUpsample.hpp`).

Each source file has its own module:

| Module | Models |
|---|---|
| `Geometry` | shared integer helpers |
| `Float3` | `float3operations.hpp` |
| `Xyb` | `makeXYB.hpp` |
| `Downsample` | `downsample.hpp` |
| `Gaussian` | `gaussianblur.hpp` |
| `ScoreKernel` | `allscore_map_Kernel` |
| `Reduce` | the reduction passes |
| `ScoreMap` | `allscore_map` and `allocsizeScore` |
| `FinalScore` | the weights and `final_score` |
| `Pipeline` | `main.hpp` |
| `AnyDepth` | `anyDepthToFloat.hpp` |
| `Chroma` | the interpolators and the six upscaling kernels |
| `Upsample` | `upsample` |

Modelling conventions:
- A kernel launch is a sequential loop over its whole launch range,
  including the out-of-range work-items that return early. The launch
  range is rounded up to the work-group size as the source rounds it.
- Device buffers the kernels write are `array`s.
- A work-group's private and local values are sequences or records, and
  each barrier phase is its own method.
- Floating-point numbers are `real`.
- `exp`, `sqrt`, `cbrt`, `pow` and the half and float bit
  reinterpretations are function parameters. Their properties are
  stated where needed (for instance `IsSqrt` in `ScoreMap`).

## Model

| member | source | states |
|---|---|---|
| Geometry.CeilDiv | src/ssimu2/score.hpp:13-14 | `(a-1)/b+1` is the least `r` with `r·b ≥ a`, and it is at least 1 |
| Geometry.HalfDim | src/ssimu2/main.hpp:71-72 | the next level's side `(d-1)/2+1` is at least 1, at most `d`, and `2r-1 ≤ d ≤ 2r` |
| Geometry.LevelDim | src/ssimu2/main.hpp:53-54 | the side of level k lies between 1 and the base side |
| Geometry.TotalScaleSize | src/ssimu2/main.hpp:49-57 | the six-level pixel total is at least the base level |
| Geometry.Clamp | src/ffvship_utility/gpuColorToLinear/chromaUpsample.hpp:27-30 | `min(max(v,0),n-1)` lies in `[0,n)`, keeps in-range indices, and sends low indices to 0 and high ones to `n-1` |
| Geometry.LaunchRange | src/ssimu2/main.hpp:27-28 | a launch rounded up to whole work-groups covers the range and overshoots by less than one group |
| Float3.Tothe4thScalar | src/util/float3operations.hpp:6-9 | `x⁴` is non-negative and is zero exactly when `x` is |
| Float3.Tothe4thEven | src/util/float3operations.hpp:6-9 | `(-x)⁴ = x⁴` |
| Float3.Tothe4th | src/util/float3operations.hpp:11-14 | the lane-wise fourth power is non-negative and is the zero vector exactly for the zero vector |
| Float3.ZeroVec | src/util/float3operations.hpp:16-18 | the addressed element becomes zero and every other element is unchanged |
| Float3.FmaVec | src/util/float3operations.hpp:20-26 | the vector overload is the lane-wise product `a·b` plus `c` splatted to every lane |
| Float3.FmaScalar | src/util/float3operations.hpp:28-34 | the scalar-multiplier overload is `a·b` plus `c` in each lane |
| Float3.FmaOverloadsAgree | src/util/float3operations.hpp:20-34 | the scalar overload equals the vector overload with the scalar splatted |
| Float3.Fabs | src/util/float3operations.hpp:36-42 | each lane is non-negative and equals the input lane or its negation |
| Float3.Launch1D | src/util/float3operations.hpp:45-50 | the `bl_x·th_x` launch covers the width and overshoots it by less than 256 items |
| Float3.MultArray | src/util/float3operations.hpp:44-61 | the first `width` outputs are the products of the inputs and the rest of `dst` is unchanged |
| Float3.SubArray | src/util/float3operations.hpp:63-79 | the first `width` outputs are the differences of the inputs and the rest of `dst` is unchanged |
| Float3.Uint16At | src/util/float3operations.hpp:95-97 | a 16-bit sample lies in `[0, 65535]` |
| Float3.ConvertPointer | src/util/float3operations.hpp:85-97 | a UINT16 sample normalises into `[0, 1]` |
| Float3.Uint16Endpoints | src/util/float3operations.hpp:95-97 | a UINT16 sample is 0 exactly for bytes `00 00` and 1 exactly for `FF FF` |
| Float3.ConvertPointerReadsOneElement | src/util/float3operations.hpp:85-97 | the converted value depends only on the bytes of element `(i, j)` |
| Xyb.OpsinAbsorbance | src/ssimu2/makeXYB.hpp:4-24 | for non-negative linear RGB every mixed lane is at least the opsin bias |
| Xyb.OpsinGray | src/ssimu2/makeXYB.hpp:4-24 | the mixing rows sum to one, so a grey input maps to itself plus the bias |
| Xyb.MixedToXyb | src/ssimu2/makeXYB.hpp:26-28 | X is half the difference and Y half the sum of the first two lanes, and B is kept |
| Xyb.MixedToXybInvertible | src/ssimu2/makeXYB.hpp:26-28 | the mixed lanes are recovered from X, Y and B |
| Xyb.ClampedCbrt | src/ssimu2/makeXYB.hpp:33-35 | the cube root of the value clamped at 0 |
| Xyb.LinearRgbToXybNonNeg | src/ssimu2/makeXYB.hpp:30-39 | for non-negative input, XYB is the mix of the biased cube roots of the opsin values |
| Xyb.MakePositiveXyb | src/ssimu2/makeXYB.hpp:41-45 | the positive-XYB shift and scale is undone exactly by its inverse |
| Xyb.GrayIsNeutral | src/ssimu2/makeXYB.hpp:47-50 | a grey pixel ends with X = 0.42 and B = 0.55, the neutral point of positive XYB |
| Xyb.RgbToLinrgbFunc | src/ssimu2/makeXYB.hpp:52-64 | inside the linear segment `|a| ≤ 0.04045` the result is `a/12.92` |
| Xyb.RgbToLinrgbFuncOdd | src/ssimu2/makeXYB.hpp:52-64 | the sRGB curve is odd: `f(-a) = -f(a)` |
| Xyb.RgbToLinrgbFuncKeepsSign | src/ssimu2/makeXYB.hpp:52-64 | the curve keeps the sign of its input and maps 0 to 0 |
| Xyb.RgbToPositiveXyb | src/ssimu2/makeXYB.hpp:72-89 | each of the first `width` pixels becomes its positive XYB value and the rest are unchanged |
| Xyb.RgbToLinear | src/ssimu2/makeXYB.hpp:91-108 | each of the first `width` pixels is linearised lane by lane and the rest are unchanged |
| Downsample.DownsampleSpec | src/ssimu2/downsample.hpp:3-37 | the output has `HalfDim(w)·HalfDim(h)` pixels |
| Downsample.DownsampleRowsIndex | src/ssimu2/downsample.hpp:3-37 | output pixel `(x, y)` sits at `y·HalfDim(w)+x` and is the average at `(x, y)` |
| Downsample.DownsamplePreservesRange | src/ssimu2/downsample.hpp:3-37 | if every input pixel lies in a box, every output pixel does |
| Downsample.DownsampleConstant | src/ssimu2/downsample.hpp:3-37 | a constant image downsamples to the same constant |
| Downsample.DownsampleOddLastColumn | src/ssimu2/downsample.hpp:3-37 | for an odd width the last output column repeats the clamped last input column |
| Downsample.DownsampleAdditive | src/ssimu2/downsample.hpp:3-37 | downsampling is additive: the image of a sum is the sum of the images |
| Downsample.DownsampleLevel | src/ssimu2/downsample.hpp:3-37 | the destination region holds the downsampled source region and nothing else in the buffer changes |
| Downsample.DownsampleLaunch | src/ssimu2/downsample.hpp:3-37 | the whole launch grid writes exactly the downsampled rows at the destination offset |
| Downsample.WorkItem | src/ssimu2/downsample.hpp:22-34 | one work-item writes the 2×2 average of its clamped source pixels at its own index and nothing else |
| Gaussian.TapSymmetric | src/ssimu2/gaussianblur.hpp:8-11 | tap `i` equals tap `16-i` |
| Gaussian.TapPositive | src/ssimu2/gaussianblur.hpp:8-11 | every tap is positive when the normaliser is positive |
| Gaussian.Init | src/ssimu2/gaussianblur.hpp:5-21 | the 17 taps are the normalised Gaussian, the prefix-sum table follows them, and the never-written integral base entry 17 keeps whatever it held |
| Gaussian.InitTapsPositive | src/ssimu2/gaussianblur.hpp:8-14 | the taps of the initialised table are positive |
| Gaussian.IntegralDifference | src/ssimu2/gaussianblur.hpp:12-13 | the difference of two integral entries is the sum of the taps between them |
| Gaussian.InitIntegral | src/ssimu2/gaussianblur.hpp:5-21 | with entry 17 zeroed first, every integral entry `e` is exactly the sum of the first `e` taps |
| Gaussian.IntegralIsPrefixSumIff | src/ssimu2/gaussianblur.hpp:6-14 | the integral entries are the prefix sums of the taps exactly when entry 17 holds 0 |
| Gaussian.TotIgnoresBase | src/ssimu2/gaussianblur.hpp:131-133 | inside the image, `tot` is the same for any two tables with the same taps, whatever entry 17 holds |
| Gaussian.TotInside | src/ssimu2/gaussianblur.hpp:131-133 | the normaliser `tot` is the positive sum of the taps whose sample lies inside the image |
| Gaussian.QuotScale | src/ssimu2/gaussianblur.hpp:141-142 | dividing by `tot` undoes scaling by `tot` |
| Gaussian.HBlurConstant | src/ssimu2/gaussianblur.hpp:127-143 | the horizontal blur of a constant image is that constant inside the image, including at its borders |
| Gaussian.BlurConstant | src/ssimu2/gaussianblur.hpp:116-158 | the two-pass blur of a constant image is that constant |
| Gaussian.SharedLoad | src/ssimu2/gaussianblur.hpp:78-114 | the 32×32 tile holds the image around the group, zero outside the image, and the rest of local memory is unchanged |
| Gaussian.SharedLoadProduct | src/ssimu2/gaussianblur.hpp:31-76 | the tile holds the lane-wise product of the two images, zero outside |
| Gaussian.FetchProduct | src/ssimu2/gaussianblur.hpp:31-76 | a tile entry of the product is the product of the two entries inside the image and zero outside |
| Gaussian.HorizontalWorkItem | src/ssimu2/gaussianblur.hpp:128-138 | `out` and `out2` are the 17-tap convolutions of the thread's two tile rows and `tot` is the in-image tap sum |
| Gaussian.VerticalWorkItem | src/ssimu2/gaussianblur.hpp:146-153 | `out` is the 17-tap convolution of the thread's tile column and `tot` the in-image tap sum |
| Gaussian.HorizontalPass | src/ssimu2/gaussianblur.hpp:127-143 | after the barrier every band entry holds its row convolution divided by `tot` |
| Gaussian.VerticalPass | src/ssimu2/gaussianblur.hpp:145-157 | after the barrier every centre entry holds its column convolution divided by `tot` |
| Gaussian.HValueMatches | src/ssimu2/gaussianblur.hpp:127-143 | a band entry equals the image-level horizontal blur at the same pixel |
| Gaussian.GaussianSmart | src/ssimu2/gaussianblur.hpp:116-158 | every in-image centre entry of the tile is the separable Gaussian blur of the image at that pixel, normalised by the in-image tap sums |
| ScoreKernel.PixelStats | src/ssimu2/score.hpp:119-146 | all six per-pixel statistics (SSIM error, artifact, detail loss and their fourth powers) are non-negative |
| ScoreKernel.ArtifactDetailSplit | src/ssimu2/score.hpp:132-135 | artifact and detail loss are the positive and negative parts of one edge ratio, so in each lane at least one of them is zero |
| ScoreKernel.SsimErrorSymmetric | src/ssimu2/score.hpp:122-130 | the SSIM error is symmetric in the two images |
| ScoreKernel.IdenticalSsimZero | src/ssimu2/score.hpp:122-130 | identical statistics give zero SSIM error |
| ScoreKernel.IdenticalPixelsScoreZero | src/ssimu2/score.hpp:119-146 | identical images give all six statistics zero at every pixel |
| ScoreKernel.PixelWorkItem | src/ssimu2/score.hpp:119-146 | one work-item's statistics are those of its pixel, zero outside the image |
| ScoreKernel.PixelPhase | src/ssimu2/score.hpp:119-147 | after the barrier each thread slot holds its pixel's statistics |
| ScoreKernel.BlockScores | src/ssimu2/score.hpp:85-162 | a work-group's reduced value is the sum of its 256 pixel statistics |
| ScoreKernel.BlockCount | src/ssimu2/score.hpp:201-203 | a level has at least one 16×16 block |
| ScoreKernel.BlockOrigin | src/ssimu2/score.hpp:167-170 | every block's first pixel lies inside the image |
| ScoreKernel.MapBlocks | src/ssimu2/score.hpp:165-179 | there is one statistic per block |
| ScoreKernel.TileValue | src/ssimu2/score.hpp:165-179 | a block's output is its summed statistics scaled by `1/(w·h)` |
| ScoreKernel.ScoreMapKernel | src/ssimu2/score.hpp:32-183 | after the launch the destination holds the six section arrays of per-block statistics and nothing else in the scratch changes |
| Reduce.SumStatsSplit | src/ssimu2/score.hpp:149-162 | the sum of a concatenation is the sum of the sums |
| Reduce.ColumnSum | src/ssimu2/score.hpp:308-325 | summing one section of statistics gives that field of the summed statistics |
| Reduce.StepSegments | src/ssimu2/score.hpp:150-162 | after the round with stride `next`, each slot that is a multiple of `2·next` holds the sum of its segment |
| Reduce.Round | src/ssimu2/score.hpp:152-161 | one round adds slot `i+next` into slot `i` for every `i` that is a multiple of `2·next`, and leaves the other slots and the rest of the array unchanged |
| Reduce.TreeReduce | src/ssimu2/score.hpp:149-162 | pointer-jumping leaves the sum of all `n` slots in slot 0 for any `n`, and the rest of the array is unchanged |
| Reduce.ChunkedLength | src/ssimu2/score.hpp:221 | a pass leaves `⌈n/t⌉` partials |
| Reduce.ChunkedSum | src/ssimu2/score.hpp:221-295 | a reduction pass preserves the total |
| Reduce.ChunkedIndex | src/ssimu2/score.hpp:240-265 | partial `j` is the sum of the `t` inputs from `j·t`, cut at the end |
| Reduce.WindowSum | src/ssimu2/score.hpp:254-265 | a group's loaded window, zero-padded past the end, sums to its slice of the input |
| Reduce.LoadGroup | src/ssimu2/score.hpp:254-265 | local memory holds the group's slice of the six sections, zero past `oldblr_x` |
| Reduce.StoreGroup | src/ssimu2/score.hpp:280-287 | thread 0 writes the six fields of the group's sum at `block` of each section and nothing else |
| Reduce.GroupSum | src/ssimu2/score.hpp:240-278 | a group's reduced value is the sum of its slice of the input |
| Reduce.PassGroup | src/ssimu2/score.hpp:237-288 | one group leaves its sum in the destination sections and keeps the source intact |
| Reduce.ReducePass | src/ssimu2/score.hpp:229-291 | one pass leaves `⌈oldblr/thX⌉` partials holding the chunked sums of the input, and writes nothing outside the destination |
| ScoreMap.PassThreads | src/ssimu2/score.hpp:217 | the pass group size is at most the block count and 1024, and at least 32 once local memory holds 32 six-section entries |
| ScoreMap.Remaining | src/ssimu2/score.hpp:220-221 | the passes stop with between 1 and 255 partials |
| ScoreMap.RemainingStep | src/ssimu2/score.hpp:220-221 | one pass does not change where the passes end |
| ScoreMap.LevelPartials | src/ssimu2/score.hpp:297 | each level leaves between 1 and 255 partials |
| ScoreMap.PassStep | src/ssimu2/score.hpp:221-294 | one loop turn divides the count by `thX` rounding up, writes the chunked sums to the next oscillating region (or to the start when it is the last), and writes nothing outside the level's region |
| ScoreMap.RunPasses | src/ssimu2/score.hpp:217-295 | the loop ends with `Remaining` partials at the level's start whose total is the total of the block statistics |
| ScoreMap.ScaleScores | src/ssimu2/score.hpp:205-297 | a level's kernel and passes leave partials whose sum is the sum of the level's block statistics |
| ScoreMap.LevelPassesRun | src/ssimu2/score.hpp:217 | every level can run its passes when the full-size level can |
| ScoreMap.ScratchNeed | src/ssimu2/score.hpp:206 | the scratch the levels reach is at least the start of the last level |
| ScoreMap.ScratchNeedCovers | src/ssimu2/score.hpp:206-227 | every level's writes, oscillating regions included, fit in `ScratchNeed` |
| ScoreMap.ScaleOffsetMono | src/ssimu2/score.hpp:297 | each level's output lies before every later level's start |
| ScoreMap.Root4Inverse | src/ssimu2/score.hpp:327-331 | the double square root is non-negative and its fourth power gives back the non-negative sum |
| ScoreMap.ScoreVector | src/ssimu2/score.hpp:185-334 | the score vector has 36 float3 entries |
| ScoreMap.LevelTotalNonNeg | src/ssimu2/score.hpp:119-179 | a level's summed statistics are non-negative |
| ScoreMap.ScoreVectorNorms | src/ssimu2/score.hpp:308-331 | every entry is non-negative, and each odd (4-norm) entry's fourth power is the level total |
| ScoreMap.AccWindow | src/ssimu2/score.hpp:310-324 | after `i` steps, accumulator `k` holds the sum of section `k` up to `i` |
| ScoreMap.AccComplete | src/ssimu2/score.hpp:308-325 | over a whole level, accumulator `k` is field `k` of the level's summed statistics |
| ScoreMap.LevelGroupSums | src/ssimu2/score.hpp:309-324 | the six result entries of a level gain the level's six section sums and no other entry changes |
| ScoreMap.DeviceLevels | src/ssimu2/score.hpp:198-301 | after the scale loop, `scaleoutdone[j]` is each level's offset and each level's partials are in place |
| ScoreMap.NextLevel | src/ssimu2/score.hpp:298-300 | `index += w·h` and the halved sides are the next level's offset and sides |
| ScoreMap.FourthRoots | src/ssimu2/score.hpp:327-331 | the odd entries become their fourth roots and the even entries are kept |
| ScoreMap.CopyToHost | src/ssimu2/score.hpp:302-305 | the copied prefix equals the scratch and every level's partials are in the pinned buffer |
| ScoreMap.HostSums | src/ssimu2/score.hpp:308-325 | entry `j` of the result is field `j mod 6` of level `j/6`'s summed partials |
| ScoreMap.HostScores | src/ssimu2/score.hpp:302-331 | the host phase returns 36 entries, the level sums with the 4-norms rooted |
| ScoreMap.AllScoreMap | src/ssimu2/score.hpp:185-334 | the returned vector is `ScoreVector` of the two pyramids: the per-level sums, with fourth roots on the 4-norms |
| ScoreMap.AllocThreads | src/ssimu2/score.hpp:16-19 | `allocsizeScore`'s thread count `maxshared/96` is at least 2 once local memory holds two 96-byte entries and a level has 256 blocks |
| ScoreMap.AllocTurns | src/ssimu2/score.hpp:21-23 | the count after `k` turns of the `allocsizeScore` loop stays between 1 and the start |
| ScoreMap.AllocLoopStalls | src/ssimu2/score.hpp:16-23 | with 96 ≤ maxshared < 192 and at least 256 blocks, `th_x` is 1 and the loop's count never falls, after any number of turns |
| ScoreMap.AllocSum | src/ssimu2/score.hpp:5-30 | the running pinned size is non-negative |
| ScoreMap.AllocSizeScore | src/ssimu2/score.hpp:5-30 | the pinned size as written sums six times each level's remaining count under `maxshared/96` threads |
| ScoreMap.AllocLevel | src/ssimu2/score.hpp:11-24 | one level adds six times its remaining count to the running size |
| ScoreMap.AllocSizeTooSmall | src/ssimu2/score.hpp:18 | for 720×480 with 64 KiB of local memory, `allocsizeScore` gives 786 float3s while `allscore_map` copies 792 |
| ScoreMap.AllocSizeScoreFixed | src/ssimu2/score.hpp:5-30 | the corrected size equals `scaleoutdone[6]`, exactly what `allscore_map` copies back |
| ScoreMap.FixedLevel | src/ssimu2/score.hpp:11-24 | one corrected level adds six times the partials `allscore_map` leaves |
| FinalScore.ComputeScore | src/ssimu2/score.hpp:447-465 | the result is the weighted sum, rescaled, mapped through the cubic and the power curve, or 100 when the sum is not positive |
| FinalScore.WeightsNonNeg | src/ssimu2/score.hpp:336-445 | there are 108 weights and none is negative |
| FinalScore.WeightedSumMono | src/ssimu2/score.hpp:450-452 | with non-negative weights, the weighted sum is monotone in the measures |
| FinalScore.CurvePositive | src/ssimu2/score.hpp:454-456 | the cubic is positive for positive input |
| FinalScore.PerfectScore | src/ssimu2/score.hpp:447-465 | all-zero measures score exactly 100 |
| FinalScore.ScoreBelowPerfect | src/ssimu2/score.hpp:447-465 | for non-negative measures the score is at most 100, and it is below 100 exactly when the weighted sum is positive |
| Pipeline.MemoryOrganizer | src/ssimu2/main.hpp:14-47 | pixel `x` holds the three planes' converted samples at row `x/w`, column `x%w`, and the rest of the buffer is unchanged |
| Pipeline.GetTotalScaleSize | src/ssimu2/main.hpp:49-57 | the loop computes the six-level pixel total |
| Pipeline.TotalScaleSizeBounds | src/ssimu2/main.hpp:49-57 | the total lies between `w·h+5` and `6·w·h` |
| Pipeline.PyramidHoldsLevels | src/ssimu2/main.hpp:64-73 | level `s` of the pyramid sits at its offset with its own size |
| Pipeline.PyramidLevelImage | src/ssimu2/main.hpp:64-73 | the level the score map reads at each offset is that pyramid level |
| Pipeline.BuildPyramids | src/ssimu2/main.hpp:64-73 | after the loop each buffer is the six-level pyramid of its base image |
| Pipeline.Measures | src/ssimu2/main.hpp:86-98 | the layout has 108 measures |
| Pipeline.MeasureSlot | src/ssimu2/main.hpp:92-94 | measure `plane·36 + scale·6 + n·3 + i` is lane `plane` of score entry `scale·6 + i·2 + n` |
| Pipeline.Unmeasures | src/ssimu2/main.hpp:86-98 | the inverse layout has 36 float3 entries |
| Pipeline.MeasuresRoundTrip | src/ssimu2/main.hpp:86-98 | the layout loses nothing: `Unmeasures(Measures(r)) = r` |
| Pipeline.UnmeasuresRoundTrip | src/ssimu2/main.hpp:86-98 | and every layout comes from one score vector: `Measures(Unmeasures(m)) = m` |
| Pipeline.FormatMeasures | src/ssimu2/main.hpp:86-98 | the four nested loops fill the whole `Measures` layout |
| Pipeline.Ssimu2ScoreAtMost100 | src/ssimu2/main.hpp:61-107 | the score of any two images is at most 100, and below 100 exactly when the weighted measures are positive |
| Pipeline.ScorePyramids | src/ssimu2/main.hpp:75-101 | from built pyramids, XYB, the score map, the layout and the final score give `Ssimu2Score` of the two base images |
| Pipeline.BaseLevel | src/ssimu2/main.hpp:59 | the base image is the first `w·h` pixels |
| Pipeline.Ssimu2GpuProcess | src/ssimu2/main.hpp:61-107 | the returned score is `Ssimu2Score` of the two base images the buffers held on entry |
| Pipeline.ScratchFloat3s | src/ssimu2/main.hpp:118-119 | the source's scratch holds at least the pyramid size and exactly the float3s that fit its bytes |
| Pipeline.OnePixelScratchAsWritten | src/ssimu2/main.hpp:113-119 | for a 1×1 image with a 64-byte stride, the scratch holds 12 float3s |
| Pipeline.ScratchTooSmall | src/ssimu2/main.hpp:118-119 | that scratch is smaller than the 36 float3s `allscore_map` writes for a 1×1 image |
| Pipeline.ScratchFloat3sFixed | src/ssimu2/main.hpp:118-119 | the corrected scratch holds the pyramid, the three staged planes and everything `allscore_map` writes |
| Pipeline.Ssimu2Process | src/ssimu2/main.hpp:109-179 | the returned score is `Ssimu2Score` of the two converted, packed and linearised input images |
| Pipeline.Ssimu2Computing.Init | src/ssimu2/main.hpp:186-203 | the context keeps the size and local memory size, builds the Gaussian table (with its integral base zeroed), and allocates a pinned buffer as large as what the score map copies back |
| Pipeline.Ssimu2Computing.Run | src/ssimu2/main.hpp:210-213 | `run` returns the score of the two images and keeps the context valid |
| AnyDepth.Pow2Add | src/ffvship_utility/gpuColorToLinear/anyDepthToFloat.hpp:41-50 | `2^(a+b) = 2^a·2^b` |
| AnyDepth.BitsSplit | src/ffvship_utility/gpuColorToLinear/anyDepthToFloat.hpp:41-49 | a bit field splits into its high part shifted left and its low part |
| AnyDepth.ByteBits | src/ffvship_utility/gpuColorToLinear/anyDepthToFloat.hpp:41-49 | the bits inside one byte are that byte shifted right and masked |
| AnyDepth.IntegerSample | src/ffvship_utility/gpuColorToLinear/anyDepthToFloat.hpp:50 | a sample normalises into `[0,1]`: 0 exactly for all-zero bits and 1 exactly for all-one bits |
| AnyDepth.AccumulateTail | src/ffvship_utility/gpuColorToLinear/anyDepthToFloat.hpp:44-49 | the byte loop and the tail add the next `remain` bits of the row |
| AnyDepth.GetBitIntegerArray | src/ffvship_utility/gpuColorToLinear/anyDepthToFloat.hpp:35-51 | the corrected reader returns the `bits`-wide field at `stride·y + bits·x`, normalised |
| AnyDepth.GetBitIntegerArrayAsWritten | src/ffvship_utility/gpuColorToLinear/anyDepthToFloat.hpp:35-51 | the reader as written returns its raw value, with `remain = bits-off-8`, normalised |
| AnyDepth.AsWrittenAligned | src/ffvship_utility/gpuColorToLinear/anyDepthToFloat.hpp:39-49 | on a byte-aligned field the reader as written is exact |
| AnyDepth.AsWrittenExactForWholeBytes | src/ffvship_utility/gpuColorToLinear/anyDepthToFloat.hpp:53-81 | so 8- and 16-bit samples are read exactly |
| AnyDepth.AsWrittenLosesLowBits | src/ffvship_utility/gpuColorToLinear/anyDepthToFloat.hpp:43 | a 10-bit sample at bit offset 2 loses the top four bits of its second byte |
| AnyDepth.Sample | src/ffvship_utility/gpuColorToLinear/anyDepthToFloat.hpp:16-81 | every integer format normalises into `[0,1]` |
| AnyDepth.PickValue | src/ffvship_utility/gpuColorToLinear/anyDepthToFloat.hpp:16-81 | each sample type is read by its own specialisation |
| AnyDepth.EightBitSample | src/ffvship_utility/gpuColorToLinear/anyDepthToFloat.hpp:53-56 | an 8-bit sample is its byte over 255 |
| AnyDepth.SixteenBitSample | src/ffvship_utility/gpuColorToLinear/anyDepthToFloat.hpp:78-81 | a 16-bit sample is its two bytes, first byte high, over 65535 |
| AnyDepth.SampleReadsOnlyItsBytes | src/ffvship_utility/gpuColorToLinear/anyDepthToFloat.hpp:16-81 | a sample depends only on the bytes of its own row and position |
| AnyDepth.ConvertToFloatPlane | src/ffvship_utility/gpuColorToLinear/anyDepthToFloat.hpp:86-98 | each of the `w·h` outputs is its sample and the rest of the plane is unchanged |
| AnyDepth.SampleTypeOfInjective | src/ffvship_utility/gpuColorToLinear/anyDepthToFloat.hpp:100-130 | distinct valid codes select distinct sample types |
| AnyDepth.ConvertToFloatPlaneSwitch | src/ffvship_utility/gpuColorToLinear/anyDepthToFloat.hpp:100-130 | the switch fails exactly for an unknown code, leaving the plane unchanged, and otherwise converts with the selected type |
| Chroma.GetExpanded | src/ffvship_utility/gpuColorToLinear/chromaUpsample.hpp:14-23 | the Horner evaluation is the cubic `v1·t³+v2·t²+v3·t+v4` |
| Chroma.MakeHermite | src/ffvship_utility/gpuColorToLinear/chromaUpsample.hpp:8-13 | the spline passes through `p0` and `p1` with slopes `m0` and `m1` at 0 and 1 |
| Chroma.HermiteBasis | src/ffvship_utility/gpuColorToLinear/chromaUpsample.hpp:8-23 | the spline is the standard cubic Hermite basis combination |
| Chroma.HermiteMidpoint | src/ffvship_utility/gpuColorToLinear/chromaUpsample.hpp:8-23 | at `t = 0.5` the spline is the average plus `(m0-m1)/8` |
| Chroma.PixelIndex | src/ffvship_utility/gpuColorToLinear/chromaUpsample.hpp:27-30 | every clamped read stays inside the plane |
| Chroma.PixelInside | src/ffvship_utility/gpuColorToLinear/chromaUpsample.hpp:27-30 | inside the plane a clamped read is the plain row-major read |
| Chroma.El0ReadsBeforePlane | src/ffvship_utility/gpuColorToLinear/chromaUpsample.hpp:26-40 | as written, `el0` of item `x = -1` on row 0 reads index -1, and the vertical `y = -1` reads `-w` |
| Chroma.El0AsWrittenAgreesInside | src/ffvship_utility/gpuColorToLinear/chromaUpsample.hpp:26-40 | for non-negative coordinates the unclamped index equals the clamped one |
| Chroma.HorizontalInterpolatorEnds | src/ffvship_utility/gpuColorToLinear/chromaUpsample.hpp:26-32 | the row spline runs from pixel `x` to `x+1` with central-difference slopes |
| Chroma.VerticalInterpolatorEnds | src/ffvship_utility/gpuColorToLinear/chromaUpsample.hpp:34-40 | the column spline runs from pixel `y` to `y+1` with central-difference slopes |
| Chroma.FlatSpline | src/ffvship_utility/gpuColorToLinear/chromaUpsample.hpp:8-23 | the spline through a flat neighbourhood is constant |
| Chroma.WeightIsOffset | src/ffvship_utility/gpuColorToLinear/chromaUpsample.hpp:44-126 | the `t` each kernel evaluates is the output sample's offset: `(2j+1)/2f` when centred, `j/f` when co-sited |
| Chroma.ItemsCover | src/ffvship_utility/gpuColorToLinear/chromaUpsample.hpp:44-98 | every output position in a row belongs to exactly one work-item and slot |
| Chroma.SlotValueAtWeight | src/ffvship_utility/gpuColorToLinear/chromaUpsample.hpp:44-126 | a written value is the spline at the slot's weight, except the co-sited slot 0, which copies the sample |
| Chroma.HRowAt | src/ffvship_utility/gpuColorToLinear/chromaUpsample.hpp:44-98 | the row the items write has `f·w` entries and entry `p` is the value of output `p` |
| Chroma.HCentreX2Item | src/ffvship_utility/gpuColorToLinear/chromaUpsample.hpp:44-52 | one item writes its block of the centred ×2 row, one sample at each edge, and nothing else |
| Chroma.HLeftX2Item | src/ffvship_utility/gpuColorToLinear/chromaUpsample.hpp:56-66 | one item writes its sample and the midpoint of the co-sited ×2 row, and nothing else |
| Chroma.LeftX2AsWrittenMissesLast | src/ffvship_utility/gpuColorToLinear/chromaUpsample.hpp:57-64 | as written, on a 16-wide row item −1 writes positions −2 and −1, and the row's own items never write 30 and 31 |
| Chroma.LeftX2RowCovers | src/ffvship_utility/gpuColorToLinear/chromaUpsample.hpp:56-66 | with `x` the launch index, the items write exactly the positions `0 .. 2w-1` |
| Chroma.HCentreX4Item | src/ffvship_utility/gpuColorToLinear/chromaUpsample.hpp:70-82 | one item writes its block of the centred ×4 row and nothing else |
| Chroma.HCentreX4Block | src/ffvship_utility/gpuColorToLinear/chromaUpsample.hpp:70-82 | the ×4 block starts at 0 for item −1 and at `4x+2` otherwise, with the spline at 1/8, 3/8, 5/8 and 7/8 |
| Chroma.HLeftX4Item | src/ffvship_utility/gpuColorToLinear/chromaUpsample.hpp:86-98 | one item writes its sample and the spline at 1/4, 1/2 and 3/4, and nothing else |
| Chroma.HorizontalItem | src/ffvship_utility/gpuColorToLinear/chromaUpsample.hpp:143-204 | the dispatched item writes its block of the row for the siting and factor |
| Chroma.HorizontalPass | src/ffvship_utility/gpuColorToLinear/chromaUpsample.hpp:143-204 | the launch writes exactly the horizontally upsampled plane at the start of `dst` |
| Chroma.HPlaneAt | src/ffvship_utility/gpuColorToLinear/chromaUpsample.hpp:44-98 | entry `(y, p)` of the upsampled plane is the value of output `p` of row `y` |
| Chroma.VItemRows | src/ffvship_utility/gpuColorToLinear/chromaUpsample.hpp:102-126 | a vertical item writes rows `2y, 2y+1` (top) or `2y+1, 2y+2` (centred, one row at each edge) |
| Chroma.VCentreX2Item | src/ffvship_utility/gpuColorToLinear/chromaUpsample.hpp:102-112 | one item writes its column pair of the centred ×2 plane and nothing else |
| Chroma.VTopX2Item | src/ffvship_utility/gpuColorToLinear/chromaUpsample.hpp:116-126 | one item writes its sample and the midpoint below it, and nothing else |
| Chroma.VerticalItem | src/ffvship_utility/gpuColorToLinear/chromaUpsample.hpp:206-245 | the dispatched item writes its column pair for the siting |
| Chroma.VerticalPass | src/ffvship_utility/gpuColorToLinear/chromaUpsample.hpp:206-245 | the launch writes exactly the vertically upsampled plane at the start of `dst` |
| Chroma.VPlaneAt | src/ffvship_utility/gpuColorToLinear/chromaUpsample.hpp:102-126 | entry `(r, x)` of the plane is the value of output row `r` at column `x` |
| Chroma.HPlaneKeepsSamples | src/ffvship_utility/gpuColorToLinear/chromaUpsample.hpp:56-98 | co-sited horizontal upsampling keeps every source sample at `f·x` |
| Chroma.VPlaneKeepsSamples | src/ffvship_utility/gpuColorToLinear/chromaUpsample.hpp:116-126 | top-sited vertical upsampling keeps every source sample at row `2y` |
| Chroma.HPlaneFlat | src/ffvship_utility/gpuColorToLinear/chromaUpsample.hpp:44-98 | a flat plane upsamples horizontally to the same flat plane |
| Chroma.VPlaneFlat | src/ffvship_utility/gpuColorToLinear/chromaUpsample.hpp:102-126 | a flat plane upsamples vertically to the same flat plane |
| Upsample.Shr | src/ffvship_utility/gpuColorToLinear/chromaUpsample.hpp:131-132 | the chroma size `n >> k` is at most `n`, and at most half of it when `k > 0` |
| Upsample.GroupRound | src/ffvship_utility/gpuColorToLinear/chromaUpsample.hpp:134-137 | a launch side is the next multiple of 16 |
| Upsample.Upsampled | src/ffvship_utility/gpuColorToLinear/chromaUpsample.hpp:129-248 | the upsampled plane has the spread width times the spread height |
| Upsample.VerticalStageAsWrittenMisreads | src/ffvship_utility/gpuColorToLinear/chromaUpsample.hpp:213-215 | as written, after a horizontal stage the vertical kernel reads the original chroma with the doubled width and launches over the undoubled width |
| Upsample.VerticalStageForFits | src/ffvship_utility/gpuColorToLinear/chromaUpsample.hpp:206-245 | the corrected stage reads the horizontal output when there was one, launches over its width, and agrees with the source exactly when `subw = 0` |
| Upsample.HorizontalStage | src/ffvship_utility/gpuColorToLinear/chromaUpsample.hpp:143-204 | the stage returns the horizontally upscaled plane; it writes that plane into the front of `dst` and leaves the rest unchanged, or, when a vertical stage follows, writes it to a separate plane and leaves `dst` unchanged |
| Upsample.UpsamplePlane | src/ffvship_utility/gpuColorToLinear/chromaUpsample.hpp:129-248 | the code is 0 or 1, and 0 exactly for a supported location and subsampling; on 0, `dst` holds the upsampled plane, and with no subsampling nothing changes; on 1, `dst` holds the horizontal plane when a sited location with `subw` 1 or 2 already ran its horizontal stage, and is unchanged otherwise |
| Upsample.UpsampleChroma | src/ffvship_utility/gpuColorToLinear/chromaUpsample.hpp:129-248 | both chroma planes are upsampled the same way under one return code, 0 or 1; on 1 each plane holds its horizontal plane when that stage ran and is unchanged otherwise |
| Upsample.TopLeftKeepsSamples | src/ffvship_utility/gpuColorToLinear/chromaUpsample.hpp:143-245 | top-left 4:2:0 upsampling keeps each chroma sample at `(2x, 2y)` |
| Upsample.UpsampledFlat | src/ffvship_utility/gpuColorToLinear/chromaUpsample.hpp:129-248 | a flat chroma plane stays flat for every supported location |

## Left out

- Pipeline.Ssimu2Process: models the corrected scratch size (`ScratchFloat3sFixed`), not the `max(float3_block, three_planes)` bytes of main.hpp:118-119; see Findings.
- Pipeline.Ssimu2Computing.Init: sizes the pinned buffer with `AllocSizeScoreFixed`, not the source's `allocsizeScore`, and builds the Gaussian table with `InitIntegral`, which zeroes entry 17 that `init` never writes; see Findings.
- AnyDepth.PickValue: reads integer samples with the corrected `GetBitIntegerArray`, not the `remain` of anyDepthToFloat.hpp:43; see Findings.
- Chroma.HorizontalInterpolator: clamps `el0` below at 0 like the other three reads; the source does not (chromaUpsample.hpp:27); see Findings.
- Chroma.VerticalInterpolator: clamps `el0` below at 0; the source does not (chromaUpsample.hpp:35); see Findings.
- Chroma.HLeftX2Item: takes `x` as the launch index, not the source's `id - 1` (chromaUpsample.hpp:57); see Findings.
- Chroma.HorizontalPass: dispatches the corrected left ×2 kernel and the clamped interpolators.
- Chroma.VerticalPass: uses the clamped interpolators.
- Upsample.UpsamplePlane: the vertical stage reads the horizontal output with its width (`VerticalStageFor`), not the source's `src` over the `blx1` launch; see Findings. When a vertical stage follows, the horizontal output goes to a separate plane rather than into `dst` as in the source; the final `dst` is the same, because the vertical output overwrites that whole prefix.
- Upsample.UpsampleChroma: inherits the corrected stages of `UpsamplePlane`.
- Gaussian.Quot: a division by a zero `tot` gives 0, where the source gives inf or NaN. It happens only for work-items outside the image, whose value is never used.
- ScoreKernel.RDiv: a division by zero gives 0, where the source gives inf or NaN. The SSIM denominator `(su11-m11)+(su22-m22)+0.0009` and the edge ratio's `|·|+1` are not zero for real blurs of real images, but no lemma proves this for every input.
- ScoreMap.PassesRun: callers of `allscore_map` must have `maxshared ≥ 3072` once a level has 256 or more blocks. Below that, `th_x` at score.hpp:217 is 0 and score.hpp:221 divides by zero. The model excludes that case instead of modelling the crash; see Findings.
- ScoreMap.AllocRuns: `allocsizeScore` requires `maxshared ≥ 192` once a level has 256 or more blocks. From 96 to 191, `th_x` is 1 and the loop of score.hpp:21-23 never ends (`AllocLoopStalls`). Below 96 it divides by zero. The model excludes both cases; see Findings.
- Every image, level and chroma plane has width and height at least 1. The source divides by the width in its launch geometry and never calls the core with an empty image.
- Floating point: every `float` and `double` is a `real`. This covers the hardware `fma`, the `float` accumulator of `final_score` (score.hpp:449-451), `1.0f/(float)(w*h)` and the `(double)` casts. Rounding is not modelled, and nothing is claimed about the exact bits of the score.
- `exp`, `sqrt`, `cbrt`, `pow` and the half/float reinterpretations are parameters; the model does not fix which functions they are.
- Integer widths: `int`/`int64_t` are unbounded integers. The source's `int` index arithmetic in `getBitIntegerArray` and `upsample` does not overflow for real image sizes, and the model does not track it.
- The single device allocation `[ src1_d | src2_d | temp ]` of main.hpp:117-133 is three separate arrays. The three staged planes in the scratch are byte sequences, not the scratch's bytes, so the overlap between staging and scratch is not modelled.
- The kernel's one local buffer, shared by the Gaussian tile and the reduction arrays, is two separate arrays (they are used in disjoint barrier phases). The reduction's six section arrays are one array of six-field records.
- Work-items run one after another in launch order. Barriers are phase boundaries, and races between work-items of one launch are not modelled (the left ×2 race in Findings is shown on write sets).
- Queues, events, `memcpy` timing, `malloc`/`free`, out-of-memory errors (`VSHIP_THROW`), `destroy`, and the VapourSynth and FFmpeg front ends are not modelled.
- `convertPointer<FLOAT>`/`<HALF>` and `PickValue<COLOR_FLOAT>`/`<COLOR_HALF>` go through the decoder parameters; their bit layout is not modelled.

## Findings

| source | as written | input that shows it | evidently intended | confidence | as-written member | corrected member |
|---|---|---|---|---|---|---|
| src/ssimu2/main.hpp:118-119 | the scratch `temp_d` is `max(float3_block, three_planes)` bytes, but `allscore_map` writes up to 36 float3s for a 1×1 image (six levels of six sections) | a 1×1 image with a 64-byte stride: the scratch holds 12 float3s while 36 are written | the scratch also covers everything `allscore_map` writes at every level, oscillating pass regions included | not executed | Pipeline.ScratchTooSmall (with Pipeline.OnePixelScratchAsWritten) | Pipeline.ScratchFloat3sFixed, used by Pipeline.Ssimu2Process |
| src/ssimu2/score.hpp:16-18 | `allocsizeScore` uses `maxshared/96` pass threads where `allscore_map` uses `maxshared/96/32*32` (score.hpp:217), so it predicts fewer partials than are copied back | 720×480 with 65536 bytes of local memory: 786 float3s allocated, 792 copied by the `memcpy` of score.hpp:305 | the pinned size equals `scaleoutdone[6]` | not executed | ScoreMap.AllocSizeTooSmall (of ScoreMap.AllocSizeScore) | ScoreMap.AllocSizeScoreFixed, used by Pipeline.Ssimu2Computing.Init |
| src/ssimu2/score.hpp:16-23 | the thread counts (score.hpp:16-23 and 217-221) can be degenerate. In `allscore_map`, `th_x` is 0 when `maxshared < 3072`, and score.hpp:221 divides by it. In `allocsizeScore`, `th_x` is 0 below 96 (division by zero) and 1 from 96 to 191, so `while (bl_x >= 256)` never ends | a 256-block level (e.g. 256×256) with `maxshared` 100: `th_x` is 1 and `bl_x` stays 256 | a lower bound of one thread group (32 threads, or 2 for the allocation loop) on the pass size, or a check of `maxshared` | not executed | ScoreMap.AllocLoopStalls (with ScoreMap.ThreadCountsDegenerate) | ScoreMap.PassThreads under ScoreMap.PassesRun, ScoreMap.AllocThreads under ScoreMap.AllocRuns |
| src/ffvship_utility/gpuColorToLinear/anyDepthToFloat.hpp:43 | `remain = bitwidth - bitoffset - 8`, so the first byte's `bitwidth-8+bitoffset` shift and the bits still to read disagree whenever `bitoffset ≠ 0` | a 10-bit plane, sample `x = 1` (bit offset 2): the reader takes 6 bits of the first byte and none of the second, losing its top 4 bits | `remain = bitwidth - 8 + bitoffset` | not executed | AnyDepth.GetBitIntegerArrayAsWritten with AnyDepth.AsWrittenLosesLowBits | AnyDepth.GetBitIntegerArray, used by AnyDepth.PickValue |
| src/ffvship_utility/gpuColorToLinear/chromaUpsample.hpp:26-40 | `el0` (lines 27 and 35) is `min(x, width-1)` / `min(y, height-1)` with no clamp below, while the kernels call it with `x = -1` and `y = -1` | the centred ×2 horizontal item `x = -1` on row 0 reads `src[-1]`; the vertical item `y = -1` reads `src[x - w]` | `el0` clamped to `[0, n-1]` like `elm1`, `el1` and `el2` | not executed | Chroma.El0IndexAsWritten with Chroma.El0ReadsBeforePlane | Chroma.HorizontalInterpolator and Chroma.VerticalInterpolator (Chroma.HorizontalInterpolatorEnds, Chroma.VerticalInterpolatorEnds) |
| src/ffvship_utility/gpuColorToLinear/chromaUpsample.hpp:57 | the left ×2 kernel takes `x = id - 1` but is launched over `blx1` like a kernel without a leading item. Item −1 of row `y` writes positions −2 and −1 of that row: before the plane on row 0, and on row `y > 0` positions `2w-2` (the right sample) and `2w-1` (a spline from the last sample of row `y-1` to the first of row `y`) of the previous row. The last row's positions `2w-2` and `2w-1` are never written. When `w` is not a multiple of 16, item `w-1` also runs and races with item −1 of the next row on position `2w-1`, with different values | a 16-wide row: items −1 .. 14 run, writing −2, −1 and 0 .. 29 but not 30 and 31 | `x = id` over `0 .. w-1` | not executed | Chroma.LeftX2AsWrittenMissesLast (of Chroma.LeftX2RowAsWritten) | Chroma.HLeftX2Item with Chroma.LeftX2RowCovers |
| src/ssimu2/gaussianblur.hpp:6-14 | the local array `gaussiankernel` is not initialised and entry 17 is never written, yet the first turn of the loop reads it (`kernel[18] = kernel[17] + kernel[0]`), so every integral entry carries an indeterminate value (undefined behaviour in C++) that cancels in each `tot` only in exact arithmetic; a NaN or infinity there makes every border normaliser NaN, and a large value cancels catastrophically in `float` | any call of `init`: integral entry `e` is entry 17 plus the first `e` taps, which is the prefix sum only if entry 17 happens to hold 0 | entry 17 set to 0 before the loop | not executed | Gaussian.Init with Gaussian.IntegralIsPrefixSumIff and Gaussian.TotIgnoresBase | Gaussian.InitIntegral, used by Pipeline.Ssimu2Computing.Init |
| src/ffvship_utility/gpuColorToLinear/chromaUpsample.hpp:206-245 | after a horizontal stage (lines 213-215 and 231-233), `width` is doubled but the vertical kernels read `src` (the original chroma) with that width over the `blx1`/`globalLeft` launch computed from the undoubled width | 4:2:0 top-left with a 1×1 chroma plane: the vertical stage reads `src` with width 2 and its index 1 lies past the plane; with width 16 it launches 16 columns of a 32-wide plane | the vertical stage reads the horizontal output (`dst`) and launches over its width | not executed | Upsample.VerticalStageAsWrittenMisreads (of Upsample.VerticalStageAsWritten) | Upsample.VerticalStageForFits, used by Upsample.UpsamplePlane |
