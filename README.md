# UBM trainer, modelled in Dafny

The repository is a single C++ class, `UBM` (`ubm.h`). It trains a
universal background model for speaker verification: a mixture of
diagonal-covariance Gaussians. Its stages are:

- read feature frames;
- seed the component means with K-means++;
- refine them with K-means;
- run EM;
- adapt the means to one speaker (MAP adaptation with relevance factor 16);
- score test frames and z-normalise the score against a cohort;
- save and restore the model as a whitespace-separated token file.

The model keeps the class's in-place, loop-by-loop structure.
`Training.Ubm` is a class with the same fields. Each method rewrites
those fields with the same loops, branches and constants as the source.
Each method is proved equal to a specification function in the modules
below, and the properties of the algorithm are proved about those
functions:

| module | file | contents |
|---|---|---|
| `Sums` | `sums.dfy` | left-fold sums of reals, the abstract square root |
| `Mixture` | `mixture.dfy` | the `GSM` record, squared distance, resizing with zero padding |
| `KMeans` | `kmeans.dfy` | `find_closest`, the partition built by `recluster`, cluster means, variances and weights |
| `Seeding` | `seeding.dfy` | K-means++ seeding: threshold scan, trial arrays, best of three trials, the chosen centres |
| `Em` | `em.dfy` | `cal_gsm` with its `DBL_MIN` guard, responsibilities, M-step re-estimation and change |
| `Adaptation` | `adaptation.dfy` | soft counts, data means, the convex mean blend |
| `Framing` | `frames.dfy` | frame grouping of `read_data` / `read_personal_data` |
| `Persistence` | `persistence.dfy` | token layout of the model file, decoding, round trip |
| `Scoring` | `scoring.dfy` | likelihood, cohort mean and variance, normalised score |
| `Training` | `ubm.dfy` | the class `Ubm` with every operation of `UBM` |

Doubles become `real`. Three operations are left abstract and are passed
in by the caller:

- the Gaussian density inside `cal_gsm` (`gauss`, never negative);
- the square root (`root`);
- the logarithm of `get_point` (`ln`).

`rand()` is replaced by raw random numbers passed in by the caller: `first`
for the first centre and `raws[k][j]` for trial `j` of seeding round `k`. They
are reduced with `%` exactly as `random(x)` reduces `rand()`.

## Model

| member | source | states |
|---|---|---|
| `Training.Ubm.constructor` | ubm.h:57 | 12 dimensions, 100 components, cohort mean and deviation 0, every buffer empty |
| `Training.Ubm.ReadFrames` | ubm.h:224-235 | the rows kept are exactly the `dim`-token groups whose first value is non-zero, in stream order |
| `Training.Ubm.ReadData` | ubm.h:214-239 | `data` is cleared even when the file is missing (status 0); otherwise it holds the kept frames (status 1) |
| `Training.Ubm.ReadPersonalData` | ubm.h:514-538 | the same frame grouping into `personal_data`, with the opposite status convention: 1 for a missing file, 0 on success |
| `Training.Ubm.ClearSamples` | ubm.h:335-338 | every sample list emptied and every count 0; nothing else changes |
| `Training.Ubm.DistributeRows` | ubm.h:339-343 | succeeds iff `find_closest` finds a component for every row. Then component j's list is the increasing list of rows assigned to j, its count is the list's length, and means, variances and weights are unchanged |
| `Training.Ubm.Recluster` | ubm.h:333-346 | succeeds iff every row has a closest component. Then the lists partition the rows by `find_closest`; means, variances and weights are unchanged |
| `Training.Ubm.NewMean` | ubm.h:353-359 | the accumulated `new_mean` equals the cluster mean (each row added as `x / tol_num`) |
| `Training.Ubm.AddRowShare` | ubm.h:355-358 | after the `k` loop for the j-th listed row, every coordinate of `new_mean` holds the x / tol_num accumulation over the first j + 1 listed rows |
| `Training.Ubm.UpdateMean` | ubm.h:348-370 | every mean becomes its cluster mean, and the result is the summed squared shift of the means |
| `Training.Ubm.SquaredShift` | ubm.h:360-363 | the `t` loop computes the squared distance between the old and the new mean |
| `Training.Ubm.NewVar` | ubm.h:375-380 | the accumulated variance equals the mean squared deviation of the cluster from its mean |
| `Training.Ubm.AddRowSpread` | ubm.h:376-379 | after the `k` loop for the j-th listed row, every coordinate holds the `1 / tol_num * (x - mean)^2` accumulation over the first j + 1 listed rows |
| `Training.Ubm.UpdateVar` | ubm.h:372-384 | every variance becomes its cluster's mean squared deviation; other fields unchanged |
| `Training.Ubm.UpdateWeight` | ubm.h:386-393 | every weight becomes `tol_num / N`; other fields unchanged |
| `Training.Ubm.KmeansRound` | ubm.h:400-401 | a round succeeds exactly when every row has a component closer than `INF`. Then the components and the change are exactly those of one K-means step from the components the round started with |
| `Training.Ubm.KmeansPass` | ubm.h:398-403 | one pass of the loop from the state after n rounds, each before the last having moved the means by at least 1e-4: the object holds round n + 1's model and change, or failure exactly when round n + 1 fails |
| `Training.Ubm.FinishClusters` | ubm.h:404-405 | the components become the cluster variances and then the `tol_num / N` weights of the settled ones. The variances are the cluster variances, and the weights lie in [0, 1] and sum to 1 |
| `Training.Ubm.Kmeans` | ubm.h:395-412 | between 1 and 1000 rounds run, and success holds exactly when that many K-means steps from the initial model all find a closest component. Every round before the last moved the means by at least 1e-4, and a successful run stopped at the cap or below 1e-4. On success the model is the last round's with cluster variances and `tol_num / N` weights: the lists cover the rows, and the weights are a distribution |
| `Training.Ubm.KmeansLoop` | ubm.h:396-403 | between 1 and 1000 rounds run. The object is in the state after that many rounds from the initial model, every round before the last moved the means by at least 1e-4, and a live run stopped at the cap or below 1e-4 |
| `Training.Ubm.DistanceP` | ubm.h:242-249 | the root of the squared distance between two rows |
| `Training.Ubm.FirstDistances` | ubm.h:270-273 | `dist` holds each row's distance to the first centre and `sum0` its sum |
| `Training.Ubm.Scan` | ubm.h:282-286 | the scan stops where subtracting `dist` entries first brings the threshold to 0 or below |
| `Training.Ubm.FillTrial` | ubm.h:288-291 | `dist2_c` becomes the trial array of the candidate, and `s` its sum |
| `Training.Ubm.RunTrial` | ubm.h:279-291 | one trial draws the candidate chosen by its raw number and produces that candidate's trial array |
| `Training.Ubm.BestTrial` | ubm.h:276-298 | after the three trials, `new_center_id` and `maxSum` are those of the kept trial and `dist2` holds its array |
| `Training.Ubm.SeedNext` | ubm.h:276-303 | one seeding round extends the chosen centres by the round's pick, and `sum0` becomes the sum of the new `dist` |
| `Training.Ubm.ChooseSeeds` | ubm.h:275-304 | the picks of all rounds are the chosen centres, each a valid row index. The search fails exactly when some round's `(int)sum0` is below 1 |
| `Training.Ubm.PlaceSeeds` | ubm.h:299-301 | component k's mean becomes a copy of the row picked in round k; no other field changes |
| `Training.Ubm.SeedRest` | ubm.h:275-304 | on success every component after the first has a copy of its chosen row as mean |
| `Training.Ubm.Reshape` | ubm.h:253-257 | `num_GSM` components, means and variances cut or zero-padded to `dim` |
| `Training.Ubm.Init` | ubm.h:252-305 | components resized; mean 0 is row `first % N`. On success every mean k ≥ 1 is a copy of the row chosen in seeding round k, and only the means change |
| `Training.Ubm.FillColumn` | ubm.h:437-444 | column i of `pr` becomes the posterior of each component for row i; other columns stay |
| `Training.Ubm.Normalise` | ubm.h:436-445 | the whole responsibility matrix of the current model |
| `Training.Ubm.EStep` | ubm.h:433-447 | `pr` becomes the responsibilities of the training rows |
| `Training.Ubm.MassOf` | ubm.h:457-459 | `sum1` is the mass of a responsibility row |
| `Training.Ubm.WeightedSumOf` | ubm.h:464-465 | `sum2` is the responsibility-weighted coordinate sum |
| `Training.Ubm.WeightedDevOf` | ubm.h:470-472 | `sum3` is the responsibility-weighted squared deviation |
| `Training.Ubm.NewCoordinate` | ubm.h:462-473 | `new_mean[j]` and `new_var[j]` are coordinate j of the weighted mean and variance |
| `Training.Ubm.NewMoments` | ubm.h:461-476 | the new mean and variance vectors are the weighted mean and variance, and the recorded changes are their absolute distances to the old vectors |
| `Training.Ubm.ReestimateOne` | ubm.h:456-481 | one component is re-estimated (weight is mass / N), the others stay, and the three changes are returned |
| `Training.Ubm.MStepPass` | ubm.h:456-481 | one pass of the `i` loop: component i becomes its re-estimate, later components are untouched, and the three change totals grow by its weight, mean and variance shifts |
| `Training.Ubm.MStep` | ubm.h:449-483 | every component is re-estimated from its responsibility row, and the result is the total absolute change |
| `Training.Ubm.EmRound` | ubm.h:495-504 | one E-step and one M-step from the model the round starts with (`prior`). The new model and change are exactly one EM step from `prior`, `pr` holds the responsibilities of `prior`, and the weights sum to 1 |
| `Training.Ubm.EmPass` | ubm.h:495-503 | one pass of the loop from the state after n rounds, each before the last having changed the model by at least 0.002: the object holds round n + 1's model, change and responsibilities |
| `Training.Ubm.EM` | ubm.h:485-510 | between 1 and 4000 rounds run, and the model and change are those of that many EM steps from the initial model. Every round before the last changed the model by at least 0.002, and the last by less unless the cap was reached. The result is the M-step of the responsibilities of the previous round's model, with positive weights summing to 1 |
| `Training.Ubm.EmLoop` | ubm.h:491-504 | between 1 and 4000 rounds run. The object is in the state after that many EM rounds from the initial model, and the last change is below 0.002 unless the cap was reached |
| `Training.Ubm.MeanOf` | ubm.h:566-571 | `Ex[i]` is the responsibility-weighted mean of the speaker's rows |
| `Training.Ubm.CountAndAverage` | ubm.h:561-572 | `n` holds the soft counts and `Ex` the data means of every component |
| `Training.Ubm.BlendMean` | ubm.h:576-581 | each coordinate becomes `coef * Ex + (1 - coef) * old` with `coef = n / (n + 16)` |
| `Training.Ubm.AdaptMeans` | ubm.h:575-582 | every mean is blended; variances, weights and K-means lists stay |
| `Training.Ubm.SelfAdaption` | ubm.h:540-584 | `personal_pr` holds the responsibilities under the background model, then `n`, `Ex`, and the means are blended |
| `Training.Ubm.MixtureDensity` | ubm.h:590-593 | `temp` is the mixture density of one row |
| `Training.Ubm.GetPoint` | ubm.h:587-598 | the log of the average mixture likelihood of the test rows |
| `Training.Ubm.GetNormalPoint` | ubm.h:632-636 | that score minus the cohort mean, divided by the cohort deviation |
| `Training.Ubm.ScoreCohort` | ubm.h:613-618 | one score per cohort file in listing order, `personal_data` left holding the last file's frames, and their sum |
| `Training.Ubm.SquaredDeviationsOf` | ubm.h:624-625 | the summed squared deviations of the scores from a mean |
| `Training.Ubm.ScoreNormalization` | ubm.h:601-629 | `normal_mean` is the mean of the cohort scores and `normal_var` the root of their population variance |
| `Training.Ubm.WriteRows` | ubm.h:133-145 | a block of rows is written row by row, value by value |
| `Training.Ubm.SaveToFile` | ubm.h:125-151 | the tokens written are the encoding of `dim`, `num_GSM`, cohort mean and deviation, weights, means and variances |
| `Training.Ubm.StoreWeights` | ubm.h:103-107 | every weight is read back; nothing else changes |
| `Training.Ubm.StoreMeans` | ubm.h:109-113 | every mean is read back |
| `Training.Ubm.StoreVariances` | ubm.h:115-119 | every variance is read back |
| `Training.Ubm.RecoverFromFile` | ubm.h:92-123 | a missing file gives 0 and changes nothing. Otherwise status is 1 and the saved fields equal the decoded file, with the K-means lists of the surviving components kept |
| `Mixture.SqDistSelf` | ubm.h:310-317 | a row is at distance 0 from itself |
| `Mixture.Prepared` | ubm.h:253-257 | resizing pads with blank components and zero coordinates and keeps what fits |
| `Mixture.PreparedShaped` | ubm.h:253-257 | resizing a model that already has the shape changes nothing |
| `KMeans.Distance` | ubm.h:310-317 | the squared distance is non-negative and 0 from a mean equal to the row |
| `KMeans.Scan` | ubm.h:321-329 | the running minimum of the first n distances, at the earliest index that attains it, or -1 while none is below 1e32 |
| `KMeans.FindClosest` | ubm.h:319-331 | -1 iff every distance is at least 1e32. Otherwise the index of the smallest distance, the earliest among equals |
| `KMeans.IndicesOf` | ubm.h:339-342 | the list of a component holds exactly the rows assigned to it, strictly increasing |
| `KMeans.PartitionTotal` | ubm.h:339-342 | the counts of the first m lists add up to the rows assigned to those m components |
| `KMeans.PartitionCoversRows` | ubm.h:333-346 | every row lies in exactly one list, that of its closest component, and the counts sum to N |
| `KMeans.PartitionIsClustering` | ubm.h:333-346 | a full partition lists only valid row indices, and its counts sum to N |
| `KMeans.MeanAccIsScaledSum` | ubm.h:354-358 | adding `x / tol_num` row by row gives the column sum divided by `tol_num` |
| `KMeans.ClusterMeanIsAverage` | ubm.h:352-359 | an empty cluster's mean is all zeros; otherwise mean times count is the column sum |
| `KMeans.ClusterVar` | ubm.h:374-381 | cluster variances are non-negative, and all zero for an empty cluster |
| `KMeans.MeanChangeNonNegative` | ubm.h:360-365 | the change `update_mean` returns is non-negative |
| `KMeans.MeanChangeAtFixedPoint` | ubm.h:348-370 | a second `update_mean` without `recluster` returns 0 |
| `KMeans.MeansSettle` | ubm.h:400-401 | after `update_mean` the lists still cover the rows and every mean is its cluster mean |
| `KMeans.WeightSumIsShare` | ubm.h:386-393 | the first m new weights sum to their counts over N |
| `KMeans.WeightsAreDistribution` | ubm.h:386-393 | when the counts sum to N, every weight lies in [0, 1] and the weights sum to 1 |
| `KMeans.RegroupCovers` | ubm.h:339-343 | when the assignment names a component for every row, the lists put every row on a list and list only rows, and the counts sum to N |
| `KMeans.KmeansStep` | ubm.h:400-401 | a round succeeds exactly when every row has a closest component. Then the lists cover the rows, the counts sum to N, every mean is its cluster's mean, and the change is non-negative |
| `KMeans.KmeansRun` | ubm.h:396-403 | the run keeps the number and shape of the components, and after at least one live round they are clustered as above |
| `KMeans.ContinuedHeld` | ubm.h:398 | the loop goes on after rounds 1 to n - 1 exactly when the guard's test `change >= threshold` held for each of their changes |
| `KMeans.ContinuedRounds` | ubm.h:398 | the loop goes on after rounds 1 to n - 1 exactly when each of them succeeded and moved the means by at least 1e-4 |
| `KMeans.RanToStep` | ubm.h:398-403 | one more round from a live run whose last change met the threshold moves the recorded state on by one round |
| `Seeding.DistP` | ubm.h:242-249 | with a non-negative root, seeding distances are non-negative |
| `Seeding.PickFirstReaching` | ubm.h:282-286 | the scan stops at the first index whose prefix sum reaches the threshold; a threshold below the total stops inside the array |
| `Seeding.TrialBounds` | ubm.h:288-291 | each trial entry is the smaller of the old distance and the distance to the candidate, so it is at most the old one |
| `Seeding.Draw` | ubm.h:279-291 | a trial's candidate is a valid row and its sum is its trial array's sum |
| `Seeding.KeptIsFirstSmallest` | ubm.h:293-297 | the kept candidate has the smallest sum; earlier candidates have strictly larger sums (the first trial wins ties) |
| `Seeding.RoundIsBest` | ubm.h:276-298 | a round keeps the first trial of smallest sum among its three |
| `Seeding.FirstDist` | ubm.h:270-273 | one distance per row, non-negative for a non-negative root |
| `Seeding.RoundShrinks` | ubm.h:293-303 | the committed sum is at most the previous `sum0`, and the new `dist` stays non-negative |
| `Seeding.CentresFirst` | ubm.h:275-304 | a round's pick has a trial sum no larger than any of its trials and no larger than the previous `sum0` |
| `Seeding.SeedsExtend` | ubm.h:275-304 | picks so far plus the pending rounds' picks give the whole result at every round |
| `Em.CalGsm` | ubm.h:417-431 | the density, with 0 replaced by `DBL_MIN`, so always positive |
| `Em.DenominatorCovers` | ubm.h:438-441 | each joint term is at most the denominator |
| `Em.DenominatorPositive` | ubm.h:436-441 | with a positive weight the denominator is positive, so the division is defined |
| `Em.Posterior` | ubm.h:442-444 | each responsibility lies in [0, 1], and is positive when the weight is |
| `Em.PosteriorsAddUp` | ubm.h:436-444 | the first n posteriors of a row add up to the first n joint terms over the denominator |
| `Em.ColumnIsPosteriors` | ubm.h:436-444 | a column of the matrix sums like the posteriors of its row |
| `Em.ResponsibilitiesSumToOne` | ubm.h:433-447 | every column of the responsibility matrix sums to 1, and every entry lies in [0, 1] |
| `Em.MassPositive` | ubm.h:457-459 | positive responsibilities give positive mass |
| `Em.WeightedDev` | ubm.h:470-472 | weighted squared deviations are non-negative |
| `Em.WeightedMean` | ubm.h:461-466 | `new_mean[j]` times the mass is the weighted coordinate sum |
| `Em.WeightedVar` | ubm.h:470-473 | the new variances are non-negative |
| `Em.Reestimate` | ubm.h:456-481 | the new weight is positive and equals mass / N; the K-means lists stay |
| `Em.MChange` | ubm.h:482 | the returned change is non-negative |
| `Em.WeightSumIsMass` | ubm.h:478-480 | the first m new weights sum to the mass of the first m rows over N |
| `Em.RowsMassIsColumnsTotal` | ubm.h:456-459 | the matrix total is the same summed by rows or by columns |
| `Em.ColumnsOfOne` | ubm.h:433-447 | columns summing to 1 give a matrix total of N |
| `Em.MStepWeightsSumToOne` | ubm.h:449-483 | after an E-step, the M-step's weights sum to 1 |
| `Em.EmStep` | ubm.h:495-503 | one round keeps a model trainable: the same number of components, all shaped, positive weights summing to 1, and a non-negative change |
| `Em.EmRun` | ubm.h:491-504 | every round keeps the model trainable, and after at least one round the weights sum to 1 and the change is non-negative |
| `Em.EmContinuedHeld` | ubm.h:495 | the loop goes on after rounds 1 to n - 1 exactly when the guard's test `change >= threshold_EM` held for each of their changes |
| `Em.EmContinuedRounds` | ubm.h:495 | the loop goes on after rounds 1 to n - 1 exactly when each of them changed the model by at least 0.002 |
| `Em.EmRanToStep` | ubm.h:495-503 | one more round after a change that met the threshold moves the recorded state (model, change, previous model, responsibilities) on by one round |
| `Em.PositiveWeightsGiveMass` | ubm.h:485-510 | positive weights and at least one row make every component's mass positive, so the M-step divides by non-zero `sum1` |
| `Em.NewMeanOverrun` | ubm.h:451-466 | `new_mean[num_GSM]` holds the `dim` writes for the default shape but not for 8 components of 12 coordinates |
| `Adaptation.Coef` | ubm.h:576-577 | `coef` lies in [0, 1] and `coef * (n + r) == n` |
| `Adaptation.CoefBelowOne` | ubm.h:576-577 | with relevance 16, `coef` lies in [0, 1), and is 0 exactly when `n` is 0 |
| `Adaptation.BlendBetween` | ubm.h:578-581 | a blended coordinate lies between the data mean and the old mean |
| `Adaptation.AdaptedBetween` | ubm.h:575-582 | every adapted coordinate lies between data mean and old mean; variances, weights and lists are untouched |
| `Framing.FramesShape` | ubm.h:224-235 | every kept row has `dim` values and a non-zero first value, and no more rows than groups |
| `Framing.FramesAppend` | ubm.h:226-235 | grouping a concatenation is the concatenation of the groupings |
| `Framing.FramesOfGroup` | ubm.h:226-235 | a single group gives itself or nothing |
| `Persistence.FlatAppend` | ubm.h:133-145 | writing two row blocks one after the other writes their concatenation |
| `Persistence.ReadNumsOfNums` | ubm.h:103-104 | reading n values back from written values returns them and the rest of the stream |
| `Persistence.ReadRowsOfFlat` | ubm.h:109-119 | reading rows back from a written block returns them and the rest of the stream |
| `Persistence.RoundTrip` | ubm.h:92-151 | decoding what `save_to_file` writes restores every saved field, whatever follows |
| `Scoring.PopVariance` | ubm.h:624-627 | the cohort variance is non-negative |
| `Scoring.DeviationsAreShifted` | ubm.h:623-625 | the summed deviations from m are the sum minus n·m |
| `Scoring.DeviationsCancel` | ubm.h:623-625 | deviations from the cohort mean sum to 0 |
| `Scoring.ConstantCohort` | ubm.h:623-628 | a cohort of equal scores has that score as mean and variance 0 |
| `Scoring.LikelihoodsPositive` | ubm.h:589-595 | with a positive weight the accumulated likelihood is positive |
| `Scoring.AverageLikelihoodPositive` | ubm.h:587-598 | the average likelihood is positive, so its logarithm is defined |
| `Scoring.NormalPointInverse` | ubm.h:632-636 | normalisation is undone by scaling and shifting back, and a positive deviation keeps the order of scores |
| `Sums.HeldFromAll` | ubm.h:398 | a loop guard held after each of rounds 1 to n - 1 exactly when it holds for every one of those rounds |

## Left out

- File and stream I/O:
  - files are token sequences, and a missing file is `None`;
  - text formatting of doubles is not modelled, so the save/recover round trip holds at the token level;
  - directory enumeration in `ScoreNormalization` is not modelled: its entries come as a list of token streams.
- The transcendental functions: the Gaussian density inside `cal_gsm`, `sqrt` and `log` are parameters (`gauss`, `root`, `ln`). Only the `DBL_MIN` guard of `cal_gsm` is modelled. IEEE rounding, `INF` and `DBL_MAX` are not modelled beyond their roles as bounds.
- `rand()`: raw random numbers are parameters, reduced by `%` as `random(x)` does.
- Console output (`show_*`, `cout`, `cerr`), `model_id`, and the getters and setters are not modelled.
- Training.Ubm.ReadData: requires whole groups of `dim` tokens and `dim >= 1`. A trailing partial group, and stream failures within a group, are not modelled. So is `read_personal_data`.
- Training.Ubm.Init: `(int)sum0` is taken as the floor of an unbounded real, so its overflow for sums beyond the `int` range is not modelled.
- Training.Ubm.Init: when a round's `(int)sum0` is below 1, the source takes `rand() % 0`, which has no defined value. The model reports failure instead (`ok == false`). On failure the centres of the earlier rounds are still placed, after the search rather than round by round.
- Training.Ubm.BestTrial: the first trial is always kept, where the source compares against `DBL_MAX`. The two differ only for a trial sum of at least `DBL_MAX`.
- Training.Ubm.Recluster: when `find_closest` returns -1 (no component, or every distance at least 1e32), the source indexes `gsm[-1]`. The model stops and reports failure instead.
- Training.Ubm.EM: modelled for one call with an empty `pr`, as after construction. The source appends fresh rows on every call.
- Training.Ubm.UpdateWeight: requires at least one row. With no rows the source divides `tol_num` by 0 and every weight becomes NaN.
- Training.Ubm.FinishClusters: requires at least one row, for the same division in `update_weight`.
- Training.Ubm.Kmeans: requires at least one row, for the same division in `update_weight`.
- Training.Ubm.Kmeans: the loop counts finished rounds from 0 where the source counts `i` from 1. The guard and the number of rounds run are the same.
- Training.Ubm.Init: requires at least one row. With no rows the source takes `rand() % 0` for the first centre.
- Training.Ubm.Init: requires `num_GSM` of at least 1. With no components the source writes `gsm[0]` past the end of the resized vector.
- Training.Ubm.EM: requires at least one row. With no rows every mass `sum1` is 0 and `M_step` divides by it.
- Training.Ubm.EM: requires positive weights. A zero weight gives an empty responsibility row, and `M_step` divides by its zero mass.
- Training.Ubm.SelfAdaption: modelled for one call with empty `personal_pr` and `Ex`. Requires speaker frames and positive weights, which is exactly when every soft count `n[i]` is positive; the source divides by `n[i]`.
- Training.Ubm.SelfAdaption: a component with soft count `n[i] == 0` gets `Ex[i][j] = 0 / 0`, and then a NaN mean, since `0 * NaN` is NaN. The model excludes that case, since its requires make every soft count positive, so it never claims that such a component keeps its old mean.
- Training.Ubm.ScoreNormalization: requires at least one cohort file, each with at least one kept frame. The source divides by the number of scores and of frames.
- Training.Ubm.GetNormalPoint: requires a non-zero cohort deviation, which the source divides by.
- Training.Ubm.GetPoint: requires at least one test row, since the source divides by the number of rows.
- Training.Ubm.RecoverFromFile: requires a well-formed file. A stream that ends early or holds a malformed token leaves fields partly read in the source, and that is not modelled.
- Training.Ubm.NewMoments: `new_mean` is a buffer of `dim` values rather than `num_GSM` (see Findings).
- Buffers are `seq` values that the methods reassign. The `swap` of `dist`, `dist2` and `dist2_c` is modelled by passing the arrays on, not by aliasing.
- Convergence of K-means or EM is not claimed. Both loops are bounded by their caps and thresholds.

## Findings

| source | as written | input that shows it | evidently intended | confidence | as-written member | corrected member |
|---|---|---|---|---|---|---|
| ubm.h:451-466 | `double new_mean[num_GSM]` is written at indices 0 to `dim - 1` | a model of 8 components over 12-coordinate frames writes `new_mean[8]` to `new_mean[11]`, past the end of the array | `new_mean[dim]`, like `new_var[dim]` on the same line | high, not executed | `Em.NewMeanOverrun` | `Training.Ubm.NewMoments` |
