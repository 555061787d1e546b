# GraphWorld self-supervised benchmarking core, in Dafny

This project models the discrete core of GraphWorld's node-classification
benchmarker and its self-supervised pretext tasks. Every property below is
proved by the Dafny verifier.

- **Hyper-parameter configuration** (`hparams.dfy`). It counts the
  configuration space of the benchmark, model and pretext parameter groups. It
  samples one configuration. It enumerates the Cartesian product of a group's
  candidate lists in the order `itertools.product` gives.
- **Pretext-task mask construction** (`pretext_tasks.dfy`). `AttributeMask`,
  `CorruptedFeaturesReconstruction` and `CorruptedEmbeddingsReconstruction`
  choose masked nodes, feature columns or embedding columns from a
  permutation. They snapshot pseudo-labels and zero rows or columns of a
  private clone of the feature matrix in place. The embedding variant builds a
  diagonal mask matrix.
- **Node-classification benchmarker** (`benchmarker.dfy`). The training loop
  selects the test metrics by strict improvement of a validation metric. The
  `Benchmark` result record has a skip-on-failure policy. The one-hot
  encoding of predictions and of labels is also modelled.
- **Sub-graph contrast and Graph InfoClust** (`subgraph_contrast.dfy`).
  - Suppressing the diagonal of the diffusion matrix, the top-k neighbour
    table and the central-node picking indices.
  - The pairing of embeddings with summaries under one permutation, and the
    margin ranking loss.
  - Graph InfoClust's cluster count and its convex blend of two losses.
- **EMA schedule and view padding** (`pretext_utils.dfy`). The moving average
  uses a cosine schedule on its decay. `pad_views` zero-pads the narrower of
  two views.

`wrappers.dfy` holds `Option` and `Result`, and `real_arith.dfy` holds two
facts about real arithmetic shared by the loss and schedule models.

How the Python is represented:

- A Python dict is the sequence of its items in insertion order, with
  distinct names.
- A hyper-parameter value is a string, a list or a scalar without a length.
- Exceptions become `Err` values of a `Result`.
- Randomness is an input to the operation:
  - `random.choice` is a draw index;
  - `np.random.permutation` and `torch.randperm` are a permutation.
- The neural network is a trace. Each epoch of `train` is represented by the
  loss, validation metrics and test metrics it produced, or by the fact that
  it raised.
- Library numerics are parameters constrained only by what the model relies
  on: the cosine, `F.normalize`, the sigmoid and the pseudo-inverse diffusion
  matrix.
- An `assert` in a constructor is a precondition. It stops the program and
  is not caught by the skip policy.

Behaviour of the code that the model reproduces:

- Strings are not atomic everywhere. `ComputeNumPossibleConfigs` multiplies
  the count by a string's length, because `len` succeeds on it.
  `GetCartesianProduct` splits a string into its characters, because a string
  is `Iterable`. Only `_SampleValue` keeps a string whole.
- Not every run ends in a record. When no epoch improves the tuning metric
  (for example with zero epochs), `train` returns normally with `None` test
  metrics, and `Benchmark` then raises on `update(None)` outside its `try`.
  Every exception raised inside `train` is caught and marks the record
  skipped.
- A skipped record carries empty metric maps, not null metrics.
- The reported validation metrics are those of the selected epoch, not of
  the final epoch.

## Model

| member | source | states |
|---|---|---|
| `HParams.Put` | src/graph_world/nodeclassification/benchmarker_jl.py:52 | Dict assignment gives the key the new value and leaves every other key's lookup unchanged. It keeps the order of existing names and appends a new name last. |
| `HParams.ComputeNumPossibleConfigs` | src/graph_world/self_supervised_learning/hparam_utils.py:25-45 | The three accumulating loops return the product of the lengths of every entry that has one, across the non-`None` groups. |
| `HParams.GroupCountZeroIff` | src/graph_world/self_supervised_learning/hparam_utils.py:28-32 | A group contributes a factor of 0 exactly when one of its entries is an empty list or an empty string. |
| `HParams.CountZeroIff` | src/graph_world/self_supervised_learning/hparam_utils.py:25-45 | The count is 0 exactly when some present group has an empty list or an empty string. |
| `HParams.AllScalarsCountOne` | src/graph_world/self_supervised_learning/hparam_utils.py:28-32 | A group of values without a length contributes 1. |
| `HParams.GroupCountConcat` | src/graph_world/self_supervised_learning/hparam_utils.py:28-32 | The count of two groups of entries laid end to end is the product of their counts. |
| `HParams.StringEntryMultiplies` | src/graph_world/self_supervised_learning/hparam_utils.py:29-32 | A string entry multiplies the count by its number of characters. |
| `HParams.SixConfigurations` | src/graph_world/self_supervised_learning/hparam_utils.py:25-45 | `{'lr': [0.1, 0.01]}`, `{'hidden': [8, 16, 32]}`, `None` gives 6. |
| `HParams.SampleValue` | src/graph_world/self_supervised_learning/hparam_utils.py:48-57 | A string or a value without a length is returned unchanged. A list yields one of its elements. An empty list is an uncaught error. |
| `HParams.EveryCandidateDrawable` | src/graph_world/self_supervised_learning/hparam_utils.py:53-54 | Every element of a list is the result of some draw. |
| `HParams.SampleGroup` | src/graph_world/self_supervised_learning/hparam_utils.py:67-70 | The comprehension succeeds exactly when every entry samples. It keeps the same names in the same order, and each value is the sample of that entry. |
| `HParams.SampleOptional` | src/graph_world/self_supervised_learning/hparam_utils.py:64-70 | A `None` group samples to `None`. Otherwise the group is sampled. |
| `HParams.SampleModelConfig` | src/graph_world/self_supervised_learning/hparam_utils.py:60-85 | The three groups are sampled independently. The result fails exactly when one of them fails. |
| `HParams.SampleWithoutListsIsIdentity` | src/graph_world/self_supervised_learning/hparam_utils.py:67-70 | A group holding no list samples to itself. |
| `HParams.SampledGroupIsDict` | src/graph_world/self_supervised_learning/hparam_utils.py:67-70 | A sampled group has distinct names. Each value is one of its list's elements, or the value itself when it is not a list. |
| `HParams.Candidates` | src/graph_world/self_supervised_learning/hparam_utils.py:91 | A list contributes its elements and a non-iterable value a singleton. A string contributes its one-character strings. There are as many candidates as the entry's count factor. |
| `HParams.StringSampledWholeButSplitInProduct` | src/graph_world/self_supervised_learning/hparam_utils.py:91 | A string of two or more characters is sampled whole but never appears whole among its product candidates. |
| `HParams.StrLessTotal` | src/graph_world/self_supervised_learning/hparam_utils.py:89 | Code-point order on names is total: two distinct strings are ordered one way or the other. |
| `HParams.InsertEntry` | src/graph_world/self_supervised_learning/hparam_utils.py:89 | Insertion into the sorted names keeps the same entries, as a multiset. |
| `HParams.SortEntries` | src/graph_world/self_supervised_learning/hparam_utils.py:89 | `sorted` returns a permutation of the entries. |
| `HParams.SortEntriesSorted` | src/graph_world/self_supervised_learning/hparam_utils.py:89 | The names of a dict come out in strictly increasing order. |
| `HParams.SortEntriesCount` | src/graph_world/self_supervised_learning/hparam_utils.py:89-90 | Sorting the names does not change the count. |
| `HParams.Product` | src/graph_world/self_supervised_learning/hparam_utils.py:92 | `itertools.product` yields the product of the list lengths many tuples, each with one element per list. |
| `HParams.ProductAt` | src/graph_world/self_supervised_learning/hparam_utils.py:92 | The tuple that picks `idx[j]` from list j sits at its mixed-radix rank, with the last list varying fastest. |
| `HParams.ProductMembers` | src/graph_world/self_supervised_learning/hparam_utils.py:92 | Element j of every tuple comes from list j. |
| `HParams.CandidateListsSize` | src/graph_world/self_supervised_learning/hparam_utils.py:90-92 | The product of the candidate-list lengths equals the count of the group. |
| `HParams.Zip` | src/graph_world/self_supervised_learning/hparam_utils.py:93 | The dict built by `zip` is keyed by exactly the given names, in order. |
| `HParams.GetCartesianProduct` | src/graph_world/self_supervised_learning/hparam_utils.py:87-93 | Every yielded dict is keyed by the group's names in sorted order. Its size and order are stated by the three lemmas below. |
| `HParams.CartesianProductSize` | src/graph_world/self_supervised_learning/hparam_utils.py:87-93 | The generator yields exactly as many dicts as `ComputeNumPossibleConfigs` counts for the group. |
| `HParams.CartesianProductKeys` | src/graph_world/self_supervised_learning/hparam_utils.py:89-93 | Every yielded dict has the group's names, no others, in strictly increasing order. Each value is a candidate of that name's value. |
| `HParams.CartesianProductOrder` | src/graph_world/self_supervised_learning/hparam_utils.py:92-93 | The dict choosing candidate `idx[j]` for the j-th sorted name is yielded at its rank, with the last sorted name varying fastest. |
| `HParams.EmptyProduct` | src/graph_world/self_supervised_learning/hparam_utils.py:92-93 | An empty group yields one empty dict. |
| `PretextTasks.Trunc` | src/graph_world/self_supervised_learning/pretext_tasks.py:41 | `int()` truncates toward zero on both signs. |
| `PretextTasks.SliceLength` | src/graph_world/self_supervised_learning/pretext_tasks.py:41 | A slice `[:stop]` of a length-n sequence has length `stop` for 0 ≤ stop ≤ n, n for a larger stop, n + stop for −n ≤ stop < 0, and 0 below −n. |
| `PretextTasks.MaskCount` | src/graph_world/self_supervised_learning/pretext_tasks.py:41 | The number of masked candidates never exceeds the number of candidates. |
| `PretextTasks.MaskCountIsFloor` | src/graph_world/self_supervised_learning/pretext_tasks.py:41 | For a ratio in [0, 1] the number masked is floor(n × ratio). |
| `PretextTasks.Unlabeled` | src/graph_world/self_supervised_learning/pretext_tasks.py:38-39 | `all[~train_mask]` holds exactly the nodes outside the train mask, in increasing order. |
| `PretextTasks.PermutedMultiset` | src/graph_world/self_supervised_learning/pretext_tasks.py:40 | Reading a sequence through a permutation of its positions yields the same entries, as a multiset. |
| `PretextTasks.Permute` | src/graph_world/self_supervised_learning/pretext_tasks.py:40 | Indexing by a permutation reorders the candidates: position j holds candidate `perm[j]`, and the result has the same candidates, as a multiset. |
| `PretextTasks.PermuteDistinct` | src/graph_world/self_supervised_learning/pretext_tasks.py:40 | Permuting distinct candidates keeps them distinct. |
| `PretextTasks.AttributeMaskSelection` | src/graph_world/self_supervised_learning/pretext_tasks.py:38-41 | The masked nodes are distinct, and all of them are outside the train mask. |
| `PretextTasks.CloneMatrix` | src/graph_world/self_supervised_learning/pretext_tasks.py:13 | `clone()` returns a fresh matrix equal to the original. |
| `PretextTasks.ZeroRows` | src/graph_world/self_supervised_learning/pretext_tasks.py:47 | The listed rows become zero and every other entry is unchanged. |
| `PretextTasks.ZeroColumns` | src/graph_world/self_supervised_learning/pretext_tasks.py:81 | The listed columns become zero and every other entry is unchanged. |
| `PretextTasks.BasicPretextTask.constructor` | src/graph_world/self_supervised_learning/pretext_tasks.py:12-16 | The task holds a fresh copy of the features, the train mask and no decoder. |
| `PretextTasks.AttributeMask.constructor` | src/graph_world/self_supervised_learning/pretext_tasks.py:34-54 | The masked nodes are the first floor-share of the permuted unlabeled nodes. Their rows in the clone are zero and other rows are kept. The caller's features are unchanged. The pseudo-labels are the original rows of the masked nodes. The decoder width is the feature width. |
| `PretextTasks.CorruptedFeaturesReconstruction.constructor` | src/graph_world/self_supervised_learning/pretext_tasks.py:66-84 | Exactly the chosen columns are zeroed in the clone and the caller's features are unchanged. The pseudo-labels are the original chosen columns, or the whole rows. The decoder's output width equals the pseudo-label width. |
| `PretextTasks.Identity` | src/graph_world/self_supervised_learning/pretext_tasks.py:106 | `torch.eye` has ones on the diagonal and zeros elsewhere. |
| `PretextTasks.ZeroDiagonalEntries` | src/graph_world/self_supervised_learning/pretext_tasks.py:107 | Only the listed diagonal entries become zero. |
| `PretextTasks.MatMul` | src/graph_world/self_supervised_learning/pretext_tasks.py:115 | The product of n×h and h×w matrices is n×w. |
| `PretextTasks.DotWithScaledUnit` | src/graph_world/self_supervised_learning/pretext_tasks.py:115 | Multiplying by a column that is zero except at position j picks out entry j, scaled. |
| `PretextTasks.CorruptedEmbeddingsReconstruction.constructor` | src/graph_world/self_supervised_learning/pretext_tasks.py:96-111 | The mask is the identity with the chosen diagonal entries zeroed. The decoder's output width is the number of masked columns, or the full width. |
| `PretextTasks.CorruptedEmbeddingsReconstruction.MakeLossTargets` | src/graph_world/self_supervised_learning/pretext_tasks.py:114-120 | Multiplying by the mask zeroes exactly the masked embedding columns and keeps the rest. The pseudo-labels are the masked columns, or all embeddings. Their width equals the decoder's output width. |
| `Benchmarker.ArgMax` | src/graph_world/nodeclassification/benchmarker_jl.py:77 | `argmax` returns the first index of a row's largest entry. |
| `Benchmarker.PredictedClasses` | src/graph_world/nodeclassification/benchmarker_jl.py:77 | With at least one class, every prediction row yields its first argmax, below the number of classes. With zero classes, `argmax` raises, whatever the number of rows. |
| `Benchmarker.OneHot` | src/graph_world/nodeclassification/benchmarker_jl.py:83-87 | Row i of the one-hot matrix is 1 at the given class and 0 elsewhere. |
| `Benchmarker.NNNodeBenchmarkerJL.constructor` | src/graph_world/nodeclassification/benchmarker_jl.py:38-48 | The benchmarker holds the epoch budget and the given hyper-parameters, and no masks yet. It requires hyper-parameters to be present. |
| `Benchmarker.NNNodeBenchmarkerJL.AdjustParams` | src/graph_world/nodeclassification/benchmarker_jl.py:50-52 | `out_channels` becomes `num_clusters` only when the generator config has it and hyper-parameters exist. Otherwise nothing changes. |
| `Benchmarker.NNNodeBenchmarkerJL.SetMasks` | src/graph_world/nodeclassification/benchmarker_jl.py:54-57 | The three masks are installed and the hyper-parameters are untouched. |
| `Benchmarker.NNNodeBenchmarkerJL.Train` | src/graph_world/nodeclassification/benchmarker_jl.py:104-119 | The loop returns what the selection fold over the epochs returns, and raises exactly when the fold does. |
| `Benchmarker.Run` | src/graph_world/nodeclassification/benchmarker_jl.py:107-119 | A completed loop has one loss per epoch. The best value, the validation metrics and the test metrics are set together, and they are set exactly when there was at least one epoch, because every value beats the initial infinity. |
| `Benchmarker.RunErrPersists` | src/graph_world/nodeclassification/benchmarker_jl.py:111-119 | An exception in one epoch ends the whole loop with that exception. |
| `Benchmarker.RunOkIff` | src/graph_world/nodeclassification/benchmarker_jl.py:111-115 | Training succeeds exactly when every epoch ran and reported the tuning metric. A missing metric is a `KeyError`. |
| `Benchmarker.RunLosses` | src/graph_world/nodeclassification/benchmarker_jl.py:111-112 | The loss list has one entry per epoch, in epoch order. |
| `Benchmarker.NoEpochsNoMetrics` | src/graph_world/nodeclassification/benchmarker_jl.py:107-110 | With no epoch, the losses are empty and no metrics are selected. |
| `Benchmarker.RunSelectsFirstOptimum` | src/graph_world/nodeclassification/benchmarker_jl.py:108-118 | The returned validation and test metrics are those of the first epoch that reaches the optimum: `<` for a loss, `>` otherwise. Ties keep the earlier epoch. |
| `Benchmarker.BenchmarkRecord` | src/graph_world/nodeclassification/benchmarker_jl.py:121-159 | `Benchmark` raises exactly when the element is not skipped and there are zero epochs. Otherwise the record carries the element, it is skipped exactly when it has no losses, and a skipped record has empty metric maps. |
| `Benchmarker.SkippedElementNotTrained` | src/graph_world/nodeclassification/benchmarker_jl.py:129-140 | A skipped element returns at once, with no losses and empty metric maps. |
| `Benchmarker.TrainingFailureSkips` | src/graph_world/nodeclassification/benchmarker_jl.py:149-158 | An exception in training marks the record skipped, with no losses and empty metric maps. |
| `Benchmarker.ZeroEpochsFail` | src/graph_world/nodeclassification/benchmarker_jl.py:156-157 | With no epoch, `update(None)` fails outside the `try`. |
| `Benchmarker.CompletedRunRecord` | src/graph_world/nodeclassification/benchmarker_jl.py:149-159 | A completed run reports one loss per epoch and the metrics of the first optimal epoch. |
| `Benchmarker.NNNodeBenchmarkerJL.Benchmark` | src/graph_world/nodeclassification/benchmarker_jl.py:121-159 | The record is as specified by `BenchmarkRecord`. The masks are installed exactly when the element is not skipped. |
| `SubgraphContrast.MatrixMin` | src/graph_world/self_supervised_learning/pretext_tasks/contrastive_based_different_scale.py:149 | `S.min()` is an entry of the matrix and no entry is below it. |
| `SubgraphContrast.SuppressDiagonal` | src/graph_world/self_supervised_learning/pretext_tasks/contrastive_based_different_scale.py:149 | The diagonal becomes the old minimum minus 1, strictly below every other score of its row. Off-diagonal scores are unchanged. |
| `SubgraphContrast.TopK` | src/graph_world/self_supervised_learning/pretext_tasks/contrastive_based_different_scale.py:153 | `topk` yields k distinct indices in non-increasing order of score, none below an index left out. |
| `SubgraphContrast.SelfNotPicked` | src/graph_world/self_supervised_learning/pretext_tasks/contrastive_based_different_scale.py:149-153 | With its score below all others and k ≤ N−1, a node is not among its own top-k. |
| `SubgraphContrast.NeighbourTable` | src/graph_world/self_supervised_learning/pretext_tasks/contrastive_based_different_scale.py:153-159 | The table has N rows of k+1 entries: the row's top-k followed by the node itself. |
| `SubgraphContrast.NeighbourRowsHoldSelf` | src/graph_world/self_supervised_learning/pretext_tasks/contrastive_based_different_scale.py:149-159 | After suppression with k < N, each node is in its own row only as the last entry. |
| `SubgraphContrast.FlattenAt` | src/graph_world/self_supervised_learning/pretext_tasks/contrastive_based_different_scale.py:171 | Position offset(i) + p of the batch holds entry p of subgraph i. |
| `SubgraphContrast.CentralNodeIndices` | src/graph_world/self_supervised_learning/pretext_tasks/contrastive_based_different_scale.py:168-172 | Index i is the offset of subgraph i plus the local position of node i. |
| `SubgraphContrast.CentralIndexPicksNode` | src/graph_world/self_supervised_learning/pretext_tasks/contrastive_based_different_scale.py:170-181 | With batch offsets and local positions, the picking index selects node i inside subgraph i of the batch. |
| `SubgraphContrast.Gather` | src/graph_world/self_supervised_learning/pretext_tasks/contrastive_based_different_scale.py:193-194 | `m[rand_idx]` puts row `perm[j]` at position j. Under a permutation the rows are the same rows, as a multiset, so the shuffled summaries and embeddings lose and duplicate nothing. |
| `SubgraphContrast.Pair` | src/graph_world/self_supervised_learning/pretext_tasks/contrastive_based_different_scale.py:190-200 | One permutation is applied to both embeddings and summaries. The second view's positives are the first view's, permuted. Each negative pairs node j with node perm[j], in both directions. |
| `SubgraphContrast.MarginRankingLoss` | src/graph_world/self_supervised_learning/pretext_tasks/contrastive_based_different_scale.py:161 | The mean margin ranking loss against an all-ones target is never negative. |
| `SubgraphContrast.MarginRankingLossSelf` | src/graph_world/self_supervised_learning/pretext_tasks/contrastive_based_different_scale.py:161 | Scores ranked against themselves cost exactly the margin. |
| `SubgraphContrast.SubgCon.constructor` | src/graph_world/self_supervised_learning/pretext_tasks/contrastive_based_different_scale.py:137-172 | It requires alpha in [0, 1] and k > 0. It suppresses the diagonal and builds the neighbour table. No node is among its own top-k when k < N. It computes the central indices. |
| `SubgraphContrast.SubgCon.MakeLoss` | src/graph_world/self_supervised_learning/pretext_tasks/contrastive_based_different_scale.py:189-207 | The loss is the sum of the two direction losses, and is never negative. |
| `SubgraphContrast.IdentityPairingLoss` | src/graph_world/self_supervised_learning/pretext_tasks/contrastive_based_different_scale.py:190-207 | With the identity permutation each negative equals its positive, and the loss is twice the margin. |
| `SubgraphContrast.Ceil` | src/graph_world/self_supervised_learning/pretext_tasks/contrastive_based_different_scale.py:91 | `math.ceil` gives the least integer not below its argument. |
| `SubgraphContrast.ClusterCountBounds` | src/graph_world/self_supervised_learning/pretext_tasks/contrastive_based_different_scale.py:91 | For a ratio in (0, 1] and N > 0 there are between 1 and N clusters. |
| `SubgraphContrast.GraphInfoClust.constructor` | src/graph_world/self_supervised_learning/pretext_tasks/contrastive_based_different_scale.py:88-94 | It requires alpha in [0, 1] and uses ceil(N × ratio) clusters. |
| `SubgraphContrast.GraphInfoClust.MakeLoss` | src/graph_world/self_supervised_learning/pretext_tasks/contrastive_based_different_scale.py:127 | The blended loss lies between the two losses. It is the DGI loss at alpha = 1 and the cluster loss at alpha = 0. |
| `PretextUtils.Beta` | src/graph_world/self_supervised_learning/pretext_tasks/utils.py:18 | At cosine 1 the decay is the base. With a cosine in [−1, 1] and a base ≤ 1, it lies in [base, 1]. |
| `PretextUtils.Blend` | src/graph_world/self_supervised_learning/pretext_tasks/utils.py:20 | Blending a value with itself returns it. For a decay in [0, 1] the result lies between the old and new values. |
| `PretextUtils.Ema.constructor` | src/graph_world/self_supervised_learning/pretext_tasks/utils.py:9-13 | The step starts at 0 and the schedule length is the number of epochs. |
| `PretextUtils.Ema.UpdateAverage` | src/graph_world/self_supervised_learning/pretext_tasks/utils.py:15-20 | `None` returns the new value and keeps the step. A schedule of zero steps divides by zero. Otherwise the pre-increment decay blends the two values and the step advances by exactly 1. |
| `PretextUtils.ScheduleBounds` | src/graph_world/self_supervised_learning/pretext_tasks/utils.py:18-20 | The first decay is the base and every decay lies in [base, 1]. For a base in [0, 1], each update lies between the old and new values. |
| `PretextUtils.PadRight` | src/graph_world/self_supervised_learning/pretext_tasks/utils.py:32 | `F.pad(x, (0, diff))` widens by diff zero columns on the right and keeps the original entries. |
| `PretextUtils.PadRightKeepsColumns` | src/graph_world/self_supervised_learning/pretext_tasks/utils.py:32 | Dropping the padding gives back the original rows. |
| `PretextUtils.PadViews` | src/graph_world/self_supervised_learning/pretext_tasks/utils.py:28-34 | Afterwards both views have the same width. The narrower view is zero-padded and both are normalized. Equal widths change nothing, not even by normalization. |

## Left out

- PCA of wide features in `AttributeMask` is a numerical library call. `PretextTasks.AttributeMask.constructor` requires a feature width of at most 256, where no PCA happens.
- The encoder and decoder forward passes, the optimiser steps and the mode switches are foreign tensor code. So are the MSE, Jensen–Shannon and DGI losses, and the `ClusterNet` iterations. `train_step` and `test` appear only through the outcomes they produce in each epoch.
- The sklearn metrics in `test` (accuracy, F1, ROC-AUC, log-loss) belong to an external statistics library. Only the argmax and the one-hot encodings are modelled.
- Benchmarker.NNNodeBenchmarkerJL.constructor: requires hyper-parameters to be present. With `h_params = None`, which `SampleModelConfig` returns for a `None` group, `model_class(**h_params)` raises `TypeError` before the object exists. The model does not represent that failed construction.
- Benchmarker.OneHot: requires every label to be below the number of classes. An out-of-range label makes numpy raise an `IndexError`, which the skip policy of `Benchmark` catches.
- The pseudo-inverse diffusion solve, `global_mean_pool` and the encoder over the subgraph batch are numerical library calls. The diffusion matrix, the embeddings and the summaries are inputs.
- The `SubGraph`/`SubGraphs` batching is not part of this model. The offsets and local positions it reports are inputs to `SubgraphContrast.SubgCon.constructor`.
- SubgraphContrast.SubgCon.constructor: takes the diffusion matrix to be N×N, with N the number of nodes. In the code the matrix is sized by the largest node index that appears in an edge. When the highest-numbered nodes have no edges, the table has fewer than N rows, and `S_top_k[i, :]` for `i in range(self.N)` raises `IndexError`. With a 1×1 adjacency matrix, `.squeeze()` leaves a 0-d tensor and `fill_diagonal_` raises. The model captures neither crash.
- SubgraphContrast.SubgCon.constructor: requires k ≤ N, because `topk` with a larger k raises inside torch. It also requires N > 0, because `min` of an empty matrix raises.
- SubgraphContrast.SubgCon.MakeLoss: requires N > 0, because the mean of an empty loss is NaN.
- Floating point is modelled by reals, so NaN and infinities are absent. The initial `±inf` of the best validation value is an explicit `None`. A NaN metric, which never compares as better, is not modelled.
- The `results: None` key of the record and any element keys beyond the graph, masks, skip flag and sample id are not modelled.
- `AdjustParams` writes into the caller's dict in place. The model gives the benchmarker a new dict value, so aliasing with other holders of the dict is not captured.
- `contrastive_based.py` (GRACE/GCA) is not part of this model. Nor are `DeepGraphInfomax`, `init_weights` and `compute_InfoNCE_loss`.
- The `NNNodeBenchmarkJL` wrapper, gin registration and logging are plumbing. The wrapper's `GetBenchmarker` passes three arguments to a four-argument constructor.
- `cos(π·x)` and `F.normalize` are parameters. `PretextUtils.ScheduleBounds` assumes the cosine lies in [−1, 1] with cos(0) = 1. `PretextUtils.PadViews` assumes normalization keeps the shape.
