# wsrf core in Dafny

A model of the C++ engine of wsrf, a weighted subspace random forest for
classification. The model is functional: each operation is a pure function
or a method over immutable values, and the random engine is a stream of raw
draws supplied by the caller.

The modules follow the source files:

- `Base`: optional values, results with the engine's error kinds, random streams, and sums and the first maximum.
- `Sampling` (src/sampling.cpp): sampling without replacement by swapping each chosen element to the end.
- `Weighted` (src/sampling.cpp): weighted sampling without replacement through a binary heap of subtree sums.
- `HeapPath` (src/sampling.cpp): the slots from a heap slot up to the root, which a weight update walks through.
- `Igr` (src/IGR.cpp): the weighted draw of a subspace by information gain ratio, and the choice of its best variable.
- `Data` (src/dataset.h, src/dataset.cpp): columns, target labels, label counts, and the partition of an observation set by a discrete level or a numeric cut.
- `Entropy` (src/c4_5_var_selector.h): information, gain and split information over the `n log2 n` table.
- `Splits` (src/c4_5_var_selector.cpp): the evaluation of one discrete or numeric variable at a node.
- `Selector` (src/c4_5_var_selector.cpp): the choice of the split variable among the candidates of a subspace.
- `Nodes` (src/node.h): leaf and internal nodes, their flat record form, and the label distribution of a leaf.
- `Bfs` (src/tree.h, src/tree.cpp): trees, the breadth-first `save`, and the reconstructing constructor.
- `Grow` (src/tree.h, src/tree.cpp): bagging, and the recursive growth of a C4.5 tree over the subspaces.
- `Predict` (src/tree.h): routing an observation to a leaf, with a permuted copy of one variable while importance is assessed.
- `Oob` (src/tree.cpp): one tree's out-of-bag predictions, error rates and permutation importance.
- `Forest` (src/rforest.cpp): the default subspace size, the thread count, and the sequential build.
- `Vote` (src/rforest.cpp): the forest's predictions: class, votes, probabilities, averaged and accuracy-weighted distributions.
- `Stats` (src/rforest.cpp, package/src/rforest.h): the forest's out-of-bag evaluation: vote frequencies, confusion matrix, error rate, strength and information gain ratio importance.

Conventions:

- `NA_REAL` and the NaN of a division by zero are `None`.
- R's 1-based factor codes are kept as they are.
- Integer fields read from doubles truncate toward zero.
- Unsigned 32-bit arithmetic is written out where it matters: seeds, and the core count less two.

## Model

| member | source | states |
|---|---|---|
| Base.NextSeed | src/tree.cpp:160 | `seed_ += 1` on the unsigned 32-bit seed: the successor, wrapping from 2^32 - 1 to 0 |
| Base.ArgMax | src/node.h:128-135 | `max_element` picks an index in range holding the largest entry, and no earlier entry is as large (the first maximum) |
| Sampling.RemoveSlot | src/sampling.cpp:24-26 | one draw moves the last live element into the drawn slot: the drawn element plus the new live prefix is the old live prefix as a multiset, and distinctness survives with the drawn element gone |
| Sampling.SwapToEnd | src/sampling.cpp:19-28 | the draw loop returns exactly `k` elements, all taken from the live prefix, and distinct when the input is |
| Sampling.RandomSample | src/sampling.cpp:7-31 | `nonReplaceRandomSample` returns the input itself when `nselect` reaches its size, and otherwise `nselect` elements drawn without replacement (a sub-multiset, distinct when the input is) |
| Weighted.BuildLoop | src/sampling.cpp:84-85 | the folding loop `wst[i>>1] += wst[i]` leaves in every slot the total weight of its subtree (the reference `SubSum`) |
| Weighted.Build | src/sampling.cpp:84-85 | the built heap keeps the slot weights and satisfies the heap invariant: each slot sums its own weight and its children's sums |
| Weighted.MassBoundsWeight | src/sampling.cpp:85-90 | the root sum bounds every subtree sum, which bounds the slot weight, so the draw range is non-empty while some slot carries weight |
| Weighted.Descend | src/sampling.cpp:92-100 | the corrected descent from the root with `0 <= r < wst[1]` stops inside slots 1..n at a slot that still carries weight |
| Weighted.DescendAsWritten | src/sampling.cpp:92-100 | the descent as written never leaves slots 1..n (it may stop at a slot of weight 0, see Findings) |
| Weighted.Dec | src/sampling.cpp:107-110 | the climb `wst[j] -= w; j >>= 1` lowers exactly the sums of `j` and its ancestors |
| Weighted.TakeKeepsSums | src/sampling.cpp:102-110 | removing the chosen weight keeps the heap invariant, lowers the mass by that weight and removes exactly that slot from the weighted slots |
| Weighted.Draws | src/sampling.cpp:89-113 | with the corrected descent, `k` draws yield `k` distinct item indexes that each carried weight, and they always succeed while at least `k` slots carry weight |
| Weighted.DrawsAsWritten | src/sampling.cpp:89-113 | the draw loop as written yields `k` in-range item indexes |
| Weighted.Normalize | src/sampling.cpp:68-79 | weights are kept when their total is non-zero; a zero total gives every item the same weight `RAND_MAX / n`, positive when `n <= RAND_MAX` |
| Weighted.HeapOf | src/sampling.cpp:41-85 | item `i` sits in heap slot `i + 1` with its normalised weight, and the heap invariant holds |
| Weighted.WeightedSample | src/sampling.cpp:33-116 | `nonReplaceWeightedSample` (corrected descent): all indexes in order when `nselect >= n`; otherwise `min(nselect, n)` distinct in-range indexes, and always a result when every weight is positive |
| Weighted.PositiveWeightsFillHeap | src/sampling.cpp:58-85 | with every weight positive all `n` heap slots carry weight, so `nselect < n` draws cannot run out |
| Weighted.WeightedSampleAsWritten | src/sampling.cpp:33-116 | the sampler as written: all indexes when `nselect >= n`, otherwise `min(nselect, n)` in-range indexes, with no distinctness promised |
| Weighted.WeightedSampleVars | src/sampling.cpp:118-123 | the overload over variable indexes returns, position by position, the variables at the sampled indexes, and `vars` itself when `nselect` reaches its size |
| Weighted.ExampleHeaps | src/sampling.cpp:84-110 | the heap for weights 5, 5, 5 is slot sums 15, 5, 5, and taking slot 1 leaves sums 10, 5, 5 |
| Weighted.AsWrittenRepeatsIndexZero | src/sampling.cpp:89-102 | on weights 5, 5, 5, two draws and a stream of zeros, the source's descent returns index 0 twice |
| Weighted.CorrectedDrawsDistinctOnRepeatInput | src/sampling.cpp:89-102 | on the same input the corrected descent returns indexes 0 then 1 |
| Igr.Weights | src/IGR.cpp:21 | every gain ratio becomes a positive integer sampling weight, one per candidate |
| Igr.ScanMax | src/IGR.cpp:22-33 | the loop returns -1 exactly on an empty sample; otherwise a sampled index whose gain ratio is at least every sampled one, and the last such maximum (no later sampled index reaches it) |
| Igr.Subspace | src/IGR.cpp:10-11 | the subspace has `min(nvars, n)` distinct in-range candidates, all of them in order when `nvars >= n` |
| Igr.SelectedIdx | src/IGR.cpp:14-34 | `getSelectedIdx` is -1 exactly when there is no candidate or `nvars` is 0; otherwise a member of the subspace with the largest gain ratio in it, the overall maximum when the subspace is everything |
| Data.NewDataset | src/dataset.cpp:3-26 | a training set without rows is rejected; otherwise the `n log2 n` table is filled for every n from 1 to the number of rows |
| Data.LabelsOf | src/dataset.h:50-53 | the label of each listed observation, in order |
| Data.HaveSameLabel | src/dataset.h:55-68 | an empty list is an error; otherwise true exactly when every listed observation has the first one's label |
| Data.SameFrom | src/dataset.h:63-66 | the comparison loop from position `i` is true exactly when every later label equals the first |
| Data.LabelFreqCount | src/dataset.h:70-83 | one count per label, non-negative, summing to the number of observations |
| Data.FreqCounts | src/dataset.h:70-83 | the count of label `l + 1` is its multiplicity among the observations' labels |
| Data.SameLabelIffPure | src/dataset.h:55-83 | all labels agree exactly when one label's count is the whole node |
| Data.LabelledSub | src/dataset.h:70-83 | a sub-multiset of labelled observations is labelled, so counts stay in range after a split |
| Data.FilterAppend | src/dataset.cpp:62-65 | the bucket of a value grows by the appended observation exactly when it has that value |
| Data.SplitDiscVar | src/dataset.cpp:45-68 | one bucket per value, bucket `k` holding the observations with code `k + 1` in order, together a permutation of the input |
| Data.SplitPosition | src/dataset.cpp:70-93 | a position outside the list is an error; otherwise two parts, the first `pos + 1` observations and the rest, that concatenate back to the input |
| Data.IndexOf | src/meta_data.cpp:35-40 | the first index holding a name, the entry a name-to-index map keeps |
| Data.MatchLevels | src/dataset.h:111-153 | more levels than in training, the same number in another order, or fewer that are not all known are rejected; otherwise every code is re-pointed at the training level of the same name |
| Entropy.ZeroCountsVanish | src/c4_5_var_selector.h:41-47 | skipping zero counts changes nothing when `nlogn(0)` is 0, so the sum over non-zero counts equals the sum over all counts |
| Entropy.SumNlogn | src/c4_5_var_selector.h:41-47 | `sumNlogn` is `nlogn(n)` minus the `nlogn` of every label count |
| Entropy.PureHasNoImpurity | src/c4_5_var_selector.h:41-47 | a node whose whole size sits in one label has `sumNlogn` 0 |
| Entropy.CalcEntropy | src/c4_5_var_selector.h:49-56 | a node whose observations all share one label has entropy 0 |
| Entropy.SameLabelMakesPure | src/c4_5_var_selector.h:49-56 | when every label agrees the counts are pure, so the impurity sum vanishes |
| Entropy.BisectSymmetric | src/c4_5_var_selector.h:58-60 | the sub-information of a bisection is the same with the sides swapped, and times the node size it is the sum of both sides' `sumNlogn` |
| Splits.Insert | src/c4_5_var_selector.cpp:68-69 | inserting into a list sorted by value keeps it sorted, and adds exactly the inserted observation |
| Splits.SortByValue | src/c4_5_var_selector.cpp:68-69 | the sort of `handleContVar` by `VarValueComparor` yields the same observations, non-decreasing in the variable's value |
| Splits.FreqAppend | src/dataset.h:70-83 | label counts add up over a concatenation |
| Splits.FreqSplit | src/c4_5_var_selector.cpp:71-80 | the counts of a prefix and the rest add up to the counts of the whole |
| Splits.FreqShift | src/c4_5_var_selector.cpp:76-80 | moving the cut one place right adds the moved observation's label to the left counts and takes it from the right counts |
| Splits.InitialCounts | src/c4_5_var_selector.cpp:71-72 | the counts start as nothing on the left and the whole node on the right |
| Splits.Advance | src/c4_5_var_selector.cpp:107-108 | one step keeps the running counts equal to the counts of both sides of the cut |
| Splits.Prime | src/c4_5_var_selector.cpp:75-80 | after the priming loop the counts are those of the first `m` observations and the rest |
| Splits.RunningSubinfo | src/c4_5_var_selector.cpp:92 | the sub-information computed from the running counts is the reference sub-information of that cut |
| Splits.Step | src/c4_5_var_selector.cpp:91-105 | one step keeps the best cut the first admissible one of least sub-information seen so far |
| Splits.Scan | src/c4_5_var_selector.cpp:88-111 | after the loop, the best cut is the first admissible one of least sub-information over all cuts scanned, or none if none was admissible |
| Splits.ContScan | src/c4_5_var_selector.cpp:66-111 | nothing exactly when no cut is admissible; otherwise an admissible cut leaving at least `m` on the left and more than `m` on the right, with the last left value as split value, every left value at most it, every right value above it, no cut of less sub-information and no earlier one of equal sub-information |
| Splits.SortedCtx | src/c4_5_var_selector.cpp:68-69 | the sorted scan context holds the node's observations reordered, nothing else changed |
| Splits.HandleContVar | src/c4_5_var_selector.cpp:63-129 | a node with fewer than `2m` observations yields nothing; otherwise the scan's candidate, which gains information and bisects a permutation of the node |
| Splits.ContCand | src/c4_5_var_selector.cpp:113-128 | a recorded numeric candidate has positive gain and bisects the sorted set at its cut |
| Splits.ContCandExists | src/c4_5_var_selector.cpp:88-115 | a numeric candidate is recorded exactly when some admissible cut gains information |
| Splits.ContCandBest | src/c4_5_var_selector.cpp:93-117 | the recorded gain is the best any admissible cut reaches |
| Splits.CandOfCut | src/c4_5_var_selector.cpp:117-127 | the recorded candidate carries the gain, the split value, the two parts of `splitPosition`, and the two-part split information |
| Splits.HandleDiscVar | src/c4_5_var_selector.cpp:24-61 | nothing unless two levels hold `m` or more and the gain is positive, and a candidate whenever both hold; the gain is the node entropy minus the size-weighted entropy of the levels, the partition is every level in order, and the split information is the level formula |
| Splits.LevelsSplitInfo | src/c4_5_var_selector.cpp:45-56 | skipping empty levels gives the same split information as counting them |
| Selector.Evaluate | src/c4_5_var_selector.cpp:131-171 | `calcInfos` on one variable: a recorded candidate has positive gain and partitions the node; its split value is present exactly for a numeric variable; a numeric split has two non-empty parts and a discrete one is the level partition; every part is smaller than the node |
| Selector.DiscShrinks | src/c4_5_var_selector.cpp:33-37 | two levels holding `m >= 1` each make every level smaller than the node |
| Selector.Candidates | src/c4_5_var_selector.cpp:148-171 | the candidate maps record exactly the variables of the list whose evaluation gives a candidate, with that candidate |
| Selector.AverageInfoGain | src/c4_5_var_selector.cpp:173-181 | the mean recorded gain less 0.000001: the count times (mean + 0.000001) is the total gain |
| Selector.TotalBelow | src/c4_5_var_selector.cpp:173-181 | a strict bound on every recorded gain bounds their total strictly |
| Selector.SomeGainReachesAverage | src/c4_5_var_selector.cpp:173-181 | some recorded variable always reaches the mean gain, so the gain filter never empties the map |
| Selector.BestBelow | src/c4_5_var_selector.cpp:298-324 | the loop of `findBest` over keys in ascending order: nothing exactly when no variable qualifies; otherwise a qualifying variable of largest gain ratio, with every earlier qualifying one strictly smaller |
| Selector.FirstKey | src/c4_5_var_selector.cpp:327 | `info_gain_map_.begin()`: the smallest recorded key |
| Selector.Fallback | src/c4_5_var_selector.cpp:326-330 | with no qualifying variable, the smallest recorded variable, with a gain ratio exactly when its split information is positive |
| Selector.FindBest | src/c4_5_var_selector.cpp:289-333 | `findBest` picks the unique first qualifying variable of largest gain ratio (`BestVar`) with that ratio, and the fallback when none qualifies |
| Selector.BestVarUnique | src/c4_5_var_selector.cpp:312-316 | the strict `>` replacement makes the best variable unique |
| Selector.FindBestQualifies | src/c4_5_var_selector.cpp:289-333 | when every split information is positive, the chosen variable passes the gain filter |
| Selector.SetResult | src/c4_5_var_selector.cpp:253-265 | a negative index means no split; otherwise the chosen variable with its recorded candidate and the given gain ratio |
| Selector.DoSelection | src/c4_5_var_selector.cpp:267-287 | `doSelection`: a chosen variable is in the list with its evaluated candidate; no split exactly when no variable of the random subspace yields a candidate; with `mtry` covering the list it is the choice among all variables |
| Selector.SelectAmong | src/c4_5_var_selector.cpp:276-287 | the choice over a variable list: a chosen variable carries its evaluated candidate, and no split exactly when no variable yields one |
| Selector.NoneRecorded | src/c4_5_var_selector.cpp:194 | the candidate map is empty exactly when no variable yields a candidate |
| Selector.Qualifying | src/c4_5_var_selector.cpp:207-216 | the qualifying variables in ascending order: exactly the recorded ones passing the gain and split-information filter |
| Selector.Ratios | src/c4_5_var_selector.cpp:211-213 | the gain ratio of each qualifying variable, in order |
| Selector.DoIgrSelection | src/c4_5_var_selector.cpp:183-251 | `doIGRSelection`: no split exactly when no variable yields a candidate; otherwise a recorded variable with its evaluated candidate, a qualifying one with its gain ratio when any qualifies (the largest when `mtry` covers them all), and the fallback otherwise |
| Selector.IgrChoice | src/c4_5_var_selector.cpp:204-250 | the weighted branch on a non-empty map meets the same promise (`IgrPick`) |
| Nodes.NChild | src/node.h:124-126 | a leaf has no children; an internal node has the number it was created with |
| Nodes.Trunc | src/node.h:55-71 | reading a stored double into an `int` field truncates toward zero |
| Nodes.Ints | src/node.h:60-63 | the stored label counts are read back, each truncated to an integer |
| Nodes.Nums | src/node.h:210-212 | integer counts stored as doubles read back as the same integers |
| Nodes.Encode | src/node.h:184-227 | `save`: a leaf is type, size, label and the label counts; an internal node is seven fields, eight with the split value of a numeric variable |
| Nodes.Decode | src/node.h:47-75 | the record constructor: a record it accepts fits the variable kinds, with the leaf type in field 0 for a leaf and at least seven fields otherwise; short, missing or inconsistent fields are rejected |
| Nodes.RoundTrip | src/node.h:47-75 | reading back a saved node gives the same node |
| Nodes.LeafRoundTrip | src/node.h:58-63 | a saved leaf reads back the same whatever the variable kinds |
| Nodes.InternalRoundTrip | src/node.h:65-74 | a saved internal node reads back the same, its split value present exactly for a numeric variable |
| Nodes.IntAt | src/node.h:55-71 | a present field read as an integer is its truncation; a missing one is reported |
| Nodes.MajorityLabel | src/node.h:128-135 | `max_element`: the first position of the largest count |
| Nodes.LabelDstr | src/node.h:145-164 | an internal node has no distribution; a leaf divides each count by its size, or by the counts' sum when the size is 0; a leaf without counts has the empty distribution, and a zero denominator under some count is reported |
| Nodes.DstrSumsToOne | src/node.h:145-164 | a leaf whose counts have a non-zero sum, with size 0 or equal to that sum, has a distribution summing to 1 |
| Bfs.Order | src/tree.h:114-133 | the breadth-first traversal from a queue visits as many nodes as the queue's trees hold |
| Bfs.OrderBlocks | src/tree.h:119-131 | the traversal begins with the queue itself, and the children of the `i`-th visited node are a consecutive block later in the order |
| Bfs.OrderGood | src/tree.h:114-133 | well-formed trees traverse to well-formed subtrees only |
| Bfs.VisitsEveryNode | src/tree.h:114-133 | the traversal from the root visits exactly the nodes of the tree, one entry per node |
| Bfs.Save | src/tree.cpp:365-377 | `Tree::save`: one record per node, in breadth-first order, record `i` decoding to the `i`-th visited node |
| Bfs.DecodeAll | src/tree.cpp:63-64 | every record is decoded, and the whole decode fails exactly when some record does |
| Bfs.Assemble | src/tree.cpp:62-71 | the loop over records from last to first fails only as a malformed record list (a node asking for more children than the queue holds) |
| Bfs.AssembleSize | src/tree.cpp:62-71 | each record read adds exactly one node to the parentless queue: the queue's trees gain one node per record |
| Bfs.Rebuild | src/tree.cpp:39-76 | the reconstructing constructor fails whenever some record does not decode, and a rebuilt tree never has more nodes than there are records |
| Bfs.SaveRebuild | src/tree.cpp:40-76 | rebuilding the saved records (last to first, each node taking its children from the front of the parentless queue) gives back the same tree |
| Bfs.AssembleAll | src/tree.cpp:60-73 | the rebuild loop over the traversal's records ends with the root alone in the queue |
| Bfs.DecodeAllOk | src/tree.cpp:63-64 | records that each decode give exactly those nodes |
| Bfs.MarkUsed | src/tree.h:139-146 | `markOneVarUsed` over the visits never clears a flag and leaves alone every variable no visited internal node splits on |
| Bfs.MarkUsedSpec | src/tree.h:139-146 | the marking pass flags a variable exactly when it was flagged before or some visited internal node splits on it |
| Bfs.UsedIff | src/tree.cpp:284-292 | after the pass, a variable is flagged used exactly when some internal node of the tree splits on it |
| Grow.IsDisc | src/tree.cpp:169 | a variable is discrete exactly when its column holds level codes |
| Grow.RemoveOneVar | src/tree.h:44-55 | `removeOneVar` on a list holding the index once drops exactly that entry, keeping the rest in order |
| Grow.RemoveKeeps | src/tree.cpp:171 | removing the split variable from distinct in-range variables leaves distinct in-range variables, the same set less that one |
| Grow.KidVars | src/tree.cpp:169-184 | children of a discrete split lose the split variable; children of a numeric split keep every variable |
| Grow.CreateLeafNode | src/tree.h:197-217 | a pure leaf has the first observation's label and all observations in that label's count; otherwise the label counts of the node with the first largest count as label |
| Grow.PureLeafIsMajority | src/tree.h:197-217 | on a node whose labels all agree, the pure and the counted leaf are the same |
| Grow.Credit | src/tree.h:226-233 | creating an internal node counts one more node and adds its gain ratio to its variable's total and no other; a missing ratio adds nothing (the source adds the NaN, see Left out) |
| Grow.CreateInternalNode | src/tree.h:219-235 | the internal node records the size, the variable, one child per part, the gain ratio and the split value |
| Grow.WithinNoRepeat | src/tree.cpp:169-184 | a tree that splits only on allowed variables, with a discrete one removed below its split, never splits twice on one discrete variable along a path |
| Grow.Select | src/tree.cpp:151-158 | the chosen variable is one of the node's variables, in range, carrying its evaluated candidate, which can be split on |
| Grow.GrowNode | src/tree.cpp:127-190 | `genC4p5Tree`: the subtree is well formed, splits only on available variables, is counted node by node and credits each variable with the gain ratios of its nodes; its root holds all `nobs` observations; a node whose labels agree is the pure leaf `createLeafNode(obs, nobs, true)` and an empty variable list the majority leaf `createLeafNode(obs, nobs, false)`, both keeping the seed; otherwise a failed selection is the majority leaf with the seed advanced by one, and a chosen split is the internal node `createInternalNode(nobs, result)` on that variable |
| Grow.SplitNode | src/tree.cpp:166-188 | a chosen split gives the internal node `createInternalNode` builds, over children grown with the promises above |
| Grow.Leaf | src/tree.cpp:142-164 | a leaf keeps the seed and counts one node |
| Grow.InternalGrown | src/tree.cpp:166-188 | an internal node over grown children, with its variable credited, is itself grown |
| Grow.GrowKids | src/tree.cpp:172-184 | the loop over the parts grows one child per part, in order, threading the counters: child `j` holds the observations of part `j`, and an empty level of a discrete split is the leaf of the parent's counts with size 0 |
| Grow.GrowChild | src/tree.cpp:173-178 | the child holds the part's observations; an empty discrete level is `createLeafNode(obs, 0, false)`, the leaf of the parent's counts with size 0, and keeps the seed; any other part is grown recursively |
| Grow.GenBaggingSets | src/tree.cpp:78-106 | the bag holds `nobs` draws in range, draw `j` from stream output `j`; the out-of-bag set is exactly the rows never drawn, ascending |
| Grow.OobFrom | src/tree.cpp:100-102 | the collection loop keeps exactly the undrawn rows from `ind` on, ascending |
| Grow.FeatureVars | src/meta_data.cpp:66-70 | the feature variables are 0..n-1 in order |
| Grow.BuildTree | src/tree.cpp:108-125 | `build`: the grown tree is well formed, its node count is its size, each variable's IGR total is the sum of its nodes' gain ratios, no path reuses a discrete variable, and the out-of-bag set is the rows the seed's bag never drew |
| Predict.DataValue | src/dataset.h:203-207 | a dataset value is present exactly for an existing column and row, and is that cell (a level code read as a double) |
| Predict.GetDataValue | src/tree.h:57-64 | the permuted copy answers for the permuted variable; the dataset answers for every other variable and whenever none is permuted |
| Predict.Route | src/tree.h:76-93 | a discrete node sends a value to child code minus one; a numeric node to child 0 exactly when the value is at most the split value, else child 1 |
| Predict.PredictNode | src/tree.h:66-97 | `predictNode` ends at a leaf of the tree (a leaf root answers itself); a missing value or a child out of range is reported |
| Predict.PredictLabel | src/tree.h:237-243 | the predicted label is the label of the leaf reached, and fails exactly when the descent does |
| Predict.UnusedPermIgnored | src/tree.h:57-97 | permuting a variable no node splits on changes no prediction |
| Predict.ReloadPredictsAlike | src/tree.cpp:40-76 | a saved and reloaded tree routes every observation to the same leaf |
| Oob.Swap | src/tree.cpp:234 | `swap` exchanges two entries and keeps the rest |
| Oob.ShuffleDown | src/tree.cpp:229-236 | the shuffle loop from `i` down permutes the values and leaves the entries above `i` alone |
| Oob.Shuffle | src/tree.cpp:227-236 | the shuffle is a permutation of the column |
| Oob.ShuffleLast | src/tree.cpp:229-234 | the first swap puts the value at the first draw's position in the last slot |
| Oob.ColumnData | src/tree.cpp:192-204 | `copyPermData` copies every value of the column as a double |
| Oob.Permute | src/tree.cpp:206-237 | `permute` marks the variable as permuted and holds a rearrangement of exactly its column's values |
| Oob.OobPredict | src/tree.cpp:260-265 | the out-of-bag predictions, one per out-of-bag row in order; the pass fails exactly when some prediction does |
| Oob.Actual | src/tree.cpp:263 | the actual labels of the out-of-bag rows, 0-based and in range |
| Oob.MissedNone | src/tree.cpp:268-271 | no row is missed exactly when every prediction is right |
| Oob.MissedWithin | src/tree.cpp:268-271 | a label is missed at most as often as it occurs |
| Oob.CountErrors | src/tree.cpp:254-272 | the counting loop: the error count is the number of missed rows, each label's count is its occurrences, its error count its misses, and the label errors add up to the total |
| Oob.Minus | src/tree.cpp:315-319 | an increase is NA exactly when either rate is, and adds back to the new rate |
| Oob.RatesAreFractions | src/tree.cpp:274-277 | the overall and every label's out-of-bag error rate lie between 0 and 1 when defined |
| Oob.CalcOobMeasures | src/tree.cpp:247-326 | `calcOOBMeasures`: fails exactly when a prediction fails; otherwise the predictions, the overall error rate, the per-label rates, and with importance one column per variable, 0 for unused variables and the rate increases after permuting for used ones |
| Oob.PermImportance | src/tree.cpp:281-325 | the importance loop fails exactly when a used variable's permuted prediction fails, and otherwise yields every variable's column |
| Oob.ImportanceColumn | src/tree.cpp:299-320 | one variable's column: unused variables keep 0; a used one is permuted and its per-label and overall increases recorded |
| Oob.OobPredictAlike | src/tree.cpp:260-265 | two permutation states that agree on every out-of-bag row's prediction give the same out-of-bag pass |
| Oob.UnusedPermChangesNothing | src/tree.cpp:299-302 | permuting an unused variable leaves every out-of-bag prediction unchanged, which is why only used variables are assessed |
| Forest.Log2Floor | src/rforest.cpp:38 | `floor(log2 n)`: the exponent of the largest power of two not above `n` |
| Forest.Log2Unique | src/rforest.cpp:38 | that exponent is the only one bracketing `n` between two powers of two |
| Forest.DefaultMtry | src/rforest.cpp:38 | an `mtry` of -1 becomes `log2(nvars) + 1` truncated; any other value is kept |
| Forest.CoresMinusTwo | src/rforest.cpp:144 | `hardware_concurrency() - 2` in unsigned arithmetic read back as an `int`: the difference for two or more cores, negative below two |
| Forest.ThreadCount | src/rforest.cpp:144-153 | a non-negative `parallel` is kept; otherwise the cores less two when that is above one, and 10 else |
| Forest.BuildOneTree | src/rforest.cpp:104-118 | one slot: the tree grown from its seed and its measures on its own out-of-bag set |
| Forest.GrowAllAt | src/rforest.cpp:104-127 | entry `i` of the trees grown from the seeds is the tree grown from seed `i` |
| Forest.BuildForestSeq | src/rforest.cpp:120-127 | the sequential build fills slot `i` with the tree from seed `i` and its out-of-bag measures |
| Forest.SlotOob | src/tree.cpp:78-106 | every slot's out-of-bag set is, in ascending order, the rows its own seed's bag never drew |
| Vote.TypeConstantsAreBits | src/utility.h:62-74 | each prediction-type flag is the single bit at its index, so the flags select independent outputs |
| Vote.Leaves | src/rforest.cpp:261-262 | the leaves the observation reaches, one per tree in tree order; it fails exactly when some tree's descent fails or reaches a leaf that does not fit the labels |
| Vote.Votes | src/rforest.cpp:264 | the vote counts: entry `l` is how many trees predict label `l`, and the counts add up to the number of trees |
| Vote.Class | src/rforest.cpp:284-290 | the predicted class, 1-based, has the most votes and is the first label that does |
| Vote.Prob | src/rforest.cpp:264-295 | each probability times the number of trees is that label's vote count; undefined with no trees |
| Vote.ProbSumsToOne | src/rforest.cpp:292-295 | with at least one tree the probabilities add up to 1 |
| Vote.Aprob | src/rforest.cpp:268-272 | defined exactly when there is a tree and every leaf has a distribution; entry `l` times the number of trees is the sum over the trees of `dstr[l]` |
| Vote.Weighted | src/rforest.cpp:274-280 | the weighted sum of the leaf distributions is defined exactly when every leaf's is, and entry `l` is the sum over the trees of `w_i * dstr_i[l]`, next to the sum of the weights |
| Vote.AprobSumsToOne | src/rforest.cpp:297-300 | when every leaf's distribution is a distribution, their average adds up to 1 |
| Vote.Accuracies | src/rforest.cpp:276 | each tree's accuracy is one less its out-of-bag error rate, defined exactly when every rate is |
| Vote.Waprob | src/rforest.cpp:274-305 | defined exactly when every rate and leaf distribution is and the accuracies do not add up to 0; entry `l` times the summed accuracy is the sum over the trees of `(1 - rate_i) * dstr_i[l]` |
| Vote.WaprobSumsToOne | src/rforest.cpp:302-305 | dividing by the summed accuracy makes the weighted distributions add up to 1 |
| Vote.ObsPredict | src/rforest.cpp:254-306 | one observation's predictions fail exactly when collecting its leaves does |
| Vote.ObsVotes | src/rforest.cpp:261-295 | an observation's votes count the labels of its leaves, add up to the number of trees, and give its class and probabilities |
| Vote.Assemble | src/rforest.cpp:222-321 | an output is present exactly when its bit is set in the type, with one row per observation; the votes gathered only for the class are dropped |
| Vote.ObsRows | src/rforest.cpp:254-312 | one prediction row per observation, in order; the prediction fails exactly when some observation's does |
| Vote.PredictForest | src/rforest.cpp:214-324 | `predict` succeeds exactly when every observation's row does, and then assembles the requested outputs |
| Vote.ForestOutputs | src/rforest.cpp:214-324 | the outputs present are exactly those the type asks for, each with one row per observation equal to that observation's prediction |
| Vote.ClassHasMostVotes | src/rforest.cpp:284-290 | every predicted class is a label in range with the most votes among the trees' votes |
| Stats.HitsCount | src/rforest.cpp:338 | an observation's out-of-bag hits in one tree are its occurrences in that tree's out-of-bag set |
| Stats.AddEntries | src/rforest.cpp:334-339 | adding one tree's out-of-bag entries raises each frequency by that tree's (row, predicted label) pairs and each count by the row's hits, keeping every row's frequencies adding up to its count |
| Stats.Collect | src/rforest.cpp:329-339 | the frequency matrix holds, per row and label, how many trees out of bag on the row predicted that label; the count how many trees had the row out of bag; frequencies are non-negative and add up to the count |
| Stats.SumVis | src/rforest.cpp:342-344 | the information gain ratio importances summed over the trees, per variable |
| Stats.IgrVis | src/rforest.cpp:347-348 | the forest's information gain ratio importance is the per-tree importances averaged over the trees; undefined with no trees |
| Stats.MaxOther | src/rforest.cpp:379-386 | the label other than the actual one with the most votes, the first such on ties; -1 exactly when there is only one label |
| Stats.Margin | src/rforest.cpp:387 | the margin times the row's count is the actual label's votes less the strongest other label's; undefined with one label |
| Stats.MarginBounds | src/rforest.cpp:387 | a margin lies between -1 and 1 |
| Stats.MarginSign | src/rforest.cpp:364-387 | a positive margin means the vote picks the actual label, and when the vote picks it the margin is not negative |
| Stats.VisitOf | src/rforest.cpp:360-387 | a row is visited exactly when some tree had it out of bag; then its prediction is the first most-voted label and its margin is as above |
| Stats.Visits | src/rforest.cpp:359-391 | the visit of every row, in row order |
| Stats.VisitsAreFor | src/rforest.cpp:359-391 | those visits satisfy the per-row description every summary relies on |
| Stats.Counted | src/rforest.cpp:361-389 | one visit adds one to the out-of-bag total, one to the error total when the prediction is wrong, one to its (predicted, actual) cell and actual-label total, and its margin and squared margin to the sums |
| Stats.CountedOk | src/rforest.cpp:369-376 | a visit keeps the matrix square, adds one to the label totals, keeps each column adding up to its label total, and raises the diagonal exactly when the prediction is right |
| Stats.Tally | src/rforest.cpp:359-391 | the counting loop: out-of-bag and error totals, cells and label totals count the visits; columns add up to the totals; diagonal plus errors equals the out-of-bag total; margin sums are defined unless there is one label and some visit |
| Stats.AllAgree | src/rforest.cpp:359-376 | the tallies equal an independent count over the predicted labels: visited rows, wrong ones, each (predicted, actual) pair and each actual label |
| Stats.CellWithin | src/rforest.cpp:370-376 | no confusion cell exceeds its actual label's total |
| Stats.MisvotedWithin | src/rforest.cpp:370-375 | the wrong predictions never outnumber the visited rows |
| Stats.MarginsAgree | src/rforest.cpp:387-388 | the tallied margin sum is the sum of every visited row's margin |
| Stats.SquaresAgree | src/rforest.cpp:389 | the tallied squared-margin sum is the sum of every visited row's squared margin |
| Stats.ClassError | src/rforest.cpp:393-394 | a label's class error times its total is its misclassified rows, between 0 and 1; undefined for a label never seen |
| Stats.ClassErrors | src/rforest.cpp:393-394 | one class error per label, from its diagonal cell and its total |
| Stats.Mean | src/rforest.cpp:397-398 | the mean times the number of visited rows is the sum; undefined with no visited row |
| Stats.MeanWithin | src/rforest.cpp:398 | a mean of margins lies between -1 and 1 |
| Stats.MeanUnit | src/rforest.cpp:397 | a mean of squared margins lies between 0 and 1 |
| Stats.RateUnit | src/rforest.cpp:396 | an error rate lies between 0 and 1 |
| Stats.Confusion | src/rforest.cpp:351-399 | the confusion matrix counts each (predicted, actual) pair; each class error comes from its label's diagonal and total; the error rate is wrong over visited rows, within 0 and 1; strength and the mean squared margin are means of the margins |
| Stats.MaxJs | src/rforest.cpp:379-386 | the per-row strongest other label, -1 for a row never out of bag or with only one label |
| Stats.Summarise | src/rforest.cpp:351-399 | the out-of-bag predicted label per row (NA for rows never out of bag), the strongest other labels, and the confusion measures, over the collected frequencies |
| Stats.EvalMeasures | package/src/rforest.h:137-151 | `calcEvalMeasures`: the frequencies and counts collected over every tree's out-of-bag set, then summarised |

## Left out

- The threaded build (`buildForestAsync`, `buildOneTreeAsync`) is not modelled, since threads only change the order in which slots are filled. The sequential build is modelled, and the thread count is kept as `Forest.ThreadCount`.
- User interrupts and the `interrupt_exception` they raise are not modelled: they abort a build and produce no result.
- The R glue (src/wsrf.cpp, src/wsrf_init.cpp, the `Rcpp::List` conversions, `saveModel`, `saveMeasures`) is not modelled. Trees cross that boundary as record sequences, which `Bfs` models.
- Printing (`printTree`, `printNodeInfo`, `getLabelDstrStr`) is not modelled; it is output only.
- The forest constructor that merges or splits saved forests is not modelled: it only reloads trees, which `Bfs.Rebuild` covers.
- The correlation and `c_s2` (`calcRFCorrelationAndCS2`) and the forest-level mean and deviation of permutation importance (`assessPermVariableImportance`) are not modelled. They are floating-point summaries of quantities `Stats` and `Oob` already give.
- Floating-point logarithms, square roots and rounding are not modelled:
  - the entropy table is a caller-supplied `nlogn` function;
  - the IGR weights are a caller-supplied positive `Weigh` function in place of square roots scaled to RAND_MAX;
  - reals are exact.
- Forest.DefaultMtry: computes `floor(log2 nvars) + 1` exactly, where the source takes `log(nvars) / LN_2 + 1` in doubles, which can round differently at exact powers of two.
- Data.NewDataset: the `n log2 n` table is filled from a parameter, so its values are abstract.
- Igr.Subspace: draws with the corrected `Weighted.WeightedSample` (see Findings), where `getSelectedIdx` calls the sampler as written. Where the source's descent repeats index 0, the model draws distinct indexes. Its weights also come from `Weigh`, so the draw matches the source only up to how the real weights are scaled to integers.
- Igr.SelectedIdx: built on `Igr.Subspace`, so on the inputs where the source's sampler repeats index 0 its subspace, and the variable it picks, can differ from the source's.
- Grow.Credit: a missing (NA) gain ratio adds nothing to its variable's total. The source guards with `gain_ratio_ != NA_REAL`, which is always true because NA_REAL is a NaN. So the source adds the NaN and that variable's IGR total becomes NA. The model follows the guard's evident intent. `Grow.GrowNode`, `Grow.BuildTree` and `Stats.IgrVis` inherit this in their IGR totals. A ratio is missing only when the fallback variable's split information is at most 0 (src/c4_5_var_selector.cpp:231 and :329), which the real `n log2 n` table does not produce for a variable that yields a split, but the model's abstract table can.
- Weighted.Normalize: takes the weights as integers. The source also rescales real weights to `int(w / sum * RAND_MAX)`; that scaling is not modelled, and the IGR weights enter through `Weigh` instead.
- The random engine is modelled as a stream of raw draws, and a uniform draw below `b` is `draw mod b`. Any in-range value can arise, but the distribution of `std::uniform_int_distribution` is not reproduced.
- Splits.SortByValue: a stable insertion sort stands in for `std::sort`, which need not be stable. The properties of the numeric scan are proved for every sorted order.
- Predict.PredictNode: totality on well-formed trees and data is not stated. Out-of-range children, unknown variables and missing values are reported as errors instead of being read out of bounds.
- Vote.Aprob: summing to 1 is stated separately by `Vote.AprobSumsToOne`, and only when every leaf's distribution is consistent.
- Vote.ObsPredict: states when an observation's prediction succeeds; its contents are stated by `Vote.ObsVotes`.
- Stats.Confusion: the source stores the class errors in an extra last row of the confusion matrix; the model returns them as a separate sequence.
- Stats.Margin: is `None` when there is a single label, where the source reads `numbers[-1]`.
- Stats.Summarise: out-of-bag predicted labels are 0-based, with `None` for the source's NA_INTEGER.
- A minimum node size of at least 1, and with weighting a subspace size of at least 1, are required. With smaller values the source reads index -1 or draws from an empty range.
- Bfs.Rebuild: pushes each node after popping its children; the source pushes first. The two agree whenever the queue holds enough nodes, and a short queue is reported as malformed.

## Findings

| source | as written | input that shows it | evidently intended | confidence | as-written member | corrected member |
|---|---|---|---|---|---|---|
| src/sampling.cpp:93-100 | the descent tests `rand_num > weights_[j]` and `rand_num > wst_[j]`, so a draw of 0 stops at slot 1 even after slot 1's weight was set to 0 by an earlier draw | weights 5, 5, 5, `nselect` 2, both draws 0: the result is index 0 twice | a draw stops only at a slot whose weight covers it, so sampling without replacement returns distinct indexes | not executed | Weighted.AsWrittenRepeatsIndexZero | Weighted.WeightedSample |
