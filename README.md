# Partial-result combiners and graph builders of `arl/graphs/delayed.py`

This project models the part of the Dask graph layer of ARL (the Algorithm
Reference Library for radio-interferometric imaging) that partitioned invert
and predict work runs once the partitions are done. It also models the shape
of the graphs the builders produce.

- **Combiners.** `sum_invert_results` accumulates `(image, sumwt)` pairs
  weighted by `sumwt`. It skips `None` entries, copies and scales the first
  contributor, adds the later ones scaled by their weights and sums the
  weights. `sum_predict_results` adds up the `vis` columns of the predicted
  visibilities that are not `None`.
- **Node bodies.** `zero`, `subtract_vis` and `weight_vis` are applied to each
  visibility. The two `add_model` helpers of the deconvolution graphs are
  modelled as well.
- **Gathers.** `gather_image_iteration_results` writes facet results into an
  empty image, and `gather_vis` writes slice predictions into row blocks.
  `gather_vis` skips `None` row blocks; in `gather_image_iteration_results`
  the first `None` result stops the counter, and every later patch keeps the
  empty image's zeros.
- **Builders.** `create_zero_vis_graph_list`, `create_subtract_vis_graph_list`,
  `create_weight_vis_graph_list`, `create_invert_graph`,
  `create_predict_graph` and `create_residual_graph` are modelled as pure
  functions. They return trees of `Node(op, args)`:
  - an operation tag stands for the delayed function and the parameters it
    closes over;
  - `Input(id)` stands for a node handed in by the caller.

The modelling choices are these:

- Images are `array2<real>` indexed by `[plane, pixel]`. A plane is one
  (channel, polarisation) pair and a pixel one (y, x) position.
- Weights are one `real` per plane.
- A visibility is its `vis` column, one `real` per row.
- The in-place numpy updates (`*=`, `+=`, `-=`, writing through a facet view or
  a row selection) are loops in `ArrayOps`. Their effect is stated against the
  arrays' old contents.
- The imperative combiners are proved against value-level reference sums in
  `Sums`:
  - `Combined(es, c)` is, for component `c` (the weight of plane p, or the
    pixel (p, j)), the sum over the non-`None` entries of their contribution;
  - `VisTotal` is the row-wise sum of predicted visibilities.
- On those sums the lemmas prove:
  - null and zero-weight entries are absorbed;
  - order does not matter;
  - combining normalised partials of a partition equals combining all
    entries.
- The graph lemmas count kernel calls in the node tree and compute the set of
  caller inputs each output depends on.

Modules and files:

| file | module | contents |
|---|---|---|
| `wrappers.dfy` | `Wrappers` | `Option`, `Result`, the error kinds, scans over option lists |
| `sums.dfy` | `Sums` | reference sums and their algebra |
| `data_model.dfy` | `DataModel` | `Image`, `Visibility`, `InvertResult`, value views, copies |
| `array_ops.dfy` | `ArrayOps` | the in-place array updates |
| `combiners.dfy` | `Combiners` | `sum_invert_results`, `sum_predict_results`, the null-slice invert result |
| `gathers.dfy` | `Gathers` | the two gather node bodies |
| `node_bodies.dfy` | `NodeBodies` | `zero`, `subtract_vis`, `weight_vis`, `add_model` |
| `graphs.dfy` | `Graphs` | nodes, builders, shape and count lemmas |

Where the code does something the documentation does not say, the model
follows the code. Three cases:

- In `gather_image_iteration_results`, a `None` result stops the counter, so
  every later patch keeps the empty image's zeros.
- The weight the invert gather returns is `results[0][1]`, whichever results
  were written.
- `create_subtract_vis_graph_list` indexes the model list by position, so a
  shorter model list is an index error.

## Model

| member | source | states |
|---|---|---|
| Sums.CombinedSnoc | arl/graphs/delayed.py:96-98 | one more entry adds its weighted pixels and its weight to the accumulated components |
| Sums.CombinedOfNulls | arl/graphs/delayed.py:85-86 | a list holding only None entries accumulates zero in every component |
| Sums.NullEntryAbsorbed | arl/graphs/delayed.py:86 | a None entry anywhere in the list changes no pixel and no weight of the result |
| Sums.ZeroWeightEntryAbsorbed | arl/graphs/delayed.py:229-230 | an entry whose weights are all zero, as invert_ignore_none returns for a null slice, changes nothing in the sum |
| Sums.OrderInsensitive | arl/graphs/delayed.py:85-98 | any permutation of the entries gives the same weight sums and accumulator |
| Sums.NestedCombination | arl/graphs/delayed.py:241-256 | combining one partial per group whose contribution equals its group's combination gives the combination of all entries |
| Sums.PartitionedCombination | arl/graphs/delayed.py:102-103 | combining the weight-normalised partials of the groups of a partition, each with a nonzero weight, gives the weight sum and accumulator of the whole list |
| Sums.VisTotalSnoc | arl/graphs/delayed.py:117-118 | one more predicted visibility adds its value at each row to the row sum, None adding nothing |
| Sums.PredictOrderInsensitive | arl/graphs/delayed.py:112-118 | the summed prediction does not depend on the order of the results |
| Sums.PredictSplit | arl/graphs/delayed.py:316-318 | summing two batches of predictions and adding the sums gives the sum over both batches |
| DataModel.CopyImage | arl/graphs/delayed.py:92 | copy_image gives fresh data of the same shape and contents |
| DataModel.EmptyImageLike | arl/graphs/delayed.py:217 | create_empty_image_like gives fresh data of the template's shape, all zeros |
| DataModel.CopyVisibility | arl/graphs/delayed.py:116 | copy_visibility gives a fresh vis column with the same contents |
| ArrayOps.ScaleRows | arl/graphs/delayed.py:88-93 | `im.data *= scale`: pixel (p, j) becomes w[p] times its old value |
| ArrayOps.AddScaledRows | arl/graphs/delayed.py:97 | `im.data += scale * arg[0].data`: pixel (p, j) gains w[p] times the entry's pixel |
| ArrayOps.AddInto | arl/graphs/delayed.py:98 | `sumwt += arg[1]` and `vis += result.vis`, element-wise, aliasing allowed |
| ArrayOps.SubtractInto | arl/graphs/delayed.py:153 | `subvis.vis -= model_vis.vis`, element-wise |
| ArrayOps.Fill | arl/graphs/delayed.py:133 | `zerovis.vis[...] = 0.0`: every value is 0 |
| ArrayOps.WritePatch | arl/graphs/delayed.py:221 | writing a facet view sets pixel patch[q] of every plane to the result's pixel q and leaves the pixels outside the patch unchanged |
| ArrayOps.WriteRows | arl/graphs/delayed.py:288 | writing a row selection sets row rows[q] to the result's value q and leaves other rows unchanged |
| ArrayOps.AddRows | arl/graphs/delayed.py:382 | `sum_model.data += model.data`, the same image allowed on both sides |
| Combiners.StartAccumulator | arl/graphs/delayed.py:91-95 | the first contributor's scaled copy is the accumulator of the entries so far, and its weights are their weight sum |
| Combiners.AccumulateEntry | arl/graphs/delayed.py:96-98 | adding a later contributor keeps the accumulator and the weight sum equal to the reference sums of the entries so far |
| Combiners.NullStep | arl/graphs/delayed.py:86 | a None entry keeps the accumulator and the weight sum |
| Combiners.AccumulateFrom | arl/graphs/delayed.py:85-98 | the loop after the first contributor succeeds exactly when every later entry has the accumulator's shape, and then holds the reference sums of the whole list |
| Combiners.FirstResult | arl/graphs/delayed.py:85-91 | the `first` scan stops at the first non-None entry, or at the end |
| Combiners.SumInvertResults | arl/graphs/delayed.py:76-103 | error "No invert results" exactly for an empty or all-None list, shape error exactly when some entry differs from the first contributor; otherwise fresh arrays of that shape holding Σ w_i·image_i and Σ w_i over the non-None entries, with no input changed |
| Combiners.SumInvertResultsAsWritten | arl/graphs/delayed.py:94-98 | as written: the same errors and sums, but the returned weights are the first contributor's own array, which now holds the total, while every other input's weights stay unchanged |
| Combiners.WeightAliasingWitness | arl/graphs/delayed.py:94-98 | for two one-pixel results with weights 1 and 2, the first input's weight array holds 1 before and 3 after the call |
| Combiners.EmptyInvertResult | arl/graphs/delayed.py:229-230 | the null-slice invert result is an all-zero image of the model's shape with all-zero per-plane weights |
| Combiners.SumPredictResults | arl/graphs/delayed.py:106-120 | None exactly when every entry is None; a shape error exactly when two vis columns differ in length; otherwise a fresh copy whose vis at each row is the sum over the non-None entries, with no input changed |
| Gathers.GatherImageIterationResults | arl/graphs/delayed.py:216-223 | the error raised is exactly the first fault the loop meets (shape, index past the results, None first result); otherwise the result is fresh data of the template's shape. Patch k below the written count holds result k. Pixels in no written patch are 0. The weights are `results[0]`'s array |
| Gathers.LaterPatchesUncovered | arl/graphs/delayed.py:219-222 | after the first None result the later patches are covered by no written patch, so they keep the empty image's zeros |
| Gathers.GatherVis | arl/graphs/delayed.py:284-291 | the error is the first faulting block's (index past the results, None result, rows of the wrong length); otherwise vis itself is returned, block k holding result Rank(k) (the count of non-None blocks before it), and rows outside every block unchanged |
| Gathers.RankStep | arl/graphs/delayed.py:287-290 | the counter advances past block k exactly when the block is not None |
| Gathers.MoreBlocksThanResults | arl/graphs/delayed.py:284-291 | with more non-None blocks than results, some block faults with the index error |
| NodeBodies.ZeroVis | arl/graphs/delayed.py:130-136 | None exactly for None; otherwise a fresh copy of the same length holding only zeros |
| NodeBodies.SubtractVis | arl/graphs/delayed.py:149-156 | a shape error exactly when both are present with different lengths; None exactly when either is None; otherwise a fresh copy holding vis[k] − model_vis[k] |
| NodeBodies.WeightVis | arl/graphs/delayed.py:173-181 | the weighting is applied exactly when both the visibility and the model are present, and None results otherwise |
| NodeBodies.AddModel | arl/graphs/delayed.py:379-383 | an error exactly when an argument is not an image (NotAnImage) or the shapes differ (ShapeMismatch); otherwise sum_model itself is returned, holding old sum_model + old model |
| NodeBodies.AddModelChannelAsWritten | arl/graphs/delayed.py:412-416 | as written: NotAnImage whenever the closure variable output is a delayed node; otherwise as AddModel |
| NodeBodies.ChannelAddModelFails | arl/graphs/delayed.py:412-418 | with output bound to the delayed create_empty_image_like node, add_model fails for every pair of arguments |
| Graphs.ZeroVisListShape | arl/graphs/delayed.py:138 | one zero node per input, output i depending on input i only |
| Graphs.SubtractVisListShape | arl/graphs/delayed.py:158-160 | an index error exactly when the model list is shorter; otherwise one node per input, output i depending on visibility i and model visibility i only |
| Graphs.WeightVisListShape | arl/graphs/delayed.py:183-184 | one node per input, output i depending on input i and the shared model only |
| Graphs.ScatterItem | arl/graphs/delayed.py:233-238 | an item of a scattered node holds the kernel calls of the scattered input and depends on what that input depends on |
| Graphs.InvertCallFacts | arl/graphs/delayed.py:245 | one invert_ignore_none call on a slice item and a facet item, depending on the visibility and the template |
| Graphs.FacetSumFacts | arl/graphs/delayed.py:242-246 | the inner-'vis' sum for one facet holds vis_slices invert calls |
| Graphs.FacetSumAnchors | arl/graphs/delayed.py:242-246 | the inner-'vis' sum for one facet depends on the visibility and the template, or on nothing without slices |
| Graphs.SliceGatherFacts | arl/graphs/delayed.py:250-255 | the inner-'image' gather for one slice holds facets² invert calls |
| Graphs.SliceGatherAnchors | arl/graphs/delayed.py:250-255 | the inner-'image' gather for one slice depends on the template, and on the visibility when there is a facet |
| Graphs.InvertGraphCalls | arl/graphs/delayed.py:236-258 | whichever loop is inner, the graph for one visibility holds facets² × vis_slices invert calls, and no call of another kernel |
| Graphs.InvertGraphAnchors | arl/graphs/delayed.py:236-258 | the graph for one visibility depends on that visibility and the template only, and on both when there is a facet and a slice |
| Graphs.InvertGraphShape | arl/graphs/delayed.py:187-258 | create_invert_graph gives one graph per visibility graph, each with facets² × vis_slices invert calls and depending on its own visibility and the template only |
| Graphs.PredictCallFacts | arl/graphs/delayed.py:314-315 | one predict_ignore_none call on a slice item and a facet item, depending on the visibility and the model |
| Graphs.FacetPredictCalls | arl/graphs/delayed.py:311-316 | the prediction summed for one facet holds vis_slices predict calls |
| Graphs.FacetPredictAnchors | arl/graphs/delayed.py:311-316 | the prediction summed for one facet depends on the visibility and the model, or on nothing without slices |
| Graphs.PredictGraphCalls | arl/graphs/delayed.py:303-319 | the graph for one visibility holds facets² × vis_slices predict calls, ends in gather_vis and passes it facets² sums |
| Graphs.PredictGraphAnchors | arl/graphs/delayed.py:303-319 | the graph for one visibility depends on that visibility, and on the model exactly when there is a facet and a slice |
| Graphs.PredictGraphShape | arl/graphs/delayed.py:261-319 | create_predict_graph gives one graph per visibility graph with facets² × vis_slices predict calls and no invert call, depending on its own visibility and the model only |
| Graphs.ResidualGraphShape | arl/graphs/delayed.py:322-337 | create_residual_graph always builds (the predicted list is as long as the visibility list) one graph per visibility, each with facets² × vis_slices invert calls and depending on its own visibility and the model only |

## Left out

- `compute_list` (arl/graphs/delayed.py:57-73) is left out: it drives a distributed Dask client, futures and worker checks, which is concurrency and cluster I/O.
- Dask's `delayed` semantics are left out: lazy scheduling, `nout`, `pure` and memoisation keys. A node is a plain value. Kernel counts are occurrences in the node tree; a node reached along two paths is counted once per path. In every proved count the inputs hold no call of the kernel being counted (ResidualGraphShape proves the residual nodes hold no invert call), so the proved counts are unaffected; predict calls inside a residual graph are not counted.
- The external kernels are each a parameter or an opaque node tag: `invert_context`, `predict_context`, `weight_visibility`, `coalesce_visibility`, `create_visibility_from_rows`, `deconvolve_cube`, and the image and visibility iterators. Facet patches and row blocks are parameters of the gathers. Their disjointness (`Tiling`, `Blocks`) is required because the raster and slice iterators provide it.
- `normalize_sumwt` (arl/graphs/delayed.py:102) is outside this model. SumInvertResults returns the accumulator and the weight sum. `DivideByWeight` only appears in `Sums.PartitionedCombination`, as the intended normalisation.
- The imaging-context table and its keyword arguments are not part of this model: `inner` is the parameter `innerVis`. `create_residual_graph` forwards `**kwargs`, so the model uses one facets / vis_slices setting for both the predict and the invert stage.
- `create_selfcal_graph_list` and `create_calibrate_graph_list` (arl/graphs/delayed.py:426-478) are left out: they only compose foreign solver and apply calls.
- `create_deconvolve_graph` and the deconvolution graph builders are left out, except their `add_model` bodies: they compose `deconvolve_cube` and the facet and channel iterators.
- Floating point and complex values are left out. Pixels, weights and visibilities are exact reals, so order independence holds here, though not bit-for-bit in numpy.
- numpy broadcasting is left out. A shape difference is a `ShapeMismatch` error, including shapes numpy would broadcast. A scalar `sumwt` is a per-plane array with equal entries.
- The chained write `vis.data['vis'][rows][...] = ...` (arl/graphs/delayed.py:288) is modelled as the intended write of the result into the row block. Whether numpy writes through that copy is not modelled.
- Combiners.SumInvertResults: the source's single loop with its `first` flag is modelled as a scan to the first non-None entry (`FirstResult`) followed by a loop over the rest (`AccumulateFrom`). The steps and their order are the same.
- Combiners.SumInvertResults copies the first contributor's weights, the evidently intended behaviour (see Findings). SumInvertResultsAsWritten requires the weight arrays of distinct entries to be distinct objects. The source does not ask for that; with shared arrays its result depends on the aliasing.
- Combiners.SumPredictResults reports vis columns of different lengths as an error. numpy would raise on them unless they broadcast.
- NodeBodies.WeightVis: the weighting kernel is a function parameter, so the contract only describes the None handling around it.

## Findings

| source | as written | input that shows it | evidently intended | confidence | as-written member | corrected member |
|---|---|---|---|---|---|---|
| arl/graphs/delayed.py:94-98 | `sumwt = arg[1]` keeps a reference to the first contributor's weight array, and `sumwt += arg[1]` then adds every later weight into that input array in place | two results with weight arrays [1] and [2]: after the call the first input's weights hold [3] | the weight sum is a fresh array and the inputs are left alone, as the image is (it is copied at line 92) | not executed | Combiners.WeightAliasingWitness | Combiners.SumInvertResults |
| arl/graphs/delayed.py:412-418 | the channel graph's `add_model` asserts `isinstance(output, Image)`, where `output` is the delayed `create_empty_image_like` node bound at line 418, never an image | any sum_model and model, for example two images of equal shape | the check is on `sum_model`, as in the facet graph's add_model at line 380 | not executed | NodeBodies.ChannelAddModelFails | NodeBodies.AddModel |
