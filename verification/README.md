# A verified model of an MXNet checkout

This Dafny project models the parts of the repository where correctness is hardest to see from one function:
the parallel record writer, the ONNX graph importer with its tensor layout rewrites, padding arithmetic and
plugin serialisation, the resource manager, and four smaller algorithms (leapfrog sampling, weighted sample
averaging, include expansion, bucketed epochs). `dafny verify dfyconfig.toml` checks everything.

| file | what it models |
|---|---|
| `RecordPipeline.dfy` | `tools/im2rec.py`: feeder, readers and writer as a step relation over all interleavings, the writer's and the single-thread loops as methods |
| `Toposort.dfy`, `GraphImport.dfy` | `toposort.hpp` and `ModelImporter.cpp`: the three-colour search, and graph evaluation into a write-once environment |
| `RowMajor.dfy` | tensors of any rank as a shape and a flat row-major buffer; reshape and transpose |
| `TransposeCheck.dfy`, `SpaceDepth.dfy`, `LayoutMoves.dfy` | the layout rewrites of `builtin_op_importers.cpp` and `ShapedWeights.cpp` |
| `Padding.dfy` | SAME padding, the symmetric-padding test, and the AveragePool rewrite |
| `PluginSerialization.dfy` | the byte format of TensorRT plugins: writer, reader, size functions, type tag and factory |
| `Residues.dfy` | remainders of consecutive numbers, used by the pipeline and the resources |
| `Resources.dfy` | `src/resource.cc`: scratch allocators, the round-robin counter, sampler seeds |
| `Leapfrog.dfy`, `SampleAverage.dfy` | `example/bayesian-methods`: Hamiltonian Monte Carlo and weighted prediction, over the reals |
| `Amalgamation.dfy` | `amalgamation.py`: recursive include expansion |
| `BucketRows.dfy`, `BucketIter.dfy` | `sort_io.py`: bucketing, truncation and the epoch plan |
| `Basics.dfy` | shared definitions |

Where the code and its own words disagree, the model follows the code:

- `tools/im2rec.py` lines 243-246 say that several threads change the order of the list. The writer's reorder buffer
  keeps the list order, and `RecordIsAlwaysAPrefix` proves it for every interleaving. The single-thread branch hands a
  failed encoding to the record file, which raises, while the parallel writer skips the item. So the parallel file
  begins with the single-thread one, and `ParallelMatchesSingleThread` shows that the two are equal exactly when
  nothing after the first failure can be encoded; `BranchesDifferExample` is a job on which they differ.
- The comment above `is_transpose_required` (line 39 of `builtin_op_importers.cpp`) reads the other way round: the
  function answers true when no data moves. Its caller negates it, so its use is consistent.
- The comment at lines 114-118 of `onnx2trt_utils.cpp` intends to change the padding of the dimension just tested;
  line 132 indexes with the dilation instead. `LoopMeetsIntentIff` shows that the two agree exactly when every test that
  passes has a dilation equal to its own dimension's number, and
  `LoopMissesIntentExample` gives an input on which they do not. `PoolSamePadding` states what follows for AveragePool.
  SAME_LOWER layers with odd height padding are refused even where the height could have been converted. A SAME_UPPER
  layer loses a column exactly when the height test passes, the width padding is odd and the width test fails;
  `WidthLosesColumnExample` is such a layer.
- `get_shape_size` counts no elements for a shape without dimensions, so Unsqueeze refuses such a shape and Squeeze
  refuses to drop the last dimension, although the number of elements does not change.
- `find_source` depends on the stage for names of `.cc` files, so a file finished in one stage may include, in a later
  stage, a `.cc` file that is then never expanded. `CoverageIff` states, by a condition on the state before a stage,
  exactly when the stage covers all that its root reaches; `HeaderIncludesAreCovered` shows that it always does when
  only headers are included, and `StagedIncludeIsMissed` gives a tree of real names on which it does not.
- After the round-robin counter of `src/resource.cc` resets, one resource is passed over. `RoundVisitsAllIff` and
  `ResetSkipsResource` state exactly when a round of n requests still visits all n resources.

## Model

| member | source | states |
|---|---|---|
| `RecordPipeline.StepKeepsInv` | tools/im2rec.py:169-204 | every step of the feeder, a reader or the writer keeps the pipeline invariant: right payloads, sentinels last, each item in one place, readers joined before the writer's sentinel |
| `RecordPipeline.RecordIsAlwaysAPrefix` | tools/im2rec.py:177-204 | in every reachable state of every interleaving the record file holds exactly the encodable items among 0..count, each at its place among them, under its own key and with its own encoding |
| `RecordPipeline.ItemsAreConserved` | tools/im2rec.py:169-204 | in every reachable state a fed item is in exactly one of reader queue, reader, output queue, buffer or file, an unfed one in none, and no queue exceeds its capacity |
| `RecordPipeline.WriterStopsOnlyWhenComplete` | tools/im2rec.py:177-204 | when the writer stops, count is the list length, buffer and output queue are empty, and the file holds every encodable item of the list under its key, in order |
| `RecordPipeline.NeverStuck` | tools/im2rec.py:279-297 | for any reader count and any capacity of at least 1, some process can move until the main process is done |
| `RecordPipeline.MeasureFalls` | tools/im2rec.py:169-204 | a non-negative measure falls at every step |
| `RecordPipeline.RunIsBounded` | tools/im2rec.py:169-204 | no schedule has more steps than the measure of its first state |
| `RecordPipeline.MaximalRunsSucceed` | tools/im2rec.py:279-297 | a run that cannot be extended has ended with all processes finished and every encodable item written under its key, in order |
| `RecordPipeline.EveryRunCompletes` | tools/im2rec.py:279-297 | every partial run extends to a finished one within the bound |
| `RecordPipeline.WriteWorker` | tools/im2rec.py:177-204 | for parcels in any order, the nested loops write exactly the encodable items of the maximal prefix whose indices have all arrived, each under its key, in order |
| `RecordPipeline.AnyOrderIsComplete` | tools/im2rec.py:177-204 | any permutation of the whole list's parcels brings every index, so the writer writes everything |
| `RecordPipeline.SingleThread` | tools/im2rec.py:298-322 | raises exactly when some item cannot be encoded, having written the items before the first such, each under its key, in order |
| `RecordPipeline.WrittenHolds` | tools/im2rec.py:194-198 | the file of the first k items has as many records as items that can be encoded, and each such item stands at its rank under its key |
| `RecordPipeline.LanesRotate` | tools/im2rec.py:289-290 | as many items in a row as there are readers go to different readers |
| `RecordPipeline.ParallelMatchesSingleThread` | tools/im2rec.py:279-322 | every finished parallel run starts with what the single-thread branch writes, and equals it if and only if no item after the first failure can be encoded |
| `RecordPipeline.BranchesDifferExample` | tools/im2rec.py:279-322 | a job of two items, the first not encodable, and a finished parallel run that writes the second where the single thread writes nothing |
| `Toposort.BuildNodeMap` | 3rdparty/onnx-tensorrt/toposort.hpp:77-89 | succeeds exactly when output names are unique, and then maps each name to its producer |
| `Toposort.Search.GetPostOrder` | 3rdparty/onnx-tensorrt/toposort.hpp:38-71 | terminates; on success extends the order by the node and all it needs, keeping producers first; on failure the graph has a cycle |
| `Toposort.ActiveNodeClosesCycle` | 3rdparty/onnx-tensorrt/toposort.hpp:44-47 | meeting an active node means a cycle in the producer graph |
| `Toposort.OrderedMeansAcyclic` | 3rdparty/onnx-tensorrt/toposort.hpp:75-98 | a graph with a topological order has no cycle |
| `Toposort.Sort` | 3rdparty/onnx-tensorrt/toposort.hpp:75-98 | true exactly when output names are unique and there is no cycle; the order then lists every node once, producers before consumers |
| `GraphImport.InsertOutputs` | 3rdparty/onnx-tensorrt/ModelImporter.cpp:287-296 | binds the outputs a node produced and nothing else, or some output name was already bound |
| `GraphImport.EvaluateNode` | 3rdparty/onnx-tensorrt/ModelImporter.cpp:277-305 | reports a missing input exactly when an input is unbound; on success the importer of the operator was given the values of the inputs in the order listed, and each value it returned is bound to its output name; otherwise the node fails or a name clashes |
| `GraphImport.OutcomeLaw` | 3rdparty/onnx-tensorrt/ModelImporter.cpp:137-165 | a node can be imported if and only if its operator is registered and the importer returns, for the input values in listed order, at most the declared outputs with a first one that can be logged |
| `GraphImport.MeaningComputes` | 3rdparty/onnx-tensorrt/ModelImporter.cpp:277-296 | in the meaning of a graph every node has been computed from the values of its inputs in listed order |
| `GraphImport.TotalNextReads` | 3rdparty/onnx-tensorrt/ModelImporter.cpp:277-286 | with importers that produce every output and a closed graph, the next node in order finds all its inputs |
| `GraphImport.ImportNodes` | 3rdparty/onnx-tensorrt/ModelImporter.cpp:275-305 | succeeds exactly on graphs that have a meaning and returns that meaning; for total importers it succeeds if and only if the graph is sortable, closed and no output reuses an input name, and on closed graphs the missing-input check never fires; in the result every node has been computed from the values of its inputs in listed order |
| `GraphImport.MeaningIsClosed` | 3rdparty/onnx-tensorrt/ModelImporter.cpp:277-286 | in a graph that has a meaning every name a node reads is a graph input or an output of some node |
| `GraphImport.ImportBothListings` | 3rdparty/onnx-tensorrt/ModelImporter.cpp:275-305 | importing two listings of the same nodes gives the same environment or fails both times, and fails to sort both times or neither; no graph has two meanings |
| `GraphImport.MeaningIgnoresListingOrder` | 3rdparty/onnx-tensorrt/ModelImporter.cpp:275-305 | an environment is the meaning of a graph if and only if it is the meaning of every reordering of the node list |
| `GraphImport.IndexWeights` | 3rdparty/onnx-tensorrt/ModelImporter.cpp:94-107 | succeeds exactly when weight names are distinct, and then maps each name to its weights |
| `GraphImport.BindInputs` | 3rdparty/onnx-tensorrt/ModelImporter.cpp:108-133 | binds every graph input once to its source, or some input has no value or a taken name |
| `GraphImport.ImportInputs` | 3rdparty/onnx-tensorrt/ModelImporter.cpp:86-135 | succeeds exactly on acceptable inputs: one kind of weights, distinct names, every input with a value |
| `GraphImport.ImportModel` | 3rdparty/onnx-tensorrt/ModelImporter.cpp:261-306 | fails on the inputs exactly when they are unacceptable, otherwise returns the meaning of the graph over the bound inputs if it has one, with every node computed from the values of its inputs in listed order |
| `RowMajor.FlatIsInjective` | 3rdparty/onnx-tensorrt/builtin_op_importers.cpp:57-79 | different multi-indices have different positions in a row-major buffer of any rank |
| `RowMajor.TransposedAt` | 3rdparty/onnx-tensorrt/builtin_op_importers.cpp:57-79 | a transpose takes the element at x to the permuted multi-index |
| `RowMajor.TransposeCompose` | 3rdparty/onnx-tensorrt/builtin_op_importers.cpp:57-79 | two transposes are one transpose by the composed permutation, which is a permutation |
| `RowMajor.TransposeUndo` | 3rdparty/onnx-tensorrt/builtin_op_importers.cpp:57-79 | transposing by inverse permutations restores shape and buffer |
| `TransposeCheck.IsTransposeRequired` | 3rdparty/onnx-tensorrt/builtin_op_importers.cpp:40-54 | answers true exactly when dimensions other than 1 keep their relative order |
| `TransposeCheck.CheckIsExact` | 3rdparty/onnx-tensorrt/builtin_op_importers.cpp:40-54 | for any rank, permutation and dimensions, the transpose leaves every buffer unchanged if and only if the check answers true or the tensor has no elements |
| `TransposeCheck.KeptOrderKeepsBuffer` | 3rdparty/onnx-tensorrt/builtin_op_importers.cpp:73-76 | skipping the transpose when the check answers true changes no data |
| `TransposeCheck.InversionMovesAnElement` | 3rdparty/onnx-tensorrt/builtin_op_importers.cpp:44-52 | an inverted pair of significant dimensions displaces some element |
| `TransposeCheck.TransposeTensor` | 3rdparty/onnx-tensorrt/builtin_op_importers.cpp:57-79 | the resulting buffer is always the transposed one; the transpose would move nothing exactly when it is skipped or the tensor has no elements |
| `SpaceDepth.PermsAreInverse` | 3rdparty/onnx-tensorrt/builtin_op_importers.cpp:686-723 | for any number of spatial dimensions the permutations of the two importers are inverse to each other |
| `SpaceDepth.BlockShape` | 3rdparty/onnx-tensorrt/builtin_op_importers.cpp:693-703 | the iterated divisibility checks pass exactly when blocksize^k divides the channel count |
| `SpaceDepth.DepthToSpace` | 3rdparty/onnx-tensorrt/builtin_op_importers.cpp:686-723 | fails exactly when blocksize^k does not divide the channels, else sets the reshape-transpose-reshape of the specification |
| `SpaceDepth.SpaceToDepth` | 3rdparty/onnx-tensorrt/builtin_op_importers.cpp:1470-1508 | fails exactly when some spatial dimension is not divisible, else sets the inverse plan |
| `SpaceDepth.DepthPlanFits` | 3rdparty/onnx-tensorrt/builtin_op_importers.cpp:686-723 | both reshapes of the plan keep the number of elements and the transpose is a permutation |
| `SpaceDepth.SpacePlanFits` | 3rdparty/onnx-tensorrt/builtin_op_importers.cpp:1470-1508 | the same for SpaceToDepth |
| `SpaceDepth.DepthPlacement` | 3rdparty/onnx-tensorrt/builtin_op_importers.cpp:686-723 | output element (i, x*b+s) is input element (channel s,i; x), at any rank |
| `SpaceDepth.ChannelInTwoDimensions` | 3rdparty/onnx-tensorrt/builtin_op_importers.cpp:686-723 | in two dimensions that channel is (s0*b+s1)*c+i, as in the DepthToSpace section of the ONNX Operators specification |
| `SpaceDepth.SpaceUndoesDepth` | 3rdparty/onnx-tensorrt/builtin_op_importers.cpp:1470-1508 | SpaceToDepth after DepthToSpace is the identity on shape and buffer |
| `SpaceDepth.DepthUndoesSpace` | 3rdparty/onnx-tensorrt/builtin_op_importers.cpp:686-723 | DepthToSpace after SpaceToDepth is the identity on shape and buffer |
| `SpaceDepth.DepthOutputIsDivisible` | 3rdparty/onnx-tensorrt/builtin_op_importers.cpp:1470-1508 | what DepthToSpace produces is never refused by SpaceToDepth |
| `SpaceDepth.SpaceOutputIsDivisible` | 3rdparty/onnx-tensorrt/builtin_op_importers.cpp:686-723 | what SpaceToDepth produces is never refused by DepthToSpace |
| `LayoutMoves.MoveDimension` | 3rdparty/onnx-tensorrt/builtin_op_importers.cpp:82-98 | refuses exactly the dimensions out of range, else the erase-and-insert permutation has `from` at position `to` and all other dimensions in increasing order |
| `LayoutMoves.MoveBackRestores` | 3rdparty/onnx-tensorrt/builtin_op_importers.cpp:82-98 | moving a dimension there and back is the identity permutation and restores every tensor |
| `LayoutMoves.Unsqueeze` | 3rdparty/onnx-tensorrt/builtin_op_importers.cpp:1678-1708 | whatever the axes, fails exactly for the batch axis, too many dimensions or a changed size; when the axes fit, fails exactly for the batch axis, too many dimensions or a shape without dimensions, and gives ones at the axes and the old dimensions elsewhere in order |
| `LayoutMoves.InsertOnes` | 3rdparty/onnx-tensorrt/builtin_op_importers.cpp:1696-1702 | the filling loop stays inside the fixed arrays for any axes; when the axes fit it reads exactly the old dimensions |
| `LayoutMoves.Squeeze` | 3rdparty/onnx-tensorrt/builtin_op_importers.cpp:1561-1590 | whatever the axes, fails exactly for the batch axis, a dimension other than 1 or a changed size; when the axes fit, the size assertion fails exactly when the last dimension would go |
| `LayoutMoves.SqueezeKeepsSize` | 3rdparty/onnx-tensorrt/builtin_op_importers.cpp:1589-1590 | for axes that fit, squeezing keeps get_shape_size exactly when a dimension is left or there was none |
| `LayoutMoves.SqueezeUndoesUnsqueeze` | 3rdparty/onnx-tensorrt/builtin_op_importers.cpp:1561-1585 | for any axes at all, Squeeze gives back every shape that Unsqueeze widened |
| `LayoutMoves.UnsqueezeUndoesSqueeze` | 3rdparty/onnx-tensorrt/builtin_op_importers.cpp:1678-1702 | for any axes at all, Unsqueeze gives back every shape that Squeeze narrowed to a shape; for axes that fit, Squeeze always leaves a shape |
| `LayoutMoves.Count` | 3rdparty/onnx-tensorrt/ShapedWeights.cpp:29-39 | zero for no dimensions, else the number of elements of the shape |
| `LayoutMoves.FillColumns` | 3rdparty/onnx-tensorrt/ShapedWeights.cpp:84-92 | the nested loops stay in bounds and leave the columns one after the other; the log of written positions is 0, 1, 2, ... in order, so every cell is written exactly once |
| `LayoutMoves.TransposeWeights` | 3rdparty/onnx-tensorrt/ShapedWeights.cpp:70-99 | at any rank, succeeds exactly on float matrices, then the destination is the transposed tensor; otherwise it is left alone |
| `LayoutMoves.TransposeTwice` | 3rdparty/onnx-tensorrt/ShapedWeights.cpp:84-92 | transposing the weights twice restores the buffer |
| `Padding.SameOutputIsCeiling` | 3rdparty/onnx-tensorrt/onnx2trt_utils.cpp:86-89 | the default output size is the input over the stride, rounded up |
| `Padding.SamePaddingHitsOutput` | 3rdparty/onnx-tensorrt/onnx2trt_utils.cpp:79-105 | for any stride, kernel and dilation the SAME padding makes the convolution produce exactly the requested output size |
| `Padding.SizeCountsWindows` | 3rdparty/onnx-tensorrt/onnx2trt_utils.hpp:237-248 | the convolution size is the number of windows that fit: the last one ends within the padded input and one more would not |
| `Padding.TruncLaw` | 3rdparty/onnx-tensorrt/onnx2trt_utils.hpp:237-248 | integer division rounds toward zero |
| `Padding.LowerPassesIffStrided` | 3rdparty/onnx-tensorrt/onnx2trt_utils.cpp:119-131 | at odd total padding the symmetric test passes for SAME_LOWER exactly when the stride exceeds 1 |
| `Padding.UpperPassesIffSingleStrided` | 3rdparty/onnx-tensorrt/onnx2trt_utils.cpp:119-131 | for SAME_UPPER it passes exactly when the output size is 1 and the stride exceeds 1, so never with output size 2 or more |
| `Padding.FillSamePadding` | 3rdparty/onnx-tensorrt/onnx2trt_utils.cpp:67-105 | both axes hit the requested output size, or the input over the stride rounded up; the larger half goes to the side asked for, and nothing else is written |
| `Padding.ConvertPadding` | 3rdparty/onnx-tensorrt/onnx2trt_utils.cpp:119-134 | the end paddings the loop leaves, with the write at the dilation's index |
| `Padding.LoopMeetsIntentIff` | 3rdparty/onnx-tensorrt/onnx2trt_utils.cpp:114-134 | the loop does what its comment intends if and only if every test that passes has a dilation equal to the number of its dimension |
| `Padding.LoopMissesIntentExample` | 3rdparty/onnx-tensorrt/onnx2trt_utils.cpp:114-134 | a 3x3 stride-2 SAME_LOWER layer on a 4x4 input misses the intended height padding |
| `Padding.RewritePadding` | 3rdparty/onnx-tensorrt/builtin_op_importers.cpp:374-387 | fails exactly on unsupported asymmetry, else pads by a stride and crops one where the end is one larger |
| `Padding.PoolLaw` | 3rdparty/onnx-tensorrt/builtin_op_importers.cpp:374-387 | a padding is supported exactly when the end exceeds the front by 0 or 1, and then that many strides are added in front and that many outputs cropped |
| `Padding.RewriteKeepsWindows` | 3rdparty/onnx-tensorrt/builtin_op_importers.cpp:373-393 | after the rewrite output j reads the window starting at j*stride - beg |
| `Padding.RewriteIsExactIff` | 3rdparty/onnx-tensorrt/builtin_op_importers.cpp:373-393 | the rewrite gives the asymmetric output size exactly when the symmetric test fails |
| `Padding.SameUpperPoolsExactly` | 3rdparty/onnx-tensorrt/builtin_op_importers.cpp:373-393 | under SAME_UPPER with odd total padding the pooled and cropped size is the output size |
| `Padding.PoolSamePadding` | 3rdparty/onnx-tensorrt/builtin_op_importers.cpp:361-387 | for a whole AveragePool layer: SAME_UPPER is always accepted, and sizes and windows are exact if and only if not (the height test passes, the width padding is odd and the width test fails); SAME_LOWER is accepted exactly when the height padding is even and the width padding is even or strided, and is then always exact |
| `Padding.UpperAxisPoolsExactly` | 3rdparty/onnx-tensorrt/builtin_op_importers.cpp:373-393 | a SAME_UPPER dimension that keeps its padding is pooled to its output size with its windows in place, at even and odd padding |
| `Padding.SymmetricAxisPoolsIff` | 3rdparty/onnx-tensorrt/onnx2trt_utils.cpp:119-134 | a dimension given (beg, beg) is pooled exactly if and only if its padding was even or its own test passes |
| `Padding.WidthLosesColumnExample` | 3rdparty/onnx-tensorrt/onnx2trt_utils.cpp:131-132 | a 3x2 window with strides 2 and 1 on a 2x4 input is pooled to 3 columns where 4 are due |
| `Padding.LoopOnSamePadding` | 3rdparty/onnx-tensorrt/onnx2trt_utils.cpp:119-134 | on SAME padding without dilations the conversion loop never changes the height and makes the width symmetric when either test passes |
| `PluginSerialization.WordLaw` | 3rdparty/onnx-tensorrt/serialize.hpp:47-64 | reading a 4-byte value gives w and a rest if and only if the bytes are those of w followed by the rest |
| `PluginSerialization.WordBytes` | 3rdparty/onnx-tensorrt/serialize.hpp:54-57 | the four bytes of a value, least significant first |
| `PluginSerialization.SizeBytes` | 3rdparty/onnx-tensorrt/serialize.hpp:54-57 | a 64-bit size is its low half followed by its high half |
| `PluginSerialization.StringLaw` | 3rdparty/onnx-tensorrt/serialize.hpp:66-82 | the same for C strings without an inner NUL |
| `PluginSerialization.VectorLaw` | 3rdparty/onnx-tensorrt/serialize.hpp:84-108 | the same for vectors with a 64-bit length |
| `PluginSerialization.DimsLaw` | 3rdparty/onnx-tensorrt/serialize.hpp:84-108 | the same for vectors of dimensions |
| `PluginSerialization.BaseParses` | 3rdparty/onnx-tensorrt/plugin.cpp:31-43 | deserializeBase restores what serializeBase wrote and consumes exactly that |
| `PluginSerialization.BaseDetermines` | 3rdparty/onnx-tensorrt/plugin.cpp:38-43 | whatever deserializeBase accepts is a serialised base followed by the rest |
| `PluginSerialization.BodyParses` | 3rdparty/onnx-tensorrt/InstanceNormalization.hpp:43-62 | each plugin kind restores all its serialised fields |
| `PluginSerialization.BodyDetermines` | 3rdparty/onnx-tensorrt/Split.hpp:39-52 | whatever a plugin's deserialisation accepts is a serialised body of that kind followed by the rest |
| `PluginSerialization.BaseLayout` | 3rdparty/onnx-tensorrt/plugin.cpp:31-36 | where every base field lies: input count, 17 words for each input, batch size, data type, data format |
| `PluginSerialization.FancyLayout` | 3rdparty/onnx-tensorrt/FancyActivation.hpp:66-71 | activation type, alpha and gamma at bytes 0, 4 and 8 |
| `PluginSerialization.ResizeLayout` | 3rdparty/onnx-tensorrt/ResizeNearest.hpp:43-47 | dimension count at byte 0 and scale k at 4 + 4k |
| `PluginSerialization.SplitLayout` | 3rdparty/onnx-tensorrt/Split.hpp:48-52 | axis at byte 0, length count at 4, length k at 12 + 4k |
| `PluginSerialization.InstanceLayout` | 3rdparty/onnx-tensorrt/InstanceNormalization.hpp:56-62 | epsilon, channel count, scale vector and bias vector at their offsets |
| `PluginSerialization.WrappedLayout` | 3rdparty/onnx-tensorrt/plugin.hpp:112-117 | the text Pv01 and a zero, the registered name of the type and a zero, the base, the body |
| `PluginSerialization.WrappedHasAnnouncedSize` | 3rdparty/onnx-tensorrt/plugin.hpp:112-124 | wrapped serialisation has exactly getSerializationSize bytes, for every kind and all field values |
| `PluginSerialization.CreatePluginInvertsWrapped` | 3rdparty/onnx-tensorrt/PluginFactory.cpp:36-55 | createPlugin builds p with a rest left over if and only if the bytes are the wrapped form of p followed by that rest |
| `PluginSerialization.WrappedIsUnambiguous` | 3rdparty/onnx-tensorrt/plugin.hpp:112-117 | wrapped forms are prefix-free: the bytes determine the plugin |
| `PluginSerialization.Writer.Copy` | 3rdparty/onnx-tensorrt/serialize.hpp:54-57 | writes the bytes at the cursor, advances it by their number and changes nothing else |
| `PluginSerialization.Writer.SerializeBase` | 3rdparty/onnx-tensorrt/plugin.cpp:31-36 | appends the base fields, advancing by getBaseSerializationSize |
| `PluginSerialization.Writer.SerializePlugin` | 3rdparty/onnx-tensorrt/FancyActivation.hpp:55-71 | appends base and body, advancing by the announced size |
| `PluginSerialization.Writer.SerializeWrapped` | 3rdparty/onnx-tensorrt/plugin.hpp:112-117 | fills a buffer of getSerializationSize bytes exactly with the wrapped form |
| `Leapfrog.StepReverses` | example/bayesian-methods/algos.py:62-86 | for every gradient function a kick-drift-kick step retraces itself after a momentum flip |
| `Leapfrog.StepInCoordinates` | example/bayesian-methods/algos.py:70-83 | one step written out for every coordinate: q + eps (p - eps/2 grad(q)), and p less half a step of the gradient at the old and at the new position |
| `Leapfrog.BackwardsIsTrajectory` | example/bayesian-methods/algos.py:62-86 | a trajectory read backwards with flipped momenta is a trajectory |
| `Leapfrog.ProposalIsInvolution` | example/bayesian-methods/algos.py:62-86 | the proposal is its own inverse over the reals |
| `Leapfrog.Integrate` | example/bayesian-methods/algos.py:62-86 | the fused in-place loop equals L symmetric steps followed by a flip, and for L = 0 only half a kick |
| `Leapfrog.IntegrateAlongPath` | example/bayesian-methods/algos.py:62-86 | the loop ends at the end of a path of L such steps, with the sign of the momentum changed |
| `Leapfrog.StepHMC` | example/bayesian-methods/algos.py:51-99 | accepts exactly as the acceptance test on start and end says; returns and leaves in the executor the end of the trajectory if accepted, otherwise the starting parameters |
| `Leapfrog.HMC` | example/bayesian-methods/algos.py:102-128 | the pool is every tenth state of the chain, the count is the number of accepted steps, the executor ends at the last state |
| `Leapfrog.AcceptedCounts` | example/bayesian-methods/algos.py:112-115 | the accept count is the number of steps at which the proposal was accepted |
| `SampleAverage.Executor.CopyParamsFrom` | python/mxnet/executor.py:355-360 | overwrites the named parameters, or refuses an unknown name |
| `SampleAverage.Executor.AddPass` | example/bayesian-methods/utils.py:104-112 | one walk of the iterator adds the scaled output to every instance exactly once, and padded rows to none |
| `SampleAverage.Denominator` | example/bayesian-methods/utils.py:91-95 | the sum of the amounts of the weighted samples and of one for each plain sample |
| `SampleAverage.Predict` | example/bayesian-methods/utils.py:89-113 | fails exactly when a sample names an unknown parameter; else every instance blends all outputs by ratios that are the given weights over their sum, and parameters and data are restored |
| `SampleAverage.RatiosSumToOne` | example/bayesian-methods/utils.py:91-102 | the sample ratios sum to 1 |
| `SampleAverage.BlendIsWeightedAverage` | example/bayesian-methods/utils.py:96-112 | a blend by the ratios, times the total weight, is the weighted sum of the outputs |
| `SampleAverage.AverageIsDistribution` | example/bayesian-methods/utils.py:96-112 | with positive weights a blend of distributions is a distribution |
| `SampleAverage.PredictionMeaning` | example/bayesian-methods/utils.py:89-113 | each instance's prediction is the weighted average of the per-sample outputs, a distribution if they all are |
| `SampleAverage.PredictionByGivenWeights` | example/bayesian-methods/utils.py:89-113 | a prediction times the sum of the given weights is the sum of weight times output over the samples |
| `SampleAverage.SumLaw` | example/bayesian-methods/utils.py:91-95 | no terms sum to zero and one more term adds itself |
| `SampleAverage.CompleteSampleStandsAlone` | example/bayesian-methods/utils.py:96-103 | a sample that names every parameter is evaluated with its own parameters only |
| `SampleAverage.LastNamingSampleRules` | example/bayesian-methods/utils.py:96-103 | a parameter that a sample does not name has the value of the last earlier sample that names it, or its old value |
| `Amalgamation.Amalgamator.Expand` | amalgamation/amalgamation.py:103-160 | terminates on any include graph; what it newly finishes is written whole and once, is reached from the file, covers its includes, and leaves files being expanded open |
| `Amalgamation.Amalgamator.ExpandLines` | amalgamation/amalgamation.py:130-157 | after all lines of a file its text lines are copied in order and each include is done or being expanded |
| `Amalgamation.Amalgamator.ExpandStages` | amalgamation/amalgamation.py:169-171 | the script's calls form a run, to which the rows below apply |
| `Amalgamation.WrittenAtMostOnce` | amalgamation/amalgamation.py:116-160 | across all stages a non-exempt file is written once if it is done, as its beginning, each of its text lines in order and its end, and not at all otherwise |
| `Amalgamation.StageCovers` | amalgamation/amalgamation.py:103-160 | a stage finishes every file its root reaches along files that are expanded when met: not done before, or the exempt file |
| `Amalgamation.StageIsExact` | amalgamation/amalgamation.py:103-160 | what a stage newly finishes is exactly what its root reaches along files that are expanded when met |
| `Amalgamation.DoneFilesAreClosed` | amalgamation/amalgamation.py:103-171 | a done file was finished by some stage, and all it includes in that stage is done |
| `Amalgamation.CoverageIff` | amalgamation/amalgamation.py:103-171 | a stage finishes everything its root reaches along any chain if and only if, before it, whatever the reached files already done include is done or reached along files that are expanded when met |
| `Amalgamation.StageCoversAll` | amalgamation/amalgamation.py:103-171 | where the includes of a stage are also includes in the stages before it, everything its root reaches is done after it |
| `Amalgamation.FindSource` | amalgamation/amalgamation.py:73-92 | finds a source of the list that is a candidate for the name in the stage, the only one if there is only one, and none if there is none |
| `Amalgamation.CandidateLaw` | amalgamation/amalgamation.py:75-82 | a candidate is the name itself or a path that ends in a slash and the name, within the stage when the name ends in .cc |
| `Amalgamation.SourceTreeFindsSources` | amalgamation/amalgamation.py:73-92 | includes looked up this way are always listed sources, so the termination argument applies |
| `Amalgamation.HeaderIncludesAreCovered` | amalgamation/amalgamation.py:73-171 | when no file includes a `.cc` file, every stage covers all that its root reaches |
| `Amalgamation.StagedIncludeIsMissed` | amalgamation/amalgamation.py:73-171 | on a tree whose `.cc` include is found in the second stage only, the stages form a run, the file is reachable in that stage, and it is not done at the end |
| `Amalgamation.AcyclicFinishesIncludedFirst` | amalgamation/amalgamation.py:148-160 | where includes form no cycle, every file finishes after all the files it includes |
| `Resources.ServeIsSafe` | src/resource.cc:66-82 | a request keeps live blocks exactly the non-empty handles, grants a live block of at least the size, never shrinks the handle and leaves other handles alone; a request the handle covers changes nothing, any other frees the old block and allocates one of exactly the size |
| `Resources.TempSpace.GetSpace` | src/resource.cc:66-73 | serves a device request as in ServeIsSafe, with the exact new heap and handles; a request the handle covers returns the same block and leaves the heap alone |
| `Resources.TempSpace.GetHostSpace` | src/resource.cc:75-82 | the same for a host request |
| `Resources.TempSpace.ReleaseAll` | src/resource.cc:56-65 | frees both blocks of one allocator, if any, and empties its handles |
| `Resources.TempSpace.Destroy` | src/resource.cc:256-265 | nothing is live afterwards and every block ever allocated was freed exactly once |
| `Resources.Session` | src/resource.cc:56-82 | over any run of requests ended by the destructor every grant is large enough and every block allocated is freed exactly once |
| `Resources.TempSpace.GetNext` | src/resource.cc:267-276 | picks by the incremented counter and keeps the stored counter at most kMaxDigit |
| `Resources.CounterStaysInRange` | src/resource.cc:267-276 | after any number of requests the counter is at most kMaxDigit, so it is incremented to at most kMaxDigit + 1 |
| `Resources.RoundVisitsAllIff` | src/resource.cc:346-355 | n successive requests reach all n resources if and only if none but the last of them resets the counter |
| `Resources.ResetSkipsResource` | src/resource.cc:346-355 | a round interrupted by the reset never gives out resource (kMaxDigit + 2) mod n |
| `Resources.RoundRepeatsNothing` | src/resource.cc:346-355 | without a reset no resource is given out twice in a round |
| `Resources.SeedsDistinctIff` | src/resource.cc:292-327 | samplers of different devices below 16 or different copies have different seeds, exactly up to 2^28 copies |
| `Resources.SeedLaw` | src/resource.cc:297-298 | the seed is the device number for copy 0 and global seed 0, 16 more for the next copy and 127 more for the next global seed, modulo 2^32 |
| `Resources.GlobalSeedsDistinct` | src/resource.cc:189-191 | equal seeds of one sampler come from equal 32-bit global seeds |
| `Resources.ParallelRandom.SeedWithDeviceID` | src/resource.cc:320-327 | every sampler gets its seed and the counter is zero |
| `Resources.ParallelRandom.Seed` | src/resource.cc:328-335 | the same without the device number |
| `Resources.ParallelRandom.SeedAndDraw` | src/resource.cc:320-355 | after reseeding, any number of requests give samplers and seeds that depend on nothing done before |
| `Resources.ParallelRandom.ContextSeedAndDraw` | src/resource.cc:328-355 | the same after the seeding of one context |
| `BucketRows.SlotIsSmallestFit` | example/bi-lstm-sort/sort_io.py:155-166 | a sentence goes to the narrowest bucket that holds it, and to none exactly when it is longer than all |
| `BucketRows.Distribute` | example/bi-lstm-sort/sort_io.py:162-179 | every bucket holds exactly the non-empty sentences that go to it, each once and in list order: a row begins with its sentence and goes on with zeros to the width of the bucket |
| `BucketRows.RowsAreFittingSentences` | example/bi-lstm-sort/sort_io.py:162-179 | a row is in bucket i if and only if it begins with a non-empty sentence whose slot is i and goes on with zeros to the width of the bucket |
| `BucketIter.Iterator.constructor` | example/bi-lstm-sort/sort_io.py:155-191 | buckets are sorted and each keeps the first whole batches of its rows, which hold the sentences as in Distribute |
| `BucketIter.Iterator.MakePlan` | example/bi-lstm-sort/sort_io.py:198-221 | for any shuffles, each bucket is cut to whole batches, named once per batch by the plan, and ordered by a permutation of its rows |
| `BucketIter.SliceIsFull` | example/bi-lstm-sort/sort_io.py:230-231 | whenever the plan reaches a bucket in an epoch, a full batch in range is left in it |
| `BucketIter.PermutationGathersAll` | example/bi-lstm-sort/sort_io.py:207-209 | gathering by a permutation of the row numbers gives every row exactly once |
| `BucketIter.LabelRows` | example/bi-lstm-sort/sort_io.py:235-236 | each label row is the sorted permutation of its data row |
| `BucketIter.Iterator.NextBatch` | example/bi-lstm-sort/sort_io.py:227-236 | a full well-formed batch exactly when the bucket has rows left, and the cursor moves by one batch |
| `BucketIter.Iterator.Iterate` | example/bi-lstm-sort/sort_io.py:223-252 | gets to the end of the plan if and only if no bucket with rows had been read before; the batches are then full and follow the plan, and from a reset state every kept row is delivered exactly once |
| `BucketIter.Iterator.Epoch` | example/bi-lstm-sort/sort_io.py:254-255 | an epoch begun by reset is full whatever was read before |

## Left out

- TensorRT, CUDA, cuDNN, protobuf, OpenCV and engine calls: operator importers, the network, gradients and storage are abstract functions or a set of live blocks; nothing asynchronous in the engine is modelled.
- Image decoding, file names, queue feeder threads and process details of `tools/im2rec.py`: encoding is a total function giving bytes or failure, a queue operation is one atomic step.
- `tools/im2rec.py` reader and feeder loops: they are steps of the relation and not methods; only the writer and the single-thread branch also appear as loops.
- Graph output marking, `_current_node` and the error list of `ModelImporter.cpp`: only the error kind is kept.
- TensorRT's meaning of reshape dimension 0 (line 70 of `builtin_op_importers.cpp`) and the Softmax importer: transposes are stated on the flat buffer.
- The TensorRT header is not part of this model: `nvinfer1::Dims::MAX_DIMS` is taken to be 8, a serialised `Dims` to be 17 words of 4 bytes (the count, 8 sizes and 8 dimension types), and `DataType` and `PluginFormat` to be 4 bytes each.
- DepthToSpace: a block size below 1 is excluded; the source divides by it unchecked. The model has no limit on the rank, while the source fills arrays of 8 entries with 2n+1 values and writes outside them for more than three spatial dimensions.
- SpaceToDepth: as for DepthToSpace.
- UnsqueezeUndoesSqueeze: the network is taken to report array entries beyond the dimensions unchanged, which matters for axes outside the shape only.
- ConvertPadding: dilations are below 8, beyond which the source writes outside its array; padding integers are away from overflow.
- FillSamePadding: strides are positive, because the source divides by them, and inputs are non-zero, as it asserts.
- TransposeWeights: source and destination buffers are distinct, and the two leading permutation entries are those the source asserts.
- CreatePlugin: the reader is modelled on values, where the source advances a pointer and a remaining length and stops by assertion; sizes whose byte count overflows 64 bits are excluded.
- Floating-point rounding, `exp`, the energy formula and random draws in `example/bayesian-methods`: arithmetic is over the reals, acceptance outcomes and momentum draws are parameters.
- `sample_test_acc`: the branch without a sample pool, the arg-max accuracy count and prediction without `label_num` are not modelled; nor are `sample_test_regression`, SGLD and the distilled samplers.
- FindSource: the choice among several candidates is any function that picks one of them or none, and the index errors of its path comparison are not modelled; nor are system header collection, console output and comment counters of `amalgamation.py`.
- TempSpace: allocation failure and concurrent access to the atomic counter are not modelled; the number of copies is at most half of kMaxDigit.
- ParallelRandom: a sampler is represented by the seed it was last given, not by its generator state.
- BucketIter: text reading, vocabulary and default bucket generation are not modelled, buckets are non-empty and non-negative as the array allocation demands, and line 203 is integer division.
- The rest of the repository (operators, bindings, CI, documentation and examples).
