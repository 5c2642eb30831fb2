# Metal graph optimiser, modelled in Dafny

This project models the graph optimiser of ggml's Metal backend (`ggml_metal_graph_optimize`)
and proves what it promises. The optimiser works in three passes over a graph's node array:

1. **Fuse.** Runs of nodes that start at ADD or RMS_NORM are packed into one unit (a
   `node_info`). A run continues through ADD, MUL or RMS_NORM and holds at most 16 nodes. Each
   unit takes the longest prefix of at least two nodes that the backend's fusion test accepts,
   or stays a single node.
2. **Reorder.** One greedy pass builds concurrent batches, using a memory-range tracker.
   - When a unit conflicts with the current batch, the pass looks up to 7 units ahead. It pulls
     a later unit into the batch when that unit is clear of the batch and of every unit it
     would overtake (metadata-only units need only be clear of the units they overtake).
   - Any operator outside the reorderable list stops the lookahead.
3. **Unfuse.** The units are written back into the node array in the new order, each as its
   primary followed by its fused tensors.

Files, one module each:

- `graph.dfy`: tensors.
  - A tensor pointer is an index into a pool `seq<Tensor>`.
  - A tensor carries its operator, its optional view base, its optional allocation (buffer id
    and data address), its byte size and its GGML_MAX_SRC = 10 source slots.
- `mem_range.dfy`: `ggml_mem_range` and `ggml_mem_ranges`.
  - The hazard rule `Conflicts` is kept asymmetric, exactly as the source writes it.
  - The range of a tensor is computed as the source computes it.
  - The range set is a class `Ranges` whose field `ranges: seq<Range>` the methods append to,
    clear and scan.
  - Two constants are kept apart, as in the source. The exported tensor-level add and check
    look at GGML_MAX_DIMS = 4 source slots. The reorder's `h_add` and `h_check` look at all 10.
- `node_info.dfy`: `node_info` as a datatype (`Dst`, `AddFused`), `is_empty`, and a unit's
  footprint, which is the list of ranges that `h_add` records for it.
- `schedule.dfy`: what the reorder promises, and its loop invariants. Both are stated over two
  tables indexed by unit: each unit's operator and each unit's footprint.
- `reorder.dfy`:
  - `h_add` and `h_check` as methods on a `Ranges` object;
  - the scheduler as `ReorderNodes` and the methods for its loop bodies;
  - the link from the unit list to the two tables.
- `fusion.dfy`: the fusion pass.
  - `FuseNodes` scans an `array<nat>` of node ids with a scratch `array<Op>`, as the source does.
  - `FuseNodes` is proved equal to a functional specification `FuseAll`. The properties are
    proved about `FuseAll`.
- `optimize.dfy`:
  - the unfuse step, which overwrites the node array in place;
  - the whole optimiser `GraphOptimize`;
  - the permutation lemmas connecting the passes.

What is proved, in the source's terms:

- The range check returns true exactly when no stored range conflicts, in both directions of
  the if-and-only-if.
- Reads never conflict with reads, and different buffers never conflict.
- Add appends one range and returns true. After a reset, every check succeeds.
- A view yields its base's range. An allocated base yields `[data, data + nbytes)` in its
  buffer. An unallocated base yields `[0, 1024)` keyed on its own id.
- Fusion:
  - a unit with fused nodes starts with a start operator followed by 1 to 15 continuation
    operators; any other unit is a single node of any operator;
  - the chosen length is the largest accepted one, else 1;
  - the units cover the node array in order and without gaps.
- The reorder's result is a permutation of the unit indices.
  - Whenever a unit is placed before a unit that came earlier in the original order:
    - it was fewer than 8 positions behind that unit;
    - its ranges, tested as candidates against the overtaken unit's stored ranges (the
      direction of `h_check(mrs1, node1)`), do not conflict with them; the rule is
      asymmetric, so the reverse test is not promised;
    - it and every unit between the two are of a reorderable operator.
  - Inside one batch, every unit that touches memory is clear of the units placed before it in
    that batch.
  - A metadata-only unit never opens a new batch.
  - A new batch opens only at a unit that conflicts with some unit of the batch before it, so
    no batch is closed that the unit could have joined.
  - A unit placed before an originally earlier unit runs in an earlier batch.
  - Together these make the pass a no-op when no two distinct units conflict: everything runs in one
    batch, the order is the identity and the node array comes back unchanged. (A unit that
    writes memory always conflicts with itself, so the premise is about distinct units.)
  - Each step is stated branch by branch. A lookahead candidate clear of both sets is pulled
    into the current batch, and any other one joins mrs1. The lookahead stops at the window's
    end, at the graph's end, or at the first unplaced non-reorderable unit. A conflicting
    pivot then opens a new batch by itself.
  - The whole lookahead is tied to a reference definition, `Reorder.ScanFrom`. It visits the
    candidates in order and says which ones are pulled, which ones join mrs1, and where the
    search stops. The loop pulls and defers exactly these candidates, so a conflicting pivot
    is placed after exactly the candidates the reference run pulls.
- The whole optimiser passes on the order guarantees for the order it applies: the
  permutation, the three inversion rules, the four batch rules and the no-conflict identity. The step-by-step
  statements above belong to the reorder's own methods.
- After unfusing:
  - the node array is the units' tensors in the new order;
  - each unit is contiguous (primary, then its fused tensors);
  - the node array is a permutation of the original nodes.

## Model

`NodeInfo.NodeInfo.Tensors`, `Reorder.OpTable` and `Reorder.FootprintTable` are definitions.
They have no row: what they mean is stated by `Optimize.ExpandGroup`, `Reorder.ReadOnlySharingNoClash`
and `Reorder.ReorderNodes`.

| member | source | states |
|---|---|---|
| Graph.Base | ggml/src/ggml-metal/ggml-metal-common.cpp:45-49 | the base is the view source when there is one, else the tensor itself; the base is never a view |
| MemRange.FromTensor | ggml/src/ggml-metal/ggml-metal-common.cpp:45-73 | the requested kind is kept; an allocated base gives its buffer and `[data, data + nbytes)`; an unallocated base gives `[0, 1024)` keyed on the base's id |
| MemRange.ViewSharesBaseRange | ggml/src/ggml-metal/ggml-metal-common.cpp:46-47 | a view and its base give the same range |
| MemRange.UnallocatedDistinctNeverConflict | ggml/src/ggml-metal/ggml-metal-common.cpp:61-69 | two distinct unallocated bases never conflict, whatever the range kinds |
| MemRange.TensorRanges | ggml/src/ggml-metal/ggml-metal-common.cpp:107-115 | what the exported add and check look at for a tensor ends with the tensor's own DST range |
| MemRange.TensorRangesReadsFirst | ggml/src/ggml-metal/ggml-metal-common.cpp:108-112 | every other range of the exported add and check is a read |
| MemRange.SrcRangesSound | ggml/src/ggml-metal/ggml-metal-common.cpp:108-112 | every recorded source range is the SRC range of a present source in the looked-at slots |
| MemRange.SrcRangesComplete | ggml/src/ggml-metal/ggml-metal-common.cpp:108-112 | every present source in the looked-at slots contributes its SRC range |
| MemRange.SrcRangesPrefix | ggml/src/ggml-metal/ggml-metal-common.cpp:217-223 | looking at more slots only appends ranges |
| MemRange.Ranges.constructor | ggml/src/ggml-metal/ggml-metal-common.cpp:22-29 | a fresh set is empty and keeps the given debug level |
| MemRange.Ranges.Reset | ggml/src/ggml-metal/ggml-metal-common.cpp:35-37 | the set becomes empty, and then no range conflicts with it |
| MemRange.EmptySetNeverConflicts | ggml/src/ggml-metal/ggml-metal-common.cpp:35-37 | every footprint is clear of the empty set |
| MemRange.Ranges.Add | ggml/src/ggml-metal/ggml-metal-common.cpp:39-43 | exactly the given range is appended at the end, the earlier ranges are unchanged, and the result is true |
| MemRange.Ranges.AddSrc | ggml/src/ggml-metal/ggml-metal-common.cpp:83-93 | appends the tensor's SRC range and returns true |
| MemRange.Ranges.AddDst | ggml/src/ggml-metal/ggml-metal-common.cpp:95-105 | appends the tensor's DST range and returns true |
| MemRange.Ranges.AddSrcs | ggml/src/ggml-metal/ggml-metal-common.cpp:108-112 | appends the SRC ranges of the present sources among the first k slots, in slot order |
| MemRange.Ranges.AddTensor | ggml/src/ggml-metal/ggml-metal-common.cpp:107-115 | appends the sources in the first GGML_MAX_DIMS slots, then the tensor as DST |
| MemRange.Ranges.Check | ggml/src/ggml-metal/ggml-metal-common.cpp:117-144 | true exactly when no stored range is in the same buffer, not SRC/SRC with it, and meets `p0 < cmp.p1 && p1 >= cmp.p0` |
| MemRange.Ranges.CheckSrc | ggml/src/ggml-metal/ggml-metal-common.cpp:146-154 | true exactly when the tensor's SRC range conflicts with no stored range |
| MemRange.Ranges.CheckDst | ggml/src/ggml-metal/ggml-metal-common.cpp:156-164 | true exactly when the tensor's DST range conflicts with no stored range |
| MemRange.Ranges.CheckSrcs | ggml/src/ggml-metal/ggml-metal-common.cpp:167-173 | true exactly when every present source among the first k slots is clear; stops at the first conflict |
| MemRange.Ranges.CheckTensor | ggml/src/ggml-metal/ggml-metal-common.cpp:166-176 | true exactly when the sources in the first GGML_MAX_DIMS slots and the tensor as DST are all clear |
| MemRange.ReadsNeverConflict | ggml/src/ggml-metal/ggml-metal-common.cpp:125-127 | two SRC ranges never conflict |
| MemRange.DifferentBuffersNeverConflict | ggml/src/ggml-metal/ggml-metal-common.cpp:121-123 | ranges in different buffers never conflict |
| MemRange.OverlapConflicts | ggml/src/ggml-metal/ggml-metal-common.cpp:129 | two ranges of one buffer that share a byte, one of them a write, conflict in both directions |
| MemRange.AdjacentAsymmetry | ggml/src/ggml-metal/ggml-metal-common.cpp:129 | for any two ranges of one buffer, not both reads: a candidate that ends where the stored range begins conflicts, one that begins where the stored range ends does not, so adjacent non-empty ranges conflict in one direction only |
| NodeInfo.NodeInfo.Dst | ggml/src/ggml-metal/ggml-metal-common.cpp:201-203 | the destination is the last fused tensor, or the primary when nothing is fused |
| NodeInfo.NodeInfo.AddFused | ggml/src/ggml-metal/ggml-metal-common.cpp:209-211 | the tensor is appended to the fused list and becomes the destination |
| NodeInfo.Footprint | ggml/src/ggml-metal/ggml-metal-common.cpp:216-236 | a footprint is non-empty and ends with the DST range of the unit's destination |
| NodeInfo.FusedSrcRangesReads | ggml/src/ggml-metal/ggml-metal-common.cpp:225-233 | the fused tensors' source ranges are all reads |
| NodeInfo.FootprintReadsFirst | ggml/src/ggml-metal/ggml-metal-common.cpp:216-236 | every range of a footprint but the last is a read |
| NodeInfo.ReadOnlySharingIsClear | ggml/src/ggml-metal/ggml-metal-common.cpp:239-259 | two units whose destination buffers hold no range of the other unit are clear of each other: no range of one conflicts with a range of the other |
| Reorder.HAdd | ggml/src/ggml-metal/ggml-metal-common.cpp:216-236 | appends exactly the unit's footprint and returns true |
| Reorder.AddFusedSrcs | ggml/src/ggml-metal/ggml-metal-common.cpp:225-233 | appends the source ranges of every fused tensor, in order |
| Reorder.HCheck | ggml/src/ggml-metal/ggml-metal-common.cpp:239-259 | true exactly when no range of the unit's footprint conflicts with the set |
| Reorder.CheckFusedSrcs | ggml/src/ggml-metal/ggml-metal-common.cpp:248-256 | true exactly when the fused tensors' source ranges are all clear; stops at the first conflict |
| Reorder.FusedSrcConflict | ggml/src/ggml-metal/ggml-metal-common.cpp:248-256 | one fused tensor whose sources conflict makes the whole fused-source check fail, which justifies the early return |
| Reorder.SelfClash | ggml/src/ggml-metal/ggml-metal-common.cpp:117-131 | a unit whose destination is a placeholder or a non-empty buffer range conflicts with itself |
| Reorder.ReadOnlySharingNoClash | ggml/src/ggml-metal/ggml-metal-common.cpp:239-259 | two units of the footprint table that share buffers only through reads do not clash |
| Reorder.ReorderNodes | ggml/src/ggml-metal/ggml-metal-common.cpp:214-363 | the result is a permutation; every overtaking unit was fewer than 8 positions behind, does not conflict with the unit it overtakes, and crosses only reorderable operators; batches are hazard-free, never opened by a metadata-only unit, and opened only by a unit that conflicts with the batch before; a unit placed before an earlier one runs in an earlier batch |
| Reorder.PlacePivot | ggml/src/ggml-metal/ggml-metal-common.cpp:296-357 | a used pivot is skipped with nothing changed; a metadata-only pivot or one clear of mrs0 is appended to the current batch and its footprint added to mrs0; any other pivot is appended after exactly the candidates the reference lookahead pulls, alone in a new batch whose mrs0 is its footprint; each round keeps the scheduler invariant |
| Reorder.PlaceConflicting | ggml/src/ggml-metal/ggml-metal-common.cpp:307-356 | the result grows by the candidates the reference lookahead pulls, then the pivot; the batch number goes up by one, the pivot is the only member of the new batch, and mrs0 holds exactly its footprint; the invariant is kept |
| Reorder.OpenBatch | ggml/src/ggml-metal/ggml-metal-common.cpp:348-356 | after the lookahead, mrs0 is reset and then holds only the pivot's footprint; the pivot is appended and the invariant holds for the next pivot |
| Reorder.Lookahead | ggml/src/ggml-metal/ggml-metal-common.cpp:307-346 | mrs1 is seeded with the pivot's footprint; the pulled candidates, the candidates left behind the pivot and the stop position are exactly those of the reference run; the search ends at i0 + N_FORWARD, at the end of the graph, or at the first unplaced candidate whose operator may not be reordered |
| Reorder.ScanAhead | ggml/src/ggml-metal/ggml-metal-common.cpp:317-346 | the candidate loop appends exactly the reference run's pulled candidates to the result and its deferred ones to the pending list, stops where the reference run stops, and keeps the lookahead invariant |
| Reorder.ScanStep | ggml/src/ggml-metal/ggml-metal-common.cpp:318-345 | one candidate that does not stop the loop keeps the loop on the reference run and keeps the lookahead invariant |
| Reorder.ScanFrom | ggml/src/ggml-metal/ggml-metal-common.cpp:317-346 | the reference lookahead from candidate j stops no earlier than j, within the window and within the graph |
| Reorder.ScanPartition | ggml/src/ggml-metal/ggml-metal-common.cpp:317-346 | the reference run stops at the window's end, the graph's end or an unused barrier; pulled and deferred candidates are unused, reorderable and before the stop; each unused candidate before the stop is pulled or deferred, never both |
| Reorder.ScanSkip | ggml/src/ggml-metal/ggml-metal-common.cpp:319-321 | skipping a used candidate keeps the loop on the reference run |
| Reorder.ScanCandidate | ggml/src/ggml-metal/ggml-metal-common.cpp:333-345 | a candidate handled as `CandidateOutcome` says keeps the loop on the reference run |
| Reorder.ScanPull | ggml/src/ggml-metal/ggml-metal-common.cpp:333-340 | pulling a candidate that fits keeps the loop on the reference run |
| Reorder.ScanDefer | ggml/src/ggml-metal/ggml-metal-common.cpp:341-344 | deferring a candidate that does not fit keeps the loop on the reference run |
| Reorder.ScanStop | ggml/src/ggml-metal/ggml-metal-common.cpp:317-326 | where the loop stops, it has produced the whole reference run |
| Reorder.Candidate | ggml/src/ggml-metal/ggml-metal-common.cpp:330-345 | a candidate clear of mrs1 and, unless metadata-only, of mrs0 is appended to the result in the current batch, marked used and added to mrs0, with mrs1 unchanged; otherwise only its footprint joins mrs1 and it stays pending |
| Schedule.StartReorder | ggml/src/ggml-metal/ggml-metal-common.cpp:286-294 | before the first pivot, nothing placed, nothing used and an empty batch satisfy the invariant |
| Schedule.FinishReorder | ggml/src/ggml-metal/ggml-metal-common.cpp:296-362 | once every pivot is done, the result is a permutation and all of the reorder's guarantees hold |
| Schedule.SkipUsedPivot | ggml/src/ggml-metal/ggml-metal-common.cpp:297-299 | skipping a pivot that was pulled forward keeps the invariant |
| Schedule.PlaceFitting | ggml/src/ggml-metal/ggml-metal-common.cpp:352-356 | a pivot that is metadata-only or clear of the batch joins it, and the invariant holds for the next pivot |
| Schedule.StartLookahead | ggml/src/ggml-metal/ggml-metal-common.cpp:310-313 | mrs1 starting with the pivot's footprint satisfies the lookahead invariant |
| Schedule.SkipUsedCandidate | ggml/src/ggml-metal/ggml-metal-common.cpp:319-321 | skipping an already placed candidate keeps the lookahead invariant |
| Schedule.PullCandidate | ggml/src/ggml-metal/ggml-metal-common.cpp:335-341 | pulling a candidate that passed both checks keeps every guarantee |
| Schedule.DeferCandidate | ggml/src/ggml-metal/ggml-metal-common.cpp:342-345 | a deferred candidate's footprint joins mrs1, and the invariant holds |
| Schedule.PlaceSound | ggml/src/ggml-metal/ggml-metal-common.cpp:352-356 | appending the pivot keeps the placement, the lookahead bound, and the inversion rules |
| Schedule.PlaceAfterLookahead | ggml/src/ggml-metal/ggml-metal-common.cpp:348-356 | after the lookahead, the pivot opens a new batch holding only its own footprint |
| Schedule.NewBatch | ggml/src/ggml-metal/ggml-metal-common.cpp:349 | resetting mrs0 closes the batch and numbers the next one |
| Schedule.FootprintsClear | ggml/src/ggml-metal/ggml-metal-common.cpp:335 | a unit is clear of mrs1 exactly when it is clear of every unit whose footprint mrs1 holds |
| Schedule.PendingClear | ggml/src/ggml-metal/ggml-metal-common.cpp:335 | a candidate clear of mrs1 does not conflict with any unplaced unit it overtakes |
| Schedule.OrderedJoin | ggml/src/ggml-metal/ggml-metal-common.cpp:335-341 | a unit joining the current batch keeps the batch-order promises |
| Schedule.OrderedOpen | ggml/src/ggml-metal/ggml-metal-common.cpp:349-356 | a pivot that conflicts with the current batch opens the next one and keeps the batch-order promises |
| Schedule.BatchClash | ggml/src/ggml-metal/ggml-metal-common.cpp:307 | a unit that fails the check against mrs0 conflicts with some unit of the current batch |
| Schedule.ClashGrows | ggml/src/ggml-metal/ggml-metal-common.cpp:337 | adding ranges to mrs0 keeps an existing conflict |
| Schedule.NoClashKeepsOrder | ggml/src/ggml-metal/ggml-metal-common.cpp:296-357 | with no two distinct units conflicting, a permutation keeping the batch-order promises has every unit in batch 0 and is the identity |
| Schedule.SingleBatch | ggml/src/ggml-metal/ggml-metal-common.cpp:303-307 | with no two distinct units conflicting, no batch is ever opened after the first |
| Schedule.PermutationElems | ggml/src/ggml-metal/ggml-metal-common.cpp:291-357 | a permutation of 0 .. n-1 holds exactly the indices below n |
| Fusion.OpsOf | ggml/src/ggml-metal/ggml-metal-common.cpp:388-399 | the operator list of a run, one entry per node |
| Fusion.RunFrom | ggml/src/ggml-metal/ggml-metal-common.cpp:390-401 | the run stays within the graph and MAX_FUSE; it holds only continuation operators and stops at the graph's end, at MAX_FUSE or at the first other operator |
| Fusion.Run | ggml/src/ggml-metal/ggml-metal-common.cpp:386-401 | a run holds 1 to 16 nodes and stays within the graph |
| Fusion.Choose | ggml/src/ggml-metal/ggml-metal-common.cpp:403-408 | the countdown yields 1 or a length between 2 and the run |
| Fusion.ChooseMaximal | ggml/src/ggml-metal/ggml-metal-common.cpp:403-408 | the chosen length is accepted by the fusion test (or is 1), and no longer length up to the run is accepted |
| Fusion.UnitLen | ggml/src/ggml-metal/ggml-metal-common.cpp:386-417 | a unit spans 1 to 16 nodes within the graph, and a node that is not a start operator stays alone |
| Fusion.UnitLenChosen | ggml/src/ggml-metal/ggml-metal-common.cpp:386-408 | a start operator's unit is the longest accepted run prefix of at least two nodes, else the node alone |
| Fusion.LenTable | ggml/src/ggml-metal/ggml-metal-common.cpp:378-420 | every unit length is at least 1 and stays within the graph |
| Fusion.LenTableAt | ggml/src/ggml-metal/ggml-metal-common.cpp:378-420 | the table holds, at each node, the length of the unit the pass opens there |
| Fusion.ChopCovers | ggml/src/ggml-metal/ggml-metal-common.cpp:378-420 | the units from a node on, flattened, are the node array from that node on |
| Fusion.FuseAllCovers | ggml/src/ggml-metal/ggml-metal-common.cpp:375-420 | the fused units, flattened, are exactly the original node array |
| Fusion.FuseAllShape | ggml/src/ggml-metal/ggml-metal-common.cpp:384-417 | a unit with fused nodes is a start operator followed by 1 to 15 continuation operators; any other unit is a lone node of any operator |
| Fusion.ChopHead | ggml/src/ggml-metal/ggml-metal-common.cpp:410-416 | a unit of length f receives exactly f-1 fused tensors, and its destination is the last node of the group |
| Fusion.ScanRun | ggml/src/ggml-metal/ggml-metal-common.cpp:388-401 | the scan finds the run's length and leaves its operators in the scratch array |
| Fusion.PickLen | ggml/src/ggml-metal/ggml-metal-common.cpp:403-408 | the countdown loop computes the chosen length for the run's operators |
| Fusion.ScanUnit | ggml/src/ggml-metal/ggml-metal-common.cpp:386-408 | the scan at node i yields the length of the unit the pass opens there |
| Fusion.CollectUnit | ggml/src/ggml-metal/ggml-metal-common.cpp:410-416 | the unit is node i0 with the next f-1 nodes fused, and the index ends at the group's last node |
| Fusion.NextUnit | ggml/src/ggml-metal/ggml-metal-common.cpp:384-419 | one round of the fusion loop yields the unit the table opens at node i and the node after it |
| Fusion.FuseNodes | ggml/src/ggml-metal/ggml-metal-common.cpp:372-420 | the fusion loop builds exactly the units of `FuseAll` |
| Optimize.ExpandConcat | ggml/src/ggml-metal/ggml-metal-common.cpp:435-443 | the unfuse output of two orders in a row is the two outputs concatenated |
| Optimize.ExpandGroup | ggml/src/ggml-metal/ggml-metal-common.cpp:435-443 | each unit appears contiguously, at the offset of the units before it, as its primary followed by its fused tensors |
| Optimize.ExpandIota | ggml/src/ggml-metal/ggml-metal-common.cpp:435-443 | in the identity order the output is the units' tensors in their own order |
| Optimize.ExpandMultiset | ggml/src/ggml-metal/ggml-metal-common.cpp:435-443 | two orders with the same units produce the same multiset of tensors |
| Optimize.PermutationMultiset | ggml/src/ggml-metal/ggml-metal-common.cpp:424 | a permutation order has the multiset of the identity order |
| Optimize.Unfuse | ggml/src/ggml-metal/ggml-metal-common.cpp:433-444 | the array's prefix becomes the units' tensors in order, and the rest is unchanged |
| Optimize.WriteUnit | ggml/src/ggml-metal/ggml-metal-common.cpp:436-442 | one unit's tensors are written from position j on, and nothing else changes |
| Optimize.FusedNodesValid | ggml/src/ggml-metal/ggml-metal-common.cpp:378-420 | every fused unit names tensors of the graph |
| Optimize.ReorderedExpansion | ggml/src/ggml-metal/ggml-metal-common.cpp:422-444 | writing the units back in any permutation order gives a permutation of the node array, of the same length |
| Optimize.GraphOptimize | ggml/src/ggml-metal/ggml-metal-common.cpp:365-445 | the node array becomes the fused units in the reorder's order and is a permutation of the original; the order meets every guarantee of the reorder: bounded, hazard-free and barrier-free inversions, hazard-free batches, batches opened only by units that touch memory and conflict with the batch before, and overtaking only across batches; when no two distinct units conflict, the node array is left unchanged |
| Optimize.NoClashIdentity | ggml/src/ggml-metal/ggml-metal-common.cpp:296-357 | when no two distinct units conflict, an order keeping the reorder's batch promises is one batch, the identity order, and expands to the units' tensors in their own order |

## Left out

- Debug logging in the add, add-src, add-dst and check functions is not modelled. It only
  produces text. The `debug` field is kept but never read.
- `ggml_mem_ranges_free` and the `reserve` calls are not modelled; they only manage memory. A
  new set is a fresh object built by the constructor.
- `ggml_can_fuse` is a parameter `canFuse(i, ops)`. It receives the node index and the run's
  first f operators. The graph it also receives in the source is fixed during the pass, so it
  is left implicit. Its internals are not part of this model.
- `ggml_nbytes` is a given per-tensor field `nbytes`.
- Pointers are natural-number ids. This includes `(uint64_t) tensor->buffer` and the tensor
  pointer used as a placeholder key.
- MemRange.FromTensor: buffer ids and tensor ids share one number space. The source's buffer
  and tensor pointers never coincide. The model may therefore flag an extra conflict when a
  buffer id equals an unallocated base's index, so it is only more conservative.
- MemRange.FromTensor: `data + nbytes` is computed on unbounded integers. 64-bit wrap-around of
  the end address is not modelled.
- Every `GGML_ASSERT` is a precondition. Pool well-formedness covers a tensor's base not being
  a view, and every source and node id being a tensor of the pool.
- The disabled `#else` branch (identity order, lines 425-430) is not modelled.
  `Optimize.ExpandIota` still states what the identity order would produce.
- Reorder.ReorderNodes: `batchOf` is a ghost output that records the batch of each placed unit.
  The source keeps no such record; batches exist there only as the contents of `mrs0` between
  resets.
- `h_safe` and `is_empty` are plain predicates (`Schedule.HSafe`, `NodeInfo.IsEmpty`). Their
  effect is stated through the reorder's guarantees.
- The graph's node count is the length of the node array. The separate `n_nodes` field of
  `ggml_cgraph` is not modelled.
