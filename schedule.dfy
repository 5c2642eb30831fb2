/** The scheduling logic of the reorder (ggml_metal_graph_optimize_reorder), stated over two
    tables indexed by unit: `ops[i]`, the operator of unit i, and `fps[i]`, the ranges that
    h_add records for unit i (its footprint).  The reorder module builds both tables from
    the graph. */
module Schedule {
  import opened Graph
  import opened MemRange
  import opened NodeInfo

  /** How far the lookahead reaches: candidates i1 satisfy i0 < i1 < i0 + N_FORWARD. */
  const N_FORWARD: nat := 8

  /** h_safe: the operators the scheduler may move across; every other operator is a
      barrier for the lookahead. */
  predicate HSafe(op: Op)
  {
    || op == MUL_MAT || op == MUL_MAT_ID || op == ROPE || op == NORM || op == RMS_NORM
    || op == GROUP_NORM || op == SUM_ROWS || op == MUL || op == ADD || op == DIV
    || op == GLU || op == SCALE || op == GET_ROWS
    || IsEmpty(op)
  }

  predicate Distinct(s: seq<nat>)
  {
    forall k, k' :: 0 <= k < k' < |s| ==> s[k] != s[k']
  }

  /** `s` lists each of 0 .. n-1 exactly once. */
  predicate IsPermutation(s: seq<nat>, n: nat)
  {
    |s| == n && IndicesBelow(s, n) && Distinct(s)
  }

  /** Unit `later` conflicts with unit `earlier`: some range of later's footprint conflicts
      with some range of earlier's. */
  predicate Clash(fps: seq<seq<Range>>, later: nat, earlier: nat)
    requires later < |fps| && earlier < |fps|
  {
    !AllClear(fps[earlier], fps[later])
  }

  /** The concatenated footprints of the units `idxs`, in that order. */
  function Footprints(fps: seq<seq<Range>>, idxs: seq<nat>): seq<Range>
    requires IndicesBelow(idxs, |fps|)
  {
    if idxs == [] then []
    else Footprints(fps, idxs[..|idxs| - 1]) + fps[idxs[|idxs| - 1]]
  }

  lemma FootprintsSnoc(fps: seq<seq<Range>>, idxs: seq<nat>, x: nat)
    requires IndicesBelow(idxs, |fps|) && x < |fps|
    ensures IndicesBelow(idxs + [x], |fps|)
    ensures Footprints(fps, idxs + [x]) == Footprints(fps, idxs) + fps[x]
  {
    assert (idxs + [x])[..|idxs|] == idxs;
  }

  /** A footprint is clear of a set of units' ranges exactly when it is clear of each unit's. */
  lemma {:induction false} FootprintsClear(fps: seq<seq<Range>>, idxs: seq<nat>, fp: seq<Range>)
    requires IndicesBelow(idxs, |fps|)
    ensures AllClear(Footprints(fps, idxs), fp) <==> forall k :: 0 <= k < |idxs| ==> AllClear(fps[idxs[k]], fp)
  {
    if idxs != [] {
      var init := idxs[..|idxs| - 1];
      FootprintsClear(fps, init, fp);
      assert forall k :: 0 <= k < |init| ==> init[k] == idxs[k];
    }
  }

  // What the reorder promises about its result.

  /** A unit placed before an originally earlier unit was at most N_FORWARD - 1 positions after it. */
  predicate InversionsBounded(res: seq<nat>)
  {
    forall k, k' :: 0 <= k < k' < |res| && res[k] > res[k'] ==> res[k] < res[k'] + N_FORWARD
  }

  /** A unit placed before an originally earlier unit does not conflict with it. */
  predicate InversionsHazardFree(fps: seq<seq<Range>>, res: seq<nat>)
    requires IndicesBelow(res, |fps|)
  {
    forall k, k' :: 0 <= k < k' < |res| && res[k] > res[k'] ==> !Clash(fps, res[k], res[k'])
  }

  /** A unit placed before an originally earlier unit is itself reorderable, and so is every
      unit strictly between the two in the original order. */
  predicate InversionsCrossNoBarrier(ops: seq<Op>, res: seq<nat>)
    requires IndicesBelow(res, |ops|)
  {
    forall k, k' :: 0 <= k < k' < |res| && res[k] > res[k'] ==>
      HSafe(ops[res[k]]) && forall u :: res[k'] < u < res[k] ==> HSafe(ops[u])
  }

  /** Within one batch, every unit that touches memory is clear of the units placed before it. */
  predicate BatchesHazardFree(ops: seq<Op>, fps: seq<seq<Range>>, res: seq<nat>, batchOf: seq<nat>)
    requires |ops| == |fps| && IndicesBelow(res, |fps|) && |batchOf| == |res|
  {
    forall k, k' :: 0 <= k < k' < |res| && batchOf[k] == batchOf[k'] && !IsEmpty(ops[res[k']]) ==>
      !Clash(fps, res[k'], res[k])
  }

  /** Batches are numbered 0, 1, ... along the result, and a new batch never starts at a
      metadata-only unit. */
  predicate BatchesStartAtEffectingNodes(ops: seq<Op>, res: seq<nat>, batchOf: seq<nat>)
    requires IndicesBelow(res, |ops|) && |batchOf| == |res|
  {
    && (|res| > 0 ==> batchOf[0] == 0)
    && forall k :: 0 < k < |res| ==>
         batchOf[k] == batchOf[k - 1] || (batchOf[k] == batchOf[k - 1] + 1 && !IsEmpty(ops[res[k]]))
  }

  /** A new batch opens only at a unit that conflicts with some unit of the batch before it:
      the pass never closes a batch that the unit could have joined. */
  predicate BatchesOpenOnClash(fps: seq<seq<Range>>, res: seq<nat>, batchOf: seq<nat>)
    requires IndicesBelow(res, |fps|) && |batchOf| == |res|
  {
    forall k :: 0 < k < |res| ==> OpensOnClash(fps, res, batchOf, k)
  }

  /** If position k starts the batch after position k-1's, the unit there conflicts with an
      earlier unit of that previous batch. */
  predicate OpensOnClash(fps: seq<seq<Range>>, res: seq<nat>, batchOf: seq<nat>, k: nat)
    requires IndicesBelow(res, |fps|) && |batchOf| == |res| && 0 < k < |res|
  {
    batchOf[k] == batchOf[k - 1] + 1 ==>
      exists k'' :: 0 <= k'' < k && batchOf[k''] == batchOf[k - 1] && Clash(fps, res[k], res[k''])
  }

  /** A unit placed before an originally earlier unit runs in an earlier batch. */
  predicate InversionsCrossBatches(res: seq<nat>, batchOf: seq<nat>)
    requires |batchOf| == |res|
  {
    forall k, k' :: 0 <= k < k' < |res| && res[k] > res[k'] ==> batchOf[k] < batchOf[k']
  }

  // The bookkeeping the scheduler keeps while it runs.

  /** The two batch-order promises, and every placed unit at or after `lo` (pulled ahead of
      the pivot) sits in a batch before `cur`. */
  ghost predicate Ordered(fps: seq<seq<Range>>, res: seq<nat>, batchOf: seq<nat>, lo: nat, cur: nat)
    requires IndicesBelow(res, |fps|) && |batchOf| == |res|
  {
    && BatchesOpenOnClash(fps, res, batchOf)
    && InversionsCrossBatches(res, batchOf)
    && forall k :: 0 <= k < |res| && res[k] >= lo ==> batchOf[k] < cur
  }

  /** Each index is placed at most once, and placed exactly when it is below the pivot `i0`
      or has been marked used. */
  ghost predicate Placement(res: seq<nat>, used: seq<bool>, i0: nat, n: nat)
  {
    && |used| == n && IndicesBelow(res, n) && Distinct(res)
    && forall j :: 0 <= j < n ==> (j in res <==> (j < i0 || used[j]))
  }

  ghost predicate Sound(ops: seq<Op>, fps: seq<seq<Range>>, res: seq<nat>)
    requires |ops| == |fps| && IndicesBelow(res, |fps|)
  {
    InversionsBounded(res) && InversionsHazardFree(fps, res) && InversionsCrossNoBarrier(ops, res)
  }

  /** Every unit from `lo` up to (not including) `hi` is reorderable. */
  predicate SafeFrom(ops: seq<Op>, fps: seq<seq<Range>>, lo: nat, hi: nat)
    requires |ops| == |fps| && hi <= |fps|
  {
    forall u :: lo <= u < hi ==> HSafe(ops[u])
  }

  /** Every placed unit is clear of each unplaced unit from `lo` up to it. */
  ghost predicate AheadClear(ops: seq<Op>, fps: seq<seq<Range>>, res: seq<nat>, used: seq<bool>, lo: nat)
    requires |ops| == |fps| && IndicesBelow(res, |fps|) && |used| == |fps|
  {
    forall k, a :: 0 <= k < |res| && lo <= a < res[k] && !used[a] ==> !Clash(fps, res[k], a)
  }

  /** Every placed unit at or after `lo` is reorderable, and so is every unit from `lo` up to it. */
  ghost predicate AheadSafe(ops: seq<Op>, fps: seq<seq<Range>>, res: seq<nat>, lo: nat)
    requires |ops| == |fps| && IndicesBelow(res, |fps|)
  {
    forall k :: 0 <= k < |res| && res[k] >= lo ==> HSafe(ops[res[k]]) && SafeFrom(ops, fps, lo, res[k])
  }

  /** Every unplaced unit from `i0` up to `i1` stays behind the pivot: it is listed in `pending`. */
  predicate Covered(used: seq<bool>, pending: seq<nat>, i0: nat, i1: nat)
    requires i1 <= |used|
  {
    forall a :: i0 <= a < i1 && !used[a] ==> a in pending
  }

  /** Batch numbers never exceed `cur`, and exactly the entries from `bstart` on are in batch `cur`. */
  predicate Numbered(batchOf: seq<nat>, bstart: nat, cur: nat)
  {
    && bstart <= |batchOf|
    && (|batchOf| == 0 ==> cur == 0)
    && forall k :: 0 <= k < |batchOf| ==> batchOf[k] <= cur && (batchOf[k] == cur <==> k >= bstart)
  }

  /** `batch` (the contents of mrs0) holds the footprints of res[bstart..], the batch numbered `cur`. */
  ghost predicate Batches(ops: seq<Op>, fps: seq<seq<Range>>, res: seq<nat>, batchOf: seq<nat>,
                          bstart: nat, cur: nat, batch: seq<Range>)
    requires |ops| == |fps| && IndicesBelow(res, |fps|)
  {
    && |batchOf| == |res| && Numbered(batchOf, bstart, cur)
    && batch == Footprints(fps, res[bstart..])
    && BatchesHazardFree(ops, fps, res, batchOf)
    && BatchesStartAtEffectingNodes(ops, res, batchOf)
  }

  /** The state at the head of the pivot loop (index i0). */
  ghost predicate PivotInv(ops: seq<Op>, fps: seq<seq<Range>>, res: seq<nat>, used: seq<bool>, i0: nat,
                           batchOf: seq<nat>, bstart: nat, cur: nat, batch: seq<Range>)
    requires |ops| == |fps|
  {
    && i0 <= |fps|
    && Placement(res, used, i0, |fps|)
    && IndicesBelow(res, i0 + N_FORWARD - 1)
    && Sound(ops, fps, res)
    && AheadClear(ops, fps, res, used, i0)
    && AheadSafe(ops, fps, res, i0)
    && Batches(ops, fps, res, batchOf, bstart, cur, batch)
    && (|res| == 0 || bstart < |res|)
    && Ordered(fps, res, batchOf, i0, cur)
  }

  /** The state at the head of the lookahead loop for pivot i0 (candidate i1); `pend` (the
      contents of mrs1) holds the footprints of `pending`. */
  ghost predicate LookaheadInv(ops: seq<Op>, fps: seq<seq<Range>>, res: seq<nat>, used: seq<bool>,
                               i0: nat, i1: nat, pending: seq<nat>, pend: seq<Range>,
                               batchOf: seq<nat>, bstart: nat, cur: nat, batch: seq<Range>)
    requires |ops| == |fps|
  {
    && i0 < i1 <= |fps| && i1 <= i0 + N_FORWARD
    && Placement(res, used, i0, |fps|) && !used[i0]
    && IndicesBelow(res, i0 + N_FORWARD)
    && Sound(ops, fps, res)
    && AheadClear(ops, fps, res, used, i0)
    && AheadSafe(ops, fps, res, i0 + 1)
    && SafeFrom(ops, fps, i0 + 1, i1)
    && IndicesBelow(pending, |fps|)
    && pend == Footprints(fps, pending)
    && Covered(used, pending, i0, i1)
    && Batches(ops, fps, res, batchOf, bstart, cur, batch)
    && bstart < |res|
    && Ordered(fps, res, batchOf, i1, cur)
    && !AllClear(batch, fps[i0])
  }

  // The steps of ReorderNodes, one lemma each, built from the small lemmas after them.

  /** Before the first pivot nothing is placed and the first batch is empty. */
  lemma StartReorder(ops: seq<Op>, fps: seq<seq<Range>>)
    requires |ops| == |fps|
    ensures PivotInv(ops, fps, [], seq(|fps|, _ => false), 0, [], 0, 0, [])
  {
  }

  /** After the last pivot every unit is placed, and what the reorder promises holds. */
  lemma FinishReorder(ops: seq<Op>, fps: seq<seq<Range>>, res: seq<nat>, used: seq<bool>,
                      batchOf: seq<nat>, bstart: nat, cur: nat, batch: seq<Range>)
    requires |ops| == |fps|
    requires PivotInv(ops, fps, res, used, |fps|, batchOf, bstart, cur, batch)
    ensures IsPermutation(res, |fps|)
    ensures InversionsBounded(res)
    ensures InversionsHazardFree(fps, res)
    ensures InversionsCrossNoBarrier(ops, res)
    ensures |batchOf| == |res|
    ensures BatchesHazardFree(ops, fps, res, batchOf)
    ensures BatchesStartAtEffectingNodes(ops, res, batchOf)
    ensures BatchesOpenOnClash(fps, res, batchOf)
    ensures InversionsCrossBatches(res, batchOf)
  {
    PermutationFromCover(res, |fps|);
  }

  lemma SkipUsedPivot(ops: seq<Op>, fps: seq<seq<Range>>, res: seq<nat>, used: seq<bool>, i0: nat,
                      batchOf: seq<nat>, bstart: nat, cur: nat, batch: seq<Range>)
    requires |ops| == |fps|
    requires PivotInv(ops, fps, res, used, i0, batchOf, bstart, cur, batch)
    requires i0 < |fps| && used[i0]
    ensures PivotInv(ops, fps, res, used, i0 + 1, batchOf, bstart, cur, batch)
  {
    PlacementSkip(res, used, i0, |fps|);
    BelowWiden(res, i0 + N_FORWARD - 1, i0 + N_FORWARD);
    AheadClearRaise(ops, fps, res, used, i0);
    AheadSafeRaise(ops, fps, res, i0);
  }

  lemma StartLookahead(ops: seq<Op>, fps: seq<seq<Range>>, res: seq<nat>, used: seq<bool>, i0: nat,
                       batchOf: seq<nat>, bstart: nat, cur: nat, batch: seq<Range>)
    requires |ops| == |fps|
    requires PivotInv(ops, fps, res, used, i0, batchOf, bstart, cur, batch)
    requires i0 < |fps| && !used[i0] && !AllClear(batch, fps[i0])
    ensures LookaheadInv(ops, fps, res, used, i0, i0 + 1, [i0], fps[i0], batchOf, bstart, cur, batch)
  {
    BelowWiden(res, i0 + N_FORWARD - 1, i0 + N_FORWARD);
    AheadSafeRaise(ops, fps, res, i0);
    assert [i0][..0] == [];
    EmptySetNeverConflicts(fps[i0]);
    assert batch != [];
  }

  lemma SkipUsedCandidate(ops: seq<Op>, fps: seq<seq<Range>>, res: seq<nat>, used: seq<bool>,
                          i0: nat, i1: nat, pending: seq<nat>, pend: seq<Range>,
                          batchOf: seq<nat>, bstart: nat, cur: nat, batch: seq<Range>)
    requires |ops| == |fps|
    requires LookaheadInv(ops, fps, res, used, i0, i1, pending, pend, batchOf, bstart, cur, batch)
    requires i1 < |fps| && i1 < i0 + N_FORWARD && used[i1]
    ensures LookaheadInv(ops, fps, res, used, i0, i1 + 1, pending, pend, batchOf, bstart, cur, batch)
  {
    assert i1 in res;
    var k :| 0 <= k < |res| && res[k] == i1;
    SafeFromSnoc(ops, fps, i0 + 1, i1);
  }

  lemma DeferCandidate(ops: seq<Op>, fps: seq<seq<Range>>, res: seq<nat>, used: seq<bool>,
                       i0: nat, i1: nat, pending: seq<nat>, pend: seq<Range>,
                       batchOf: seq<nat>, bstart: nat, cur: nat, batch: seq<Range>)
    requires |ops| == |fps|
    requires LookaheadInv(ops, fps, res, used, i0, i1, pending, pend, batchOf, bstart, cur, batch)
    requires i1 < |fps| && i1 < i0 + N_FORWARD && !used[i1] && HSafe(ops[i1])
    ensures LookaheadInv(ops, fps, res, used, i0, i1 + 1, pending + [i1], pend + fps[i1],
                         batchOf, bstart, cur, batch)
  {
    FootprintsSnoc(fps, pending, i1);
    SafeFromSnoc(ops, fps, i0 + 1, i1);
    CoveredDefer(used, pending, i0, i1);
  }

  lemma PullCandidate(ops: seq<Op>, fps: seq<seq<Range>>, res: seq<nat>, used: seq<bool>,
                      i0: nat, i1: nat, pending: seq<nat>, pend: seq<Range>,
                      batchOf: seq<nat>, bstart: nat, cur: nat, batch: seq<Range>)
    requires |ops| == |fps|
    requires LookaheadInv(ops, fps, res, used, i0, i1, pending, pend, batchOf, bstart, cur, batch)
    requires i1 < |fps| && i1 < i0 + N_FORWARD && !used[i1] && HSafe(ops[i1])
    requires AllClear(pend, fps[i1])
    requires IsEmpty(ops[i1]) || AllClear(batch, fps[i1])
    ensures LookaheadInv(ops, fps, res + [i1], used[i1 := true], i0, i1 + 1, pending, pend,
                         batchOf + [cur], bstart, cur, batch + fps[i1])
  {
    PlacementPull(res, used, i0, |fps|, i1);
    BelowAppend(res, i0 + N_FORWARD, i0 + N_FORWARD, i1);
    Overtaken(ops, fps, res, used, i0 + N_FORWARD, i0, i1);
    AppendSound(ops, fps, res, i1);
    PendingClear(ops, fps, used, pending, i0, i1);
    AheadClearPull(ops, fps, res, used, i0, i1);
    AheadSafeAppend(ops, fps, res, i0 + 1, i1);
    AppendBatch(ops, fps, res, batchOf, bstart, cur, batch, i1);
    SafeFromSnoc(ops, fps, i0 + 1, i1);
    CoveredPull(used, pending, i0, i1);
    OrderedJoin(fps, res, batchOf, i1, cur);
    ClashGrows(batch, fps[i1], fps[i0]);
  }

  lemma PlaceFitting(ops: seq<Op>, fps: seq<seq<Range>>, res: seq<nat>, used: seq<bool>, i0: nat,
                     batchOf: seq<nat>, bstart: nat, cur: nat, batch: seq<Range>)
    requires |ops| == |fps|
    requires PivotInv(ops, fps, res, used, i0, batchOf, bstart, cur, batch)
    requires i0 < |fps| && !used[i0]
    requires IsEmpty(ops[i0]) || AllClear(batch, fps[i0])
    ensures PivotInv(ops, fps, res + [i0], used, i0 + 1, batchOf + [cur], bstart, cur, batch + fps[i0])
  {
    AheadSafeRaise(ops, fps, res, i0);
    PlaceSound(ops, fps, res, used, i0, i0 + N_FORWARD - 1);
    AppendBatch(ops, fps, res, batchOf, bstart, cur, batch, i0);
    OrderedJoin(fps, res, batchOf, i0, cur);
  }

  lemma PlaceAfterLookahead(ops: seq<Op>, fps: seq<seq<Range>>, res: seq<nat>, used: seq<bool>,
                            i0: nat, i1: nat, pending: seq<nat>, pend: seq<Range>,
                            batchOf: seq<nat>, bstart: nat, cur: nat, batch: seq<Range>)
    requires |ops| == |fps|
    requires LookaheadInv(ops, fps, res, used, i0, i1, pending, pend, batchOf, bstart, cur, batch)
    requires !IsEmpty(ops[i0])
    ensures PivotInv(ops, fps, res + [i0], used, i0 + 1, batchOf + [cur + 1], |res|, cur + 1,
                     [] + fps[i0])
  {
    PlaceSound(ops, fps, res, used, i0, i0 + N_FORWARD);
    NewBatch(ops, fps, res, batchOf, bstart, cur, batch);
    EmptySetNeverConflicts(fps[i0]);
    AppendBatch(ops, fps, res, batchOf, |res|, cur + 1, [], i0);
    BatchClash(fps, res, batchOf, bstart, cur, i0);
    OrderedOpen(fps, res, batchOf, i1, cur, i0);
  }

  /** Placing the pivot i0 keeps the placement and every order guarantee. */
  lemma PlaceSound(ops: seq<Op>, fps: seq<seq<Range>>, res: seq<nat>, used: seq<bool>, i0: nat, lim: nat)
    requires |ops| == |fps| && i0 < |fps|
    requires Placement(res, used, i0, |fps|) && !used[i0]
    requires IndicesBelow(res, lim) && lim <= i0 + N_FORWARD
    requires Sound(ops, fps, res) && AheadClear(ops, fps, res, used, i0) && AheadSafe(ops, fps, res, i0 + 1)
    ensures Placement(res + [i0], used, i0 + 1, |fps|) && IndicesBelow(res + [i0], i0 + N_FORWARD)
    ensures Sound(ops, fps, res + [i0])
    ensures AheadClear(ops, fps, res + [i0], used, i0 + 1) && AheadSafe(ops, fps, res + [i0], i0 + 1)
  {
    PlacementPlace(res, used, i0, |fps|);
    BelowAppend(res, lim, i0 + N_FORWARD, i0);
    Overtaken(ops, fps, res, used, lim, i0, i0);
    AppendSound(ops, fps, res, i0);
    AheadClearPlace(ops, fps, res, used, i0);
    AheadSafeAppend(ops, fps, res, i0 + 1, i0);
  }

  /** Resetting mrs0 closes the current batch and opens the next, still empty, one. */
  lemma NewBatch(ops: seq<Op>, fps: seq<seq<Range>>, res: seq<nat>, batchOf: seq<nat>,
                 bstart: nat, cur: nat, batch: seq<Range>)
    requires |ops| == |fps| && IndicesBelow(res, |fps|)
    requires Batches(ops, fps, res, batchOf, bstart, cur, batch) && bstart < |res|
    ensures Batches(ops, fps, res, batchOf, |res|, cur + 1, [])
    ensures batchOf[|res| - 1] + 1 == cur + 1
  {
    CloseBatch(batchOf, bstart, cur);
    assert res[|res|..] == [];
  }

  // The batch order under an append.

  /** The unit `x`, not before any unit pulled ahead, joins the current batch `cur`. */
  lemma OrderedJoin(fps: seq<seq<Range>>, res: seq<nat>, batchOf: seq<nat>, x: nat, cur: nat)
    requires IndicesBelow(res, |fps|) && |batchOf| == |res| && x < |fps|
    requires Ordered(fps, res, batchOf, x, cur)
    requires |res| > 0 ==> batchOf[|res| - 1] == cur
    ensures IndicesBelow(res + [x], |fps|)
    ensures Ordered(fps, res + [x], batchOf + [cur], x + 1, cur)
  {
    var r, b := res + [x], batchOf + [cur];
    assert forall k :: 0 <= k < |res| ==> r[k] == res[k] && b[k] == batchOf[k];
    forall k | 0 < k < |r| && b[k] == b[k - 1] + 1 ensures OpensOnClash(fps, r, b, k) {
      assert OpensOnClash(fps, res, batchOf, k);
      var k'' :| 0 <= k'' < k && batchOf[k''] == batchOf[k - 1] && Clash(fps, res[k], res[k'']);
      assert b[k''] == b[k - 1] && Clash(fps, r[k], r[k'']);
    }
  }

  /** The unit `x` opens batch cur + 1 after batch `cur`, with which it conflicts. */
  lemma OrderedOpen(fps: seq<seq<Range>>, res: seq<nat>, batchOf: seq<nat>, lo: nat, cur: nat, x: nat)
    requires IndicesBelow(res, |fps|) && |batchOf| == |res| && x < |fps|
    requires Ordered(fps, res, batchOf, lo, cur)
    requires |res| > 0 && batchOf[|res| - 1] == cur
    requires forall k :: 0 <= k < |res| ==> batchOf[k] <= cur
    requires exists k'' :: 0 <= k'' < |res| && batchOf[k''] == cur && Clash(fps, x, res[k''])
    ensures IndicesBelow(res + [x], |fps|)
    ensures Ordered(fps, res + [x], batchOf + [cur + 1], x + 1, cur + 1)
  {
    var r, b := res + [x], batchOf + [cur + 1];
    assert forall k :: 0 <= k < |res| ==> r[k] == res[k] && b[k] == batchOf[k];
    forall k | 0 < k < |r| && b[k] == b[k - 1] + 1 ensures OpensOnClash(fps, r, b, k) {
      if k == |res| {
        var k'' :| 0 <= k'' < |res| && batchOf[k''] == cur && Clash(fps, x, res[k'']);
        assert b[k''] == b[k - 1] && Clash(fps, r[k], r[k'']);
      } else {
        assert OpensOnClash(fps, res, batchOf, k);
        var k'' :| 0 <= k'' < k && batchOf[k''] == batchOf[k - 1] && Clash(fps, res[k], res[k'']);
        assert b[k''] == b[k - 1] && Clash(fps, r[k], r[k'']);
      }
    }
  }

  /** A unit that conflicts with mrs0 conflicts with some unit of the current batch. */
  lemma BatchClash(fps: seq<seq<Range>>, res: seq<nat>, batchOf: seq<nat>, bstart: nat, cur: nat, x: nat)
    requires IndicesBelow(res, |fps|) && x < |fps|
    requires |batchOf| == |res| && Numbered(batchOf, bstart, cur)
    requires !AllClear(Footprints(fps, res[bstart..]), fps[x])
    ensures exists k'' :: 0 <= k'' < |res| && batchOf[k''] == cur && Clash(fps, x, res[k''])
  {
    var s := res[bstart..];
    FootprintsClear(fps, s, fps[x]);
    var m :| 0 <= m < |s| && !AllClear(fps[s[m]], fps[x]);
    assert s[m] == res[bstart + m];
    assert batchOf[bstart + m] == cur && Clash(fps, x, res[bstart + m]);
  }

  /** More stored ranges keep a conflict. */
  lemma ClashGrows(rs: seq<Range>, more: seq<Range>, fp: seq<Range>)
    requires !AllClear(rs, fp)
    ensures !AllClear(rs + more, fp)
  {
    var r :| r in fp && !NoConflict(rs, r);
    var c :| c in rs && Conflicts(r, c);
    assert c in rs + more;
  }

  /** When no two distinct units conflict, the reorder keeps the original order: a single
      batch is never closed, so nothing overtakes anything.  (A unit that writes memory always
      conflicts with itself, so the premise is about distinct units.) */
  lemma {:induction false} NoClashKeepsOrder(ops: seq<Op>, fps: seq<seq<Range>>, res: seq<nat>, batchOf: seq<nat>)
    requires |ops| == |fps| && IsPermutation(res, |fps|) && |batchOf| == |res|
    requires BatchesStartAtEffectingNodes(ops, res, batchOf)
    requires BatchesOpenOnClash(fps, res, batchOf) && InversionsCrossBatches(res, batchOf)
    requires forall a, b :: 0 <= a < |fps| && 0 <= b < |fps| && a != b ==> !Clash(fps, a, b)
    ensures forall k :: 0 <= k < |res| ==> batchOf[k] == 0
    ensures forall k :: 0 <= k < |res| ==> res[k] == k
  {
    var n := |res|;
    forall k | 0 <= k < n ensures batchOf[k] == 0 {
      SingleBatch(ops, fps, res, batchOf, k);
    }
    assert forall k, k' :: 0 <= k < k' < n ==> res[k] < res[k'];
    IncreasingIsIdentity(res, n);
  }

  /** With no two distinct units conflicting, no batch after the first is ever opened. */
  lemma {:induction false} SingleBatch(ops: seq<Op>, fps: seq<seq<Range>>, res: seq<nat>, batchOf: seq<nat>, k: nat)
    requires |ops| == |fps| && IndicesBelow(res, |fps|) && Distinct(res) && |batchOf| == |res| && k < |res|
    requires BatchesStartAtEffectingNodes(ops, res, batchOf) && BatchesOpenOnClash(fps, res, batchOf)
    requires forall a, b :: 0 <= a < |fps| && 0 <= b < |fps| && a != b ==> !Clash(fps, a, b)
    ensures batchOf[k] == 0
  {
    if k > 0 {
      SingleBatch(ops, fps, res, batchOf, k - 1);
      assert OpensOnClash(fps, res, batchOf, k);
    }
  }

  /** A strictly increasing list of n indices below n is 0, 1, .., n-1. */
  lemma IncreasingIsIdentity(s: seq<nat>, n: nat)
    requires |s| == n && IndicesBelow(s, n)
    requires forall k, k' :: 0 <= k < k' < n ==> s[k] < s[k']
    ensures forall k :: 0 <= k < n ==> s[k] == k
  {
    forall k | 0 <= k < n ensures s[k] == k {
      AtLeastIndex(s, k);
      AtMostIndex(s, n, k);
    }
  }

  lemma {:induction false} AtLeastIndex(s: seq<nat>, k: nat)
    requires k < |s| && forall i, j :: 0 <= i < j < |s| ==> s[i] < s[j]
    ensures s[k] >= k
  {
    if k > 0 {
      AtLeastIndex(s, k - 1);
    }
  }

  lemma {:induction false} AtMostIndex(s: seq<nat>, n: nat, k: nat)
    requires |s| == n && k < n && IndicesBelow(s, n) && forall i, j :: 0 <= i < j < |s| ==> s[i] < s[j]
    ensures s[k] <= k
    decreases n - k
  {
    if k < n - 1 {
      AtMostIndex(s, n, k + 1);
    }
  }

  // Placement, windows and the lookahead's reach.

  lemma PlacementSkip(res: seq<nat>, used: seq<bool>, i0: nat, n: nat)
    requires Placement(res, used, i0, n) && i0 < n && used[i0]
    ensures Placement(res, used, i0 + 1, n)
  {
  }

  lemma PlacementPlace(res: seq<nat>, used: seq<bool>, i0: nat, n: nat)
    requires Placement(res, used, i0, n) && i0 < n && !used[i0]
    ensures Placement(res + [i0], used, i0 + 1, n)
  {
    var r := res + [i0];
    assert forall k :: 0 <= k < |res| ==> r[k] == res[k];
    assert i0 !in res;
    forall j | 0 <= j < n ensures j in r <==> (j < i0 + 1 || used[j]) {
      assert j in r <==> (j in res || j == i0);
    }
  }

  lemma PlacementPull(res: seq<nat>, used: seq<bool>, i0: nat, n: nat, x: nat)
    requires Placement(res, used, i0, n) && i0 <= x < n && !used[x]
    ensures Placement(res + [x], used[x := true], i0, n)
  {
    var r := res + [x];
    assert forall k :: 0 <= k < |res| ==> r[k] == res[k];
    assert x !in res;
    forall j | 0 <= j < n ensures j in r <==> (j < i0 || used[x := true][j]) {
      assert j in r <==> (j in res || j == x);
    }
  }

  lemma BelowWiden(res: seq<nat>, lim: nat, lim': nat)
    requires IndicesBelow(res, lim) && lim <= lim'
    ensures IndicesBelow(res, lim')
  {
  }

  lemma BelowAppend(res: seq<nat>, lim: nat, lim': nat, x: nat)
    requires IndicesBelow(res, lim) && lim <= lim' && x < lim'
    ensures IndicesBelow(res + [x], lim')
  {
    var r := res + [x];
    assert forall k :: 0 <= k < |res| ==> r[k] == res[k];
  }

  lemma SafeFromSnoc(ops: seq<Op>, fps: seq<seq<Range>>, lo: nat, hi: nat)
    requires |ops| == |fps| && hi < |fps|
    requires SafeFrom(ops, fps, lo, hi) && HSafe(ops[hi])
    ensures SafeFrom(ops, fps, lo, hi + 1)
  {
  }

  lemma CoveredDefer(used: seq<bool>, pending: seq<nat>, i0: nat, i1: nat)
    requires i1 < |used| && Covered(used, pending, i0, i1)
    ensures Covered(used, pending + [i1], i0, i1 + 1)
  {
    forall a | i0 <= a < i1 + 1 && !used[a] ensures a in pending + [i1] {
      if a < i1 {
        assert a in pending;
      }
    }
  }

  lemma CoveredPull(used: seq<bool>, pending: seq<nat>, i0: nat, i1: nat)
    requires i1 < |used| && Covered(used, pending, i0, i1)
    ensures Covered(used[i1 := true], pending, i0, i1 + 1)
  {
  }

  lemma AheadClearRaise(ops: seq<Op>, fps: seq<seq<Range>>, res: seq<nat>, used: seq<bool>, lo: nat)
    requires |ops| == |fps| && IndicesBelow(res, |fps|) && |used| == |fps|
    requires AheadClear(ops, fps, res, used, lo)
    ensures AheadClear(ops, fps, res, used, lo + 1)
  {
  }

  lemma AheadClearPlace(ops: seq<Op>, fps: seq<seq<Range>>, res: seq<nat>, used: seq<bool>, i0: nat)
    requires |ops| == |fps| && IndicesBelow(res, |fps|) && |used| == |fps|
    requires i0 < |fps| && AheadClear(ops, fps, res, used, i0)
    ensures IndicesBelow(res + [i0], |fps|)
    ensures AheadClear(ops, fps, res + [i0], used, i0 + 1)
  {
    var r := res + [i0];
    assert forall k :: 0 <= k < |res| ==> r[k] == res[k];
  }

  lemma AheadClearPull(ops: seq<Op>, fps: seq<seq<Range>>, res: seq<nat>, used: seq<bool>, lo: nat, x: nat)
    requires |ops| == |fps| && IndicesBelow(res, |fps|) && |used| == |fps|
    requires lo <= x < |fps| && AheadClear(ops, fps, res, used, lo)
    requires forall a :: lo <= a < x && !used[a] ==> !Clash(fps, x, a)
    ensures IndicesBelow(res + [x], |fps|)
    ensures AheadClear(ops, fps, res + [x], used[x := true], lo)
  {
    var r := res + [x];
    assert forall k :: 0 <= k < |res| ==> r[k] == res[k];
  }

  lemma AheadSafeRaise(ops: seq<Op>, fps: seq<seq<Range>>, res: seq<nat>, lo: nat)
    requires |ops| == |fps| && IndicesBelow(res, |fps|)
    requires AheadSafe(ops, fps, res, lo)
    ensures AheadSafe(ops, fps, res, lo + 1)
  {
  }

  lemma AheadSafeAppend(ops: seq<Op>, fps: seq<seq<Range>>, res: seq<nat>, lo: nat, x: nat)
    requires |ops| == |fps| && IndicesBelow(res, |fps|) && x < |fps|
    requires AheadSafe(ops, fps, res, lo)
    requires x >= lo ==> HSafe(ops[x]) && SafeFrom(ops, fps, lo, x)
    ensures IndicesBelow(res + [x], |fps|)
    ensures AheadSafe(ops, fps, res + [x], lo)
  {
    var r := res + [x];
    assert forall k :: 0 <= k < |res| ==> r[k] == res[k];
  }

  /** Every unit placed before `x` with a larger original index is close enough to `x`, is
      clear of it, and is separated from it by reorderable units only. */
  ghost predicate Overtakers(ops: seq<Op>, fps: seq<seq<Range>>, res: seq<nat>, x: nat)
    requires |ops| == |fps| && IndicesBelow(res, |fps|) && x < |fps|
  {
    forall k :: 0 <= k < |res| && res[k] > x ==>
      && res[k] < x + N_FORWARD
      && !Clash(fps, res[k], x)
      && HSafe(ops[res[k]])
      && SafeFrom(ops, fps, x + 1, res[k])
  }

  lemma Overtaken(ops: seq<Op>, fps: seq<seq<Range>>, res: seq<nat>, used: seq<bool>, lim: nat, lo: nat, x: nat)
    requires |ops| == |fps| && IndicesBelow(res, |fps|) && |used| == |fps|
    requires lo <= x < |fps| && !used[x]
    requires IndicesBelow(res, lim) && lim <= x + N_FORWARD
    requires AheadClear(ops, fps, res, used, lo) && AheadSafe(ops, fps, res, lo + 1)
    ensures Overtakers(ops, fps, res, x)
  {
    forall k | 0 <= k < |res| && res[k] > x ensures SafeFrom(ops, fps, x + 1, res[k]) {
      assert SafeFrom(ops, fps, lo + 1, res[k]);
    }
  }

  // The inversion properties under an append.

  lemma AppendSound(ops: seq<Op>, fps: seq<seq<Range>>, res: seq<nat>, x: nat)
    requires |ops| == |fps| && IndicesBelow(res, |fps|) && x < |fps|
    requires Sound(ops, fps, res) && Overtakers(ops, fps, res, x)
    ensures IndicesBelow(res + [x], |fps|)
    ensures Sound(ops, fps, res + [x])
  {
    AppendBounded(ops, fps, res, x);
    AppendHazardFree(ops, fps, res, x);
    AppendNoBarrier(ops, fps, res, x);
  }

  lemma AppendBounded(ops: seq<Op>, fps: seq<seq<Range>>, res: seq<nat>, x: nat)
    requires |ops| == |fps| && IndicesBelow(res, |fps|) && x < |fps|
    requires InversionsBounded(res) && Overtakers(ops, fps, res, x)
    ensures InversionsBounded(res + [x])
  {
    var r := res + [x];
    assert forall k :: 0 <= k < |res| ==> r[k] == res[k];
  }

  lemma AppendHazardFree(ops: seq<Op>, fps: seq<seq<Range>>, res: seq<nat>, x: nat)
    requires |ops| == |fps| && IndicesBelow(res, |fps|) && x < |fps|
    requires InversionsHazardFree(fps, res) && Overtakers(ops, fps, res, x)
    ensures IndicesBelow(res + [x], |fps|)
    ensures InversionsHazardFree(fps, res + [x])
  {
    var r := res + [x];
    assert forall k :: 0 <= k < |res| ==> r[k] == res[k];
  }

  lemma AppendNoBarrier(ops: seq<Op>, fps: seq<seq<Range>>, res: seq<nat>, x: nat)
    requires |ops| == |fps| && IndicesBelow(res, |fps|) && x < |fps|
    requires InversionsCrossNoBarrier(ops, res) && Overtakers(ops, fps, res, x)
    ensures IndicesBelow(res + [x], |fps|)
    ensures InversionsCrossNoBarrier(ops, res + [x])
  {
    var r := res + [x];
    assert forall k :: 0 <= k < |res| ==> r[k] == res[k];
    forall k, k' | 0 <= k < k' < |r| && r[k] > r[k']
      ensures HSafe(ops[r[k]]) && forall u :: r[k'] < u < r[k] ==> HSafe(ops[u])
    {
      if k' == |res| {
        assert SafeFrom(ops, fps, x + 1, res[k]);
      }
    }
  }

  // Batches under an append and a reset.

  /** The unit `x` joins the current batch: it is metadata-only or clear of the batch, and
      it may open the batch only when it touches memory. */
  lemma AppendBatch(ops: seq<Op>, fps: seq<seq<Range>>, res: seq<nat>, batchOf: seq<nat>,
                    bstart: nat, cur: nat, batch: seq<Range>, x: nat)
    requires |ops| == |fps| && IndicesBelow(res, |fps|) && x < |fps|
    requires Batches(ops, fps, res, batchOf, bstart, cur, batch)
    requires |res| > 0 && bstart == |res| ==> batchOf[|res| - 1] + 1 == cur && !IsEmpty(ops[x])
    requires !IsEmpty(ops[x]) ==> AllClear(batch, fps[x])
    ensures IndicesBelow(res + [x], |fps|)
    ensures Batches(ops, fps, res + [x], batchOf + [cur], bstart, cur, batch + fps[x])
  {
    AppendNumbering(ops, fps, res, batchOf, bstart, cur, x);
    AppendBatchClear(ops, fps, res, batchOf, bstart, cur, batch, x);
  }

  lemma AppendNumbering(ops: seq<Op>, fps: seq<seq<Range>>, res: seq<nat>, batchOf: seq<nat>,
                        bstart: nat, cur: nat, x: nat)
    requires |ops| == |fps| && IndicesBelow(res, |fps|) && x < |fps|
    requires |batchOf| == |res| && Numbered(batchOf, bstart, cur)
    requires BatchesStartAtEffectingNodes(ops, res, batchOf)
    requires |res| > 0 && bstart == |res| ==> batchOf[|res| - 1] + 1 == cur && !IsEmpty(ops[x])
    ensures IndicesBelow(res + [x], |fps|)
    ensures Numbered(batchOf + [cur], bstart, cur)
    ensures BatchesStartAtEffectingNodes(ops, res + [x], batchOf + [cur])
  {
    var r := res + [x];
    var b := batchOf + [cur];
    assert forall k :: 0 <= k < |res| ==> r[k] == res[k] && b[k] == batchOf[k];
    if |res| > 0 && bstart < |res| {
      assert batchOf[|res| - 1] == cur;
    }
  }

  lemma AppendBatchClear(ops: seq<Op>, fps: seq<seq<Range>>, res: seq<nat>, batchOf: seq<nat>,
                         bstart: nat, cur: nat, batch: seq<Range>, x: nat)
    requires |ops| == |fps| && IndicesBelow(res, |fps|) && x < |fps|
    requires |batchOf| == |res| && Numbered(batchOf, bstart, cur)
    requires batch == Footprints(fps, res[bstart..])
    requires BatchesHazardFree(ops, fps, res, batchOf)
    requires !IsEmpty(ops[x]) ==> AllClear(batch, fps[x])
    ensures IndicesBelow(res + [x], |fps|)
    ensures batch + fps[x] == Footprints(fps, (res + [x])[bstart..])
    ensures BatchesHazardFree(ops, fps, res + [x], batchOf + [cur])
  {
    BatchSnoc(fps, res, bstart, x);
    if !IsEmpty(ops[x]) {
      BatchMembersClear(fps, res, batchOf, bstart, cur, x);
    }
    HazardFreeSnoc(ops, fps, res, batchOf, cur, x);
  }

  lemma BatchSnoc(fps: seq<seq<Range>>, res: seq<nat>, bstart: nat, x: nat)
    requires IndicesBelow(res, |fps|) && x < |fps| && bstart <= |res|
    ensures IndicesBelow((res + [x])[bstart..], |fps|)
    ensures Footprints(fps, (res + [x])[bstart..]) == Footprints(fps, res[bstart..]) + fps[x]
  {
    assert (res + [x])[bstart..] == res[bstart..] + [x];
    FootprintsSnoc(fps, res[bstart..], x);
  }

  /** A unit clear of the current batch's footprints is clear of each unit in that batch. */
  lemma BatchMembersClear(fps: seq<seq<Range>>, res: seq<nat>, batchOf: seq<nat>, bstart: nat, cur: nat, x: nat)
    requires IndicesBelow(res, |fps|) && x < |fps|
    requires |batchOf| == |res| && Numbered(batchOf, bstart, cur)
    requires AllClear(Footprints(fps, res[bstart..]), fps[x])
    ensures forall k :: 0 <= k < |res| && batchOf[k] == cur ==> !Clash(fps, x, res[k])
  {
    var s := res[bstart..];
    FootprintsClear(fps, s, fps[x]);
    forall k | 0 <= k < |res| && batchOf[k] == cur ensures !Clash(fps, x, res[k]) {
      assert s[k - bstart] == res[k];
    }
  }

  lemma HazardFreeSnoc(ops: seq<Op>, fps: seq<seq<Range>>, res: seq<nat>, batchOf: seq<nat>, cur: nat, x: nat)
    requires |ops| == |fps| && IndicesBelow(res, |fps|) && x < |fps| && |batchOf| == |res|
    requires BatchesHazardFree(ops, fps, res, batchOf)
    requires !IsEmpty(ops[x]) ==> forall k :: 0 <= k < |res| && batchOf[k] == cur ==> !Clash(fps, x, res[k])
    ensures IndicesBelow(res + [x], |fps|)
    ensures BatchesHazardFree(ops, fps, res + [x], batchOf + [cur])
  {
    var r := res + [x];
    var b := batchOf + [cur];
    assert forall k :: 0 <= k < |res| ==> r[k] == res[k] && b[k] == batchOf[k];
  }

  lemma CloseBatch(batchOf: seq<nat>, bstart: nat, cur: nat)
    requires Numbered(batchOf, bstart, cur) && bstart < |batchOf|
    ensures Numbered(batchOf, |batchOf|, cur + 1)
    ensures batchOf[|batchOf| - 1] + 1 == cur + 1
  {
  }

  /** A candidate clear of every pending unit's footprint is clear of each unplaced unit
      between the pivot and itself. */
  lemma PendingClear(ops: seq<Op>, fps: seq<seq<Range>>, used: seq<bool>, pending: seq<nat>, i0: nat, i1: nat)
    requires |ops| == |fps| && IndicesBelow(pending, |fps|) && i1 < |fps|
    requires |used| == |fps| && Covered(used, pending, i0, i1)
    requires AllClear(Footprints(fps, pending), fps[i1])
    ensures forall a :: i0 <= a < i1 && !used[a] ==> !Clash(fps, i1, a)
  {
    FootprintsClear(fps, pending, fps[i1]);
    forall a | i0 <= a < i1 && !used[a] ensures !Clash(fps, i1, a) {
      var p :| 0 <= p < |pending| && pending[p] == a;
    }
  }

  /** A duplicate-free list of indices below n that contains all of them has length n. */
  lemma PermutationFromCover(s: seq<nat>, n: nat)
    requires IndicesBelow(s, n) && Distinct(s)
    requires forall j :: 0 <= j < n ==> j in s
    ensures IsPermutation(s, n)
    ensures forall j :: 0 <= j < n ==> j in s
  {
    DistinctCard(s);
    BelowCard(n);
    assert Elems(s) == Below(n);
  }

  /** A permutation of 0 .. n-1 has exactly the elements 0 .. n-1. */
  lemma PermutationElems(s: seq<nat>, n: nat)
    requires IsPermutation(s, n)
    ensures Elems(s) == Below(n)
  {
    DistinctCard(s);
    BelowCard(n);
    assert Elems(s) <= Below(n);
    assert |Below(n) - Elems(s)| == 0;
  }

  function Elems(s: seq<nat>): set<nat>
  {
    set x | x in s
  }

  /** The set {0, .., n-1}. */
  function Below(n: nat): (b: set<nat>)
    ensures forall x: nat :: x in b <==> x < n
  {
    if n == 0 then {} else Below(n - 1) + {n - 1}
  }

  lemma {:induction false} DistinctCard(s: seq<nat>)
    requires Distinct(s)
    ensures |Elems(s)| == |s|
  {
    if s != [] {
      var init := s[..|s| - 1];
      DistinctCard(init);
      assert Elems(s) == Elems(init) + {s[|s| - 1]} by {
        assert s == init + [s[|s| - 1]];
      }
      assert s[|s| - 1] !in Elems(init);
    }
  }

  lemma {:induction false} BelowCard(n: nat)
    ensures |Below(n)| == n
  {
    if n > 0 {
      BelowCard(n - 1);
    }
  }
}
