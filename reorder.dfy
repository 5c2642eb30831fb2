/** The reorder scheduler (ggml_metal_graph_optimize_reorder): a single greedy pass that
    pulls independent units forward into the current concurrent batch, looking at most
    N_FORWARD - 1 units ahead of a unit that conflicts with the batch. */
module Reorder {
  import opened Graph
  import opened MemRange
  import opened NodeInfo
  import opened Schedule

  predicate NodesValid(pool: seq<Tensor>, nodes: seq<NodeInfo>)
  {
    forall k :: 0 <= k < |nodes| ==> NodeValid(pool, nodes[k])
  }

  /** h_add: records the unit's footprint in `mrs`. */
  method HAdd(mrs: Ranges, pool: seq<Tensor>, node: NodeInfo) returns (ok: bool)
    requires WellFormed(pool) && NodeValid(pool, node)
    modifies mrs`ranges
    ensures mrs.ranges == old(mrs.ranges) + Footprint(pool, node)
    ensures ok
  {
    var _ := mrs.AddSrcs(pool, node.node, GGML_MAX_SRC);
    AddFusedSrcs(mrs, pool, node.fused);
    ok := mrs.AddDst(pool, node.Dst());
  }

  /** The part of h_add that records the sources of every fused tensor. */
  method AddFusedSrcs(mrs: Ranges, pool: seq<Tensor>, fs: seq<nat>)
    requires WellFormed(pool) && IndicesBelow(fs, |pool|)
    modifies mrs`ranges
    ensures mrs.ranges == old(mrs.ranges) + FusedSrcRanges(pool, fs)
  {
    var j := 0;
    while j < |fs|
      invariant 0 <= j <= |fs|
      invariant mrs.ranges == old(mrs.ranges) + FusedSrcRanges(pool, fs[..j])
    {
      var _ := mrs.AddSrcs(pool, fs[j], GGML_MAX_SRC);
      assert fs[..j + 1][..j] == fs[..j];
      j := j + 1;
    }
    assert fs[..|fs|] == fs;
  }

  /** h_check: true exactly when no range of the unit's footprint conflicts with `mrs`;
      it stops at the first tensor with a conflicting source. */
  method HCheck(mrs: Ranges, pool: seq<Tensor>, node: NodeInfo) returns (ok: bool)
    requires WellFormed(pool) && NodeValid(pool, node)
    ensures ok == AllClear(mrs.ranges, Footprint(pool, node))
  {
    ok := mrs.CheckSrcs(pool, node.node, GGML_MAX_SRC);
    if !ok {
      return;
    }
    ok := CheckFusedSrcs(mrs, pool, node.fused);
    if !ok {
      return;
    }
    ok := mrs.CheckDst(pool, node.Dst());
  }

  /** The part of h_check that looks at the sources of every fused tensor. */
  method CheckFusedSrcs(mrs: Ranges, pool: seq<Tensor>, fs: seq<nat>) returns (ok: bool)
    requires WellFormed(pool) && IndicesBelow(fs, |pool|)
    ensures ok == AllClear(mrs.ranges, FusedSrcRanges(pool, fs))
  {
    var j := 0;
    while j < |fs|
      invariant 0 <= j <= |fs|
      invariant AllClear(mrs.ranges, FusedSrcRanges(pool, fs[..j]))
    {
      ok := mrs.CheckSrcs(pool, fs[j], GGML_MAX_SRC);
      assert fs[..j + 1][..j] == fs[..j];
      if !ok {
        FusedSrcConflict(mrs.ranges, pool, fs, j);
        return;
      }
      j := j + 1;
    }
    assert fs[..|fs|] == fs;
    ok := true;
  }

  /** One fused tensor whose sources conflict makes all the fused sources conflict. */
  lemma FusedSrcConflict(rs: seq<Range>, pool: seq<Tensor>, fs: seq<nat>, j: nat)
    requires WellFormed(pool) && IndicesBelow(fs, |pool|) && j < |fs|
    requires !AllClear(rs, SrcRanges(pool, fs[j], GGML_MAX_SRC))
    ensures !AllClear(rs, FusedSrcRanges(pool, fs))
  {
    assert fs[..j + 1][..j] == fs[..j];
    FusedSrcRangesPrefix(pool, fs, j + 1);
    ClearOfSuperset(rs, FusedSrcRanges(pool, fs[..j]), SrcRanges(pool, fs[j], GGML_MAX_SRC), FusedSrcRanges(pool, fs));
  }

  /** A list of candidates that holds a conflicting one is not clear either. */
  lemma ClearOfSuperset(rs: seq<Range>, pre: seq<Range>, small: seq<Range>, big: seq<Range>)
    requires !AllClear(rs, small)
    requires pre + small <= big
    ensures !AllClear(rs, big)
  {
    var r :| r in small && !NoConflict(rs, r);
    var i :| 0 <= i < |small| && small[i] == r;
    assert big[|pre| + i] == r;
  }

  lemma {:induction false} FusedSrcRangesPrefix(pool: seq<Tensor>, fs: seq<nat>, j: nat)
    requires WellFormed(pool) && IndicesBelow(fs, |pool|) && j <= |fs|
    ensures FusedSrcRanges(pool, fs[..j]) <= FusedSrcRanges(pool, fs)
  {
    if j < |fs| {
      var init := fs[..|fs| - 1];
      FusedSrcRangesPrefix(pool, init, j);
      assert init[..j] == fs[..j];
    } else {
      assert fs[..j] == fs;
    }
  }

  /** The operator of every unit (node_info::op), indexed like `nodes`. */
  function OpTable(pool: seq<Tensor>, nodes: seq<NodeInfo>): (ops: seq<Op>)
    requires NodesValid(pool, nodes)
    ensures |ops| == |nodes|
    ensures forall i {:trigger nodes[i]} :: 0 <= i < |nodes| ==> ops[i] == pool[nodes[i].node].op
  {
    seq(|nodes|, i requires 0 <= i < |nodes| => OpOf(pool, nodes[i]))
  }

  /** The footprint of every unit, indexed like `nodes`. */
  function FootprintTable(pool: seq<Tensor>, nodes: seq<NodeInfo>): (fps: seq<seq<Range>>)
    requires WellFormed(pool) && NodesValid(pool, nodes)
    ensures |fps| == |nodes|
    ensures forall i {:trigger nodes[i]} :: 0 <= i < |nodes| ==> fps[i] == Footprint(pool, nodes[i])
  {
    seq(|nodes|, i requires 0 <= i < |nodes| => Footprint(pool, nodes[i]))
  }

  /** A unit whose destination is a placeholder or a non-empty buffer range clashes with
      itself, so a no-conflict premise can only speak of distinct units. */
  lemma SelfClash(pool: seq<Tensor>, nodes: seq<NodeInfo>, a: nat)
    requires WellFormed(pool) && NodesValid(pool, nodes) && a < |nodes|
    requires var b := pool[Base(pool, nodes[a].Dst())]; b.alloc.None? || b.nbytes > 0
    ensures Clash(FootprintTable(pool, nodes), a, a)
  {
    var fp := FootprintTable(pool, nodes)[a];
    var d := fp[|fp| - 1];
    assert Conflicts(d, d);
    assert d in fp;
  }

  /** Two units of the table that share buffers only through reads do not clash. */
  lemma ReadOnlySharingNoClash(pool: seq<Tensor>, nodes: seq<NodeInfo>, later: nat, earlier: nat)
    requires WellFormed(pool) && NodesValid(pool, nodes) && later < |nodes| && earlier < |nodes|
    requires forall c :: c in Footprint(pool, nodes[earlier]) ==> c.pb != FromTensor(pool, nodes[later].Dst(), DST).pb
    requires forall r :: r in Footprint(pool, nodes[later]) ==> r.pb != FromTensor(pool, nodes[earlier].Dst(), DST).pb
    ensures !Clash(FootprintTable(pool, nodes), later, earlier)
  {
    ReadOnlySharingIsClear(pool, nodes[later], nodes[earlier]);
  }

  /** ggml_metal_graph_optimize_reorder: the order in which to run the units, as indices into
      `nodes`.  `batchOf[k]` numbers the concurrent batch into which `res[k]` was placed; a
      batch is closed where the source resets mrs0. */
  method ReorderNodes(pool: seq<Tensor>, nodes: seq<NodeInfo>) returns (res: seq<nat>, ghost batchOf: seq<nat>)
    requires WellFormed(pool) && NodesValid(pool, nodes)
    ensures IsPermutation(res, |nodes|)
    ensures InversionsBounded(res)
    ensures InversionsHazardFree(FootprintTable(pool, nodes), res)
    ensures InversionsCrossNoBarrier(OpTable(pool, nodes), res)
    ensures |batchOf| == |res|
    ensures BatchesHazardFree(OpTable(pool, nodes), FootprintTable(pool, nodes), res, batchOf)
    ensures BatchesStartAtEffectingNodes(OpTable(pool, nodes), res, batchOf)
    ensures BatchesOpenOnClash(FootprintTable(pool, nodes), res, batchOf)
    ensures InversionsCrossBatches(res, batchOf)
  {
    ghost var ops := OpTable(pool, nodes);
    ghost var fps := FootprintTable(pool, nodes);
    var n := |nodes|;
    res := [];
    var used := seq(n, _ => false);
    var mrs0 := new Ranges(0);
    var mrs1 := new Ranges(0);
    batchOf := [];
    ghost var bstart: nat := 0;
    ghost var cur: nat := 0;

    StartReorder(ops, fps);
    var i0 := 0;
    while i0 < n
      invariant mrs0 != mrs1
      invariant PivotInv(ops, fps, res, used, i0, batchOf, bstart, cur, mrs0.ranges)
    {
      res, used, batchOf, bstart, cur := PlacePivot(pool, nodes, ops, fps, mrs0, mrs1, res, used, i0, batchOf, bstart, cur);
      i0 := i0 + 1;
    }
    FinishReorder(ops, fps, res, used, batchOf, bstart, cur, mrs0.ranges);
  }

  /** One round of the reorder's outer loop: the pivot i0 is skipped when it was already
      pulled forward; otherwise it joins the current batch, after a lookahead and a new
      batch when it conflicts with the current one. */
  method PlacePivot(pool: seq<Tensor>, nodes: seq<NodeInfo>, ghost ops: seq<Op>, ghost fps: seq<seq<Range>>,
                    mrs0: Ranges, mrs1: Ranges, res0: seq<nat>, used0: seq<bool>, i0: nat,
                    ghost batchOf0: seq<nat>, ghost bstart0: nat, ghost cur0: nat)
    returns (res: seq<nat>, used: seq<bool>, ghost batchOf: seq<nat>, ghost bstart: nat, ghost cur: nat)
    requires WellFormed(pool) && NodesValid(pool, nodes) && mrs0 != mrs1
    requires ops == OpTable(pool, nodes) && fps == FootprintTable(pool, nodes)
    requires PivotInv(ops, fps, res0, used0, i0, batchOf0, bstart0, cur0, mrs0.ranges)
    requires i0 < |nodes|
    modifies mrs0`ranges, mrs1`ranges
    ensures res0 <= res
    ensures PivotInv(ops, fps, res, used, i0 + 1, batchOf, bstart, cur, mrs0.ranges)
    // a pivot already pulled forward is skipped
    ensures used0[i0] ==> res == res0 && used == used0 && cur == cur0 && mrs0.ranges == old(mrs0.ranges)
                          && mrs1.ranges == old(mrs1.ranges)
    // a pivot that fits joins the current batch
    ensures !used0[i0] && (IsEmpty(ops[i0]) || AllClear(old(mrs0.ranges), fps[i0])) ==>
              res == res0 + [i0] && used == used0 && cur == cur0 && mrs0.ranges == old(mrs0.ranges) + fps[i0]
              && mrs1.ranges == old(mrs1.ranges)
    // any other pivot opens a new batch of its own
    ensures !used0[i0] && !(IsEmpty(ops[i0]) || AllClear(old(mrs0.ranges), fps[i0])) ==>
              res == res0 + ScanFrom(ops, fps, used0, i0 + N_FORWARD, i0 + 1, res0[bstart0..], [i0]).pulled + [i0]
              && cur == cur0 + 1 && mrs0.ranges == fps[i0]
  {
    if used0[i0] {
      SkipUsedPivot(ops, fps, res0, used0, i0, batchOf0, bstart0, cur0, mrs0.ranges);
      res, used, batchOf, bstart, cur := res0, used0, batchOf0, bstart0, cur0;
      return;
    }
    // a metadata-only unit always joins the current batch
    var fits := true;
    if !IsEmpty(OpOf(pool, nodes[i0])) {
      fits := HCheck(mrs0, pool, nodes[i0]);
    }
    if fits {
      assert ops[i0] == OpOf(pool, nodes[i0]) && fps[i0] == Footprint(pool, nodes[i0]);
      PlaceFitting(ops, fps, res0, used0, i0, batchOf0, bstart0, cur0, mrs0.ranges);
      var _ := HAdd(mrs0, pool, nodes[i0]);
      res, used, batchOf, bstart, cur := res0 + [i0], used0, batchOf0 + [cur0], bstart0, cur0;
    } else {
      ghost var run := ScanFrom(ops, fps, used0, i0 + N_FORWARD, i0 + 1, res0[bstart0..], [i0]);
      res, used, batchOf, bstart, cur := PlaceConflicting(pool, nodes, ops, fps, mrs0, mrs1, res0, used0, i0, batchOf0, bstart0, cur0, run);
    }
  }

  /** A pivot that conflicts with the current batch: after the lookahead the batch is closed
      and the pivot opens the next one. */
  method PlaceConflicting(pool: seq<Tensor>, nodes: seq<NodeInfo>, ghost ops: seq<Op>, ghost fps: seq<seq<Range>>,
                          mrs0: Ranges, mrs1: Ranges, res0: seq<nat>, used0: seq<bool>, i0: nat,
                          ghost batchOf0: seq<nat>, ghost bstart0: nat, ghost cur0: nat, ghost run: Scan)
    returns (res: seq<nat>, used: seq<bool>, ghost batchOf: seq<nat>, ghost bstart: nat, ghost cur: nat)
    requires WellFormed(pool) && NodesValid(pool, nodes) && mrs0 != mrs1
    requires ops == OpTable(pool, nodes) && fps == FootprintTable(pool, nodes)
    requires PivotInv(ops, fps, res0, used0, i0, batchOf0, bstart0, cur0, mrs0.ranges)
    requires i0 < |nodes| && !used0[i0]
    requires !IsEmpty(ops[i0]) && !AllClear(mrs0.ranges, fps[i0])
    // run is the reference run of the lookahead from this state
    requires run == ScanFrom(ops, fps, used0, i0 + N_FORWARD, i0 + 1, res0[bstart0..], [i0])
    modifies mrs0`ranges, mrs1`ranges
    ensures res0 <= res
    ensures PivotInv(ops, fps, res, used, i0 + 1, batchOf, bstart, cur, mrs0.ranges)
    // the batch is closed, and the pivot alone opens the next one
    ensures |res| > |res0| && res[|res| - 1] == i0
    ensures res == res0 + run.pulled + [i0]
    ensures cur == cur0 + 1 && bstart == |res| - 1 && mrs0.ranges == fps[i0]
  {
    ghost var i1, pending;
    var res1;
    res1, used, batchOf, i1, pending := Lookahead(pool, nodes, ops, fps, mrs0, mrs1, res0, used0, i0, batchOf0, bstart0, cur0, run);
    res, batchOf := OpenBatch(pool, nodes, ops, fps, mrs0, mrs1, res1, used, i0, i1, pending, batchOf, bstart0, cur0);
    cur := cur0 + 1;
    bstart := |res1|;
  }

  /** The end of a lookahead for pivot i0: the current batch is closed (mrs0 is reset) and
      the pivot alone opens the next one. */
  method OpenBatch(pool: seq<Tensor>, nodes: seq<NodeInfo>, ghost ops: seq<Op>, ghost fps: seq<seq<Range>>,
                   mrs0: Ranges, mrs1: Ranges, res0: seq<nat>, used: seq<bool>, i0: nat, ghost i1: nat,
                   ghost pending: seq<nat>, ghost batchOf0: seq<nat>, ghost bstart0: nat, ghost cur0: nat)
    returns (res: seq<nat>, ghost batchOf: seq<nat>)
    requires WellFormed(pool) && NodesValid(pool, nodes) && mrs0 != mrs1
    requires ops == OpTable(pool, nodes) && fps == FootprintTable(pool, nodes)
    requires LookaheadInv(ops, fps, res0, used, i0, i1, pending, mrs1.ranges, batchOf0, bstart0, cur0, mrs0.ranges)
    requires !IsEmpty(ops[i0])
    modifies mrs0`ranges
    ensures res == res0 + [i0] && mrs0.ranges == fps[i0]
    ensures PivotInv(ops, fps, res, used, i0 + 1, batchOf, |res0|, cur0 + 1, mrs0.ranges)
  {
    PlaceAfterLookahead(ops, fps, res0, used, i0, i1, pending, mrs1.ranges, batchOf0, bstart0, cur0, mrs0.ranges);
    mrs0.Reset();
    assert fps[i0] == Footprint(pool, nodes[i0]);
    var _ := HAdd(mrs0, pool, nodes[i0]);
    assert mrs0.ranges == [] + fps[i0] == fps[i0];
    res := res0 + [i0];
    batchOf := batchOf0 + [cur0 + 1];
  }

  /** The lookahead of the reorder for a pivot i0 that conflicts with the current batch
      (mrs0): the units up to N_FORWARD - 1 positions ahead are pulled into the batch when
      they are clear of it and of every unit still behind the pivot (mrs1); the first
      barrier operator stops the search. */
  method Lookahead(pool: seq<Tensor>, nodes: seq<NodeInfo>, ghost ops: seq<Op>, ghost fps: seq<seq<Range>>,
                   mrs0: Ranges, mrs1: Ranges, res0: seq<nat>, used0: seq<bool>, i0: nat,
                   ghost batchOf: seq<nat>, ghost bstart: nat, ghost cur: nat, ghost run: Scan)
    returns (res: seq<nat>, used: seq<bool>, ghost bo: seq<nat>, ghost i1: nat, ghost pending: seq<nat>)
    requires WellFormed(pool) && NodesValid(pool, nodes) && mrs0 != mrs1
    requires ops == OpTable(pool, nodes) && fps == FootprintTable(pool, nodes)
    requires PivotInv(ops, fps, res0, used0, i0, batchOf, bstart, cur, mrs0.ranges)
    requires i0 < |nodes| && !used0[i0] && !AllClear(mrs0.ranges, fps[i0])
    // run is the reference run of the lookahead, which begins with the current batch
    // res0[bstart..] and with the pivot behind it
    requires run == ScanFrom(ops, fps, used0, i0 + N_FORWARD, i0 + 1, res0[bstart..], [i0])
    modifies mrs0`ranges, mrs1`ranges
    // the lookahead pulls and defers exactly the candidates of the reference run
    ensures res == res0 + run.pulled && pending == [i0] + run.deferred && i1 == run.stop
    ensures res0 <= res
    ensures LookaheadInv(ops, fps, res, used, i0, i1, pending, mrs1.ranges, bo, bstart, cur, mrs0.ranges)
    // the search ends at the window's end, at the end of the graph, or at the first
    // unplaced unit whose operator may not be reordered
    ensures i1 == i0 + N_FORWARD || i1 == |nodes| || (!used[i1] && !HSafe(ops[i1]))
  {
    res, used, bo := res0, used0, batchOf;
    // mrs1 holds the footprints of the units that stay behind the pivot
    mrs1.Reset();
    var _ := HAdd(mrs1, pool, nodes[i0]);
    pending := [i0];
    StartLookahead(ops, fps, res, used, i0, bo, bstart, cur, mrs0.ranges);
    res, used, bo, i1, pending := ScanAhead(pool, nodes, ops, fps, mrs0, mrs1, res, used, i0, bo, bstart, cur, pending, run);
  }

  /** The loop of the lookahead, over the candidates i0 + 1, i0 + 2, ... */
  method ScanAhead(pool: seq<Tensor>, nodes: seq<NodeInfo>, ghost ops: seq<Op>, ghost fps: seq<seq<Range>>,
                   mrs0: Ranges, mrs1: Ranges, res0: seq<nat>, used0: seq<bool>, i0: nat,
                   ghost bo0: seq<nat>, ghost bstart: nat, ghost cur: nat, ghost pending0: seq<nat>, ghost s0: Scan)
    returns (res: seq<nat>, used: seq<bool>, ghost bo: seq<nat>, ghost i1: nat, ghost pending: seq<nat>)
    requires WellFormed(pool) && NodesValid(pool, nodes) && mrs0 != mrs1
    requires ops == OpTable(pool, nodes) && fps == FootprintTable(pool, nodes)
    requires LookaheadInv(ops, fps, res0, used0, i0, i0 + 1, pending0, mrs1.ranges, bo0, bstart, cur, mrs0.ranges)
    // s0 is the reference run of the lookahead from this state
    requires s0 == ScanFrom(ops, fps, used0, i0 + N_FORWARD, i0 + 1, res0[bstart..], pending0)
    modifies mrs0`ranges, mrs1`ranges
    ensures res0 <= res
    ensures LookaheadInv(ops, fps, res, used, i0, i1, pending, mrs1.ranges, bo, bstart, cur, mrs0.ranges)
    ensures i1 == i0 + N_FORWARD || i1 == |nodes| || (!used[i1] && !HSafe(ops[i1]))
    // the loop pulls and defers exactly the candidates that the reference run does
    ensures res == res0 + s0.pulled && pending == pending0 + s0.deferred && i1 == s0.stop
  {
    ghost var lim := i0 + N_FORWARD;
    res, used, bo, pending := res0, used0, bo0, pending0;
    i1 := i0 + 1;
    var j := i0 + 1;
    while j < i0 + N_FORWARD && j < |nodes|
      invariant j == i1 && j <= i0 + N_FORWARD && j <= |nodes|
      invariant res0 <= res
      invariant LookaheadInv(ops, fps, res, used, i0, i1, pending, mrs1.ranges, bo, bstart, cur, mrs0.ranges)
      invariant ScanTracks(ops, fps, lim, s0, bstart, res0, pending0, res, pending, used, j)
    {
      if !used[j] && !HSafe(OpOf(pool, nodes[j])) {
        assert ops[j] == OpOf(pool, nodes[j]);
        break;
      }
      res, used, bo, pending := ScanStep(pool, nodes, ops, fps, mrs0, mrs1, res, used, i0, j, bo, bstart, cur, pending,
                                         lim, s0, res0, pending0);
      j := j + 1;
      i1 := j;
    }
    ScanStop(ops, fps, lim, s0, bstart, res0, pending0, res, pending, used, j);
  }

  /** One step of the lookahead loop at a candidate j that does not stop it: a used
      candidate is skipped, any other one goes through Candidate; the loop stays on the
      reference run. */
  method ScanStep(pool: seq<Tensor>, nodes: seq<NodeInfo>, ghost ops: seq<Op>, ghost fps: seq<seq<Range>>,
                  mrs0: Ranges, mrs1: Ranges, res0: seq<nat>, used0: seq<bool>, i0: nat, j: nat,
                  ghost bo0: seq<nat>, ghost bstart: nat, ghost cur: nat, ghost pending0: seq<nat>,
                  ghost lim: nat, ghost s0: Scan, ghost resStart: seq<nat>, ghost pendingStart: seq<nat>)
    returns (res: seq<nat>, used: seq<bool>, ghost bo: seq<nat>, ghost pending: seq<nat>)
    requires WellFormed(pool) && NodesValid(pool, nodes) && mrs0 != mrs1
    requires ops == OpTable(pool, nodes) && fps == FootprintTable(pool, nodes)
    requires LookaheadInv(ops, fps, res0, used0, i0, j, pending0, mrs1.ranges, bo0, bstart, cur, mrs0.ranges)
    requires j < |nodes| && j < lim == i0 + N_FORWARD && (used0[j] || HSafe(ops[j]))
    requires ScanTracks(ops, fps, lim, s0, bstart, resStart, pendingStart, res0, pending0, used0, j)
    modifies mrs0`ranges, mrs1`ranges
    ensures res0 <= res
    ensures LookaheadInv(ops, fps, res, used, i0, j + 1, pending, mrs1.ranges, bo, bstart, cur, mrs0.ranges)
    ensures ScanTracks(ops, fps, lim, s0, bstart, resStart, pendingStart, res, pending, used, j + 1)
  {
    if used0[j] {
      SkipUsedCandidate(ops, fps, res0, used0, i0, j, pending0, mrs1.ranges, bo0, bstart, cur, mrs0.ranges);
      ScanSkip(ops, fps, lim, s0, bstart, resStart, pendingStart, res0, pending0, used0, j);
      res, used, bo, pending := res0, used0, bo0, pending0;
      return;
    }
    ghost var batch0, pend0 := mrs0.ranges, mrs1.ranges;
    res, used, bo, pending := Candidate(pool, nodes, ops, fps, mrs0, mrs1, res0, used0, i0, j, bo0, bstart, cur, pending0);
    ScanCandidate(ops, fps, lim, s0, cur, bstart, resStart, pendingStart, res0, pending0, used0, bo0, j, batch0, pend0,
                  res, pending, used, bo, mrs0.ranges, mrs1.ranges);
  }

  /** What one candidate j of the lookahead changes: a candidate clear of mrs1 and, unless it
      is metadata-only, of mrs0 is pulled into the current batch; any other one stays behind
      the pivot, its footprint joining mrs1. */
  predicate CandidateOutcome(ops: seq<Op>, fps: seq<seq<Range>>, j: nat, cur: nat,
                             res0: seq<nat>, used0: seq<bool>, bo0: seq<nat>, pending0: seq<nat>,
                             batch0: seq<Range>, pend0: seq<Range>,
                             res: seq<nat>, used: seq<bool>, bo: seq<nat>, pending: seq<nat>,
                             batch: seq<Range>, pend: seq<Range>)
    requires j < |ops| == |fps| && j < |used0|
  {
    if (IsEmpty(ops[j]) || AllClear(batch0, fps[j])) && AllClear(pend0, fps[j]) then
      && res == res0 + [j] && used == used0[j := true] && bo == bo0 + [cur] && pending == pending0
      && batch == batch0 + fps[j] && pend == pend0
    else
      && res == res0 && used == used0 && bo == bo0 && pending == pending0 + [j]
      && batch == batch0 && pend == pend0 + fps[j]
  }

  /** What a lookahead run from candidate j on yields: the candidates pulled into the batch
      and those left behind the pivot, each in visiting order, and where it stops. */
  datatype Scan = Scan(pulled: seq<nat>, deferred: seq<nat>, stop: nat)

  /** The lookahead as a reference definition.  `batch` lists the units of the current
      batch (whose footprints mrs0 holds) and `pend` the units behind the pivot (whose
      footprints mrs1 holds).  Candidates j, j + 1, ... below `lim` and the graph's end are
      visited: a used candidate is skipped, a barrier stops the run, a candidate clear of
      `pend` and, unless metadata-only, of `batch` is pulled, and any other is deferred. */
  function ScanFrom(ops: seq<Op>, fps: seq<seq<Range>>, used: seq<bool>, lim: nat, j: nat,
                    batch: seq<nat>, pend: seq<nat>): (r: Scan)
    requires |ops| == |fps| == |used| && j <= lim && j <= |fps|
    requires IndicesBelow(batch, |fps|) && IndicesBelow(pend, |fps|)
    ensures j <= r.stop <= lim && r.stop <= |fps|
    decreases lim - j, 1
  {
    if j == lim || j == |fps| then Scan([], [], j) else ScanAt(ops, fps, used, lim, j, batch, pend)
  }

  /** The reference run at a candidate j inside the window: a used candidate is skipped, a
      barrier stops the run, and any other candidate is pulled or deferred. */
  function ScanAt(ops: seq<Op>, fps: seq<seq<Range>>, used: seq<bool>, lim: nat, j: nat,
                  batch: seq<nat>, pend: seq<nat>): (r: Scan)
    requires |ops| == |fps| == |used| && j < lim && j < |fps|
    requires IndicesBelow(batch, |fps|) && IndicesBelow(pend, |fps|)
    ensures j <= r.stop <= lim && r.stop <= |fps|
    decreases lim - j, 0
  {
    if used[j] then ScanFrom(ops, fps, used, lim, j + 1, batch, pend)
    else if !HSafe(ops[j]) then Scan([], [], j)
    else if Fits(ops, fps, j, batch, pend) then
      var r := ScanFrom(ops, fps, used[j := true], lim, j + 1, batch + [j], pend);
      Scan([j] + r.pulled, r.deferred, r.stop)
    else
      var r := ScanFrom(ops, fps, used, lim, j + 1, batch, pend + [j]);
      Scan(r.pulled, [j] + r.deferred, r.stop)
  }

  /** The test of the lookahead: candidate j is clear of the units behind the pivot and,
      unless it is metadata-only, of the current batch. */
  predicate Fits(ops: seq<Op>, fps: seq<seq<Range>>, j: nat, batch: seq<nat>, pend: seq<nat>)
    requires j < |ops| == |fps| && IndicesBelow(batch, |fps|) && IndicesBelow(pend, |fps|)
  {
    (IsEmpty(ops[j]) || AllClear(Footprints(fps, batch), fps[j])) && AllClear(Footprints(fps, pend), fps[j])
  }

  /** The reference run stops at the window's end, at the graph's end or at an unused
      barrier; the pulled and the deferred candidates are unused and reorderable, lie before
      the stop, and every unused candidate before it is in exactly one of the two lists. */
  lemma {:induction false} ScanPartition(ops: seq<Op>, fps: seq<seq<Range>>, used: seq<bool>, lim: nat, j: nat,
                                         batch: seq<nat>, pend: seq<nat>, r: Scan)
    requires |ops| == |fps| == |used| && j <= lim && j <= |fps|
    requires IndicesBelow(batch, |fps|) && IndicesBelow(pend, |fps|)
    requires r == ScanFrom(ops, fps, used, lim, j, batch, pend)
    ensures r.stop == lim || r.stop == |fps| || (!used[r.stop] && !HSafe(ops[r.stop]))
    ensures forall k :: k in r.pulled ==> j <= k < r.stop && !used[k] && HSafe(ops[k])
    ensures forall k :: k in r.deferred ==> j <= k < r.stop && !used[k] && HSafe(ops[k])
    ensures forall k :: j <= k < r.stop && !used[k] ==> (k in r.pulled <==> k !in r.deferred)
    decreases lim - j
  {
    if j == lim || j == |fps| {
    } else if used[j] {
      ScanPartition(ops, fps, used, lim, j + 1, batch, pend, r);
    } else if !HSafe(ops[j]) {
    } else if Fits(ops, fps, j, batch, pend) {
      var used' := used[j := true];
      var r' := ScanFrom(ops, fps, used', lim, j + 1, batch + [j], pend);
      ScanPartition(ops, fps, used', lim, j + 1, batch + [j], pend, r');
      assert r == Scan([j] + r'.pulled, r'.deferred, r'.stop);
    } else {
      var r' := ScanFrom(ops, fps, used, lim, j + 1, batch, pend + [j]);
      ScanPartition(ops, fps, used, lim, j + 1, batch, pend + [j], r');
      assert r == Scan(r'.pulled, [j] + r'.deferred, r'.stop);
    }
  }

  /** The lookahead loop at candidate j has produced `res` and `pending` so far, and what
      ScanFrom still yields from there (the batch being res[bstart..]) completes the run
      `s0` begun from `res0` and `pending0`. */
  predicate ScanTracks(ops: seq<Op>, fps: seq<seq<Range>>, lim: nat, s0: Scan, bstart: nat,
                       res0: seq<nat>, pending0: seq<nat>, res: seq<nat>, pending: seq<nat>,
                       used: seq<bool>, j: nat)
    requires |ops| == |fps| == |used| && j <= lim && j <= |fps| && bstart <= |res|
    requires IndicesBelow(res, |fps|) && IndicesBelow(pending, |fps|)
  {
    && res0 + s0.pulled == res + ScanFrom(ops, fps, used, lim, j, res[bstart..], pending).pulled
    && pending0 + s0.deferred == pending + ScanFrom(ops, fps, used, lim, j, res[bstart..], pending).deferred
    && s0.stop == ScanFrom(ops, fps, used, lim, j, res[bstart..], pending).stop
  }

  /** Skipping a used candidate keeps the loop on the reference run. */
  lemma ScanSkip(ops: seq<Op>, fps: seq<seq<Range>>, lim: nat, s0: Scan, bstart: nat,
                 res0: seq<nat>, pending0: seq<nat>, res: seq<nat>, pending: seq<nat>,
                 used: seq<bool>, j: nat)
    requires |ops| == |fps| == |used| && j < lim && j < |fps| && bstart <= |res| && used[j]
    requires IndicesBelow(res, |fps|) && IndicesBelow(pending, |fps|)
    requires ScanTracks(ops, fps, lim, s0, bstart, res0, pending0, res, pending, used, j)
    ensures ScanTracks(ops, fps, lim, s0, bstart, res0, pending0, res, pending, used, j + 1)
  {
    assert ScanFrom(ops, fps, used, lim, j, res[bstart..], pending)
        == ScanFrom(ops, fps, used, lim, j + 1, res[bstart..], pending);
  }

  /** One candidate handled as CandidateOutcome says, with mrs0 and mrs1 holding the
      footprints of the batch and of the units behind the pivot, keeps the loop on the
      reference run. */
  lemma ScanCandidate(ops: seq<Op>, fps: seq<seq<Range>>, lim: nat, s0: Scan, cur: nat, bstart: nat,
                      res0: seq<nat>, pending0: seq<nat>, res: seq<nat>, pending: seq<nat>,
                      used: seq<bool>, bo: seq<nat>, j: nat, batch: seq<Range>, pend: seq<Range>,
                      res': seq<nat>, pending': seq<nat>, used': seq<bool>, bo': seq<nat>,
                      batch': seq<Range>, pend': seq<Range>)
    requires |ops| == |fps| == |used| && j < lim && j < |fps| && bstart <= |res| && !used[j] && HSafe(ops[j])
    requires IndicesBelow(res, |fps|) && IndicesBelow(pending, |fps|)
    requires batch == Footprints(fps, res[bstart..]) && pend == Footprints(fps, pending)
    requires ScanTracks(ops, fps, lim, s0, bstart, res0, pending0, res, pending, used, j)
    requires CandidateOutcome(ops, fps, j, cur, res, used, bo, pending, batch, pend,
                              res', used', bo', pending', batch', pend')
    ensures |used'| == |used| && bstart <= |res'| && IndicesBelow(res', |fps|) && IndicesBelow(pending', |fps|)
    ensures ScanTracks(ops, fps, lim, s0, bstart, res0, pending0, res', pending', used', j + 1)
  {
    if Fits(ops, fps, j, res[bstart..], pending) {
      ScanPull(ops, fps, lim, s0, bstart, res0, pending0, res, pending, used, j);
    } else {
      ScanDefer(ops, fps, lim, s0, bstart, res0, pending0, res, pending, used, j);
    }
  }

  lemma ScanPull(ops: seq<Op>, fps: seq<seq<Range>>, lim: nat, s0: Scan, bstart: nat,
                 res0: seq<nat>, pending0: seq<nat>, res: seq<nat>, pending: seq<nat>,
                 used: seq<bool>, j: nat)
    requires |ops| == |fps| == |used| && j < lim && j < |fps| && bstart <= |res| && !used[j] && HSafe(ops[j])
    requires IndicesBelow(res, |fps|) && IndicesBelow(pending, |fps|)
    requires Fits(ops, fps, j, res[bstart..], pending)
    requires ScanTracks(ops, fps, lim, s0, bstart, res0, pending0, res, pending, used, j)
    ensures IndicesBelow(res + [j], |fps|)
    ensures ScanTracks(ops, fps, lim, s0, bstart, res0, pending0, res + [j], pending, used[j := true], j + 1)
  {
    assert (res + [j])[bstart..] == res[bstart..] + [j];
    var r := ScanFrom(ops, fps, used[j := true], lim, j + 1, res[bstart..] + [j], pending);
    assert ScanFrom(ops, fps, used, lim, j, res[bstart..], pending) == Scan([j] + r.pulled, r.deferred, r.stop);
    assert res + ([j] + r.pulled) == (res + [j]) + r.pulled;
  }

  lemma ScanDefer(ops: seq<Op>, fps: seq<seq<Range>>, lim: nat, s0: Scan, bstart: nat,
                  res0: seq<nat>, pending0: seq<nat>, res: seq<nat>, pending: seq<nat>,
                  used: seq<bool>, j: nat)
    requires |ops| == |fps| == |used| && j < lim && j < |fps| && bstart <= |res| && !used[j] && HSafe(ops[j])
    requires IndicesBelow(res, |fps|) && IndicesBelow(pending, |fps|)
    requires !Fits(ops, fps, j, res[bstart..], pending)
    requires ScanTracks(ops, fps, lim, s0, bstart, res0, pending0, res, pending, used, j)
    ensures IndicesBelow(pending + [j], |fps|)
    ensures ScanTracks(ops, fps, lim, s0, bstart, res0, pending0, res, pending + [j], used, j + 1)
  {
    var r := ScanFrom(ops, fps, used, lim, j + 1, res[bstart..], pending + [j]);
    assert ScanFrom(ops, fps, used, lim, j, res[bstart..], pending) == Scan(r.pulled, [j] + r.deferred, r.stop);
    assert pending + ([j] + r.deferred) == (pending + [j]) + r.deferred;
  }

  /** Where the loop stops, it has produced the whole reference run. */
  lemma ScanStop(ops: seq<Op>, fps: seq<seq<Range>>, lim: nat, s0: Scan, bstart: nat,
                 res0: seq<nat>, pending0: seq<nat>, res: seq<nat>, pending: seq<nat>,
                 used: seq<bool>, j: nat)
    requires |ops| == |fps| == |used| && j <= lim && j <= |fps| && bstart <= |res|
    requires IndicesBelow(res, |fps|) && IndicesBelow(pending, |fps|)
    requires j == lim || j == |fps| || (!used[j] && !HSafe(ops[j]))
    requires ScanTracks(ops, fps, lim, s0, bstart, res0, pending0, res, pending, used, j)
    ensures res == res0 + s0.pulled && pending == pending0 + s0.deferred && j == s0.stop
  {
    assert ScanFrom(ops, fps, used, lim, j, res[bstart..], pending) == Scan([], [], j);
  }

  /** One candidate of the lookahead: an unplaced, reorderable unit j ahead of the pivot is
      pulled into the current batch when it is clear of mrs0 and mrs1, and otherwise stays
      behind the pivot with it. */
  method Candidate(pool: seq<Tensor>, nodes: seq<NodeInfo>, ghost ops: seq<Op>, ghost fps: seq<seq<Range>>,
                   mrs0: Ranges, mrs1: Ranges, res0: seq<nat>, used0: seq<bool>, i0: nat, j: nat,
                   ghost bo0: seq<nat>, ghost bstart: nat, ghost cur: nat, ghost pending0: seq<nat>)
    returns (res: seq<nat>, used: seq<bool>, ghost bo: seq<nat>, ghost pending: seq<nat>)
    requires WellFormed(pool) && NodesValid(pool, nodes) && mrs0 != mrs1
    requires ops == OpTable(pool, nodes) && fps == FootprintTable(pool, nodes)
    requires LookaheadInv(ops, fps, res0, used0, i0, j, pending0, mrs1.ranges, bo0, bstart, cur, mrs0.ranges)
    requires j < |nodes| && j < i0 + N_FORWARD && !used0[j] && HSafe(ops[j])
    modifies mrs0`ranges, mrs1`ranges
    ensures res0 <= res
    ensures LookaheadInv(ops, fps, res, used, i0, j + 1, pending, mrs1.ranges, bo, bstart, cur, mrs0.ranges)
    ensures CandidateOutcome(ops, fps, j, cur, res0, used0, bo0, pending0, old(mrs0.ranges), old(mrs1.ranges),
                             res, used, bo, pending, mrs0.ranges, mrs1.ranges)
  {
    res, used, bo, pending := res0, used0, bo0, pending0;
    var node1 := nodes[j];
    assert ops[j] == OpOf(pool, node1) && fps[j] == Footprint(pool, node1);
    var isEmpty := IsEmpty(OpOf(pool, node1));
    var ok0 := true;
    if !isEmpty {
      ok0 := HCheck(mrs0, pool, node1);
    }
    var ok1 := false;
    if ok0 {
      ok1 := HCheck(mrs1, pool, node1);
    }
    if ok0 && ok1 {
      // pull the candidate forward into the current batch
      PullCandidate(ops, fps, res, used, i0, j, pending, mrs1.ranges, bo, bstart, cur, mrs0.ranges);
      var _ := HAdd(mrs0, pool, node1);
      res := res + [j];
      bo := bo + [cur];
      used := used[j := true];
    } else {
      // the candidate stays behind the pivot as well
      DeferCandidate(ops, fps, res, used, i0, j, pending, mrs1.ranges, bo, bstart, cur, mrs0.ranges);
      var _ := HAdd(mrs1, pool, node1);
      pending := pending + [j];
    }
  }
}
