/** The fusion pass of ggml_metal_graph_optimize: runs of nodes that start at ADD or
    RMS_NORM and continue through ADD, MUL or RMS_NORM are packed into one unit, as long
    as the backend's fusion test (ggml_can_fuse, a parameter here) accepts the run. */
module Fusion {
  import opened Graph
  import opened NodeInfo

  /** The longest run the pass looks at, the primary included. */
  const MAX_FUSE: nat := 16

  /** The type of ggml_can_fuse for a fixed graph: node index and the run's operators. */
  type CanFuse = (nat, seq<Op>) -> bool

  /** Operators that may open a fused run. */
  predicate IsFuseStart(op: Op)
  {
    op == ADD || op == RMS_NORM
  }

  /** Operators that may continue a fused run. */
  predicate IsFuseCont(op: Op)
  {
    op == ADD || op == MUL || op == RMS_NORM
  }

  /** The operators of the tensors `ts`. */
  function OpsOf(pool: seq<Tensor>, ts: seq<nat>): (ops: seq<Op>)
    requires IndicesBelow(ts, |pool|)
    ensures |ops| == |ts|
    ensures forall k :: 0 <= k < |ts| ==> ops[k] == pool[ts[k]].op
  {
    if ts == [] then [] else OpsOf(pool, ts[..|ts| - 1]) + [pool[ts[|ts| - 1]].op]
  }

  /** The length of the run that starts at node i, when the scan has reached node f: the
      scan stops at the end of the graph, after MAX_FUSE nodes, or at the first node whose
      operator cannot continue a run. */
  function RunFrom(pool: seq<Tensor>, g: seq<nat>, i: nat, f: nat): (len: nat)
    requires IndicesBelow(g, |pool|) && i < f <= |g| && f <= i + MAX_FUSE
    requires forall u :: i < u < f ==> IsFuseCont(pool[g[u]].op)
    ensures f - i <= len <= MAX_FUSE && i + len <= |g|
    ensures forall u :: i < u < i + len ==> IsFuseCont(pool[g[u]].op)
    ensures i + len == |g| || len == MAX_FUSE || !IsFuseCont(pool[g[i + len]].op)
    decreases i + MAX_FUSE - f
  {
    if f < |g| && f < i + MAX_FUSE && IsFuseCont(pool[g[f]].op) then RunFrom(pool, g, i, f + 1)
    else f - i
  }

  /** The run of node i: the primary and the continuation nodes after it. */
  function Run(pool: seq<Tensor>, g: seq<nat>, i: nat): (len: nat)
    requires IndicesBelow(g, |pool|) && i < |g|
    ensures 1 <= len <= MAX_FUSE && i + len <= |g|
  {
    RunFrom(pool, g, i, i + 1)
  }

  /** The number of nodes fused into node i's unit, given a run of `f` (with operators
      `ops`): the largest length in [2, f] that canFuse accepts, else 1. */
  function Choose(canFuse: CanFuse, i: nat, ops: seq<Op>, f: nat): (r: nat)
    requires f <= |ops|
    ensures r == 1 || 2 <= r <= f
    decreases f
  {
    if f <= 1 then 1
    else if canFuse(i, ops[..f]) then f
    else Choose(canFuse, i, ops, f - 1)
  }

  /** Choose picks a length that canFuse accepts (or 1), and canFuse accepts no longer one. */
  lemma {:induction false} ChooseMaximal(canFuse: CanFuse, i: nat, ops: seq<Op>, f: nat)
    requires f <= |ops|
    ensures var r := Choose(canFuse, i, ops, f);
      && (r == 1 || canFuse(i, ops[..r]))
      && forall h :: r < h <= f && 2 <= h ==> !canFuse(i, ops[..h])
    decreases f
  {
    if f > 1 && !canFuse(i, ops[..f]) {
      ChooseMaximal(canFuse, i, ops, f - 1);
    }
  }

  /** The number of graph nodes that make up the unit opened at node i. */
  function UnitLen(pool: seq<Tensor>, g: seq<nat>, canFuse: CanFuse, i: nat): (len: nat)
    requires IndicesBelow(g, |pool|) && i < |g|
    ensures 1 <= len <= MAX_FUSE && i + len <= |g|
    ensures !IsFuseStart(pool[g[i]].op) ==> len == 1
  {
    if IsFuseStart(pool[g[i]].op) then Choose(canFuse, i, OpsOf(pool, g[i..i + Run(pool, g, i)]), Run(pool, g, i))
    else 1
  }

  /** A unit opened at a start operator takes the longest run prefix of at least two nodes
      that canFuse accepts, or node i alone when it accepts none. */
  lemma UnitLenChosen(pool: seq<Tensor>, g: seq<nat>, canFuse: CanFuse, i: nat, run: nat, runOps: seq<Op>)
    requires IndicesBelow(g, |pool|) && i < |g| && IsFuseStart(pool[g[i]].op)
    requires run == Run(pool, g, i) && runOps == OpsOf(pool, g[i..i + run])
    ensures UnitLen(pool, g, canFuse, i) <= run
    ensures UnitLen(pool, g, canFuse, i) == 1 || canFuse(i, runOps[..UnitLen(pool, g, canFuse, i)])
    ensures forall h :: UnitLen(pool, g, canFuse, i) < h <= run && 2 <= h ==> !canFuse(i, runOps[..h])
  {
    UnitLenStart(pool, g, canFuse, i, run, runOps);
    ChooseMaximal(canFuse, i, runOps, run);
  }

  /** The tensors of the units, one unit after the other. */
  function Flatten(units: seq<NodeInfo>): seq<nat>
  {
    if units == [] then [] else Flatten(units[..|units| - 1]) + units[|units| - 1].Tensors()
  }

  lemma FlattenCons(u: NodeInfo, units: seq<NodeInfo>)
    ensures Flatten([u] + units) == u.Tensors() + Flatten(units)
    decreases |units|
  {
    if units != [] {
      var init := units[..|units| - 1];
      assert ([u] + units)[..|units|] == [u] + init;
      FlattenCons(u, init);
    }
  }

  /** `lens[i]` is the length of a unit opened at node i; it stays within the graph. */
  predicate Cuts(g: seq<nat>, lens: seq<nat>)
  {
    |lens| == |g| && forall i :: 0 <= i < |g| ==> 1 <= lens[i] && i + lens[i] <= |g|
  }

  /** The length of the unit that the pass would open at each of the first m nodes. */
  function LensUpTo(pool: seq<Tensor>, g: seq<nat>, canFuse: CanFuse, m: nat): (lens: seq<nat>)
    requires IndicesBelow(g, |pool|) && m <= |g|
    ensures |lens| == m
    ensures forall i :: 0 <= i < m ==> 1 <= lens[i] && i + lens[i] <= |g|
  {
    if m == 0 then [] else LensUpTo(pool, g, canFuse, m - 1) + [UnitLen(pool, g, canFuse, m - 1)]
  }

  /** The length of the unit that the pass opens at each node. */
  function LenTable(pool: seq<Tensor>, g: seq<nat>, canFuse: CanFuse): (lens: seq<nat>)
    requires IndicesBelow(g, |pool|)
    ensures Cuts(g, lens)
  {
    LensUpTo(pool, g, canFuse, |g|)
  }

  lemma {:induction false} LensUpToAt(pool: seq<Tensor>, g: seq<nat>, canFuse: CanFuse, m: nat, i: nat)
    requires IndicesBelow(g, |pool|) && i < m <= |g|
    ensures LensUpTo(pool, g, canFuse, m)[i] == UnitLen(pool, g, canFuse, i)
  {
    if i < m - 1 {
      LensUpToAt(pool, g, canFuse, m - 1, i);
      LensUpToPrefix(pool, g, canFuse, m, i);
    }
  }

  lemma LensUpToPrefix(pool: seq<Tensor>, g: seq<nat>, canFuse: CanFuse, m: nat, i: nat)
    requires IndicesBelow(g, |pool|) && i < m - 1 && m <= |g|
    ensures LensUpTo(pool, g, canFuse, m)[i] == LensUpTo(pool, g, canFuse, m - 1)[i]
  {
  }

  lemma LenTableAt(pool: seq<Tensor>, g: seq<nat>, canFuse: CanFuse, i: nat)
    requires IndicesBelow(g, |pool|) && i < |g|
    ensures LenTable(pool, g, canFuse)[i] == UnitLen(pool, g, canFuse, i)
  {
    LensUpToAt(pool, g, canFuse, |g|, i);
  }

  /** The units cut from node i on, each unit opened at node j taking lens[j] nodes. */
  function Chop(g: seq<nat>, lens: seq<nat>, i: nat): (units: seq<NodeInfo>)
    requires Cuts(g, lens) && i <= |g|
    decreases |g| - i
  {
    if i == |g| then [] else [NodeInfo(g[i], g[i + 1..i + lens[i]])] + Chop(g, lens, i + lens[i])
  }

  /** The units that the fusion pass builds from the node array `g`. */
  function FuseAll(pool: seq<Tensor>, g: seq<nat>, canFuse: CanFuse): seq<NodeInfo>
    requires IndicesBelow(g, |pool|)
  {
    Chop(g, LenTable(pool, g, canFuse), 0)
  }

  /** The units cover the graph from node i on, in order and without gaps: fused groups
      are contiguous runs of the original node array. */
  lemma {:induction false} ChopCovers(g: seq<nat>, lens: seq<nat>, i: nat)
    requires Cuts(g, lens) && i <= |g|
    ensures Flatten(Chop(g, lens, i)) == g[i..]
    decreases |g| - i
  {
    if i < |g| {
      var u := NodeInfo(g[i], g[i + 1..i + lens[i]]);
      ChopCovers(g, lens, i + lens[i]);
      FlattenCons(u, Chop(g, lens, i + lens[i]));
      SliceCons(g, i, i + lens[i]);
      SliceSplit(g, i, i + lens[i]);
    }
  }

  lemma SliceCons(g: seq<nat>, i: nat, j: nat)
    requires i < j <= |g|
    ensures [g[i]] + g[i + 1..j] == g[i..j]
  {
  }

  lemma SliceSplit(g: seq<nat>, i: nat, j: nat)
    requires i <= j <= |g|
    ensures g[i..] == g[i..j] + g[j..]
  {
  }

  /** The fused units are exactly the node array, split into consecutive groups. */
  lemma FuseAllCovers(pool: seq<Tensor>, g: seq<nat>, canFuse: CanFuse)
    requires IndicesBelow(g, |pool|)
    ensures Flatten(FuseAll(pool, g, canFuse)) == g
  {
    ChopCovers(g, LenTable(pool, g, canFuse), 0);
  }

  /** The shape of every unit: fewer than MAX_FUSE fused tensors, which are continuation
      operators after a start operator, and every tensor in the pool. */
  predicate UnitShape(pool: seq<Tensor>, u: NodeInfo)
  {
    && NodeValid(pool, u)
    && |u.fused| < MAX_FUSE
    && (u.fused != [] ==> IsFuseStart(pool[u.node].op))
    && forall k :: 0 <= k < |u.fused| ==> IsFuseCont(pool[u.fused[k]].op)
  }

  /** The unit opened at node i by the table. */
  function UnitAt(g: seq<nat>, lens: seq<nat>, i: nat): NodeInfo
    requires Cuts(g, lens) && i < |g|
  {
    NodeInfo(g[i], g[i + 1..i + lens[i]])
  }

  lemma {:induction false} ChopShape(pool: seq<Tensor>, g: seq<nat>, lens: seq<nat>, i: nat)
    requires Cuts(g, lens) && i <= |g|
    requires forall j :: 0 <= j < |g| ==> UnitShape(pool, UnitAt(g, lens, j))
    ensures forall u :: u in Chop(g, lens, i) ==> UnitShape(pool, u)
    decreases |g| - i
  {
    if i < |g| {
      ChopShape(pool, g, lens, i + lens[i]);
      assert UnitShape(pool, UnitAt(g, lens, i));
    }
  }

  lemma HeadShape(pool: seq<Tensor>, g: seq<nat>, canFuse: CanFuse, i: nat)
    requires IndicesBelow(g, |pool|) && i < |g|
    ensures UnitShape(pool, UnitAt(g, LenTable(pool, g, canFuse), i))
  {
    var len := UnitLen(pool, g, canFuse, i);
    var u := UnitAt(g, LenTable(pool, g, canFuse), i);
    LenTableAt(pool, g, canFuse, i);
    assert u.fused == g[i + 1..i + len];
    if IsFuseStart(pool[g[i]].op) {
      var run := Run(pool, g, i);
      UnitLenChosen(pool, g, canFuse, i, run, OpsOf(pool, g[i..i + run]));
    }
    forall k | 0 <= k < |u.fused| ensures IsFuseCont(pool[u.fused[k]].op) && u.fused[k] < |pool| {
      assert u.fused[k] == g[i + 1 + k];
    }
  }

  /** Every unit of the fusion pass has the shape of a fused run. */
  lemma FuseAllShape(pool: seq<Tensor>, g: seq<nat>, canFuse: CanFuse)
    requires IndicesBelow(g, |pool|)
    ensures forall u :: u in FuseAll(pool, g, canFuse) ==> UnitShape(pool, u)
  {
    var lens := LenTable(pool, g, canFuse);
    forall j | 0 <= j < |g| ensures UnitShape(pool, UnitAt(g, lens, j)) {
      HeadShape(pool, g, canFuse, j);
    }
    ChopShape(pool, g, lens, 0);
  }

  /** The first unit from node i: node i, with the lens[i] - 1 nodes after it fused; its
      destination is the last of them, or node i when nothing was fused. */
  lemma ChopHead(g: seq<nat>, lens: seq<nat>, i: nat)
    requires Cuts(g, lens) && i < |g|
    ensures var units := Chop(g, lens, i);
      && units != [] && units[0].node == g[i]
      && units[0].fused == g[i + 1..i + lens[i]] && |units[0].fused| == lens[i] - 1
      && units[0].Dst() == g[i + lens[i] - 1]
      && units[1..] == Chop(g, lens, i + lens[i])
  {
  }

  /** The scan of ggml_metal_graph_optimize at node i: the run is collected into `ops` and
      the longest accepted prefix is chosen. */
  method ScanUnit(pool: seq<Tensor>, gf: array<nat>, ghost g: seq<nat>, canFuse: CanFuse, ops: array<Op>, i: nat)
    returns (f: nat)
    requires gf[..] == g && IndicesBelow(g, |pool|) && i < |g| && ops.Length == MAX_FUSE
    modifies ops
    ensures f == UnitLen(pool, g, canFuse, i)
  {
    f := 1;
    if IsFuseStart(pool[gf[i]].op) {
      var run := ScanRun(pool, gf, g, ops, i);
      ghost var runOps := OpsOf(pool, g[i..i + run]);
      FilledRunOps(pool, g, ops[..], i, run);
      assert ops[..run] == ops[..][..run];
      f := PickLen(canFuse, i, ops, run, runOps);
      UnitLenStart(pool, g, canFuse, i, run, runOps);
    }
  }

  lemma UnitLenStart(pool: seq<Tensor>, g: seq<nat>, canFuse: CanFuse, i: nat, run: nat, runOps: seq<Op>)
    requires IndicesBelow(g, |pool|) && i < |g| && IsFuseStart(pool[g[i]].op)
    requires run == Run(pool, g, i) && runOps == OpsOf(pool, g[i..i + run])
    ensures UnitLen(pool, g, canFuse, i) == Choose(canFuse, i, runOps, run)
  {
  }

  /** Slots filled with the operators of nodes i .. i+run-1 hold the run's operator list. */
  lemma FilledRunOps(pool: seq<Tensor>, g: seq<nat>, ops: seq<Op>, i: nat, run: nat)
    requires IndicesBelow(g, |pool|) && i + run <= |g| && run <= |ops| && OpsFilled(pool, g, ops, i, i + run)
    ensures ops[..run] == OpsOf(pool, g[i..i + run])
  {
    var runOps := OpsOf(pool, g[i..i + run]);
    assert forall k :: 0 <= k < run ==> ops[..run][k] == runOps[k];
  }

  /** The operators of node i's run are copied into `ops`; the result is the run's length. */
  method ScanRun(pool: seq<Tensor>, gf: array<nat>, ghost g: seq<nat>, ops: array<Op>, i: nat) returns (run: nat)
    requires gf[..] == g && IndicesBelow(g, |pool|) && i < |g| && ops.Length == MAX_FUSE
    modifies ops
    ensures run == Run(pool, g, i) && OpsFilled(pool, g, ops[..], i, i + run)
  {
    ops[0] := pool[gf[i]].op;
    var f := i + 1;
    while f < gf.Length && f < i + MAX_FUSE
      invariant i + 1 <= f <= gf.Length && f <= i + MAX_FUSE
      invariant forall u :: i < u < f ==> IsFuseCont(pool[g[u]].op)
      invariant RunFrom(pool, g, i, f) == Run(pool, g, i)
      invariant OpsFilled(pool, g, ops[..], i, f)
    {
      var op := pool[gf[f]].op;
      if !IsFuseCont(op) {
        break;
      }
      ghost var before := ops[..];
      ops[f - i] := op;
      OpsFilledStep(pool, g, before, i, f);
      assert ops[..] == before[f - i := op];
      f := f + 1;
    }
    run := f - i;
  }

  /** The first f - i slots of `ops` hold the operators of nodes i .. f-1. */
  predicate OpsFilled(pool: seq<Tensor>, g: seq<nat>, ops: seq<Op>, i: nat, f: nat)
    requires IndicesBelow(g, |pool|) && i <= f <= |g| && f - i <= |ops|
  {
    forall k :: 0 <= k < f - i ==> ops[k] == pool[g[i + k]].op
  }

  lemma OpsFilledStep(pool: seq<Tensor>, g: seq<nat>, ops: seq<Op>, i: nat, f: nat)
    requires IndicesBelow(g, |pool|) && i <= f < |g| && f - i < |ops| && OpsFilled(pool, g, ops, i, f)
    ensures OpsFilled(pool, g, ops[f - i := pool[g[f]].op], i, f + 1)
  {
  }

  /** The countdown over the run: the longest prefix of at least two operators that
      canFuse accepts, else 1. */
  method PickLen(canFuse: CanFuse, i: nat, ops: array<Op>, run: nat, ghost runOps: seq<Op>) returns (f: nat)
    requires 1 <= run <= ops.Length && ops[..run] == runOps
    ensures f == Choose(canFuse, i, runOps, run)
  {
    f := run;
    while f > 1
      invariant 1 <= f <= run
      invariant Choose(canFuse, i, runOps, f) == Choose(canFuse, i, runOps, run)
    {
      assert ops[..f] == runOps[..f];
      if canFuse(i, ops[..f]) {
        return;
      }
      f := f - 1;
    }
  }

  /** The fusion loop of ggml_metal_graph_optimize over the node array `gf`. */
  method FuseNodes(pool: seq<Tensor>, gf: array<nat>, canFuse: CanFuse) returns (nodes: seq<NodeInfo>)
    requires IndicesBelow(gf[..], |pool|)
    ensures nodes == FuseAll(pool, gf[..], canFuse)
  {
    ghost var g := gf[..];
    ghost var lens := LenTable(pool, g, canFuse);
    var n := gf.Length;
    var ops := new Op[MAX_FUSE];
    nodes := [];
    var i := 0;
    while i < n
      invariant 0 <= i <= n && gf[..] == g
      invariant nodes + Chop(g, lens, i) == Chop(g, lens, 0)
    {
      var node, next := NextUnit(pool, gf, g, canFuse, ops, i, lens);
      ChopStep(g, lens, nodes, i, node, next);
      nodes := nodes + [node];
      i := next;
    }
  }

  /** One round of the fusion loop: the unit opened at node i, and the node after it. */
  method NextUnit(pool: seq<Tensor>, gf: array<nat>, ghost g: seq<nat>, canFuse: CanFuse, ops: array<Op>, i: nat,
                  ghost lens: seq<nat>)
    returns (node: NodeInfo, next: nat)
    requires gf[..] == g && IndicesBelow(g, |pool|) && i < |g| && ops.Length == MAX_FUSE
    requires lens == LenTable(pool, g, canFuse)
    modifies ops
    ensures next == i + lens[i] && node == UnitAt(g, lens, i)
  {
    var f := ScanUnit(pool, gf, g, canFuse, ops, i);
    LenTableAt(pool, g, canFuse, i);
    var last;
    node, last := CollectUnit(gf, g, i, f);
    next := last + 1;
  }

  /** The unit opened at node i0 with length f: node i0 as primary, the f - 1 nodes after
      it added as fused ones; the result is the index of the unit's last node. */
  method CollectUnit(gf: array<nat>, ghost g: seq<nat>, i0: nat, f: nat) returns (node: NodeInfo, i: nat)
    requires gf[..] == g && 1 <= f && i0 + f <= |g|
    ensures node.node == g[i0] && node.fused == g[i0 + 1..i0 + f] && i == i0 + f - 1
  {
    node := NodeInfo(gf[i0], []);
    i := i0;
    for k := 1 to f
      invariant i == i0 + k - 1
      invariant node.node == g[i0] && node.fused == g[i0 + 1..i0 + k]
    {
      i := i + 1;
      ghost var before := node.fused;
      node := node.AddFused(gf[i]);
      assert node.fused == before + [g[i]];
      SliceSnoc(g, i0 + 1, i0 + k);
    }
  }

  lemma SliceSnoc(g: seq<nat>, i: nat, j: nat)
    requires i <= j < |g|
    ensures g[i..j + 1] == g[i..j] + [g[j]]
  {
  }

  /** Appending the unit opened at node i moves the cut point past it. */
  lemma ChopStep(g: seq<nat>, lens: seq<nat>, nodes: seq<NodeInfo>, i: nat, node: NodeInfo, next: nat)
    requires Cuts(g, lens) && i < |g| && next == i + lens[i]
    requires node.node == g[i] && node.fused == g[i + 1..next]
    requires nodes + Chop(g, lens, i) == Chop(g, lens, 0)
    ensures next <= |g| && (nodes + [node]) + Chop(g, lens, next) == Chop(g, lens, 0)
  {
    var rest := Chop(g, lens, next);
    assert Chop(g, lens, i) == [node] + rest;
    calc {
      (nodes + [node]) + rest;
      nodes + ([node] + rest);
      nodes + Chop(g, lens, i);
    }
  }
}
