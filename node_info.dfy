/** A dispatch unit of the optimiser (node_info): a primary tensor and the tensors fused
    after it, with the memory footprint that the reorder tracks for it. */
module NodeInfo {
  import opened Graph
  import opened MemRange

  /** Metadata-only operators: they neither read nor write memory. */
  predicate IsEmpty(op: Op)
  {
    op == NONE || op == RESHAPE || op == TRANSPOSE || op == VIEW || op == PERMUTE
  }

  datatype NodeInfo = NodeInfo(node: nat, fused: seq<nat>)
  {
    /** The tensor whose output the unit produces: the last fused tensor, or the primary. */
    function Dst(): (d: nat)
      ensures d == node || d in fused
      ensures fused != [] ==> d == fused[|fused| - 1]
    {
      if fused == [] then node else fused[|fused| - 1]
    }

    /** Appends one fused tensor, which becomes the unit's destination. */
    function AddFused(t: nat): (r: NodeInfo)
      ensures r.node == node && r.fused == fused + [t]
      ensures r.Dst() == t
      ensures |r.Tensors()| == |Tensors()| + 1
    {
      NodeInfo(node, fused + [t])
    }

    /** The tensors of the unit in execution order: the primary, then the fused ones. */
    function Tensors(): (ts: seq<nat>)
      ensures |ts| == 1 + |fused| && ts[0] == node && ts[1..] == fused
    {
      [node] + fused
    }
  }

  predicate NodeValid(pool: seq<Tensor>, n: NodeInfo)
  {
    n.node < |pool| && IndicesBelow(n.fused, |pool|)
  }

  function OpOf(pool: seq<Tensor>, n: NodeInfo): Op
    requires NodeValid(pool, n)
  {
    pool[n.node].op
  }

  /** The SRC intervals of every source slot of every fused tensor, in order. */
  function FusedSrcRanges(pool: seq<Tensor>, fs: seq<nat>): (rs: seq<Range>)
    requires WellFormed(pool) && IndicesBelow(fs, |pool|)
  {
    if fs == [] then []
    else FusedSrcRanges(pool, fs[..|fs| - 1]) + SrcRanges(pool, fs[|fs| - 1], GGML_MAX_SRC)
  }

  lemma {:induction false} FusedSrcRangesReads(pool: seq<Tensor>, fs: seq<nat>)
    requires WellFormed(pool) && IndicesBelow(fs, |pool|)
    ensures forall r :: r in FusedSrcRanges(pool, fs) ==> r.pt == SRC
  {
    if fs != [] {
      FusedSrcRangesReads(pool, fs[..|fs| - 1]);
      SrcRangesSound(pool, fs[|fs| - 1], GGML_MAX_SRC);
    }
  }

  /** The unit's hazard footprint as the reorder's h_add records it: the primary's sources,
      the fused tensors' sources (SRC), then the unit's destination (DST).  All GGML_MAX_SRC
      source slots are looked at, where the exported add and check look at GGML_MAX_DIMS. */
  function Footprint(pool: seq<Tensor>, n: NodeInfo): (fp: seq<Range>)
    requires WellFormed(pool) && NodeValid(pool, n)
    ensures |fp| >= 1 && fp[|fp| - 1] == FromTensor(pool, n.Dst(), DST)
  {
    SrcRanges(pool, n.node, GGML_MAX_SRC) + FusedSrcRanges(pool, n.fused) + [FromTensor(pool, n.Dst(), DST)]
  }

  /** Every range of a footprint but the last is a read. */
  lemma FootprintReadsFirst(pool: seq<Tensor>, n: NodeInfo)
    requires WellFormed(pool) && NodeValid(pool, n)
    ensures var fp := Footprint(pool, n); forall r :: r in fp[..|fp| - 1] ==> r.pt == SRC
  {
    var fp := Footprint(pool, n);
    SrcRangesSound(pool, n.node, GGML_MAX_SRC);
    FusedSrcRangesReads(pool, n.fused);
    assert fp[..|fp| - 1] == SrcRanges(pool, n.node, GGML_MAX_SRC) + FusedSrcRanges(pool, n.fused);
  }

  /** Two units that share buffers only through reads are clear of each other: when
      neither unit's destination buffer holds any range of the other unit, no range of
      `later`'s footprint conflicts with a range of `earlier`'s. */
  lemma {:induction false} ReadOnlySharingIsClear(pool: seq<Tensor>, later: NodeInfo, earlier: NodeInfo)
    requires WellFormed(pool) && NodeValid(pool, later) && NodeValid(pool, earlier)
    requires forall c :: c in Footprint(pool, earlier) ==> c.pb != FromTensor(pool, later.Dst(), DST).pb
    requires forall r :: r in Footprint(pool, later) ==> r.pb != FromTensor(pool, earlier.Dst(), DST).pb
    ensures AllClear(Footprint(pool, earlier), Footprint(pool, later))
  {
    var fl := Footprint(pool, later);
    var fe := Footprint(pool, earlier);
    FootprintReadsFirst(pool, later);
    FootprintReadsFirst(pool, earlier);
    forall r | r in fl ensures NoConflict(fe, r) {
      forall c | c in fe ensures !Conflicts(r, c) {
        if r == fl[|fl| - 1] {
          assert r.pb != c.pb;
        } else if c == fe[|fe| - 1] {
          assert r.pb != c.pb;
        } else {
          assert r in fl[..|fl| - 1] by {
            var i :| 0 <= i < |fl| && fl[i] == r;
            assert i < |fl| - 1;
            assert fl[..|fl| - 1][i] == r;
          }
          assert c in fe[..|fe| - 1] by {
            var i :| 0 <= i < |fe| && fe[i] == c;
            assert i < |fe| - 1;
            assert fe[..|fe| - 1][i] == c;
          }
        }
      }
    }
  }
}
