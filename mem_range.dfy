/** The memory-range tracker: tagged byte intervals, the hazard rule between
    them, the interval a tensor occupies, and a growable set of intervals that is
    appended to, cleared and checked. */
module MemRange {
  import opened Graph

  /** Placeholder interval end for a tensor that has no buffer yet ([0, 1024)). */
  const PLACEHOLDER_END: nat := 1024

  datatype RangeType = SRC | DST

  /** A half-open interval [p0, p1) in the buffer identified by pb, read (SRC) or written (DST). */
  datatype Range = Range(pb: nat, p0: nat, p1: nat, pt: RangeType)

  /** The hazard rule: the candidate `r` conflicts with the stored `c` when they are in the
      same buffer, are not both reads, and `r.p0 < c.p1 && r.p1 >= c.p0` (the upper test is
      `>=`, so the rule is not symmetric). */
  predicate Conflicts(r: Range, c: Range)
  {
    r.pb == c.pb && !(r.pt == SRC && c.pt == SRC) && r.p0 < c.p1 && r.p1 >= c.p0
  }

  /** No stored range conflicts with the candidate. */
  predicate NoConflict(rs: seq<Range>, r: Range)
  {
    forall c :: c in rs ==> !Conflicts(r, c)
  }

  /** No candidate of `fp` conflicts with any range of `rs`. */
  predicate AllClear(rs: seq<Range>, fp: seq<Range>)
  {
    forall r :: r in fp ==> NoConflict(rs, r)
  }

  /** The interval of tensor `t`, taken from its base: the buffer's address range when the
      base is allocated, else the placeholder [0, 1024) keyed on the base's own id. */
  function FromTensor(pool: seq<Tensor>, t: nat, pt: RangeType): (r: Range)
    requires WellFormed(pool) && t < |pool|
    ensures r.pt == pt
    ensures pool[Base(pool, t)].alloc.Some? ==>
      var b := pool[Base(pool, t)];
      r.pb == b.alloc.value.buffer && r.p0 == b.alloc.value.data && r.p1 == b.alloc.value.data + b.nbytes
    ensures pool[Base(pool, t)].alloc.None? ==>
      r.pb == Base(pool, t) && r.p0 == 0 && r.p1 == PLACEHOLDER_END
  {
    var base := if pool[t].viewSrc.Some? then pool[t].viewSrc.value else t;
    var x := pool[base];
    match x.alloc
    case Some(a) => Range(a.buffer, a.data, a.data + x.nbytes, pt)
    case None => Range(base, 0, PLACEHOLDER_END, pt)
  }

  /** The SRC intervals of the present sources among the first `k` slots of `t`, in slot order. */
  function SrcRanges(pool: seq<Tensor>, t: nat, k: nat): (rs: seq<Range>)
    requires WellFormed(pool) && t < |pool| && k <= GGML_MAX_SRC
    ensures |rs| <= k
  {
    if k == 0 then []
    else
      var rest := SrcRanges(pool, t, k - 1);
      match pool[t].src[k - 1]
      case Some(s) => rest + [FromTensor(pool, s, SRC)]
      case None => rest
  }

  /** Every interval of SrcRanges is the SRC interval of a present source among the first `k` slots. */
  lemma {:induction false} SrcRangesSound(pool: seq<Tensor>, t: nat, k: nat)
    requires WellFormed(pool) && t < |pool| && k <= GGML_MAX_SRC
    ensures forall r :: r in SrcRanges(pool, t, k) ==>
      r.pt == SRC && exists i :: 0 <= i < k && pool[t].src[i].Some? && r == FromTensor(pool, pool[t].src[i].value, SRC)
  {
    if k > 0 {
      SrcRangesSound(pool, t, k - 1);
    }
  }

  /** Every present source among the first `k` slots contributes its interval. */
  lemma {:induction false} SrcRangesComplete(pool: seq<Tensor>, t: nat, k: nat, i: nat)
    requires WellFormed(pool) && t < |pool| && k <= GGML_MAX_SRC
    requires i < k && pool[t].src[i].Some?
    ensures FromTensor(pool, pool[t].src[i].value, SRC) in SrcRanges(pool, t, k)
  {
    if i < k - 1 {
      SrcRangesComplete(pool, t, k - 1, i);
    }
  }

  /** Looking at more slots only adds intervals at the end. */
  lemma {:induction false} SrcRangesPrefix(pool: seq<Tensor>, t: nat, i: nat, j: nat)
    requires WellFormed(pool) && t < |pool| && i <= j <= GGML_MAX_SRC
    ensures SrcRanges(pool, t, i) <= SrcRanges(pool, t, j)
  {
    if i < j {
      SrcRangesPrefix(pool, t, i, j - 1);
    }
  }

  /** What the exported ggml_mem_ranges_add / ggml_mem_ranges_check look at for a tensor:
      its first GGML_MAX_DIMS sources as SRC, then the tensor itself as DST. */
  function TensorRanges(pool: seq<Tensor>, t: nat): (rs: seq<Range>)
    requires WellFormed(pool) && t < |pool|
    ensures |rs| >= 1 && rs[|rs| - 1] == FromTensor(pool, t, DST)
  {
    SrcRanges(pool, t, GGML_MAX_DIMS) + [FromTensor(pool, t, DST)]
  }

  /** All of a tensor's intervals but the last are reads. */
  lemma TensorRangesReadsFirst(pool: seq<Tensor>, t: nat)
    requires WellFormed(pool) && t < |pool|
    ensures var rs := TensorRanges(pool, t); forall r :: r in rs[..|rs| - 1] ==> r.pt == SRC
  {
    var rs := TensorRanges(pool, t);
    SrcRangesSound(pool, t, GGML_MAX_DIMS);
    assert rs[..|rs| - 1] == SrcRanges(pool, t, GGML_MAX_DIMS);
  }

  /** A growable set of ranges (ggml_mem_ranges). */
  class Ranges {
    var ranges: seq<Range>
    var debug: int

    /** ggml_mem_ranges_init: a fresh, empty set. */
    constructor (debug: int)
      ensures ranges == [] && this.debug == debug
    {
      ranges := [];
      this.debug := debug;
    }

    /** ggml_mem_ranges_reset: forget every range. */
    method Reset()
      modifies this`ranges
      ensures ranges == []
      ensures forall r :: NoConflict(ranges, r)
    {
      ranges := [];
    }

    /** ggml_mem_ranges_add (range form): append one range; it never fails. */
    method Add(r: Range) returns (ok: bool)
      modifies this`ranges
      ensures ranges == old(ranges) + [r]
      ensures ok
    {
      ranges := ranges + [r];
      ok := true;
    }

    /** ggml_mem_ranges_add_src: append the SRC interval of tensor `t`. */
    method AddSrc(pool: seq<Tensor>, t: nat) returns (ok: bool)
      requires WellFormed(pool) && t < |pool|
      modifies this`ranges
      ensures ranges == old(ranges) + [FromTensor(pool, t, SRC)]
      ensures ok
    {
      ok := Add(FromTensor(pool, t, SRC));
    }

    /** ggml_mem_ranges_add_dst: append the DST interval of tensor `t`. */
    method AddDst(pool: seq<Tensor>, t: nat) returns (ok: bool)
      requires WellFormed(pool) && t < |pool|
      modifies this`ranges
      ensures ranges == old(ranges) + [FromTensor(pool, t, DST)]
      ensures ok
    {
      ok := Add(FromTensor(pool, t, DST));
    }

    /** Appends the SRC intervals of the present sources among the first `k` slots of `t`
        (the source loop shared by the exported add, which looks at GGML_MAX_DIMS slots, and
        the reorder's h_add, which looks at GGML_MAX_SRC slots). */
    method AddSrcs(pool: seq<Tensor>, t: nat, k: nat) returns (ok: bool)
      requires WellFormed(pool) && t < |pool| && k <= GGML_MAX_SRC
      modifies this`ranges
      ensures ranges == old(ranges) + SrcRanges(pool, t, k)
      ensures ok
    {
      var i := 0;
      while i < k
        invariant 0 <= i <= k
        invariant ranges == old(ranges) + SrcRanges(pool, t, i)
      {
        if pool[t].src[i].Some? {
          var _ := AddSrc(pool, pool[t].src[i].value);
        }
        i := i + 1;
      }
      ok := true;
    }

    /** Exported ggml_mem_ranges_add (tensor form): the sources in the first
        GGML_MAX_DIMS slots, then the tensor itself as destination. */
    method AddTensor(pool: seq<Tensor>, t: nat) returns (ok: bool)
      requires WellFormed(pool) && t < |pool|
      modifies this`ranges
      ensures ranges == old(ranges) + TensorRanges(pool, t)
      ensures ok
    {
      var _ := AddSrcs(pool, t, GGML_MAX_DIMS);
      ok := AddDst(pool, t);
    }

    /** ggml_mem_ranges_check (range form): true exactly when no stored range conflicts with `r`. */
    method Check(r: Range) returns (ok: bool)
      ensures ok == NoConflict(ranges, r)
    {
      var i := 0;
      while i < |ranges|
        invariant 0 <= i <= |ranges|
        invariant forall j :: 0 <= j < i ==> !Conflicts(r, ranges[j])
      {
        var cmp := ranges[i];
        if r.pb != cmp.pb {
          i := i + 1;
          continue;
        }
        if r.pt == SRC && cmp.pt == SRC {
          i := i + 1;
          continue;
        }
        if r.p0 < cmp.p1 && r.p1 >= cmp.p0 {
          assert cmp in ranges && Conflicts(r, cmp);
          return false;
        }
        i := i + 1;
      }
      return true;
    }

    /** ggml_mem_ranges_check_src: checks the SRC interval of tensor `t`. */
    method CheckSrc(pool: seq<Tensor>, t: nat) returns (ok: bool)
      requires WellFormed(pool) && t < |pool|
      ensures ok == NoConflict(ranges, FromTensor(pool, t, SRC))
    {
      ok := Check(FromTensor(pool, t, SRC));
    }

    /** ggml_mem_ranges_check_dst: checks the DST interval of tensor `t`. */
    method CheckDst(pool: seq<Tensor>, t: nat) returns (ok: bool)
      requires WellFormed(pool) && t < |pool|
      ensures ok == NoConflict(ranges, FromTensor(pool, t, DST))
    {
      ok := Check(FromTensor(pool, t, DST));
    }

    /** Checks the SRC intervals of the present sources among the first `k` slots of `t`,
        stopping at the first conflict. */
    method CheckSrcs(pool: seq<Tensor>, t: nat, k: nat) returns (ok: bool)
      requires WellFormed(pool) && t < |pool| && k <= GGML_MAX_SRC
      ensures ok == AllClear(ranges, SrcRanges(pool, t, k))
    {
      var i := 0;
      while i < k
        invariant 0 <= i <= k
        invariant AllClear(ranges, SrcRanges(pool, t, i))
      {
        if pool[t].src[i].Some? {
          ok := CheckSrc(pool, pool[t].src[i].value);
          if !ok {
            SrcRangesPrefix(pool, t, i + 1, k);
            PrefixMember(SrcRanges(pool, t, i + 1), SrcRanges(pool, t, k), FromTensor(pool, pool[t].src[i].value, SRC));
            return;
          }
        }
        i := i + 1;
      }
      ok := true;
    }

    /** Exported ggml_mem_ranges_check (tensor form): stops at the first conflicting source
        among the first GGML_MAX_DIMS slots, then checks the tensor itself as destination. */
    method CheckTensor(pool: seq<Tensor>, t: nat) returns (ok: bool)
      requires WellFormed(pool) && t < |pool|
      ensures ok == AllClear(ranges, TensorRanges(pool, t))
    {
      ok := CheckSrcs(pool, t, GGML_MAX_DIMS);
      if !ok {
        return;
      }
      ok := CheckDst(pool, t);
    }
  }

  lemma PrefixMember<T>(a: seq<T>, b: seq<T>, x: T)
    requires a <= b && x in a
    ensures x in b
  {
    var i :| 0 <= i < |a| && a[i] == x;
    assert b[i] == x;
  }

  // Properties of the hazard rule.

  /** Two reads never conflict, whatever their intervals. */
  lemma ReadsNeverConflict(r: Range, c: Range)
    requires r.pt == SRC && c.pt == SRC
    ensures !Conflicts(r, c)
  {
  }

  /** Ranges in different buffers never conflict, whatever their intervals. */
  lemma DifferentBuffersNeverConflict(r: Range, c: Range)
    requires r.pb != c.pb
    ensures !Conflicts(r, c)
  {
  }

  /** The rule is conservative: two intervals of one buffer that share a byte, at least
      one of them a write, conflict in both directions. */
  lemma OverlapConflicts(r: Range, c: Range)
    requires r.pb == c.pb && (r.pt == DST || c.pt == DST)
    requires r.p0 < c.p1 && c.p0 < r.p1
    ensures Conflicts(r, c) && Conflicts(c, r)
  {
  }

  /** The `>=` in the rule also flags a candidate that ends exactly where the stored one
      begins, but not a candidate that begins exactly where the stored one ends. */
  lemma AdjacentAsymmetry(r: Range, c: Range)
    requires r.pb == c.pb && !(r.pt == SRC && c.pt == SRC)
    ensures r.p0 < c.p1 && r.p1 == c.p0 ==> Conflicts(r, c)
    ensures r.p0 == c.p1 ==> !Conflicts(r, c)
    ensures r.p0 < r.p1 == c.p0 < c.p1 ==> Conflicts(r, c) && !Conflicts(c, r)
  {
  }

  /** A view and its base occupy the same interval. */
  lemma ViewSharesBaseRange(pool: seq<Tensor>, t: nat, pt: RangeType)
    requires WellFormed(pool) && t < |pool|
    ensures FromTensor(pool, t, pt) == FromTensor(pool, Base(pool, t), pt)
  {
  }

  /** Two distinct unallocated base tensors are keyed on different ids and never conflict. */
  lemma UnallocatedDistinctNeverConflict(pool: seq<Tensor>, a: nat, b: nat, ka: RangeType, kb: RangeType)
    requires WellFormed(pool) && a < |pool| && b < |pool|
    requires pool[Base(pool, a)].alloc.None? && pool[Base(pool, b)].alloc.None?
    requires Base(pool, a) != Base(pool, b)
    ensures !Conflicts(FromTensor(pool, a, ka), FromTensor(pool, b, kb))
  {
  }

  /** Clearing a set makes every check succeed. */
  lemma EmptySetNeverConflicts(fp: seq<Range>)
    ensures AllClear([], fp)
  {
  }
}
