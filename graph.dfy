/** The part of the tensor graph that the Metal graph optimiser looks at.

    A tensor pointer is modelled by an abstract id: the tensors of a graph live
    in a pool (a sequence) and a tensor's id is its index in that pool.  Source
    slots, the view base and the node array of the graph all hold such ids. */
module Graph {

  /** Number of source slots that the exported range functions look at (GGML_MAX_DIMS in ggml.h). */
  const GGML_MAX_DIMS: nat := 4

  /** Number of source slots of a tensor (GGML_MAX_SRC in ggml.h). */
  const GGML_MAX_SRC: nat := 10

  datatype Option<T> = None | Some(value: T)

  /** The operator kinds the optimiser distinguishes; every other kind is `Other`. */
  datatype Op =
    | NONE | RESHAPE | TRANSPOSE | VIEW | PERMUTE
    | MUL_MAT | MUL_MAT_ID | ROPE | NORM | RMS_NORM | GROUP_NORM | SUM_ROWS
    | MUL | ADD | DIV | GLU | SCALE | GET_ROWS
    | CPY | SET_ROWS
    | Other(code: nat)

  /** Where an allocated tensor lives: the identity of its backend buffer and its data address. */
  datatype Alloc = Alloc(buffer: nat, data: nat)

  /** A tensor: its operator, its view base (view_src), its allocation if it has one,
      its size in bytes (ggml_nbytes) and its source slots. */
  datatype Tensor = Tensor(
    op: Op,
    viewSrc: Option<nat>,
    alloc: Option<Alloc>,
    nbytes: nat,
    src: seq<Option<nat>>)

  /** All references held by a tensor point into the pool, it has GGML_MAX_SRC source
      slots, and a view points directly at a tensor that is not itself a view. */
  predicate TensorWellFormed(pool: seq<Tensor>, x: Tensor)
  {
    && |x.src| == GGML_MAX_SRC
    && (forall i :: 0 <= i < |x.src| && x.src[i].Some? ==> x.src[i].value < |pool|)
    && (x.viewSrc.Some? ==> x.viewSrc.value < |pool| && pool[x.viewSrc.value].viewSrc.None?)
  }

  /** Every entry of `s` is an index below `n` (a tensor id of a pool of n tensors, a unit
      index of a graph of n units, ...). */
  predicate IndicesBelow(s: seq<nat>, n: nat)
  {
    forall k :: 0 <= k < |s| ==> s[k] < n
  }

  predicate WellFormed(pool: seq<Tensor>)
  {
    forall t :: 0 <= t < |pool| ==> TensorWellFormed(pool, pool[t])
  }

  /** The base tensor of `t`: its view source when it has one, else `t` itself. */
  function Base(pool: seq<Tensor>, t: nat): (b: nat)
    requires WellFormed(pool) && t < |pool|
    ensures b < |pool| && pool[b].viewSrc.None?
    ensures pool[t].viewSrc.None? ==> b == t
    ensures pool[t].viewSrc.Some? ==> b == pool[t].viewSrc.value
  {
    match pool[t].viewSrc
    case Some(v) => v
    case None => t
  }
}
