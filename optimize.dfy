/** ggml_metal_graph_optimize: fuse the node array into units, reorder the units, and
    write the units back into the node array in the new order (unfuse). */
module Optimize {
  import opened Graph
  import opened MemRange
  import opened NodeInfo
  import opened Schedule
  import opened Reorder
  import opened Fusion

  /** The tensors of the units `nodes[order[0]]`, `nodes[order[1]]`, ..., one unit after
      the other: primary first, then its fused tensors in order. */
  function Expand(nodes: seq<NodeInfo>, order: seq<nat>): seq<nat>
    requires IndicesBelow(order, |nodes|)
  {
    if order == [] then []
    else Expand(nodes, order[..|order| - 1]) + nodes[order[|order| - 1]].Tensors()
  }

  lemma {:induction false} ExpandConcat(nodes: seq<NodeInfo>, a: seq<nat>, b: seq<nat>)
    requires IndicesBelow(a, |nodes|) && IndicesBelow(b, |nodes|)
    ensures IndicesBelow(a + b, |nodes|)
    ensures Expand(nodes, a + b) == Expand(nodes, a) + Expand(nodes, b)
    decreases |b|
  {
    if b != [] {
      var init := b[..|b| - 1];
      var t := nodes[b[|b| - 1]].Tensors();
      assert (a + b)[..|a + b| - 1] == a + init;
      assert (a + b)[|a + b| - 1] == b[|b| - 1];
      ExpandConcat(nodes, a, init);
      calc {
        Expand(nodes, a + b);
        Expand(nodes, a + init) + t;
        (Expand(nodes, a) + Expand(nodes, init)) + t;
        Expand(nodes, a) + (Expand(nodes, init) + t);
      }
    } else {
      assert a + b == a;
    }
  }

  /** Each unit's tensors appear contiguously in the expansion, at the offset given by the
      units placed before it, as its primary followed by its fused tensors. */
  lemma ExpandGroup(nodes: seq<NodeInfo>, order: seq<nat>, k: nat)
    requires IndicesBelow(order, |nodes|) && k < |order|
    ensures var off := |Expand(nodes, order[..k])|; var ts := nodes[order[k]].Tensors();
      && off + |ts| <= |Expand(nodes, order)|
      && Expand(nodes, order)[off..off + |ts|] == ts
      && ts[0] == nodes[order[k]].node && ts[1..] == nodes[order[k]].fused
  {
    assert order == order[..k + 1] + order[k + 1..];
    ExpandConcat(nodes, order[..k + 1], order[k + 1..]);
    assert order[..k + 1][..k] == order[..k];
  }

  /** The identity order 0, 1, ..., n-1. */
  function Iota(n: nat): (s: seq<nat>)
    ensures |s| == n && forall k :: 0 <= k < n ==> s[k] == k
  {
    if n == 0 then [] else Iota(n - 1) + [n - 1]
  }

  /** In the identity order the expansion is the units' tensors in their own order. */
  lemma {:induction false} ExpandIota(nodes: seq<NodeInfo>, n: nat)
    requires n <= |nodes|
    ensures IndicesBelow(Iota(n), |nodes|)
    ensures Expand(nodes, Iota(n)) == Flatten(nodes[..n])
  {
    if n > 0 {
      ExpandIota(nodes, n - 1);
      assert Iota(n)[..n - 1] == Iota(n - 1);
      assert nodes[..n][..n - 1] == nodes[..n - 1];
    }
  }

  /** Reordering the units only permutes the tensors: two orders listing the same units
      (with multiplicity) expand to the same multiset of tensors. */
  lemma {:induction false} ExpandMultiset(nodes: seq<NodeInfo>, a: seq<nat>, b: seq<nat>)
    requires IndicesBelow(a, |nodes|) && IndicesBelow(b, |nodes|)
    requires multiset(a) == multiset(b)
    ensures multiset(Expand(nodes, a)) == multiset(Expand(nodes, b))
    decreases |a|
  {
    if a == [] {
      EmptyMultiset(b);
    } else {
      var init, x := a[..|a| - 1], a[|a| - 1];
      var pre, post := SplitAt(a, b, |nodes|);
      ExpandRemove(nodes, pre, x, post);
      ExpandMultiset(nodes, init, pre + post);
    }
  }

  lemma EmptyMultiset(b: seq<nat>)
    requires multiset(b) == multiset{}
    ensures b == []
  {
    assert |b| == |multiset(b)|;
  }

  /** The last unit of `a` occurs in `b`, which has the same multiset; taking it out of both
      leaves sequences with the same multiset. */
  lemma SplitAt(a: seq<nat>, b: seq<nat>, n: nat) returns (pre: seq<nat>, post: seq<nat>)
    requires a != [] && multiset(a) == multiset(b) && IndicesBelow(a, n) && IndicesBelow(b, n)
    ensures b == pre + [a[|a| - 1]] + post
    ensures IndicesBelow(a[..|a| - 1], n) && IndicesBelow(pre, n) && IndicesBelow(post, n)
    ensures multiset(a[..|a| - 1]) == multiset(pre + post)
  {
    var x := a[|a| - 1];
    assert x in multiset(a);
    var p :| 0 <= p < |b| && b[p] == x;
    pre, post := b[..p], b[p + 1..];
    assert b == pre + [x] + post;
    assert a == a[..|a| - 1] + [x];
    MultisetRemove(a[..|a| - 1], x, pre, post);
  }

  lemma MultisetRemove(init: seq<nat>, x: nat, pre: seq<nat>, post: seq<nat>)
    requires multiset(init + [x]) == multiset(pre + [x] + post)
    ensures multiset(init) == multiset(pre + post)
  {
    calc {
      multiset(init) + multiset{x};
      multiset(init + [x]);
      multiset(pre + [x] + post);
      multiset(pre + post) + multiset{x};
    }
    assert forall y :: multiset(init)[y] == (multiset(init) + multiset{x})[y] - multiset{x}[y];
  }

  /** Taking one unit out of an order takes its tensors out of the expansion. */
  lemma ExpandRemove(nodes: seq<NodeInfo>, pre: seq<nat>, x: nat, post: seq<nat>)
    requires IndicesBelow(pre, |nodes|) && x < |nodes| && IndicesBelow(post, |nodes|)
    ensures IndicesBelow(pre + [x] + post, |nodes|) && IndicesBelow(pre + post, |nodes|)
    ensures multiset(Expand(nodes, pre + [x] + post)) == multiset(Expand(nodes, pre + post)) + multiset(nodes[x].Tensors())
  {
    var ea, eb, t := Expand(nodes, pre), Expand(nodes, post), nodes[x].Tensors();
    ExpandConcat(nodes, pre, post);
    ExpandConcat(nodes, pre + [x], post);
    ExpandConcat(nodes, pre, [x]);
    assert [x][..0] == [];
    assert Expand(nodes, [x]) == t;
    assert Expand(nodes, pre + [x] + post) == ea + t + eb;
    calc {
      multiset(ea + t + eb);
      multiset(ea) + multiset(t) + multiset(eb);
      multiset(ea) + multiset(eb) + multiset(t);
      multiset(ea + eb) + multiset(t);
    }
  }

  /** A duplicate-free sequence has exactly its elements, once each, as its multiset. */
  lemma {:induction false} DistinctMultiset(s: seq<nat>)
    requires Distinct(s)
    ensures multiset(s) == multiset(Elems(s))
  {
    if s != [] {
      var init := s[..|s| - 1];
      var x := s[|s| - 1];
      assert s == init + [x];
      DistinctMultiset(init);
      assert x !in Elems(init);
      assert Elems(s) == Elems(init) + {x};
    }
  }

  /** A permutation of 0 .. n-1 has the multiset of the identity order. */
  lemma PermutationMultiset(s: seq<nat>, n: nat)
    requires IsPermutation(s, n)
    ensures multiset(s) == multiset(Iota(n))
  {
    PermutationElems(s, n);
    assert Distinct(Iota(n));
    assert Elems(Iota(n)) == Below(n) by {
      forall x | x in Below(n) ensures x in Elems(Iota(n)) {
        assert Iota(n)[x] == x;
      }
    }
    DistinctMultiset(s);
    DistinctMultiset(Iota(n));
  }

  /** The unfuse step: every unit of `order`, in order, is written back into gf from the
      front, primary first and then its fused tensors; the rest of gf is left alone. */
  method Unfuse(gf: array<nat>, nodes: seq<NodeInfo>, order: seq<nat>)
    requires IndicesBelow(order, |nodes|) && |Expand(nodes, order)| <= gf.Length
    modifies gf
    ensures gf[..|Expand(nodes, order)|] == Expand(nodes, order)
    ensures forall p :: |Expand(nodes, order)| <= p < gf.Length ==> gf[p] == old(gf[p])
  {
    var j := 0;
    for x := 0 to |order|
      invariant IndicesBelow(order[..x], |nodes|)
      invariant j == |Expand(nodes, order[..x])| <= |Expand(nodes, order)|
      invariant gf[..j] == Expand(nodes, order[..x])
      invariant forall p :: |Expand(nodes, order)| <= p < gf.Length ==> gf[p] == old(gf[p])
    {
      ExpandPrefix(nodes, order, x);
      j := WriteUnit(gf, j, nodes[order[x]]);
    }
    assert order[..|order|] == order;
  }

  /** Writes one unit's tensors into gf from position j on, primary first; the positions
      before j and after the unit are left alone. */
  method WriteUnit(gf: array<nat>, j: nat, node: NodeInfo) returns (e: nat)
    requires j + |node.Tensors()| <= gf.Length
    modifies gf
    ensures e == j + |node.Tensors()|
    ensures gf[..e] == old(gf[..j]) + node.Tensors()
    ensures forall p :: e <= p < gf.Length ==> gf[p] == old(gf[p])
  {
    ghost var done := gf[..j];
    gf[j] := node.node;
    e := j + 1;
    for k := 0 to |node.fused|
      invariant e == j + 1 + k
      invariant gf[..e] == done + [node.node] + node.fused[..k]
      invariant forall p :: e <= p < gf.Length ==> gf[p] == old(gf[p])
    {
      gf[e] := node.fused[k];
      e := e + 1;
      assert node.fused[..k + 1] == node.fused[..k] + [node.fused[k]];
    }
    assert node.fused[..|node.fused|] == node.fused;
  }

  /** The expansion grows by one unit's tensors per step and stays within the whole. */
  lemma ExpandPrefix(nodes: seq<NodeInfo>, order: seq<nat>, x: nat)
    requires IndicesBelow(order, |nodes|) && x < |order|
    ensures IndicesBelow(order[..x + 1], |nodes|)
    ensures Expand(nodes, order[..x + 1]) == Expand(nodes, order[..x]) + nodes[order[x]].Tensors()
    ensures |Expand(nodes, order[..x + 1])| <= |Expand(nodes, order)|
  {
    assert order[..x + 1][..x] == order[..x];
    assert order == order[..x + 1] + order[x + 1..];
    ExpandConcat(nodes, order[..x + 1], order[x + 1..]);
  }

  /** The whole optimiser on the node array gf: the units of the fusion pass, the order of
      the reorder with the concurrent batch of each of its entries, and gf rewritten as the
      units in that order. */
  method GraphOptimize(pool: seq<Tensor>, gf: array<nat>, canFuse: CanFuse)
    returns (ghost nodes: seq<NodeInfo>, ghost order: seq<nat>, ghost batchOf: seq<nat>)
    requires WellFormed(pool) && IndicesBelow(gf[..], |pool|)
    modifies gf
    ensures nodes == FuseAll(pool, old(gf[..]), canFuse) && NodesValid(pool, nodes)
    ensures IsPermutation(order, |nodes|)
    ensures InversionsBounded(order)
    ensures InversionsHazardFree(FootprintTable(pool, nodes), order)
    ensures InversionsCrossNoBarrier(OpTable(pool, nodes), order)
    ensures |batchOf| == |order|
    ensures BatchesHazardFree(OpTable(pool, nodes), FootprintTable(pool, nodes), order, batchOf)
    ensures BatchesStartAtEffectingNodes(OpTable(pool, nodes), order, batchOf)
    ensures BatchesOpenOnClash(FootprintTable(pool, nodes), order, batchOf)
    ensures InversionsCrossBatches(order, batchOf)
    ensures gf[..] == Expand(nodes, order)
    ensures multiset(gf[..]) == multiset(old(gf[..]))
    ensures (forall a, b :: 0 <= a < |nodes| && 0 <= b < |nodes| && a != b ==> !Clash(FootprintTable(pool, nodes), a, b))
            ==> gf[..] == old(gf[..])
  {
    ghost var g := gf[..];
    var units := FuseNodes(pool, gf, canFuse);
    nodes := units;
    FusedNodesValid(pool, g, canFuse);
    var ord;
    ord, batchOf := ReorderNodes(pool, units);
    order := ord;
    ReorderedExpansion(pool, g, canFuse, ord);
    Unfuse(gf, units, ord);
    assert gf[..] == gf[..|g|];
    if forall a, b :: 0 <= a < |nodes| && 0 <= b < |nodes| && a != b ==> !Clash(FootprintTable(pool, nodes), a, b) {
      NoClashIdentity(pool, nodes, order, batchOf);
      FuseAllCovers(pool, g, canFuse);
    }
  }

  /** With no conflict between any two units, an order that keeps the reorder's promises is
      the identity: one batch, nothing moved, and the expansion is the units' tensors in their
      own order. */
  lemma NoClashIdentity(pool: seq<Tensor>, nodes: seq<NodeInfo>, order: seq<nat>, batchOf: seq<nat>)
    requires WellFormed(pool) && NodesValid(pool, nodes)
    requires IsPermutation(order, |nodes|) && |batchOf| == |order|
    requires BatchesStartAtEffectingNodes(OpTable(pool, nodes), order, batchOf)
    requires BatchesOpenOnClash(FootprintTable(pool, nodes), order, batchOf)
    requires InversionsCrossBatches(order, batchOf)
    requires forall a, b :: 0 <= a < |nodes| && 0 <= b < |nodes| && a != b ==> !Clash(FootprintTable(pool, nodes), a, b)
    ensures forall k :: 0 <= k < |order| ==> batchOf[k] == 0
    ensures order == Iota(|nodes|)
    ensures Expand(nodes, order) == Flatten(nodes)
  {
    NoClashKeepsOrder(OpTable(pool, nodes), FootprintTable(pool, nodes), order, batchOf);
    ExpandIota(nodes, |nodes|);
    assert nodes[..|nodes|] == nodes;
  }

  /** Every unit of the fusion pass is a valid unit of the pool. */
  lemma FusedNodesValid(pool: seq<Tensor>, g: seq<nat>, canFuse: CanFuse)
    requires IndicesBelow(g, |pool|)
    ensures NodesValid(pool, FuseAll(pool, g, canFuse))
  {
    var units := FuseAll(pool, g, canFuse);
    FuseAllShape(pool, g, canFuse);
    forall k | 0 <= k < |units| ensures NodeValid(pool, units[k]) {
      assert units[k] in units;
    }
  }

  /** Writing the fused units back in any permutation order yields a permutation of the
      original node array, of the same length. */
  lemma ReorderedExpansion(pool: seq<Tensor>, g: seq<nat>, canFuse: CanFuse, ord: seq<nat>)
    requires IndicesBelow(g, |pool|)
    requires IsPermutation(ord, |FuseAll(pool, g, canFuse)|)
    ensures IndicesBelow(ord, |FuseAll(pool, g, canFuse)|)
    ensures |Expand(FuseAll(pool, g, canFuse), ord)| == |g|
    ensures multiset(Expand(FuseAll(pool, g, canFuse), ord)) == multiset(g)
  {
    var units := FuseAll(pool, g, canFuse);
    PermutationMultiset(ord, |units|);
    ExpandMultiset(units, ord, Iota(|units|));
    ExpandIota(units, |units|);
    assert units[..|units|] == units;
    FuseAllCovers(pool, g, canFuse);
    assert |Expand(units, ord)| == |multiset(Expand(units, ord))| == |multiset(g)| == |g|;
  }
}
