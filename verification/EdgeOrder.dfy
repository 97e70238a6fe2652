/** The order of edge ends in their lists: what merging parallel edges keeps of it. */
module EdgeOrder {
  import opened FlowGraph
  import opened EdgeLabels
  import opened EdgePairing
  import opened EdgeCounts
  import opened EdgeFlags

  /** All but the first `v` are left out. */
  ghost function FirstOnly(p: seq<BlockId>, v: BlockId): (r: seq<BlockId>) {
    if p == [] then []
    else
      var front, last := p[..|p| - 1], p[|p| - 1];
      FirstOnly(front, v) + if last == v && v in front then [] else [last]
  }

  lemma {:induction false} FirstOnlyHas(p: seq<BlockId>, v: BlockId)
    ensures v in FirstOnly(p, v) <==> v in p
  {
    if p != [] {
      FirstOnlyHas(p[..|p| - 1], v);
      assert p == p[..|p| - 1] + [p[|p| - 1]];
    }
  }

  /** Every `v` is left out. */
  ghost function Rest(p: seq<BlockId>, v: BlockId): seq<BlockId> {
    if p == [] then [] else Rest(p[..|p| - 1], v) + if p[|p| - 1] == v then [] else [p[|p| - 1]]
  }

  lemma {:induction false} RestDrop(p: seq<BlockId>, k: nat)
    requires k < |p|
    ensures Rest(DropAt(p, k), p[k]) == Rest(p, p[k])
    decreases |p|
  {
    var last := |p| - 1;
    if k == last {
      assert DropAt(p, k) == p[..last];
    } else {
      RestDrop(p[..last], k);
      assert DropAt(p, k)[..last - 1] == DropAt(p[..last], k);
    }
  }

  // ----- Sifting a list from the front

  /** The first `slot` of `p` are what is kept of the first `i` of `p0`, the others are as in `p0`. */
  ghost predicate Sifted(p0: seq<BlockId>, i: nat, p: seq<BlockId>, slot: nat, v: BlockId) {
    && i <= |p0| && slot <= |p| && p[..slot] == FirstOnly(p0[..i], v) && p[slot..] == p0[i..]
  }

  lemma SiftStarts(p: seq<BlockId>, v: BlockId)
    ensures Sifted(p, 0, p, 0, v)
  {
  }

  lemma SiftKeeps(p0: seq<BlockId>, i: nat, p: seq<BlockId>, slot: nat, v: BlockId)
    requires Sifted(p0, i, p, slot, v) && slot < |p| && (p[slot] == v ==> v !in p[..slot])
    ensures Sifted(p0, i + 1, p, slot + 1, v)
  {
    assert p[slot..][0] == p[slot] && p0[i..][0] == p0[i];
    FirstOnlyHas(p0[..i], v);
    assert p0[..i + 1][..i] == p0[..i];
    assert p[..slot + 1] == p[..slot] + [p[slot]];
    assert p[slot + 1..] == p[slot..][1..] && p0[i + 1..] == p0[i..][1..];
  }

  lemma SiftDrops(p0: seq<BlockId>, i: nat, p: seq<BlockId>, slot: nat, v: BlockId)
    requires Sifted(p0, i, p, slot, v) && slot < |p| && p[slot] == v && v in p[..slot]
    ensures Sifted(p0, i + 1, DropAt(p, slot), slot, v)
  {
    assert p[slot..][0] == p[slot] && p0[i..][0] == p0[i];
    FirstOnlyHas(p0[..i], v);
    assert p0[..i + 1][..i] == p0[..i];
    assert DropAt(p, slot)[..slot] == p[..slot];
    assert DropAt(p, slot)[slot..] == p[slot..][1..] && p0[i + 1..] == p0[i..][1..];
  }

  lemma SiftEnds(p0: seq<BlockId>, i: nat, p: seq<BlockId>, v: BlockId)
    requires Sifted(p0, i, p, |p|, v)
    ensures p == FirstOnly(p0, v)
  {
    assert p[|p|..] == [] && p[..|p|] == p;
    assert p0[i..] == [] && p0[..i] == p0;
  }

  // ----- Lists of a graph

  ghost function InPoints(g: Graph, c: BlockId): seq<BlockId> {
    if c < |g.intothis| then PointsOf(g.intothis[c]) else []
  }

  ghost function OutPoints(g: Graph, c: BlockId): seq<BlockId> {
    if c < |g.outofthis| then PointsOf(g.outofthis[c]) else []
  }

  /** Edges from `u` to `v` aside, every list names the same blocks in the same order. */
  ghost predicate OrderKept(g: Graph, g': Graph, u: BlockId, v: BlockId) {
    && (forall c: BlockId :: c != v ==> InPoints(g', c) == InPoints(g, c))
    && (forall c: BlockId :: c != u ==> OutPoints(g', c) == OutPoints(g, c))
    && Rest(InPoints(g', v), u) == Rest(InPoints(g, v), u) && Rest(OutPoints(g', u), v) == Rest(OutPoints(g, u), v)
  }

  lemma OrderSelf(g: Graph, u: BlockId, v: BlockId)
    ensures OrderKept(g, g, u, v)
  {
  }

  lemma OrderTrans(a: Graph, b: Graph, c: Graph, u: BlockId, v: BlockId)
    requires OrderKept(a, b, u, v) && OrderKept(b, c, u, v)
    ensures OrderKept(a, c, u, v)
  {
  }

  lemma HalfDeleteOrder(g: Graph, b: BlockId, slot: nat, c: BlockId)
    requires IsIn(g, b, slot)
    ensures var g' := HalfDeleteIn(g, b, slot);
            && slot < |InPoints(g, b)| && InPoints(g', c) == (if c == b then DropAt(InPoints(g, b), slot) else InPoints(g, c))
            && OutPoints(g', c) == OutPoints(g, c)
  {
    var g' := HalfDeleteIn(g, b, slot);
    if c == b { assert InPoints(g', b) == DropAt(InPoints(g, b), slot); }
    assert OutPoints(g', c) == OutPoints(g, c);
  }

  lemma HalfDeleteOutOrder(g: Graph, b: BlockId, slot: nat, c: BlockId)
    requires IsOut(g, b, slot)
    ensures var g' := HalfDeleteOut(g, b, slot);
            && slot < |OutPoints(g, b)| && OutPoints(g', c) == (if c == b then DropAt(OutPoints(g, b), slot) else OutPoints(g, c))
            && InPoints(g', c) == InPoints(g, c)
  {
    HalfDeleteOrder(Flip(g), b, slot, c);
  }

  /** A removed edge leaves one gap in either list. */
  lemma RemoveInOrder(g: Graph, b: BlockId, slot: nat)
    requires Linked(g) && IsIn(g, b, slot)
    ensures InLinked(g, b, slot) && OrderKept(g, RemoveIn(g, b, slot), g.intothis[b][slot].point, b)
    ensures slot < |InPoints(g, b)| && InPoints(RemoveIn(g, b, slot), b) == DropAt(InPoints(g, b), slot)
  {
    assert InLinked(g, b, slot);
    var e, g1, g' := g.intothis[b][slot], HalfDeleteIn(g, b, slot), RemoveIn(g, b, slot);
    assert InPoints(g, b)[slot] == e.point && OutPoints(g, e.point)[e.reverseIndex] == b;
    RestDrop(InPoints(g, b), slot);
    RestDrop(OutPoints(g, e.point), e.reverseIndex);
    hide Linked, InPoints, OutPoints, HalfDeleteIn, HalfDeleteOut, Rest;
    forall c: BlockId
      ensures InPoints(g', c) == if c == b then DropAt(InPoints(g, b), slot) else InPoints(g, c)
      ensures OutPoints(g', c) == if c == e.point then DropAt(OutPoints(g, c), e.reverseIndex) else OutPoints(g, c)
    {
      HalfDeleteOrder(g, b, slot, c);
      HalfDeleteOrder(g, b, slot, e.point);
      HalfDeleteOutOrder(g1, e.point, e.reverseIndex, c);
    }
  }

  lemma LabelInOrder(g: Graph, b: BlockId, k: nat, bits: EdgeLabel)
    requires IsIn(g, b, k)
    ensures forall c: BlockId :: InPoints(LabelIn(g, b, k, bits), c) == InPoints(g, c)
    ensures forall c: BlockId :: OutPoints(LabelIn(g, b, k, bits), c) == OutPoints(g, c)
  {
    var g' := LabelIn(g, b, k, bits);
    forall c: BlockId ensures InPoints(g', c) == InPoints(g, c) { }
  }

  /** Merging one edge into the first takes one slot out of either list. */
  lemma MergeOrder(g: Graph, b: BlockId, k: nat, slot: nat, dup: BlockId, bits: EdgeLabel)
    requires Linked(g) && IsIn(g, b, k) && IsIn(g, b, slot) && k < slot && g.intothis[b][slot].point == dup
    ensures Linked(LabelIn(g, b, k, bits)) && InLinked(LabelIn(g, b, k, bits), b, slot)
    ensures OrderKept(g, RemoveIn(LabelIn(g, b, k, bits), b, slot), dup, b)
    ensures InPoints(RemoveIn(LabelIn(g, b, k, bits), b, slot), b) == DropAt(InPoints(g, b), slot)
  {
    LabelInLinked(g, b, k, bits);
    LabelInOrder(g, b, k, bits);
    RemoveInOrder(LabelIn(g, b, k, bits), b, slot);
  }

  /** The same for an out-edge. */
  lemma MergeOutOrder(g: Graph, b: BlockId, k: nat, slot: nat, dup: BlockId, bits: EdgeLabel)
    requires Linked(g) && IsOut(g, b, k) && IsOut(g, b, slot) && k < slot && g.outofthis[b][slot].point == dup
    ensures Linked(LabelOut(g, b, k, bits)) && OutLinked(LabelOut(g, b, k, bits), b, slot)
    ensures OrderKept(g, RemoveOut(LabelOut(g, b, k, bits), b, slot), b, dup)
    ensures OutPoints(RemoveOut(LabelOut(g, b, k, bits), b, slot), b) == DropAt(OutPoints(g, b), slot)
  {
    var g1 := LabelOut(g, b, k, bits);
    FlipLinked(g);
    MergeOrder(Flip(g), b, k, slot, dup, bits);
    assert Flip(g1) == LabelIn(Flip(g), b, k, bits);
    FlipLinked(g1);
    assert IsOut(g1, b, slot) && OutLinked(g1, b, slot);
    var g' := RemoveOut(g1, b, slot);
    assert Flip(g') == RemoveIn(Flip(g1), b, slot);
    FlipOrder(g, g', b, dup);
  }

  lemma FlipOrder(g: Graph, g': Graph, u: BlockId, v: BlockId)
    requires OrderKept(Flip(g), Flip(g'), v, u)
    ensures OrderKept(g, g', u, v) && OutPoints(g', u) == InPoints(Flip(g'), u) && OutPoints(g, u) == InPoints(Flip(g), u)
  {
    forall c: BlockId ensures InPoints(Flip(g), c) == OutPoints(g, c) && OutPoints(Flip(g), c) == InPoints(g, c) { }
    forall c: BlockId ensures InPoints(Flip(g'), c) == OutPoints(g', c) && OutPoints(Flip(g'), c) == InPoints(g', c) { }
    hide Flip, InPoints, OutPoints;
  }

  lemma OnceMeans(s: seq<BlockEdge>, slot: nat, v: BlockId, indval: int)
    requires OnceBefore(s, slot, v, indval)
    ensures v in PointsOf(s)[..slot] <==> indval >= 0
  {
    var p := PointsOf(s)[..slot];
    if indval >= 0 { assert p[indval] == v; }
  }
}
