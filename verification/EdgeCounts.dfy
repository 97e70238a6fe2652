/** How many edges lead from one block to another, and how edits of paired edge lists change that. */
module EdgeCounts {
  import opened FlowGraph
  import opened EdgePairing

  /** Edge ends that name `v`. */
  ghost function Count(edges: seq<BlockEdge>, v: BlockId): nat {
    if edges == [] then 0
    else
      var last := |edges| - 1;
      Count(edges[..last], v) + if edges[last].point == v then 1 else 0
  }

  /** Edges from `u` to `v`. */
  ghost function Cnt(g: Graph, u: BlockId, v: BlockId): nat {
    if u < |g.outofthis| then Count(g.outofthis[u], v) else 0
  }

  ghost function One(b: bool): nat {
    if b then 1 else 0
  }

  lemma {:induction false} CountSame(s: seq<BlockEdge>, r: seq<BlockEdge>, v: BlockId)
    requires |s| == |r| && forall k :: 0 <= k < |s| ==> (s[k].point == v <==> r[k].point == v)
    ensures Count(s, v) == Count(r, v)
  {
    if s != [] { CountSame(s[..|s| - 1], r[..|r| - 1], v); }
  }

  lemma CountAppend(s: seq<BlockEdge>, e: BlockEdge, v: BlockId)
    ensures Count(s + [e], v) == Count(s, v) + One(e.point == v)
  {
    assert (s + [e])[..|s|] == s;
  }

  lemma {:induction false} CountDrop(s: seq<BlockEdge>, k: nat, v: BlockId)
    requires k < |s|
    ensures Count(s, v) == Count(DropAt(s, k), v) + One(s[k].point == v)
  {
    var last := |s| - 1;
    if k == last {
      assert DropAt(s, k) == s[..last];
    } else {
      CountDrop(s[..last], k, v);
      assert DropAt(s, k) == DropAt(s[..last], k) + [s[last]];
      CountAppend(DropAt(s[..last], k), s[last], v);
    }
  }

  lemma {:induction false} CountUpdate(s: seq<BlockEdge>, k: nat, e: BlockEdge, v: BlockId)
    requires k < |s|
    ensures Count(s[k := e], v) + One(s[k].point == v) == Count(s, v) + One(e.point == v)
  {
    CountDrop(s, k, v);
    CountDrop(s[k := e], k, v);
    assert DropAt(s[k := e], k) == DropAt(s, k);
  }

  /** A count is positive exactly when some slot names the block. */
  lemma {:induction false} CountPositive(s: seq<BlockEdge>, v: BlockId)
    ensures Count(s, v) > 0 <==> exists k :: 0 <= k < |s| && s[k].point == v
  {
    if s != [] {
      var last := |s| - 1;
      CountPositive(s[..last], v);
      if k :| 0 <= k < |s| && s[k].point == v {
        if k < last { assert s[..last][k].point == v; }
      }
      if Count(s[..last], v) > 0 {
        var k :| 0 <= k < last && s[..last][k].point == v;
        assert s[k].point == v;
      }
    }
  }

  ghost predicate Twice(s: seq<BlockEdge>, v: BlockId) {
    exists j, k :: 0 <= j < k < |s| && s[j].point == v && s[k].point == v
  }

  lemma {:induction false} CountTwice(s: seq<BlockEdge>, v: BlockId)
    ensures Count(s, v) >= 2 <==> Twice(s, v)
  {
    if s != [] {
      var last := |s| - 1;
      CountTwice(s[..last], v);
      CountPositive(s[..last], v);
      if j, k :| 0 <= j < k < |s| && s[j].point == v && s[k].point == v {
        assert s[..last][j].point == v;
        if k < last { assert s[..last][k].point == v; }
      }
      if Count(s, v) >= 2 {
        if Twice(s[..last], v) {
          var j, k :| 0 <= j < k < last && s[..last][j].point == v && s[..last][k].point == v;
          assert s[j].point == v && s[k].point == v;
        } else {
          var j :| 0 <= j < last && s[..last][j].point == v;
          assert s[j].point == v && s[last].point == v;
        }
      }
    }
  }

  // ----- In-slots and out-slots agree

  lemma InSlotCounts(g: Graph, b: BlockId, u: BlockId)
    requires Linked(g) && b < |g.intothis|
    ensures Cnt(g, u, b) > 0 <==> exists k :: 0 <= k < |g.intothis[b]| && g.intothis[b][k].point == u
  {
    if k :| 0 <= k < |g.intothis[b]| && g.intothis[b][k].point == u {
      assert IsIn(g, b, k) && InLinked(g, b, k);
      CountPositive(g.outofthis[u], b);
    }
    if Cnt(g, u, b) > 0 {
      CountPositive(g.outofthis[u], b);
      var m :| 0 <= m < |g.outofthis[u]| && g.outofthis[u][m].point == b;
      assert IsOut(g, u, m) && OutLinked(g, u, m);
      assert g.intothis[b][g.outofthis[u][m].reverseIndex].point == u;
    }
  }

  lemma TwiceBothWays(g: Graph, b: BlockId, u: BlockId)
    requires Linked(g) && b < |g.intothis| && u < |g.outofthis|
    ensures Twice(g.intothis[b], u) <==> Cnt(g, u, b) >= 2
  {
    CountTwice(g.outofthis[u], b);
    if Twice(g.intothis[b], u) {
      var j, k :| 0 <= j < k < |g.intothis[b]| && g.intothis[b][j].point == u && g.intothis[b][k].point == u;
      assert IsIn(g, b, j) && IsIn(g, b, k) && InLinked(g, b, j) && InLinked(g, b, k);
      Both(g.outofthis[u], g.intothis[b][j].reverseIndex, g.intothis[b][k].reverseIndex, b);
    }
    if Twice(g.outofthis[u], b) {
      var j, k :| 0 <= j < k < |g.outofthis[u]| && g.outofthis[u][j].point == b && g.outofthis[u][k].point == b;
      assert IsOut(g, u, j) && IsOut(g, u, k) && OutLinked(g, u, j) && OutLinked(g, u, k);
      Both(g.intothis[b], g.outofthis[u][j].reverseIndex, g.outofthis[u][k].reverseIndex, u);
    }
  }

  lemma Both(s: seq<BlockEdge>, j: nat, k: nat, v: BlockId)
    requires j < |s| && k < |s| && j != k && s[j].point == v && s[k].point == v
    ensures Twice(s, v)
  {
    if j > k { assert s[k].point == v && s[j].point == v; }
  }

  // ----- Edits

  lemma HalfDeleteInCounts(g: Graph, b: BlockId, slot: nat, x: BlockId, y: BlockId)
    requires IsIn(g, b, slot)
    ensures Cnt(HalfDeleteIn(g, b, slot), x, y) == Cnt(g, x, y)
  {
    if x < |g.outofthis| { CountSame(g.outofthis[x], HalfDeleteIn(g, b, slot).outofthis[x], y); }
  }

  lemma HalfDeleteOutCounts(g: Graph, b: BlockId, slot: nat, x: BlockId, y: BlockId)
    requires IsOut(g, b, slot)
    ensures Cnt(HalfDeleteOut(g, b, slot), x, y) + One(x == b && y == g.outofthis[b][slot].point) == Cnt(g, x, y)
  {
    if x == b { CountDrop(g.outofthis[b], slot, y); }
  }

  lemma RemoveInCounts(g: Graph, b: BlockId, slot: nat, x: BlockId, y: BlockId)
    requires Linked(g) && IsIn(g, b, slot)
    ensures InLinked(g, b, slot) && Cnt(RemoveIn(g, b, slot), x, y) + One(x == g.intothis[b][slot].point && y == b) == Cnt(g, x, y)
  {
    assert InLinked(g, b, slot);
    var e, g1 := g.intothis[b][slot], HalfDeleteIn(g, b, slot);
    HalfDeleteInCounts(g, b, slot, x, y);
    HalfDeleteOutCounts(g1, e.point, e.reverseIndex, x, y);
  }

  lemma ReplaceInCounts(g: Graph, b: BlockId, slot: nat, source: BlockId, x: BlockId, y: BlockId)
    requires Linked(g) && IsIn(g, b, slot) && source < |g.outofthis|
    ensures InLinked(g, b, slot)
    ensures Cnt(ReplaceIn(g, b, slot, source), x, y) + One(x == g.intothis[b][slot].point && y == b) ==
            Cnt(g, x, y) + One(x == source && y == b)
  {
    assert InLinked(g, b, slot);
    var e := g.intothis[b][slot];
    var g1 := HalfDeleteOut(g, e.point, e.reverseIndex);
    HalfDeleteOutCounts(g, e.point, e.reverseIndex, x, y);
    var bits := g1.intothis[b][slot].bits;
    CountAppend(g1.outofthis[source], BlockEdge(b, bits, slot), y);
  }

  lemma RemoveOutCounts(g: Graph, b: BlockId, slot: nat, x: BlockId, y: BlockId)
    requires Linked(g) && IsOut(g, b, slot)
    ensures OutLinked(g, b, slot) && Cnt(RemoveOut(g, b, slot), x, y) + One(x == b && y == g.outofthis[b][slot].point) == Cnt(g, x, y)
  {
    assert OutLinked(g, b, slot);
    var e, g1 := g.outofthis[b][slot], HalfDeleteOut(g, b, slot);
    HalfDeleteOutCounts(g, b, slot, x, y);
    HalfDeleteInCounts(g1, e.point, e.reverseIndex, x, y);
  }

  lemma ReplaceOutCounts(g: Graph, b: BlockId, slot: nat, target: BlockId, x: BlockId, y: BlockId)
    requires Linked(g) && IsOut(g, b, slot) && target < |g.intothis|
    ensures OutLinked(g, b, slot)
    ensures Cnt(ReplaceOut(g, b, slot, target), x, y) + One(x == b && y == g.outofthis[b][slot].point) ==
            Cnt(g, x, y) + One(x == b && y == target)
  {
    assert OutLinked(g, b, slot);
    var e := g.outofthis[b][slot];
    var g1 := HalfDeleteIn(g, e.point, e.reverseIndex);
    HalfDeleteInCounts(g, e.point, e.reverseIndex, x, y);
    if x == b {
      CountUpdate(g1.outofthis[b], slot, BlockEdge(target, g1.outofthis[b][slot].bits, |g1.intothis[target]|), y);
    }
  }

  lemma AddInCounts(g: Graph, b: BlockId, source: BlockId, bits: EdgeLabel, x: BlockId, y: BlockId)
    requires b < |g.intothis| && source < |g.outofthis|
    ensures Cnt(AddIn(g, b, source, bits), x, y) == Cnt(g, x, y) + One(x == source && y == b)
  {
    CountAppend(g.outofthis[source], BlockEdge(b, bits, |g.intothis[b]|), y);
  }

  lemma SwapOutsCounts(g: Graph, b: BlockId, x: BlockId, y: BlockId)
    requires Linked(g) && IsOut(g, b, 1)
    ensures OutLinked(g, b, 0) && OutLinked(g, b, 1) && Cnt(SwapOuts(g, b), x, y) == Cnt(g, x, y)
  {
    assert IsOut(g, b, 0) && OutLinked(g, b, 0) && OutLinked(g, b, 1);
    var s := g.outofthis[b];
    CountUpdate(s, 0, s[1], y);
    CountUpdate(s[0 := s[1]], 1, s[0], y);
  }

  /** Two edges through a block become one past it. */
  lemma ReplaceThruCounts(g: Graph, b: BlockId, slot: nat, out: nat, x: BlockId, y: BlockId)
    requires Linked(g) && IsIn(g, b, slot) && IsOut(g, b, out)
    ensures InLinked(g, b, slot) && OutLinked(g, b, out)
    ensures var i, o := g.intothis[b][slot].point, g.outofthis[b][out].point;
            Cnt(ReplaceThru(g, b, slot, out), x, y) + One(x == i && y == b) + One(x == b && y == o) ==
            Cnt(g, x, y) + One(x == i && y == o)
  {
    assert InLinked(g, b, slot) && OutLinked(g, b, out);
    var e, o := g.intothis[b][slot], g.outofthis[b][out];
    var g1 := Join(g, b, slot, out);
    CountUpdate(g.outofthis[e.point], e.reverseIndex, g1.outofthis[e.point][e.reverseIndex], y);
    var g2 := HalfDeleteIn(g1, b, slot);
    HalfDeleteInCounts(g1, b, slot, x, y);
    HalfDeleteOutCounts(g2, b, out, x, y);
  }

  // ----- Merging parallel edges

  /** Only the number of edges from `u` to `v` differs, and not whether there is one. */
  ghost predicate SameElse(g: Graph, g': Graph, u: BlockId, v: BlockId) {
    && (forall x, y :: !(x == u && y == v) ==> Cnt(g', x, y) == Cnt(g, x, y))
    && (Cnt(g', u, v) > 0 <==> Cnt(g, u, v) > 0)
  }

  /** Slots before `slot` name the block once, at `indval`, or never when that is -1. */
  ghost predicate OnceBefore(s: seq<BlockEdge>, slot: nat, v: BlockId, indval: int) {
    && slot <= |s| && -1 <= indval < slot
    && (indval >= 0 ==> s[indval].point == v)
    && forall k :: 0 <= k < slot && k != indval ==> s[k].point != v
  }

  lemma OnceIsSingle(s: seq<BlockEdge>, v: BlockId, indval: int)
    requires OnceBefore(s, |s|, v, indval)
    ensures Count(s, v) == One(indval >= 0)
  {
    CountPositive(s, v);
    CountTwice(s, v);
  }

  /** The points of the in-edges after an edge is removed. */
  lemma RemoveInPoints(g: Graph, b: BlockId, slot: nat)
    requires Linked(g) && IsIn(g, b, slot)
    ensures InLinked(g, b, slot)
    ensures var g' := RemoveIn(g, b, slot);
            && |g'.intothis| == |g.intothis| && |g'.outofthis| == |g.outofthis| && |g'.intothis[b]| == |g.intothis[b]| - 1
            && forall k :: 0 <= k < |g'.intothis[b]| ==> g'.intothis[b][k].point == DropAt(g.intothis[b], slot)[k].point
  {
    assert InLinked(g, b, slot);
  }

  lemma RemoveOutPoints(g: Graph, b: BlockId, slot: nat)
    requires Linked(g) && IsOut(g, b, slot)
    ensures OutLinked(g, b, slot)
    ensures var g' := RemoveOut(g, b, slot);
            && |g'.intothis| == |g.intothis| && |g'.outofthis| == |g.outofthis| && |g'.outofthis[b]| == |g.outofthis[b]| - 1
            && forall k :: 0 <= k < |g'.outofthis[b]| ==> g'.outofthis[b][k].point == DropAt(g.outofthis[b], slot)[k].point
  {
    FlipLinked(g);
    assert OutLinked(g, b, slot);
    RemoveInPoints(Flip(g), b, slot);
  }

  /** A second edge from the same source is removed. */
  lemma DropSecondIn(g0: Graph, g: Graph, b: BlockId, slot: nat, dup: BlockId, indval: int)
    requires Linked(g) && IsIn(g, b, slot) && g.intothis[b][slot].point == dup && SameElse(g0, g, dup, b)
    requires OnceBefore(g.intothis[b], slot, dup, indval) && indval >= 0
    ensures InLinked(g, b, slot) && Linked(RemoveIn(g, b, slot)) && b < |RemoveIn(g, b, slot).intothis|
    ensures SameElse(g0, RemoveIn(g, b, slot), dup, b) && OnceBefore(RemoveIn(g, b, slot).intothis[b], slot, dup, indval)
    ensures |RemoveIn(g, b, slot).intothis[b]| == |g.intothis[b]| - 1
  {
    RemoveInKeeps(g, b, slot);
    RemoveInPoints(g, b, slot);
    var g' := RemoveIn(g, b, slot);
    forall x, y | !(x == dup && y == b) ensures Cnt(g', x, y) == Cnt(g, x, y) { RemoveInCounts(g, b, slot, x, y); }
    InSlotCounts(g', b, dup);
    InSlotCounts(g, b, dup);
    assert g'.intothis[b][indval].point == dup;
  }

  lemma DropSecondOut(g0: Graph, g: Graph, b: BlockId, slot: nat, dup: BlockId, indval: int)
    requires Linked(g) && IsOut(g, b, slot) && g.outofthis[b][slot].point == dup && SameElse(g0, g, b, dup)
    requires OnceBefore(g.outofthis[b], slot, dup, indval) && indval >= 0
    ensures OutLinked(g, b, slot) && Linked(RemoveOut(g, b, slot)) && b < |RemoveOut(g, b, slot).outofthis|
    ensures SameElse(g0, RemoveOut(g, b, slot), b, dup) && OnceBefore(RemoveOut(g, b, slot).outofthis[b], slot, dup, indval)
    ensures |RemoveOut(g, b, slot).outofthis[b]| == |g.outofthis[b]| - 1
  {
    RemoveOutKeeps(g, b, slot);
    RemoveOutPoints(g, b, slot);
    var g' := RemoveOut(g, b, slot);
    forall x, y | !(x == b && y == dup) ensures Cnt(g', x, y) == Cnt(g, x, y) { RemoveOutCounts(g, b, slot, x, y); }
    CountPositive(g'.outofthis[b], dup);
    CountPositive(g.outofthis[b], dup);
    assert g'.outofthis[b][indval].point == dup;
  }

  /** A label at one end does not matter to the pairing. */
  lemma LabelInLinked(g: Graph, b: BlockId, k: nat, bits: EdgeLabel)
    requires Linked(g) && IsIn(g, b, k)
    ensures Linked(g.(intothis := g.intothis[b := g.intothis[b][k := g.intothis[b][k].(bits := bits)]]))
  {
    var g' := g.(intothis := g.intothis[b := g.intothis[b][k := g.intothis[b][k].(bits := bits)]]);
    forall c: nat, m: nat | IsIn(g', c, m) ensures InLinked(g', c, m) { assert IsIn(g, c, m) && InLinked(g, c, m); }
    forall c: nat, m: nat | IsOut(g', c, m) ensures OutLinked(g', c, m) { assert IsOut(g, c, m) && OutLinked(g, c, m); }
  }

  lemma LabelOutLinked(g: Graph, b: BlockId, k: nat, bits: EdgeLabel)
    requires Linked(g) && IsOut(g, b, k)
    ensures Linked(g.(outofthis := g.outofthis[b := g.outofthis[b][k := g.outofthis[b][k].(bits := bits)]]))
    ensures forall x, y :: Cnt(g.(outofthis := g.outofthis[b := g.outofthis[b][k := g.outofthis[b][k].(bits := bits)]]), x, y) == Cnt(g, x, y)
  {
    FlipLinked(g);
    LabelInLinked(Flip(g), b, k, bits);
    var g' := g.(outofthis := g.outofthis[b := g.outofthis[b][k := g.outofthis[b][k].(bits := bits)]]);
    FlipLinked(g');
    forall x: nat, y: nat ensures Cnt(g', x, y) == Cnt(g, x, y) {
      if x < |g.outofthis| { CountSame(g'.outofthis[x], g.outofthis[x], y); }
    }
  }

  /** The in-edges from one source are at most one, so the edges are. */
  lemma OnceInIsSingle(g: Graph, b: BlockId, dup: BlockId, indval: int)
    requires Linked(g) && b < |g.intothis| && OnceBefore(g.intothis[b], |g.intothis[b]|, dup, indval)
    ensures Cnt(g, dup, b) == One(indval >= 0)
  {
    InSlotCounts(g, b, dup);
    if indval >= 0 {
      assert g.intothis[b][indval].point == dup;
      assert IsIn(g, b, indval) && InLinked(g, b, indval);
      TwiceBothWays(g, b, dup);
    }
  }
}
