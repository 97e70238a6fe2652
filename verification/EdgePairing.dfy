/** Edges recorded at both ends, and what half-deletions, fills and swaps do to the pairing. Labels
    need not agree at the two ends. */
module EdgePairing {
  import opened FlowGraph

  /** The in-edge in slot `k` of `b` is recorded at its source. */
  ghost predicate InLinked(g: Graph, b: BlockId, k: nat)
    requires b < |g.intothis| && k < |g.intothis[b]|
  {
    var e := g.intothis[b][k];
    && e.point < |g.outofthis| && e.reverseIndex < |g.outofthis[e.point]|
    && g.outofthis[e.point][e.reverseIndex].point == b && g.outofthis[e.point][e.reverseIndex].reverseIndex == k
  }

  ghost predicate OutLinked(g: Graph, b: BlockId, k: nat)
    requires b < |g.outofthis| && k < |g.outofthis[b]|
  {
    var e := g.outofthis[b][k];
    && e.point < |g.intothis| && e.reverseIndex < |g.intothis[e.point]|
    && g.intothis[e.point][e.reverseIndex].point == b && g.intothis[e.point][e.reverseIndex].reverseIndex == k
  }

  ghost predicate IsIn(g: Graph, b: BlockId, k: nat) {
    b < |g.intothis| && k < |g.intothis[b]|
  }

  ghost predicate IsOut(g: Graph, b: BlockId, k: nat) {
    b < |g.outofthis| && k < |g.outofthis[b]|
  }

  /** Every edge is recorded at both ends. */
  ghost predicate Linked(g: Graph) {
    && |g.intothis| == |g.outofthis|
    && (forall b: nat, k: nat :: IsIn(g, b, k) ==> InLinked(g, b, k))
    && (forall b: nat, k: nat :: IsOut(g, b, k) ==> OutLinked(g, b, k))
  }

  /** Every edge is recorded at both ends, but for one in-slot that no out-edge leads to. */
  ghost predicate InHole(g: Graph, b: BlockId, slot: nat) {
    && |g.intothis| == |g.outofthis| && IsIn(g, b, slot)
    && (forall c: nat, k: nat :: IsIn(g, c, k) && !(c == b && k == slot) ==> InLinked(g, c, k))
    && (forall c: nat, k: nat :: IsOut(g, c, k) ==> OutLinked(g, c, k) && LeadsElsewhere(g, c, k, b, slot))
  }

  ghost predicate LeadsElsewhere(g: Graph, c: BlockId, k: nat, b: BlockId, slot: nat)
    requires IsOut(g, c, k)
  {
    !(g.outofthis[c][k].point == b && g.outofthis[c][k].reverseIndex == slot)
  }

  /** The same edges, backwards. */
  ghost function Flip(g: Graph): Graph {
    Graph(g.outofthis, g.intothis)
  }

  ghost predicate OutHole(g: Graph, b: BlockId, slot: nat) {
    InHole(Flip(g), b, slot)
  }

  lemma FlipLinked(g: Graph)
    ensures Linked(Flip(g)) <==> Linked(g)
  {
    var f := Flip(g);
    if Linked(g) {
      forall b: nat, k: nat | IsIn(f, b, k) ensures InLinked(f, b, k) { assert IsOut(g, b, k) && OutLinked(g, b, k); }
      forall b: nat, k: nat | IsOut(f, b, k) ensures OutLinked(f, b, k) { assert IsIn(g, b, k) && InLinked(g, b, k); }
    }
    if Linked(f) {
      forall b: nat, k: nat | IsIn(g, b, k) ensures InLinked(g, b, k) { assert IsOut(f, b, k) && OutLinked(f, b, k); }
      forall b: nat, k: nat | IsOut(g, b, k) ensures OutLinked(g, b, k) { assert IsIn(f, b, k) && InLinked(f, b, k); }
    }
  }

  // ----- Half-deletions

  ghost function DropAt<T>(s: seq<T>, k: nat): (r: seq<T>)
    requires k < |s|
    ensures |r| == |s| - 1
    ensures forall i :: 0 <= i < k ==> r[i] == s[i]
    ensures forall i :: k <= i < |r| ==> r[i] == s[i + 1]
  {
    s[..k] + s[k + 1..]
  }

  /** Slots of `b` after `slot` have moved down one. */
  ghost function Renumbered(edges: seq<BlockEdge>, b: BlockId, slot: nat): (r: seq<BlockEdge>)
    ensures |r| == |edges|
    ensures forall k :: 0 <= k < |edges| ==> r[k] == Shifted(edges[k], b, slot)
  {
    seq(|edges|, k requires 0 <= k < |edges| => Shifted(edges[k], b, slot))
  }

  ghost function Shifted(e: BlockEdge, b: BlockId, slot: nat): BlockEdge {
    if e.point == b && e.reverseIndex > slot then e.(reverseIndex := e.reverseIndex - 1) else e
  }

  ghost function RenumberAll(lists: seq<seq<BlockEdge>>, b: BlockId, slot: nat): (r: seq<seq<BlockEdge>>)
    ensures |r| == |lists|
    ensures forall c :: 0 <= c < |lists| ==> r[c] == Renumbered(lists[c], b, slot)
  {
    seq(|lists|, c requires 0 <= c < |lists| => Renumbered(lists[c], b, slot))
  }

  ghost function HalfDeleteIn(g: Graph, b: BlockId, slot: nat): Graph
    requires IsIn(g, b, slot)
  {
    Graph(g.intothis[b := DropAt(g.intothis[b], slot)], RenumberAll(g.outofthis, b, slot))
  }

  ghost function HalfDeleteOut(g: Graph, b: BlockId, slot: nat): Graph
    requires IsOut(g, b, slot)
  {
    Flip(HalfDeleteIn(Flip(g), b, slot))
  }

  /** Where an in-slot was before slot `slot` of `b` was deleted. */
  ghost function Before(b: BlockId, slot: nat, c: BlockId, k: nat): nat {
    if c == b && k >= slot then k + 1 else k
  }

  /** Every edge is recorded at both ends, but for one in-slot and one out-slot that no other edge
      leads to. */
  ghost predicate Holes(g: Graph, b: BlockId, slot: nat, u: BlockId, m: nat) {
    && |g.intothis| == |g.outofthis| && IsIn(g, b, slot) && IsOut(g, u, m)
    && (forall c: nat, k: nat :: IsIn(g, c, k) && !(c == b && k == slot) ==>
          InLinked(g, c, k) && !(g.intothis[c][k].point == u && g.intothis[c][k].reverseIndex == m))
    && (forall c: nat, k: nat :: IsOut(g, c, k) && !(c == u && k == m) ==>
          OutLinked(g, c, k) && LeadsElsewhere(g, c, k, b, slot))
  }

  /** Deleting the in-slot without partner leaves the out-slot without partner. */
  lemma HalfDeleteLeavesHole(g: Graph, b: BlockId, slot: nat, u: BlockId, m: nat)
    requires Holes(g, b, slot, u, m)
    ensures OutHole(HalfDeleteIn(g, b, slot), u, m)
  {
    var g' := HalfDeleteIn(g, b, slot);
    var f := Flip(g');
    forall c: nat, k: nat | IsIn(f, c, k) && !(c == u && k == m) ensures InLinked(f, c, k) {
      assert IsOut(g, c, k) && OutLinked(g, c, k) && LeadsElsewhere(g, c, k, b, slot);
    }
    forall c: nat, k: nat | IsOut(f, c, k) ensures OutLinked(f, c, k) && LeadsElsewhere(f, c, k, u, m) {
      var k0 := Before(b, slot, c, k);
      assert IsIn(g, c, k0) && InLinked(g, c, k0);
      assert g'.intothis[c][k] == g.intothis[c][k0];
    }
  }

  /** Deleting an in-slot leaves its out-edge without partner. */
  lemma HalfDeleteMakesHole(g: Graph, b: BlockId, slot: nat)
    requires Linked(g) && IsIn(g, b, slot)
    ensures OutHole(HalfDeleteIn(g, b, slot), g.intothis[b][slot].point, g.intothis[b][slot].reverseIndex)
  {
    var u, m := g.intothis[b][slot].point, g.intothis[b][slot].reverseIndex;
    assert InLinked(g, b, slot);
    forall c: nat, k: nat | IsIn(g, c, k) && !(c == b && k == slot)
      ensures InLinked(g, c, k) && !(g.intothis[c][k].point == u && g.intothis[c][k].reverseIndex == m)
    {
      assert InLinked(g, c, k);
    }
    forall c: nat, k: nat | IsOut(g, c, k) && !(c == u && k == m) ensures OutLinked(g, c, k) && LeadsElsewhere(g, c, k, b, slot) {
      assert OutLinked(g, c, k);
    }
    HalfDeleteLeavesHole(g, b, slot, u, m);
  }

  /** Deleting the in-slot without partner leaves a paired graph. */
  lemma HalfDeleteFillsHole(g: Graph, b: BlockId, slot: nat)
    requires InHole(g, b, slot)
    ensures Linked(HalfDeleteIn(g, b, slot))
  {
    var g' := HalfDeleteIn(g, b, slot);
    forall c: nat, k: nat | IsIn(g', c, k) ensures InLinked(g', c, k) {
      var k0 := Before(b, slot, c, k);
      assert IsIn(g, c, k0) && InLinked(g, c, k0);
      assert g'.intothis[c][k] == g.intothis[c][k0];
    }
    forall c: nat, k: nat | IsOut(g', c, k) ensures OutLinked(g', c, k) {
      assert IsOut(g, c, k) && OutLinked(g, c, k) && LeadsElsewhere(g, c, k, b, slot);
    }
  }

  // ----- Whole edits

  /** Removing an edge by its in-slot. */
  ghost function RemoveIn(g: Graph, b: BlockId, slot: nat): Graph
    requires IsIn(g, b, slot) && InLinked(g, b, slot)
  {
    var e := g.intothis[b][slot];
    HalfDeleteOut(HalfDeleteIn(g, b, slot), e.point, e.reverseIndex)
  }

  lemma RemoveInKeeps(g: Graph, b: BlockId, slot: nat)
    requires Linked(g) && IsIn(g, b, slot)
    ensures InLinked(g, b, slot) && Linked(RemoveIn(g, b, slot))
  {
    assert InLinked(g, b, slot);
    var e := g.intothis[b][slot];
    HalfDeleteMakesHole(g, b, slot);
    var g1 := HalfDeleteIn(g, b, slot);
    HalfDeleteFillsHole(Flip(g1), e.point, e.reverseIndex);
    FlipLinked(HalfDeleteIn(Flip(g1), e.point, e.reverseIndex));
  }

  /** The in-slot without partner is given a new source, at the end of the source's out-edges. */
  ghost function FillIn(g: Graph, b: BlockId, slot: nat, source: BlockId): Graph
    requires IsIn(g, b, slot) && source < |g.outofthis|
  {
    var e := g.intothis[b][slot];
    Graph(g.intothis[b := g.intothis[b][slot := BlockEdge(source, e.bits, |g.outofthis[source]|)]],
          g.outofthis[source := g.outofthis[source] + [BlockEdge(b, e.bits, slot)]])
  }

  lemma FillInKeeps(g: Graph, b: BlockId, slot: nat, source: BlockId)
    requires InHole(g, b, slot) && source < |g.outofthis|
    ensures Linked(FillIn(g, b, slot, source))
  {
    var g' := FillIn(g, b, slot, source);
    forall c: nat, k: nat | IsIn(g', c, k) ensures InLinked(g', c, k) {
      assert IsIn(g, c, k);
      if !(c == b && k == slot) { assert InLinked(g, c, k); }
    }
    forall c: nat, k: nat | IsOut(g', c, k) ensures OutLinked(g', c, k) {
      if !(c == source && k == |g.outofthis[source]|) {
        assert IsOut(g, c, k) && OutLinked(g, c, k) && LeadsElsewhere(g, c, k, b, slot);
      }
    }
  }

  /** The edge into slot `slot` of `b` comes from `source` instead. */
  ghost function ReplaceIn(g: Graph, b: BlockId, slot: nat, source: BlockId): Graph
    requires IsIn(g, b, slot) && InLinked(g, b, slot) && source < |g.outofthis|
  {
    var e := g.intothis[b][slot];
    FillIn(HalfDeleteOut(g, e.point, e.reverseIndex), b, slot, source)
  }

  lemma ReplaceInKeeps(g: Graph, b: BlockId, slot: nat, source: BlockId)
    requires Linked(g) && IsIn(g, b, slot) && source < |g.outofthis|
    ensures InLinked(g, b, slot) && Linked(ReplaceIn(g, b, slot, source))
  {
    assert InLinked(g, b, slot);
    var e := g.intothis[b][slot];
    FlipLinked(g);
    HalfDeleteMakesHole(Flip(g), e.point, e.reverseIndex);
    FillInKeeps(HalfDeleteOut(g, e.point, e.reverseIndex), b, slot, source);
  }

  ghost function AddIn(g: Graph, b: BlockId, source: BlockId, bits: EdgeLabel): Graph
    requires b < |g.intothis| && source < |g.outofthis|
  {
    Graph(g.intothis[b := g.intothis[b] + [BlockEdge(source, bits, |g.outofthis[source]|)]],
          g.outofthis[source := g.outofthis[source] + [BlockEdge(b, bits, |g.intothis[b]|)]])
  }

  lemma AddInKeeps(g: Graph, b: BlockId, source: BlockId, bits: EdgeLabel)
    requires Linked(g) && b < |g.intothis| && source < |g.outofthis|
    ensures Linked(AddIn(g, b, source, bits))
  {
    var g' := AddIn(g, b, source, bits);
    forall c: nat, k: nat | IsIn(g', c, k) ensures InLinked(g', c, k) {
      if !(c == b && k == |g.intothis[b]|) { assert IsIn(g, c, k) && InLinked(g, c, k); }
    }
    forall c: nat, k: nat | IsOut(g', c, k) ensures OutLinked(g', c, k) {
      if !(c == source && k == |g.outofthis[source]|) { assert IsOut(g, c, k) && OutLinked(g, c, k); }
    }
  }

  // ----- Joining an in-edge to an out-edge, and swapping the first two out-edges

  /** The source of an in-edge of `b` is joined to the target of an out-edge of `b`. */
  ghost function Join(g: Graph, b: BlockId, slot: nat, out: nat): Graph
    requires IsIn(g, b, slot) && IsOut(g, b, out) && InLinked(g, b, slot) && OutLinked(g, b, out)
  {
    var i, o := g.intothis[b][slot], g.outofthis[b][out];
    var there := g.outofthis[i.point][i.reverseIndex].(point := o.point, reverseIndex := o.reverseIndex);
    var here := g.intothis[o.point][o.reverseIndex].(point := i.point, reverseIndex := i.reverseIndex);
    Graph(g.intothis[o.point := g.intothis[o.point][o.reverseIndex := here]],
          g.outofthis[i.point := g.outofthis[i.point][i.reverseIndex := there]])
  }

  /** Both edges become one that bypasses `b`. */
  ghost function ReplaceThru(g: Graph, b: BlockId, slot: nat, out: nat): Graph
    requires IsIn(g, b, slot) && IsOut(g, b, out) && InLinked(g, b, slot) && OutLinked(g, b, out)
  {
    HalfDeleteOut(HalfDeleteIn(Join(g, b, slot, out), b, slot), b, out)
  }

  /** Pairing is kept for every choice of edges, self-loops included. */
  lemma ReplaceThruKeeps(g: Graph, b: BlockId, slot: nat, out: nat)
    requires Linked(g) && IsIn(g, b, slot) && IsOut(g, b, out)
    ensures InLinked(g, b, slot) && OutLinked(g, b, out) && Linked(ReplaceThru(g, b, slot, out))
  {
    assert InLinked(g, b, slot) && OutLinked(g, b, out);
    JoinMakesHoles(g, b, slot, out);
    var g1 := Join(g, b, slot, out);
    HalfDeleteLeavesHole(g1, b, slot, b, out);
    var g2 := HalfDeleteIn(g1, b, slot);
    HalfDeleteFillsHole(Flip(g2), b, out);
    FlipLinked(HalfDeleteIn(Flip(g2), b, out));
  }

  lemma JoinMakesHoles(g: Graph, b: BlockId, slot: nat, out: nat)
    requires Linked(g) && IsIn(g, b, slot) && IsOut(g, b, out) && InLinked(g, b, slot) && OutLinked(g, b, out)
    ensures Holes(Join(g, b, slot, out), b, slot, b, out)
  {
    var g' := Join(g, b, slot, out);
    forall c: nat, k: nat | IsIn(g', c, k) && !(c == b && k == slot)
      ensures InLinked(g', c, k) && !(g'.intothis[c][k].point == b && g'.intothis[c][k].reverseIndex == out)
    {
      assert IsIn(g, c, k) && InLinked(g, c, k);
    }
    forall c: nat, k: nat | IsOut(g', c, k) && !(c == b && k == out)
      ensures OutLinked(g', c, k) && LeadsElsewhere(g', c, k, b, slot)
    {
      assert IsOut(g, c, k) && OutLinked(g, c, k);
    }
  }

  ghost function SetReverse(lists: seq<seq<BlockEdge>>, b: BlockId, k: nat, reverseIndex: nat): seq<seq<BlockEdge>>
    requires b < |lists| && k < |lists[b]|
  {
    lists[b := lists[b][k := lists[b][k].(reverseIndex := reverseIndex)]]
  }

  ghost function SwapOuts(g: Graph, b: BlockId): Graph
    requires IsOut(g, b, 1) && OutLinked(g, b, 0) && OutLinked(g, b, 1)
  {
    var first, second := g.outofthis[b][1], g.outofthis[b][0];
    var ins := SetReverse(g.intothis, first.point, first.reverseIndex, 0);
    Graph(SetReverse(ins, second.point, second.reverseIndex, 1), g.outofthis[b := g.outofthis[b][0 := first][1 := second]])
  }

  lemma SwapOutsKeeps(g: Graph, b: BlockId)
    requires Linked(g) && IsOut(g, b, 1)
    ensures OutLinked(g, b, 0) && OutLinked(g, b, 1) && Linked(SwapOuts(g, b))
  {
    assert IsOut(g, b, 0) && OutLinked(g, b, 0) && OutLinked(g, b, 1);
    var g' := SwapOuts(g, b);
    forall c: nat, k: nat | IsIn(g', c, k) ensures InLinked(g', c, k) {
      assert IsIn(g, c, k) && InLinked(g, c, k);
    }
    forall c: nat, k: nat | IsOut(g', c, k) ensures OutLinked(g', c, k) {
      assert IsOut(g, c, k) && OutLinked(g, c, k);
    }
  }

  // ----- Half-deletions slot by slot

  /** The slots of `b` after `slot`, up to `last`, have moved down one; out-slots in `hole` are
      nobody's partner and stay as they are. */
  ghost function ShiftedTo(e: BlockEdge, at: Edge, b: BlockId, slot: nat, last: nat, hole: set<Edge>): BlockEdge {
    if e.point == b && slot < e.reverseIndex <= last && at !in hole then e.(reverseIndex := e.reverseIndex - 1) else e
  }

  ghost predicate OutsShifted(g: Graph, g': Graph, b: BlockId, slot: nat, last: nat, hole: set<Edge>) {
    && |g'.outofthis| == |g.outofthis|
    && (forall c :: 0 <= c < |g.outofthis| ==> |g'.outofthis[c]| == |g.outofthis[c]|)
    && (forall c: nat, k: nat :: IsOut(g, c, k) ==> OutShifted(g, g', b, slot, last, hole, c, k))
  }

  ghost predicate OutShifted(g: Graph, g': Graph, b: BlockId, slot: nat, last: nat, hole: set<Edge>, c: BlockId, k: nat)
    requires IsOut(g, c, k)
  {
    IsOut(g', c, k) && g'.outofthis[c][k] == ShiftedTo(g.outofthis[c][k], Edge(c, k), b, slot, last, hole)
  }

  /** In-slots before `last` hold what followed them; the others are unchanged. */
  ghost predicate InsMoved(g: Graph, g': Graph, b: BlockId, slot: nat, last: nat)
    requires b < |g.intothis|
  {
    && |g'.intothis| == |g.intothis| && |g'.intothis[b]| == |g.intothis[b]|
    && (forall c :: 0 <= c < |g.intothis| && c != b ==> g'.intothis[c] == g.intothis[c])
    && (forall k :: 0 <= k < |g.intothis[b]| && (k < slot || k >= last) ==> g'.intothis[b][k] == g.intothis[b][k])
    && (forall k :: slot <= k < last && k + 1 < |g.intothis[b]| ==> g'.intothis[b][k] == g.intothis[b][k + 1])
  }

  /** The edges that follow the slot know their partners, which are not in the hole. */
  ghost predicate Movable(g: Graph, b: BlockId, slot: nat, hole: set<Edge>) {
    && IsIn(g, b, slot)
    && (forall k: nat :: IsIn(g, b, k) && k > slot ==>
          InLinked(g, b, k) && Edge(g.intothis[b][k].point, g.intothis[b][k].reverseIndex) !in hole)
    && (forall c: nat, k: nat :: IsOut(g, c, k) && Edge(c, k) !in hole && LeadsAfter(g, c, k, b, slot) ==> OutLinked(g, c, k))
  }

  ghost predicate LeadsAfter(g: Graph, c: BlockId, k: nat, b: BlockId, slot: nat)
    requires IsOut(g, c, k)
  {
    g.outofthis[c][k].point == b && g.outofthis[c][k].reverseIndex > slot
  }

  ghost function HalfDeleteInBut(g: Graph, b: BlockId, slot: nat, hole: set<Edge>): Graph
    requires IsIn(g, b, slot)
  {
    Graph(g.intothis[b := DropAt(g.intothis[b], slot)], RenumberBut(g.outofthis, b, slot, hole))
  }

  ghost function RenumberBut(lists: seq<seq<BlockEdge>>, b: BlockId, slot: nat, hole: set<Edge>): (r: seq<seq<BlockEdge>>)
    ensures |r| == |lists| && forall c :: 0 <= c < |lists| ==> |r[c]| == |lists[c]|
    ensures forall c, k :: 0 <= c < |lists| && 0 <= k < |lists[c]| ==>
              r[c][k] == if Edge(c, k) in hole then lists[c][k] else Shifted(lists[c][k], b, slot)
  {
    seq(|lists|, c requires 0 <= c < |lists| =>
      seq(|lists[c]|, k requires 0 <= k < |lists[c]| => if Edge(c, k) in hole then lists[c][k] else Shifted(lists[c][k], b, slot)))
  }

  /** The last slot is dropped once every later one has moved down. */
  lemma MovedIsDeleted(g: Graph, g': Graph, b: BlockId, slot: nat, last: nat, hole: set<Edge>)
    requires Movable(g, b, slot, hole) && last == |g.intothis[b]| - 1
    requires OutsShifted(g, g', b, slot, last, hole) && InsMoved(g, g', b, slot, last)
    ensures Graph(g'.intothis[b := g'.intothis[b][..last]], g'.outofthis) == HalfDeleteInBut(g, b, slot, hole)
  {
    var r := HalfDeleteInBut(g, b, slot, hole);
    assert g'.intothis[b][..last] == r.intothis[b];
    assert g'.intothis[b := g'.intothis[b][..last]] == r.intothis;
    forall c | 0 <= c < |g.outofthis| ensures g'.outofthis[c] == r.outofthis[c] {
      forall k | 0 <= k < |g.outofthis[c]| ensures g'.outofthis[c][k] == r.outofthis[c][k] {
        assert IsOut(g, c, k) && OutShifted(g, g', b, slot, last, hole, c, k);
        if Edge(c, k) !in hole && LeadsAfter(g, c, k, b, slot) { assert OutLinked(g, c, k); }
      }
    }
  }

  /** One more slot moves down, and its partner is told. */
  lemma MoveOne(g: Graph, g': Graph, b: BlockId, slot: nat, last: nat, hole: set<Edge>)
    requires Movable(g, b, slot, hole) && slot <= last && last + 1 < |g.intothis[b]|
    requires OutsShifted(g, g', b, slot, last, hole) && InsMoved(g, g', b, slot, last)
    ensures var e := g'.intothis[b][last + 1];
            && IsOut(g', e.point, e.reverseIndex) && g'.outofthis[e.point][e.reverseIndex].reverseIndex > 0
            && var told := g'.outofthis[e.point][e.reverseIndex];
               var g2 := Graph(g'.intothis[b := g'.intothis[b][last := e]],
                               g'.outofthis[e.point := g'.outofthis[e.point][e.reverseIndex := told.(reverseIndex := told.reverseIndex - 1)]]);
               OutsShifted(g, g2, b, slot, last + 1, hole) && InsMoved(g, g2, b, slot, last + 1)
  {
    var e := g'.intothis[b][last + 1];
    assert e == g.intothis[b][last + 1] && IsIn(g, b, last + 1) && InLinked(g, b, last + 1);
    assert IsOut(g, e.point, e.reverseIndex) && OutShifted(g, g', b, slot, last, hole, e.point, e.reverseIndex);
    var told := g'.outofthis[e.point][e.reverseIndex];
    var g2 := Graph(g'.intothis[b := g'.intothis[b][last := e]],
                    g'.outofthis[e.point := g'.outofthis[e.point][e.reverseIndex := told.(reverseIndex := told.reverseIndex - 1)]]);
    forall c: nat, k: nat | IsOut(g, c, k) ensures OutShifted(g, g2, b, slot, last + 1, hole, c, k) {
      assert OutShifted(g, g', b, slot, last, hole, c, k);
      if Edge(c, k) !in hole && LeadsAfter(g, c, k, b, slot) { assert OutLinked(g, c, k); }
    }
  }

  lemma LinkedMovable(g: Graph, b: BlockId, slot: nat)
    requires Linked(g) && IsIn(g, b, slot)
    ensures Movable(g, b, slot, {}) && HalfDeleteInBut(g, b, slot, {}) == HalfDeleteIn(g, b, slot)
  {
    NoHole(g, b, slot);
  }

  lemma InHoleMovable(g: Graph, b: BlockId, slot: nat)
    requires InHole(g, b, slot)
    ensures Movable(g, b, slot, {}) && HalfDeleteInBut(g, b, slot, {}) == HalfDeleteIn(g, b, slot)
  {
    NoHole(g, b, slot);
  }

  lemma NoHole(g: Graph, b: BlockId, slot: nat)
    requires IsIn(g, b, slot)
    ensures HalfDeleteInBut(g, b, slot, {}) == HalfDeleteIn(g, b, slot)
  {
    var r, h := HalfDeleteInBut(g, b, slot, {}), HalfDeleteIn(g, b, slot);
    forall c | 0 <= c < |g.outofthis| ensures r.outofthis[c] == h.outofthis[c] { }
  }

  /** What happens to the record of the out-slot without partner does not matter: it goes next. */
  lemma HolesMovable(g: Graph, b: BlockId, slot: nat, u: BlockId, m: nat)
    requires Holes(g, b, slot, u, m)
    ensures Movable(g, b, slot, {Edge(u, m)})
    ensures var g1 := HalfDeleteInBut(g, b, slot, {Edge(u, m)});
            OutHole(g1, u, m) && HalfDeleteOut(g1, u, m) == HalfDeleteOut(HalfDeleteIn(g, b, slot), u, m)
  {
    var g1, g2 := HalfDeleteInBut(g, b, slot, {Edge(u, m)}), HalfDeleteIn(g, b, slot);
    HalfDeleteLeavesHole(g, b, slot, u, m);
    DiffersAtHole(g1, g2, u, m);
  }

  lemma DiffersAtHole(g1: Graph, g2: Graph, u: BlockId, m: nat)
    requires OutHole(g2, u, m) && g1.intothis == g2.intothis && |g1.outofthis| == |g2.outofthis|
    requires forall c :: 0 <= c < |g1.outofthis| ==> |g1.outofthis[c]| == |g2.outofthis[c]|
    requires forall c: nat, k: nat :: IsOut(g2, c, k) && !(c == u && k == m) ==> g1.outofthis[c][k] == g2.outofthis[c][k]
    ensures OutHole(g1, u, m) && HalfDeleteOut(g1, u, m) == HalfDeleteOut(g2, u, m)
  {
    var f1, f2 := Flip(g1), Flip(g2);
    forall c: nat, k: nat | IsIn(f1, c, k) && !(c == u && k == m) ensures InLinked(f1, c, k) {
      assert IsIn(f2, c, k) && InLinked(f2, c, k);
      assert IsOut(g2, c, k);
    }
    forall c: nat, k: nat | IsOut(f1, c, k) ensures OutLinked(f1, c, k) && LeadsElsewhere(f1, c, k, u, m) {
      assert IsOut(f2, c, k) && OutLinked(f2, c, k) && LeadsElsewhere(f2, c, k, u, m);
      assert IsOut(g2, f2.outofthis[c][k].point, f2.outofthis[c][k].reverseIndex);
    }
    forall c | 0 <= c < |g1.outofthis| && c != u ensures g1.outofthis[c] == g2.outofthis[c] {
      forall k | 0 <= k < |g1.outofthis[c]| ensures g1.outofthis[c][k] == g2.outofthis[c][k] { assert IsOut(g2, c, k); }
    }
    forall k | 0 <= k < |g1.outofthis[u]| && k != m ensures g1.outofthis[u][k] == g2.outofthis[u][k] { assert IsOut(g2, u, k); }
    assert DropAt(g1.outofthis[u], m) == DropAt(g2.outofthis[u], m);
    assert HalfDeleteIn(f1, u, m).intothis == HalfDeleteIn(f2, u, m).intothis;
  }

  ghost function ReplaceOut(g: Graph, b: BlockId, slot: nat, target: BlockId): Graph
    requires IsOut(g, b, slot) && OutLinked(g, b, slot) && target < |g.intothis|
  {
    Flip(ReplaceIn(Flip(g), b, slot, target))
  }

  lemma ReplaceOutKeeps(g: Graph, b: BlockId, slot: nat, target: BlockId)
    requires Linked(g) && IsOut(g, b, slot) && target < |g.intothis|
    ensures OutLinked(g, b, slot) && Linked(ReplaceOut(g, b, slot, target))
  {
    FlipLinked(g);
    assert OutLinked(g, b, slot);
    ReplaceInKeeps(Flip(g), b, slot, target);
    FlipLinked(ReplaceIn(Flip(g), b, slot, target));
  }

  ghost function RemoveOut(g: Graph, b: BlockId, slot: nat): Graph
    requires IsOut(g, b, slot) && OutLinked(g, b, slot)
  {
    Flip(RemoveIn(Flip(g), b, slot))
  }

  lemma RemoveOutKeeps(g: Graph, b: BlockId, slot: nat)
    requires Linked(g) && IsOut(g, b, slot)
    ensures OutLinked(g, b, slot) && Linked(RemoveOut(g, b, slot))
  {
    FlipLinked(g);
    assert OutLinked(g, b, slot);
    RemoveInKeeps(Flip(g), b, slot);
    FlipLinked(RemoveIn(Flip(g), b, slot));
  }
}
