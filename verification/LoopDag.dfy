/** The loop-DAG view of a block graph: blocks with paired in- and out-edge lists, where
    an edge belongs to the DAG when neither end labels it irreducible, back, loop-exit or goto. */
module LoopDag {
  import opened FlowGraph

  /** The label leaves the edge in the loop-DAG. */
  predicate InLoopDag(e: BlockEdge) {
    !e.bits.irreducible && !e.bits.back && !e.bits.loopExit && !e.bits.gotoEdge
  }

  /** Every edge is recorded at both ends, with the same label. */
  ghost predicate Paired(g: Graph) {
    && |g.intothis| == |g.outofthis|
    && (forall b, k :: 0 <= b < |g.intothis| && 0 <= k < |g.intothis[b]| ==> InPaired(g, b, k))
    && (forall b, k :: 0 <= b < |g.outofthis| && 0 <= k < |g.outofthis[b]| ==> OutPaired(g, b, k))
  }

  ghost predicate InPaired(g: Graph, b: BlockId, k: nat)
    requires b < |g.intothis| && k < |g.intothis[b]|
  {
    var e := g.intothis[b][k];
    && e.point < |g.outofthis| && e.reverseIndex < |g.outofthis[e.point]|
    && g.outofthis[e.point][e.reverseIndex] == BlockEdge(b, e.bits, k)
  }

  ghost predicate OutPaired(g: Graph, b: BlockId, k: nat)
    requires b < |g.outofthis| && k < |g.outofthis[b]|
  {
    var e := g.outofthis[b][k];
    && e.point < |g.intothis| && e.reverseIndex < |g.intothis[e.point]|
    && g.intothis[e.point][e.reverseIndex] == BlockEdge(b, e.bits, k)
  }

  ghost predicate IsEdge(g: Graph, e: Edge) {
    && e.source < |g.outofthis| && e.slot < |g.outofthis[e.source]|
    && InLoopDag(g.outofthis[e.source][e.slot])
  }

  ghost function Target(g: Graph, e: Edge): BlockId
    requires IsEdge(g, e)
  {
    g.outofthis[e.source][e.slot].point
  }

  /** A loop-DAG edge runs from `u` to `v`. */
  ghost predicate Flows(g: Graph, u: BlockId, v: BlockId) {
    exists e :: IsEdge(g, e) && e.source == u && Target(g, e) == v
  }

  // ----- In-edges of a block

  /** The loop-DAG edges among the first `k` in-slots of a block, named by their out-slots. */
  ghost function InEdges(ins: seq<BlockEdge>, k: nat): set<Edge>
    requires k <= |ins|
  {
    if k == 0 then {}
    else if InLoopDag(ins[k - 1]) then InEdges(ins, k - 1) + {Edge(ins[k - 1].point, ins[k - 1].reverseIndex)}
    else InEdges(ins, k - 1)
  }

  function CountIn(ins: seq<BlockEdge>, k: nat): nat
    requires k <= |ins|
  {
    if k == 0 then 0 else CountIn(ins, k - 1) + if InLoopDag(ins[k - 1]) then 1 else 0
  }

  ghost function InDag(g: Graph, b: BlockId): set<Edge>
    requires b < |g.intothis|
  {
    InEdges(g.intothis[b], |g.intothis[b]|)
  }

  lemma {:induction false} InEdgesAre(g: Graph, b: BlockId, k: nat, e: Edge)
    requires Paired(g) && b < |g.intothis| && k <= |g.intothis[b]|
    ensures e in InEdges(g.intothis[b], k) <==>
              IsEdge(g, e) && Target(g, e) == b && g.outofthis[e.source][e.slot].reverseIndex < k
  {
    if k > 0 {
      InEdgesAre(g, b, k - 1, e);
      assert InPaired(g, b, k - 1);
      if IsEdge(g, e) && Target(g, e) == b && g.outofthis[e.source][e.slot].reverseIndex == k - 1 {
        assert OutPaired(g, e.source, e.slot);
      }
    }
  }

  /** Counting in-slots counts in-edges. */
  lemma {:induction false} CountIsSize(g: Graph, b: BlockId, k: nat)
    requires Paired(g) && b < |g.intothis| && k <= |g.intothis[b]|
    ensures |InEdges(g.intothis[b], k)| == CountIn(g.intothis[b], k)
  {
    if k > 0 {
      CountIsSize(g, b, k - 1);
      var last := g.intothis[b][k - 1];
      assert InPaired(g, b, k - 1);
      InEdgesAre(g, b, k - 1, Edge(last.point, last.reverseIndex));
    }
  }

  lemma InDagIs(g: Graph, b: BlockId, e: Edge)
    requires Paired(g) && b < |g.intothis|
    ensures e in InDag(g, b) <==> IsEdge(g, e) && Target(g, e) == b
  {
    InEdgesAre(g, b, |g.intothis[b]|, e);
    if IsEdge(g, e) { assert OutPaired(g, e.source, e.slot); }
  }

  lemma {:induction false} CountMonotone(ins: seq<BlockEdge>, j: nat, k: nat)
    requires j <= k <= |ins|
    ensures CountIn(ins, j) <= CountIn(ins, k)
  {
    if j < k { CountMonotone(ins, j, k - 1); }
  }

  // ----- Out-edges of a block

  /** The slots among the first `k` that are loop-DAG edges, in order. */
  ghost function DagSlots(outs: seq<BlockEdge>, k: nat): (slots: seq<nat>)
    requires k <= |outs|
    ensures forall i :: 0 <= i < |slots| ==> slots[i] < k
  {
    if k == 0 then []
    else if InLoopDag(outs[k - 1]) then DagSlots(outs, k - 1) + [k - 1]
    else DagSlots(outs, k - 1)
  }

  /** `slots` lists the loop-DAG slots in order. */
  ghost predicate AreDagSlots(outs: seq<BlockEdge>, slots: seq<nat>) {
    SlotsUpTo(outs, |outs|, slots)
  }

  /** `slots[i]` is the loop-DAG slot with `i` others before it. */
  ghost predicate SlotsUpTo(outs: seq<BlockEdge>, k: nat, slots: seq<nat>)
    requires k <= |outs|
  {
    && |slots| == CountIn(outs, k)
    && (forall i :: 0 <= i < |slots| ==> slots[i] < k && InLoopDag(outs[slots[i]]) && CountIn(outs, slots[i]) == i)
    && (forall s :: 0 <= s < k && InLoopDag(outs[s]) ==> CountIn(outs, s) < |slots| && slots[CountIn(outs, s)] == s)
  }

  lemma {:induction false} DagSlotsAre(outs: seq<BlockEdge>, k: nat)
    requires k <= |outs|
    ensures SlotsUpTo(outs, k, DagSlots(outs, k))
  {
    hide InLoopDag;
    if k > 0 {
      DagSlotsAre(outs, k - 1);
    }
  }

  // ----- Acyclicity

  /** `rank` grows along every loop-DAG edge. */
  ghost predicate Ranked(g: Graph, rank: seq<nat>) {
    && |rank| == |g.outofthis|
    && forall e :: IsEdge(g, e) && Target(g, e) < |rank| ==> rank[e.source] < rank[Target(g, e)]
  }

  /** The roots are distinct blocks, none reachable from another: they share a rank. */
  ghost predicate RootsApart(g: Graph, rank: seq<nat>, roots: seq<BlockId>) {
    && |rank| == |g.outofthis|
    && (forall i :: 0 <= i < |roots| ==> roots[i] < |rank|)
    && (forall i, j :: 0 <= i < j < |roots| ==> roots[i] != roots[j] && rank[roots[i]] == rank[roots[j]])
  }
}
