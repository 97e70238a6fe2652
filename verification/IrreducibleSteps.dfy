/** The tables of the irreducible-edge finder, and how each of its steps keeps them in
    agreement with the loops collapsed so far. */
module IrreducibleSteps {
  import opened FlowGraph
  import opened LoopDag
  import opened EdgeLabels
  import opened DominatorTheory
  import opened SpanningTheory
  import opened SpanningSearch
  import opened SpanningFacts
  import opened Reducibility

  /** A complete spanning-tree search and the graph it labelled. */
  datatype Spanning = Spanning(w: World, n: nat, s: Search, g: Graph, a: Numbers)

  ghost predicate FullSearch(t: Spanning) {
    Found(t.w, t.n, t.s, t.g, t.a) && Paired(t.g) && Separate(t.g, t.w.blocks) && NoneIrreducible(t)
  }

  ghost predicate NoneIrreducible(t: Spanning) {
    forall b, k :: b in t.w.blocks && b < |t.g.outofthis| && 0 <= k < |t.g.outofthis[b]| ==>
      !t.g.outofthis[b][k].bits.irreducible
  }

  /** The label of an edge found irreducible. */
  ghost function IrreducibleBits(l: EdgeLabel): EdgeLabel {
    Minus(Or(l, IRREDUCIBLE), Or(CROSS_EDGE, FORWARD_EDGE))
  }

  /** The edges in `irr` are relabelled and no others. */
  ghost predicate LabelsAre(t: Spanning, g: Graph, irr: set<Edge>) {
    && Paired(g) && SameEdges(t.g, g)
    && (forall b, k :: 0 <= b < |g.outofthis| && 0 <= k < |g.outofthis[b]| ==> LabelIs(t, g, irr, b, k))
    && (forall e :: e in irr ==> MayRelabel(t, e))
  }

  ghost predicate LabelIs(t: Spanning, g: Graph, irr: set<Edge>, b: BlockId, k: nat) {
    && b < |g.outofthis| == |t.g.outofthis| && k < |g.outofthis[b]| == |t.g.outofthis[b]|
    && var l := t.g.outofthis[b][k].bits;
       g.outofthis[b][k].bits == if Edge(b, k) in irr then IrreducibleBits(l) else l
  }

  /** Only forward and cross edges are ever relabelled. */
  ghost predicate MayRelabel(t: Spanning, e: Edge) {
    && e.source in t.w.blocks && e.source < |t.g.outofthis| && e.slot < |t.g.outofthis[e.source]|
    && (t.g.outofthis[e.source][e.slot].bits.forward || t.g.outofthis[e.source][e.slot].bits.cross)
  }

  /** The copy map by position. */
  ghost predicate CopiesAre(t: Spanning, l: Loops, copymap: seq<BlockId>) {
    && |copymap| == |t.s.visit| && |l.rep| == |t.s.order|
    && forall i :: 0 <= i < |t.s.order| ==>
         t.s.order[i] < |copymap| && l.rep[i] < |t.s.order| && copymap[t.s.order[i]] == t.s.order[l.rep[i]]
  }

  /** Heads after position `p` are processed. */
  ghost predicate Current(t: Spanning, g: Graph, irr: set<Edge>, l: Loops, p: int, copymap: seq<BlockId>) {
    && FullSearch(t) && LabelsAre(t, g, irr) && LoopsInv(t.w, t.s, irr, l, p) && CopiesAre(t, l, copymap)
    && (irr != {} ==> Bypassed(t.w, t.s))
  }

  // ----- In-edges as scanned edges

  /** An in-edge of a block is an edge the search scanned. */
  lemma InEdgeIsScan(t: Spanning, g: Graph, irr: set<Edge>, b: BlockId, slot: nat)
    requires FullSearch(t) && LabelsAre(t, g, irr) && b in t.w.blocks && b < |g.intothis| && slot < |g.intothis[b]|
    ensures var e := g.intothis[b][slot];
            && e.point in t.w.blocks && e.point < |t.s.visit| && b < |t.s.visit|
            && 0 <= t.s.visit[e.point] < |t.s.order| && t.s.order[t.s.visit[e.point]] == e.point
            && IsScan(t.w, t.s, t.s.visit[e.point], e.reverseIndex)
            && Dest(t.w, t.s, t.s.visit[e.point], e.reverseIndex) == t.s.visit[b]
            && ShowsKind(t.g, e.point, e.reverseIndex, t.s.kinds[t.s.visit[e.point]][e.reverseIndex])
            && LabelIs(t, g, irr, e.point, e.reverseIndex) && e.bits == g.outofthis[e.point][e.reverseIndex].bits
            && OutPaired(g, e.point, e.reverseIndex)
  {
    var e := g.intothis[b][slot];
    assert InPaired(g, b, slot);
    assert LabelIs(t, g, irr, e.point, e.reverseIndex);
    assert OutPaired(g, e.point, e.reverseIndex);
    PointInside(t, g, b, slot);
    assert e.point in t.w.blocks;
    SamePoint(t, g, e.point, e.reverseIndex);
    hide Paired, LabelsAre, Separate, LabelIs;
    Positions(t.w, t.n, t.s, t.g, t.a, e.point);
    assert |t.w.outs[e.point]| == |t.g.outofthis[e.point]| && t.w.outs[e.point][e.reverseIndex] == b;
    var i := t.s.visit[e.point];
    assert ShowsKind(t.g, t.s.order[i], e.reverseIndex, t.s.kinds[i][e.reverseIndex]);
  }

  lemma PointInside(t: Spanning, g: Graph, b: BlockId, slot: nat)
    requires Separate(t.g, t.w.blocks) && SameEdges(t.g, g) && b in t.w.blocks && b < |g.intothis| && slot < |g.intothis[b]|
    ensures g.intothis[b][slot].point in t.w.blocks
  {
    assert SameEnds(t.g.intothis[b], g.intothis[b]);
  }

  lemma SamePoint(t: Spanning, g: Graph, b: BlockId, k: nat)
    requires SameEdges(t.g, g) && b < |g.outofthis| && k < |g.outofthis[b]|
    ensures b < |t.g.outofthis| && k < |t.g.outofthis[b]| && t.g.outofthis[b][k].point == g.outofthis[b][k].point
    ensures t.g.outofthis[b][k].reverseIndex == g.outofthis[b][k].reverseIndex
  {
    assert SameEnds(t.g.outofthis[b], g.outofthis[b]);
  }

  /** A scanned edge is an in-edge of its target. */
  lemma ScanIsInEdge(t: Spanning, g: Graph, irr: set<Edge>, i: nat, k: nat)
    requires FullSearch(t) && LabelsAre(t, g, irr) && IsScan(t.w, t.s, i, k)
    ensures t.s.order[i] < |g.outofthis| && k < |g.outofthis[t.s.order[i]]| && t.s.order[i] in t.w.blocks
    ensures var e := g.outofthis[t.s.order[i]][k];
            && e.point in t.w.blocks && e.point < |t.s.visit| && t.s.visit[e.point] == Dest(t.w, t.s, i, k)
            && e.point < |g.intothis| && e.reverseIndex < |g.intothis[e.point]|
            && g.intothis[e.point][e.reverseIndex] == BlockEdge(t.s.order[i], e.bits, k)
    ensures LabelIs(t, g, irr, t.s.order[i], k) && ShowsKind(t.g, t.s.order[i], k, t.s.kinds[i][k])
    ensures t.s.visit[t.s.order[i]] == i
  {
    var b := t.s.order[i];
    assert ShowsKind(t.g, t.s.order[i], k, t.s.kinds[i][k]);
    assert SameEnds(t.g.outofthis[b], g.outofthis[b]);
    assert LabelIs(t, g, irr, b, k) && OutPaired(g, b, k);
    SamePoint(t, g, b, k);
    hide Paired, LabelsAre, Separate, LabelIs;
    assert |t.w.outs[b]| == |t.g.outofthis[b]| && t.w.outs[b][k] == t.g.outofthis[b][k].point;
  }

  // ----- The queue of one head

  /** The queue, the marks and the collected positions are the same blocks. */
  ghost predicate QueueIs(t: Spanning, reachunder: seq<BlockId>, mark: seq<bool>, reach: set<nat>) {
    && |mark| == |t.s.visit|
    && (forall q :: 0 <= q < |reachunder| ==>
          reachunder[q] in t.w.blocks && reachunder[q] < |t.s.visit| && t.s.visit[reachunder[q]] in reach)
    && (forall m :: m in reach ==> m < |t.s.order| && t.s.order[m] in reachunder)
    && (forall b :: b in t.w.blocks && b < |mark| ==> (mark[b] <==> t.s.visit[b] in reach))
  }

  lemma QueuePush(t: Spanning, reachunder: seq<BlockId>, mark: seq<bool>, reach: set<nat>, r: nat)
    requires FullSearch(t) && QueueIs(t, reachunder, mark, reach) && r < |t.s.order|
    ensures var b := t.s.order[r];
            b in t.w.blocks && b < |mark| && QueueIs(t, reachunder + [b], mark[b := true], reach + {r})
  {
    VisitFacts(t, r);
    var b := t.s.order[r];
    hide FullSearch;
    forall c | c in t.w.blocks && c < |mark| ensures mark[b := true][c] <==> t.s.visit[c] in reach + {r} {
      VisitInjective(t, r, c);
    }
  }

  lemma VisitFacts(t: Spanning, r: nat)
    requires FullSearch(t) && r < |t.s.order|
    ensures t.s.order[r] in t.w.blocks && t.s.order[r] < |t.s.visit| && t.s.visit[t.s.order[r]] == r
  {
  }

  lemma VisitInjective(t: Spanning, r: nat, c: BlockId)
    requires FullSearch(t) && r < |t.s.order| && c in t.w.blocks
    ensures c < |t.s.visit| && (t.s.visit[c] == r <==> c == t.s.order[r])
  {
    Positions(t.w, t.n, t.s, t.g, t.a, c);
    VisitFacts(t, r);
  }

  /** Where the copy of the source of an in-edge is. */
  ghost function SourceRep(t: Spanning, g: Graph, l: Loops, b: BlockId, slot: nat): int {
    if b < |g.intothis| && slot < |g.intothis[b]| then
      var c := g.intothis[b][slot].point;
      if c < |t.s.visit| && 0 <= t.s.visit[c] < |l.rep| then l.rep[t.s.visit[c]] else -1
    else -1
  }

  lemma SourceRepIs(t: Spanning, g: Graph, irr: set<Edge>, l: Loops, p: int, copymap: seq<BlockId>, b: BlockId, slot: nat)
    requires Current(t, g, irr, l, p, copymap) && b in t.w.blocks && b < |g.intothis| && slot < |g.intothis[b]|
    ensures var c := g.intothis[b][slot].point;
            && c in t.w.blocks && c < |copymap| && 0 <= SourceRep(t, g, l, b, slot) < |t.s.order|
            && c < |t.s.visit| && 0 <= t.s.visit[c] < |l.rep| && t.s.order[t.s.visit[c]] == c
            && copymap[c] == t.s.order[SourceRep(t, g, l, b, slot)]
            && SourceRep(t, g, l, b, slot) == l.rep[t.s.visit[c]]
  {
    InEdgeIsScan(t, g, irr, b, slot);
    hide FullSearch, LabelsAre, LoopsInv;
    var c := g.intothis[b][slot].point;
    assert copymap[t.s.order[t.s.visit[c]]] == t.s.order[l.rep[t.s.visit[c]]];
  }

  /** The sources of the head's first back edges are collected. */
  ghost predicate SourcesUpTo(t: Spanning, g: Graph, l: Loops, head: BlockId, slot: nat, reach: set<nat>) {
    && head < |g.intothis| && slot <= |g.intothis[head]|
    && forall q :: 0 <= q < slot && g.intothis[head][q].bits.back && g.intothis[head][q].point != head ==>
         SourceRep(t, g, l, head, q) in reach
  }

  /** An in-edge of the head that is a back edge from another block: its source's copy is strictly below the head. */
  lemma SourceBelow(t: Spanning, g: Graph, irr: set<Edge>, l: Loops, p: nat, copymap: seq<BlockId>, slot: nat)
    requires Current(t, g, irr, l, p, copymap) && p < |t.s.order| && t.s.order[p] < |g.intothis|
    requires slot < |g.intothis[t.s.order[p]]| && t.s.order[p] in t.w.blocks
    requires var e := g.intothis[t.s.order[p]][slot]; e.bits.back && e.point != t.s.order[p]
    ensures var r := SourceRep(t, g, l, t.s.order[p], slot);
            p < r < |t.s.order| && p in Chain(t.s.t.par, r) && LeadsBack(t.w, t.s, p, r)
  {
    var head := t.s.order[p];
    SourceRepIs(t, g, irr, l, p, copymap, head, slot);
    InEdgeIsScan(t, g, irr, head, slot);
    VisitFacts(t, p);
    var e := g.intothis[head][slot];
    var i, k := t.s.visit[e.point], e.reverseIndex;
    assert t.s.kinds[i][k] == Back;
    ScanFacts(t, i, k);
    SearchHere(t);
    hide FullSearch, LabelsAre, CopiesAre, BodiesBelow, BodiesClosed, BodiesHold, SearchInv;
    RepInside(t.s, l, p, i);
    SourceLeads(t.w, t.n, t.s, l, p, i, k);
  }

  lemma ScanFacts(t: Spanning, i: nat, k: nat)
    requires FullSearch(t) && IsScan(t.w, t.s, i, k)
    ensures ScanMatches(t.w, t.s, i, k) && |t.s.t.par| == |t.s.order|
  {
  }

  lemma NoSourcesYet(t: Spanning, g: Graph, l: Loops, head: BlockId, reach: set<nat>)
    requires head < |g.intothis|
    ensures SourcesUpTo(t, g, l, head, 0, reach)
  {
  }

  lemma SourcesNext(t: Spanning, g: Graph, l: Loops, head: BlockId, slot: nat, reach: set<nat>, reach': set<nat>)
    requires SourcesUpTo(t, g, l, head, slot, reach) && reach <= reach' && slot < |g.intothis[head]|
    requires g.intothis[head][slot].bits.back && g.intothis[head][slot].point != head ==> SourceRep(t, g, l, head, slot) in reach'
    ensures SourcesUpTo(t, g, l, head, slot + 1, reach')
  {
  }

  lemma AllSources(t: Spanning, g: Graph, irr: set<Edge>, l: Loops, p: nat, copymap: seq<BlockId>, reach: set<nat>)
    requires Current(t, g, irr, l, p, copymap) && p < |t.s.order| && t.s.order[p] < |g.intothis|
    requires SourcesUpTo(t, g, l, t.s.order[p], |g.intothis[t.s.order[p]]|, reach)
    ensures Sized(t.w, t.s) && |l.rep| == |t.s.order| && HoldsSources(t.w, t.s, l, p, reach)
  {
    hide FullSearch, LabelsAre, LoopsInv;
    assert Sized(t.w, t.s) by { SizedHere(t); }
    forall i: nat, k: nat | IsScan(t.w, t.s, i, k) && t.s.kinds[i][k] == Back && Dest(t.w, t.s, i, k) == p && i != p
      ensures l.rep[i] in reach
    {
      ScanIsInEdge(t, g, irr, i, k);
      var e := g.outofthis[t.s.order[i]][k];
      VisitInjective(t, p, e.point);
      assert e.point == t.s.order[p];
      VisitInjective(t, i, t.s.order[p]);
      VisitFacts(t, p);
      assert g.intothis[t.s.order[p]][e.reverseIndex].point == t.s.order[i];
      assert SourceRep(t, g, l, t.s.order[p], e.reverseIndex) == l.rep[i];
    }
  }

  lemma SizedHere(t: Spanning)
    requires FullSearch(t)
    ensures Sized(t.w, t.s)
  {
  }

  // ----- Draining the queue

  /** The first in-edges of a collected block are labelled, or come from the head or from what is collected. */
  ghost predicate SlotsDone(t: Spanning, g: Graph, l: Loops, p: nat, b: BlockId, slot: nat, reach: set<nat>) {
    && b < |g.intothis| && slot <= |g.intothis[b]|
    && forall q :: 0 <= q < slot ==> SlotDone(t, g, l, p, b, q, reach)
  }

  ghost predicate SlotDone(t: Spanning, g: Graph, l: Loops, p: nat, b: BlockId, slot: nat, reach: set<nat>)
    requires b < |g.intothis| && slot < |g.intothis[b]|
  {
    g.intothis[b][slot].bits.irreducible || SourceRep(t, g, l, b, slot) == p || SourceRep(t, g, l, b, slot) in reach
  }

  /** The first blocks of the queue are drained. */
  ghost predicate QueueDone(t: Spanning, g: Graph, l: Loops, p: nat, reachunder: seq<BlockId>, count: nat, reach: set<nat>) {
    && count <= |reachunder|
    && forall q :: 0 <= q < count ==> BlockDone(t, g, l, p, reachunder[q], reach)
  }

  ghost predicate BlockDone(t: Spanning, g: Graph, l: Loops, p: nat, b: BlockId, reach: set<nat>) {
    b < |g.intothis| && SlotsDone(t, g, l, p, b, |g.intothis[b]|, reach)
  }

  /** Only irreducible labels are added, and only blocks are collected. */
  ghost predicate Grows(g: Graph, g': Graph, reach: set<nat>, reach': set<nat>) {
    && SameEdges(g, g') && reach <= reach'
    && forall b, k :: 0 <= b < |g.intothis| && 0 <= k < |g.intothis[b]| && g.intothis[b][k].bits.irreducible ==>
         InIrreducible(g', b, k)
  }

  ghost predicate InIrreducible(g: Graph, b: BlockId, k: nat) {
    b < |g.intothis| && k < |g.intothis[b]| && g.intothis[b][k].bits.irreducible
  }

  lemma GrowsKeepsSlots(t: Spanning, g: Graph, g': Graph, l: Loops, p: nat, b: BlockId, slot: nat, reach: set<nat>, reach': set<nat>)
    requires Grows(g, g', reach, reach') && SlotsDone(t, g, l, p, b, slot, reach)
    ensures SlotsDone(t, g', l, p, b, slot, reach')
  {
    assert SameEnds(g.intothis[b], g'.intothis[b]);
    forall q | 0 <= q < slot ensures SlotDone(t, g', l, p, b, q, reach') {
      assert SlotDone(t, g, l, p, b, q, reach);
      assert SourceRep(t, g', l, b, q) == SourceRep(t, g, l, b, q);
      if g.intothis[b][q].bits.irreducible { assert InIrreducible(g', b, q); }
    }
  }

  lemma GrowsKeepsQueue(t: Spanning, g: Graph, g': Graph, l: Loops, p: nat, queue: seq<BlockId>, queue': seq<BlockId>, count: nat,
                        reach: set<nat>, reach': set<nat>)
    requires Grows(g, g', reach, reach') && QueueDone(t, g, l, p, queue, count, reach) && queue <= queue'
    ensures QueueDone(t, g', l, p, queue', count, reach')
  {
    hide SlotsDone, Grows;
    forall q | 0 <= q < count ensures BlockDone(t, g', l, p, queue'[q], reach') {
      assert queue'[q] == queue[q];
      assert BlockDone(t, g, l, p, queue[q], reach);
      GrowsSizes(g, g', reach, reach', queue[q]);
      GrowsKeepsSlots(t, g, g', l, p, queue[q], |g.intothis[queue[q]]|, reach, reach');
    }
  }

  lemma GrowsSizes(g: Graph, g': Graph, reach: set<nat>, reach': set<nat>, b: BlockId)
    requires Grows(g, g', reach, reach') && b < |g.intothis|
    ensures b < |g'.intothis| && |g'.intothis[b]| == |g.intothis[b]|
  {
    assert SameEnds(g.intothis[b], g'.intothis[b]);
  }

  /** A drained queue leaves no way into the collected blocks but the head. */
  lemma AllDrained(t: Spanning, g: Graph, irr: set<Edge>, l: Loops, p: nat, copymap: seq<BlockId>, reachunder: seq<BlockId>,
                   mark: seq<bool>, reach: set<nat>)
    requires Current(t, g, irr, l, p, copymap) && QueueIs(t, reachunder, mark, reach)
    requires QueueDone(t, g, l, p, reachunder, |reachunder|, reach)
    ensures Sized(t.w, t.s) && |l.rep| == |t.s.order| && Drained(t.w, t.s, irr, l, p, reach)
  {
    hide FullSearch, LabelsAre, LoopsInv, SlotsDone;
    assert Sized(t.w, t.s) by { SizedHere(t); }
    forall i: nat, k: nat | IsScan(t.w, t.s, i, k) && Edge(t.s.order[i], k) !in irr && Dest(t.w, t.s, i, k) in reach
      ensures l.rep[i] == p || l.rep[i] in reach
    {
      ScanIsInEdge(t, g, irr, i, k);
      var e := g.outofthis[t.s.order[i]][k];
      var m := Dest(t.w, t.s, i, k);
      VisitInjective(t, m, e.point);
      var q :| 0 <= q < |reachunder| && reachunder[q] == t.s.order[m];
      assert BlockDone(t, g, l, p, reachunder[q], reach);
      DoneSlot(t, g, l, p, e.point, e.reverseIndex, reach);
      NotIrreducible(t, g, irr, t.s.order[i], k);
      assert SourceRep(t, g, l, e.point, e.reverseIndex) == l.rep[i];
    }
  }

  lemma DoneSlot(t: Spanning, g: Graph, l: Loops, p: nat, b: BlockId, slot: nat, reach: set<nat>)
    requires BlockDone(t, g, l, p, b, reach) && slot < |g.intothis[b]|
    ensures SlotDone(t, g, l, p, b, slot, reach)
  {
  }

  lemma NotIrreducible(t: Spanning, g: Graph, irr: set<Edge>, b: BlockId, k: nat)
    requires FullSearch(t) && LabelsAre(t, g, irr) && b in t.w.blocks && b < |g.outofthis| && k < |g.outofthis[b]|
    ensures g.outofthis[b][k].bits.irreducible <==> Edge(b, k) in irr
  {
    assert LabelIs(t, g, irr, b, k);
  }

  /** `y` is not in the visit interval of `x`. */
  predicate Outside(a: Numbers, x: BlockId, y: BlockId)
    requires x < |a.visitcount| && y < |a.visitcount| && x < |a.numdesc|
  {
    a.visitcount[x] > a.visitcount[y] || a.visitcount[x] + a.numdesc[x] <= a.visitcount[y]
  }

  /** The test on visit intervals is the ancestor test. */
  lemma IntervalTest(t: Spanning, p: nat, r: nat)
    requires FullSearch(t) && p < |t.s.order| && r < |t.s.order|
    ensures t.s.order[p] < |t.a.visitcount| && t.s.order[r] < |t.a.visitcount| && t.s.order[p] < |t.a.numdesc|
    ensures Outside(t.a, t.s.order[p], t.s.order[r]) <==> p !in Chain(t.s.t.par, r)
  {
    VisitFacts(t, p);
    VisitFacts(t, r);
    ChainIsInterval(t.w, t.n, t.s, p, r);
  }

  /** An in-edge of a collected block whose source's copy is outside the head's subtree is a
      forward or a cross edge, never a tree edge. */
  lemma OutsideMayRelabel(t: Spanning, g: Graph, irr: set<Edge>, l: Loops, p: nat, copymap: seq<BlockId>, m: nat, slot: nat)
    requires Current(t, g, irr, l, p, copymap) && p < m < |t.s.order| && p in Chain(t.s.t.par, m)
    requires t.s.order[m] < |g.intothis| && slot < |g.intothis[t.s.order[m]]| && t.s.order[m] in t.w.blocks
    requires SourceRep(t, g, l, t.s.order[m], slot) >= 0
    requires p !in Chain(t.s.t.par, SourceRep(t, g, l, t.s.order[m], slot))
    ensures var e := g.intothis[t.s.order[m]][slot];
            MayRelabel(t, Edge(e.point, e.reverseIndex)) && !t.g.outofthis[e.point][e.reverseIndex].bits.tree
  {
    var b := t.s.order[m];
    SourceRepIs(t, g, irr, l, p, copymap, b, slot);
    InEdgeIsScan(t, g, irr, b, slot);
    VisitFacts(t, m);
    var e := g.intothis[b][slot];
    var i, k := t.s.visit[e.point], e.reverseIndex;
    assert SearchInv(t.w, t.n, t.s) by { SearchHere(t); }
    hide FullSearch, LabelsAre, CopiesAre, BodiesBelow, BodiesClosed, BodiesHold, SearchInv;
    if p in Chain(t.s.t.par, i) { RepInside(t.s, l, p, i); }
    if t.s.kinds[i][k] == Tree || t.s.kinds[i][k] == Back { SourceInside(t.w, t.n, t.s, p, i, k); }
  }

  lemma SearchHere(t: Spanning)
    requires FullSearch(t)
    ensures SearchInv(t.w, t.n, t.s)
  {
  }

  /** Both label edits of an edge found irreducible. */
  ghost function Relabelled(g: Graph, b: BlockId, k: nat): Graph {
    Unflagged(Flagged(g, b, k, IRREDUCIBLE), b, k, Or(CROSS_EDGE, FORWARD_EDGE))
  }

  lemma RelabelledIs(g: Graph, b: BlockId, k: nat)
    requires Paired(g) && b < |g.outofthis| && k < |g.outofthis[b]|
    ensures OutPaired(g, b, k) && Relabelled(g, b, k) == Relabel(g, b, k, IrreducibleBits(g.outofthis[b][k].bits))
  {
    assert OutPaired(g, b, k);
    RelabelKeeps(g, b, k, Or(g.outofthis[b][k].bits, IRREDUCIBLE));
    var g' := Flagged(g, b, k, IRREDUCIBLE);
    assert OutPaired(g', b, k);
    hide Paired, InPaired, Or, Minus;
    var e := g.outofthis[b][k];
    assert g'.outofthis[b][k] == e.(bits := Or(e.bits, IRREDUCIBLE));
    assert Relabelled(g, b, k).outofthis[b] == Relabel(g, b, k, IrreducibleBits(e.bits)).outofthis[b];
    assert Relabelled(g, b, k).intothis[e.point] == Relabel(g, b, k, IrreducibleBits(e.bits)).intothis[e.point];
  }

  lemma RelabelledLabels(t: Spanning, g: Graph, irr: set<Edge>, b: BlockId, k: nat)
    requires LabelsAre(t, g, irr) && MayRelabel(t, Edge(b, k)) && Edge(b, k) !in irr && b < |g.outofthis| && k < |g.outofthis[b]|
    ensures LabelsAre(t, Relabelled(g, b, k), irr + {Edge(b, k)})
  {
    RelabelledIs(g, b, k);
    var bits := IrreducibleBits(g.outofthis[b][k].bits);
    RelabelKeeps(g, b, k, bits);
    var g' := Relabelled(g, b, k);
    hide Paired, OutPaired, Relabelled, Relabel, IrreducibleBits;
    SameEdgesTrans(t.g, g, g');
    forall c, m | 0 <= c < |g'.outofthis| && 0 <= m < |g'.outofthis[c]| ensures LabelIs(t, g', irr + {Edge(b, k)}, c, m) {
      assert SameEnds(g.outofthis[c], g'.outofthis[c]);
      assert LabelIs(t, g, irr, c, m);
    }
  }

  lemma RelabelledGrows(g: Graph, member: BlockId, slot: nat, reach: set<nat>)
    requires Paired(g) && member < |g.intothis| && slot < |g.intothis[member]|
    ensures var e := g.intothis[member][slot];
            Grows(g, Relabelled(g, e.point, e.reverseIndex), reach, reach) &&
            InIrreducible(Relabelled(g, e.point, e.reverseIndex), member, slot)
  {
    var e := g.intothis[member][slot];
    assert InPaired(g, member, slot);
    RelabelledIs(g, e.point, e.reverseIndex);
    var bits := IrreducibleBits(g.outofthis[e.point][e.reverseIndex].bits);
    RelabelKeeps(g, e.point, e.reverseIndex, bits);
    assert bits.irreducible;
    hide Paired, OutPaired, Relabelled, IrreducibleBits;
    var g' := Relabel(g, e.point, e.reverseIndex, bits);
    forall b, k | 0 <= b < |g.intothis| && 0 <= k < |g.intothis[b]| && g.intothis[b][k].bits.irreducible
      ensures InIrreducible(g', b, k)
    {
      assert SameEnds(g.intothis[b], g'.intothis[b]);
    }
  }

  /** An irreducible edge is labelled: everything known so far stays. */
  lemma RelabelCurrent(t: Spanning, g: Graph, irr: set<Edge>, l: Loops, p: nat, copymap: seq<BlockId>, b: BlockId, k: nat)
    requires Current(t, g, irr, l, p, copymap) && MayRelabel(t, Edge(b, k)) && Edge(b, k) !in irr && Bypassed(t.w, t.s)
    requires b < |g.outofthis| && k < |g.outofthis[b]|
    ensures Current(t, Relabelled(g, b, k), irr + {Edge(b, k)}, l, p, copymap)
  {
    hide FullSearch, CopiesAre, LoopsInv, LabelsAre, Relabelled, MayRelabel;
    RelabelledLabels(t, g, irr, b, k);
    MoreLabels(t.w, t.s, irr, Edge(b, k), l, p);
  }

  // ----- Collapsing what was collected

  /** The copy map after the first `count` collected blocks point to the head. */
  ghost function CopiedTo(copymap: seq<BlockId>, reachunder: seq<BlockId>, head: BlockId, count: nat): seq<BlockId>
    requires count <= |reachunder|
  {
    seq(|copymap|, b requires 0 <= b < |copymap| => if b in reachunder[..count] then head else copymap[b])
  }

  lemma CollapseCurrent(t: Spanning, g: Graph, irr: set<Edge>, l: Loops, p: nat, copymap: seq<BlockId>, reachunder: seq<BlockId>,
                        mark: seq<bool>, reach: set<nat>)
    requires Current(t, g, irr, l, p, copymap) && QueueIs(t, reachunder, mark, reach) && p < |t.s.order|
    requires QueueDone(t, g, l, p, reachunder, |reachunder|, reach) && Collected(t.w, t.s, p, reach)
    requires Sized(t.w, t.s) && |l.rep| == |t.s.order| && HoldsSources(t.w, t.s, l, p, reach)
    ensures p < |l.body|
    ensures Current(t, g, irr, Collapse(l, p, reach), p - 1, CopiedTo(copymap, reachunder, t.s.order[p], |reachunder|))
  {
    AllDrained(t, g, irr, l, p, copymap, reachunder, mark, reach);
    hide LabelsAre, HoldsSources, Drained, FullSearch, QueueDone;
    assert |l.body| == |t.s.order|;
    hide LoopsInv, RepsInv;
    HeadDone(t.w, t.s, irr, l, p, reach);
    CopiedMatches(t, l, p, copymap, reachunder, mark, reach);
  }

  lemma CopiedMatches(t: Spanning, l: Loops, p: nat, copymap: seq<BlockId>, reachunder: seq<BlockId>, mark: seq<bool>, reach: set<nat>)
    requires FullSearch(t) && CopiesAre(t, l, copymap) && QueueIs(t, reachunder, mark, reach) && p < |t.s.order| == |l.body|
    ensures CopiesAre(t, Collapse(l, p, reach), CopiedTo(copymap, reachunder, t.s.order[p], |reachunder|))
  {
    hide FullSearch;
    var l', c' := Collapse(l, p, reach), CopiedTo(copymap, reachunder, t.s.order[p], |reachunder|);
    assert reachunder[..|reachunder|] == reachunder;
    forall i | 0 <= i < |t.s.order|
      ensures t.s.order[i] < |c'| && l'.rep[i] < |t.s.order| && c'[t.s.order[i]] == t.s.order[l'.rep[i]]
    {
      VisitFacts(t, i);
      if t.s.order[i] in reachunder {
        var q :| 0 <= q < |reachunder| && reachunder[q] == t.s.order[i];
        assert t.s.visit[reachunder[q]] in reach;
      }
    }
  }

  lemma CurrentComplete(t: Spanning, g: Graph, irr: set<Edge>, l: Loops, p: int, copymap: seq<BlockId>)
    requires Current(t, g, irr, l, p, copymap)
    ensures FullSearch(t) && Paired(g) && |l.rep| == |l.body| == |t.s.order| && |g.outofthis| == |t.g.outofthis|
  {
    hide FullSearch;
  }

  // ----- One in-edge of a queued block

  /** The queue is drained up to `count`. */
  ghost predicate DrainedTo(t: Spanning, g: Graph, irr: set<Edge>, l: Loops, p: nat, copymap: seq<BlockId>, reachunder: seq<BlockId>,
                            mark: seq<bool>, reach: set<nat>, count: nat) {
    && Current(t, g, irr, l, p, copymap) && QueueIs(t, reachunder, mark, reach) && Collected(t.w, t.s, p, reach) && p < |t.s.order|
    && Sized(t.w, t.s) && |l.rep| == |t.s.order| && HoldsSources(t.w, t.s, l, p, reach)
    && QueueDone(t, g, l, p, reachunder, count, reach)
  }

  /** The queue is drained up to `count`, and the first in-edges of `member` are done. */
  ghost predicate Draining(t: Spanning, g: Graph, irr: set<Edge>, l: Loops, p: nat, copymap: seq<BlockId>, reachunder: seq<BlockId>,
                           mark: seq<bool>, reach: set<nat>, count: nat, member: BlockId, slot: nat) {
    && DrainedTo(t, g, irr, l, p, copymap, reachunder, mark, reach, count)
    && SlotsDone(t, g, l, p, member, slot, reach) && member in reachunder
  }

  /** What the code reads about the next in-edge. */
  ghost predicate ReadsEdge(t: Spanning, g: Graph, l: Loops, p: nat, copymap: seq<BlockId>, mark: seq<bool>, reach: set<nat>,
                            member: BlockId, slot: nat) {
    && p < |t.s.order| && member < |g.intothis| && slot < |g.intothis[member]|
    && var e, r, head := g.intothis[member][slot], SourceRep(t, g, l, member, slot), t.s.order[p];
       && e.point < |copymap| && 0 <= r < |t.s.order| && copymap[e.point] == t.s.order[r] < |mark|
       && e.point < |g.outofthis| && e.reverseIndex < |g.outofthis[e.point]|
       && (mark[t.s.order[r]] <==> r in reach) && (t.s.order[r] == head <==> r == p)
       && t.s.order[r] < |t.a.visitcount| && head < |t.a.visitcount| && head < |t.a.numdesc|
       && (Outside(t.a, head, t.s.order[r]) <==> p !in Chain(t.s.t.par, r))
  }

  lemma DrainReads(t: Spanning, g: Graph, irr: set<Edge>, l: Loops, p: nat, copymap: seq<BlockId>, reachunder: seq<BlockId>,
                   mark: seq<bool>, reach: set<nat>, count: nat, member: BlockId, slot: nat)
    requires Draining(t, g, irr, l, p, copymap, reachunder, mark, reach, count, member, slot) && slot < |g.intothis[member]|
    ensures ReadsEdge(t, g, l, p, copymap, mark, reach, member, slot) && FullSearch(t) && Paired(g) && member in t.w.blocks
  {
    hide HoldsSources, QueueDone, SlotsDone, Collected, LoopsInv;
    CurrentComplete(t, g, irr, l, p, copymap);
    SourceRepIs(t, g, irr, l, p, copymap, member, slot);
    var r := SourceRep(t, g, l, member, slot);
    assert InPaired(g, member, slot);
    hide FullSearch, LabelsAre, Paired, CopiesAre;
    IntervalTest(t, p, r);
    VisitFacts(t, p);
    VisitFacts(t, r);
    VisitInjective(t, p, t.s.order[r]);
  }

  /** Nothing to do for an in-edge that is labelled already, or whose source's copy is the head or queued. */
  lemma DrainPasses(t: Spanning, g: Graph, irr: set<Edge>, l: Loops, p: nat, copymap: seq<BlockId>, reachunder: seq<BlockId>,
                    mark: seq<bool>, reach: set<nat>, count: nat, member: BlockId, slot: nat)
    requires Draining(t, g, irr, l, p, copymap, reachunder, mark, reach, count, member, slot) && slot < |g.intothis[member]|
    requires SlotDone(t, g, l, p, member, slot, reach)
    ensures Draining(t, g, irr, l, p, copymap, reachunder, mark, reach, count, member, slot + 1)
  {
    hide HoldsSources, QueueDone, QueueIs, Collected, Current;
  }

  /** The copy of the source joins the queue. */
  lemma DrainPushes(t: Spanning, g: Graph, irr: set<Edge>, l: Loops, p: nat, copymap: seq<BlockId>, reachunder: seq<BlockId>,
                    mark: seq<bool>, reach: set<nat>, count: nat, member: BlockId, slot: nat, r: nat, b: BlockId)
    requires r < |t.s.order| && b == t.s.order[r] && member < |g.intothis| && slot < |g.intothis[member]|
    requires Draining(t, g, irr, l, p, copymap, reachunder, mark, reach, count, member, slot)
    requires r == SourceRep(t, g, l, member, slot) && p < r && p in Chain(t.s.t.par, r) && LeadsBack(t.w, t.s, p, r)
    ensures Draining(t, g, irr, l, p, copymap, reachunder + [b], Put(mark, b, true), reach + {r}, count, member, slot + 1)
  {
    hide Current, HoldsSources, Collected, FullSearch, Grows, SlotsDone, QueueIs, QueueDone;
    CurrentComplete(t, g, irr, l, p, copymap);
    ReachGrows(t, g, l, p, member, slot, reach, r);
    QueuePush(t, reachunder, mark, reach, r);
    GrowsKeepsQueue(t, g, g, l, p, reachunder, reachunder + [b], count, reach, reach + {r});
    GrowsKeepsSlots(t, g, g, l, p, member, slot, reach, reach + {r});
    SlotsNext(t, g, l, p, member, slot, reach + {r});
  }

  lemma ReachGrows(t: Spanning, g: Graph, l: Loops, p: nat, member: BlockId, slot: nat, reach: set<nat>, r: nat)
    requires Sized(t.w, t.s) && |l.rep| == |t.s.order| && HoldsSources(t.w, t.s, l, p, reach) && Collected(t.w, t.s, p, reach)
    requires p < r < |t.s.order| && p in Chain(t.s.t.par, r) && LeadsBack(t.w, t.s, p, r)
    ensures HoldsSources(t.w, t.s, l, p, reach + {r}) && Collected(t.w, t.s, p, reach + {r}) && Grows(g, g, reach, reach + {r})
  {
    SourcesGrow(t, l, p, reach, r);
    hide HoldsSources, LeadsBack;
  }

  lemma SourcesGrow(t: Spanning, l: Loops, p: nat, reach: set<nat>, r: nat)
    requires Sized(t.w, t.s) && |l.rep| == |t.s.order| && HoldsSources(t.w, t.s, l, p, reach)
    ensures HoldsSources(t.w, t.s, l, p, reach + {r})
  {
  }

  lemma SlotsNext(t: Spanning, g: Graph, l: Loops, p: nat, b: BlockId, slot: nat, reach: set<nat>)
    requires SlotsDone(t, g, l, p, b, slot, reach) && slot < |g.intothis[b]| && SlotDone(t, g, l, p, b, slot, reach)
    ensures SlotsDone(t, g, l, p, b, slot + 1, reach)
  {
  }

  /** An in-edge from outside the head's subtree is labelled irreducible. */
  lemma DrainCuts(t: Spanning, g: Graph, irr: set<Edge>, l: Loops, p: nat, copymap: seq<BlockId>, reachunder: seq<BlockId>,
                  mark: seq<bool>, reach: set<nat>, count: nat, member: BlockId, slot: nat)
    requires Draining(t, g, irr, l, p, copymap, reachunder, mark, reach, count, member, slot) && slot < |g.intothis[member]|
    requires !g.intothis[member][slot].bits.irreducible
    requires 0 <= SourceRep(t, g, l, member, slot) && p !in Chain(t.s.t.par, SourceRep(t, g, l, member, slot))
    ensures var e := g.intothis[member][slot];
            && Edge(e.point, e.reverseIndex) !in irr && !e.bits.tree
            && Draining(t, Relabelled(g, e.point, e.reverseIndex), irr + {Edge(e.point, e.reverseIndex)}, l, p, copymap,
                        reachunder, mark, reach, count, member, slot + 1)
  {
    var e := g.intothis[member][slot];
    CutIsAllowed(t, g, irr, l, p, copymap, reachunder, mark, reach, count, member, slot);
    hide Current, HoldsSources, Collected, FullSearch, Grows, Relabelled, QueueIs, QueueDone, SlotsDone, Paired, MayRelabel;
    RelabelledGrows(g, member, slot, reach);
    var g' := Relabelled(g, e.point, e.reverseIndex);
    RelabelCurrent(t, g, irr, l, p, copymap, e.point, e.reverseIndex);
    GrowsKeepsQueue(t, g, g', l, p, reachunder, reachunder, count, reach, reach);
    GrowsKeepsSlots(t, g, g', l, p, member, slot, reach, reach);
    GrowsSizes(g, g', reach, reach, member);
    LabelledDone(t, g', l, p, member, slot, reach);
    SlotsNext(t, g', l, p, member, slot, reach);
  }

  /** An in-edge of a block that leads back, from outside the head's subtree, bypasses the head. */
  lemma OutsideBypasses(t: Spanning, g: Graph, irr: set<Edge>, l: Loops, p: nat, copymap: seq<BlockId>, member: BlockId, slot: nat)
    requires Current(t, g, irr, l, p, copymap) && member in t.w.blocks && member < |g.intothis| && slot < |g.intothis[member]|
    requires member < |t.s.visit| && t.s.visit[member] >= 0 && LeadsBack(t.w, t.s, p, t.s.visit[member])
    requires 0 <= SourceRep(t, g, l, member, slot) && p !in Chain(t.s.t.par, SourceRep(t, g, l, member, slot))
    ensures Bypassed(t.w, t.s)
  {
    SourceRepIs(t, g, irr, l, p, copymap, member, slot);
    InEdgeIsScan(t, g, irr, member, slot);
    SearchHere(t);
    var e := g.intothis[member][slot];
    var i, k := t.s.visit[e.point], e.reverseIndex;
    hide FullSearch, LabelsAre, CopiesAre, BodiesBelow, BodiesClosed, BodiesHold, SearchInv, LeadsBack, Bypassed;
    if p in Chain(t.s.t.par, i) { RepInside(t.s, l, p, i); }
    EdgeBypasses(t.w, t.n, t.s, p, i, k);
  }

  /** The copy of the source of an in-edge of a block that leads back leads back too. */
  lemma RepLeads(t: Spanning, g: Graph, irr: set<Edge>, l: Loops, p: nat, copymap: seq<BlockId>, reachunder: seq<BlockId>,
                 mark: seq<bool>, reach: set<nat>, count: nat, member: BlockId, slot: nat)
    requires Draining(t, g, irr, l, p, copymap, reachunder, mark, reach, count, member, slot) && slot < |g.intothis[member]|
    requires SourceRep(t, g, l, member, slot) > p
    ensures LeadsBack(t.w, t.s, p, SourceRep(t, g, l, member, slot))
  {
    hide HoldsSources, QueueDone, SlotsDone, BodiesBelow, BodiesClosed, BodiesHold, LeadsBack;
    var q :| 0 <= q < |reachunder| && reachunder[q] == member;
    var m := t.s.visit[member];
    assert m in reach && LeadsBack(t.w, t.s, p, m);
    SourceRepIs(t, g, irr, l, p, copymap, member, slot);
    InEdgeIsScan(t, g, irr, member, slot);
    SearchHere(t);
    var e := g.intothis[member][slot];
    hide FullSearch, LabelsAre, CopiesAre, SearchInv;
    EdgeLeads(t.w, t.n, t.s, l, p, t.s.visit[e.point], e.reverseIndex);
  }

  lemma CutIsAllowed(t: Spanning, g: Graph, irr: set<Edge>, l: Loops, p: nat, copymap: seq<BlockId>, reachunder: seq<BlockId>,
                     mark: seq<bool>, reach: set<nat>, count: nat, member: BlockId, slot: nat)
    requires Draining(t, g, irr, l, p, copymap, reachunder, mark, reach, count, member, slot) && slot < |g.intothis[member]|
    requires !g.intothis[member][slot].bits.irreducible
    requires 0 <= SourceRep(t, g, l, member, slot) && p !in Chain(t.s.t.par, SourceRep(t, g, l, member, slot))
    ensures var e := g.intothis[member][slot];
            && Paired(g) && e.point < |g.outofthis| && e.reverseIndex < |g.outofthis[e.point]|
            && Edge(e.point, e.reverseIndex) !in irr && !e.bits.tree && MayRelabel(t, Edge(e.point, e.reverseIndex))
            && Bypassed(t.w, t.s)
  {
    hide HoldsSources, QueueDone, SlotsDone, LoopsInv;
    CurrentComplete(t, g, irr, l, p, copymap);
    assert LabelsAre(t, g, irr);
    var e := g.intothis[member][slot];
    var q :| 0 <= q < |reachunder| && reachunder[q] == member;
    assert member in t.w.blocks;
    var m := t.s.visit[member];
    assert m in reach && p < m && p in Chain(t.s.t.par, m) && LeadsBack(t.w, t.s, p, m);
    hide FullSearch, LabelsAre, Bypassed, LeadsBack;
    OutsideBypasses(t, g, irr, l, p, copymap, member, slot);
    InEdgeIsScan(t, g, irr, member, slot);
    VisitInjective(t, m, member);
    OutsideMayRelabel(t, g, irr, l, p, copymap, m, slot);
    NotIrreducible(t, g, irr, e.point, e.reverseIndex);
  }

  lemma LabelledDone(t: Spanning, g: Graph, l: Loops, p: nat, b: BlockId, slot: nat, reach: set<nat>)
    requires b < |g.intothis| && slot < |g.intothis[b]|
    requires g.intothis[b][slot].bits.irreducible || SourceRep(t, g, l, b, slot) == p || SourceRep(t, g, l, b, slot) in reach
    ensures SlotDone(t, g, l, p, b, slot, reach)
  {
  }

  lemma RelabelledSizes(g: Graph, b: BlockId, k: nat)
    ensures SameEdges(g, Relabelled(g, b, k))
  {
    FlaggedSame(g, b, k, IRREDUCIBLE);
    UnflaggedSame(Flagged(g, b, k, IRREDUCIBLE), b, k, Or(CROSS_EDGE, FORWARD_EDGE));
    hide Flagged, Unflagged, SameEdges;
    SameEdgesTrans(g, Flagged(g, b, k, IRREDUCIBLE), Relabelled(g, b, k));
  }

  /** Setting the irreducible flag leaves the in-edge's other flags, its tree flag among them. */
  lemma CutFlags(g: Graph, member: BlockId, slot: nat)
    requires Paired(g) && member < |g.intothis| && slot < |g.intothis[member]|
    ensures var e := g.intothis[member][slot];
            var g' := Flagged(g, e.point, e.reverseIndex, IRREDUCIBLE);
            && member < |g'.intothis| && slot < |g'.intothis[member]| && g'.intothis[member][slot].bits.tree == e.bits.tree
            && e.point < |g'.outofthis| && e.reverseIndex < |g'.outofthis[e.point]|
            && e.point < |g.outofthis| && e.reverseIndex < |g.outofthis[e.point]|
  {
    assert InPaired(g, member, slot);
    var e := g.intothis[member][slot];
    assert OutPaired(g, e.point, e.reverseIndex);
  }

  lemma StartMember(t: Spanning, g: Graph, irr: set<Edge>, l: Loops, p: nat, copymap: seq<BlockId>, reachunder: seq<BlockId>,
                    mark: seq<bool>, reach: set<nat>, count: nat)
    requires DrainedTo(t, g, irr, l, p, copymap, reachunder, mark, reach, count) && count < |reachunder|
    ensures reachunder[count] < |g.intothis|
    ensures Draining(t, g, irr, l, p, copymap, reachunder, mark, reach, count, reachunder[count], 0)
  {
    hide LoopsInv, CopiesAre, HoldsSources, Collected, QueueDone;
    assert reachunder[count] in t.w.blocks;
    assert |g.intothis| == |g.outofthis| == |t.g.outofthis|;
    Positions(t.w, t.n, t.s, t.g, t.a, reachunder[count]);
  }

  lemma EndMember(t: Spanning, g: Graph, irr: set<Edge>, l: Loops, p: nat, copymap: seq<BlockId>, reachunder: seq<BlockId>,
                  mark: seq<bool>, reach: set<nat>, count: nat, member: BlockId)
    requires member < |g.intothis| && count < |reachunder| && reachunder[count] == member
    requires Draining(t, g, irr, l, p, copymap, reachunder, mark, reach, count, member, |g.intothis[member]|)
    ensures DrainedTo(t, g, irr, l, p, copymap, reachunder, mark, reach, count + 1)
  {
    hide Current, HoldsSources, Collected, QueueIs, SlotsDone;
  }

  lemma ReachFits(t: Spanning, g: Graph, irr: set<Edge>, l: Loops, p: nat, copymap: seq<BlockId>, reachunder: seq<BlockId>,
                  mark: seq<bool>, reach: set<nat>, count: nat)
    requires DrainedTo(t, g, irr, l, p, copymap, reachunder, mark, reach, count)
    ensures |reach| <= |t.s.order| && count <= |reachunder|
  {
    hide Current, HoldsSources, QueueIs;
    var all := Below(|t.s.order|);
    assert reach <= all;
    assert all == reach + (all - reach);
  }

  ghost function Below(n: nat): (all: set<nat>)
    ensures |all| == n && forall i: nat :: i in all <==> i < n
  {
    if n == 0 then {} else Below(n - 1) + {n - 1}
  }

  // ----- First and last

  lemma StartCurrent(t: Spanning, copymap: seq<BlockId>)
    requires FullSearch(t) && |copymap| == |t.s.visit| && forall b :: b in t.w.blocks ==> b < |copymap| && copymap[b] == b
    ensures Current(t, t.g, {}, NoLoops(|t.s.order|), |t.s.order| - 1, copymap)
  {
    SearchHere(t);
    NoLoopsInv(t.w, t.n, t.s);
    hide LoopsInv, Paired;
    forall b, k | 0 <= b < |t.g.outofthis| && 0 <= k < |t.g.outofthis[b]| ensures LabelIs(t, t.g, {}, b, k) { }
    forall i | 0 <= i < |t.s.order| ensures t.s.order[i] < |copymap| && copymap[t.s.order[i]] == t.s.order[i] {
      VisitFacts(t, i);
    }
  }

  lemma EmptyQueue(t: Spanning, mark: seq<bool>)
    requires |mark| == |t.s.visit| && forall b :: b in t.w.blocks && b < |mark| ==> !mark[b]
    ensures QueueIs(t, [], mark, {})
  {
  }

  /** The marks left after a head: none. */
  lemma MarksCleared(t: Spanning, reachunder: seq<BlockId>, mark: seq<bool>, reach: set<nat>, mark': seq<bool>)
    requires FullSearch(t) && QueueIs(t, reachunder, mark, reach) && |mark'| == |mark|
    requires forall b :: 0 <= b < |mark| && mark'[b] ==> mark[b] && b !in reachunder
    ensures QueueIs(t, [], mark', {})
  {
    forall b | b in t.w.blocks && b < |mark'| ensures !mark'[b] {
      if mark[b] {
        Positions(t.w, t.n, t.s, t.g, t.a, b);
        assert t.s.order[t.s.visit[b]] in reachunder;
      }
    }
  }

  /** The queue of a head before it is drained. */
  lemma StartDrain(t: Spanning, g: Graph, irr: set<Edge>, l: Loops, p: nat, copymap: seq<BlockId>, reachunder: seq<BlockId>,
                   mark: seq<bool>, reach: set<nat>)
    requires Current(t, g, irr, l, p, copymap) && QueueIs(t, reachunder, mark, reach) && Collected(t.w, t.s, p, reach)
    requires p < |t.s.order| && t.s.order[p] < |g.intothis|
    requires SourcesUpTo(t, g, l, t.s.order[p], |g.intothis[t.s.order[p]]|, reach)
    ensures DrainedTo(t, g, irr, l, p, copymap, reachunder, mark, reach, 0)
  {
    AllSources(t, g, irr, l, p, copymap, reach);
  }

  /** The head is done. */
  lemma EndDrain(t: Spanning, g: Graph, irr: set<Edge>, l: Loops, p: nat, copymap: seq<BlockId>, reachunder: seq<BlockId>,
                 mark: seq<bool>, reach: set<nat>)
    requires DrainedTo(t, g, irr, l, p, copymap, reachunder, mark, reach, |reachunder|)
    ensures p < |l.body| && FullSearch(t) && QueueIs(t, reachunder, mark, reach)
    ensures |mark| == |copymap| && forall q :: 0 <= q < |reachunder| ==> reachunder[q] < |mark|
    ensures Current(t, g, irr, Collapse(l, p, reach), p - 1, CopiedTo(copymap, reachunder, t.s.order[p], |reachunder|))
  {
    hide FullSearch, LoopsInv, LabelsAre, QueueDone, Collected, HoldsSources, Collapse;
    CollapseCurrent(t, g, irr, l, p, copymap, reachunder, mark, reach);
  }

  lemma HeadInside(t: Spanning, g: Graph, irr: set<Edge>, p: nat)
    requires FullSearch(t) && Paired(g) && p < |t.s.order| && |g.outofthis| == |t.g.outofthis|
    ensures t.s.order[p] in t.w.blocks && t.s.order[p] < |g.intothis| && Collected(t.w, t.s, p, {})
  {
    VisitFacts(t, p);
    Positions(t.w, t.n, t.s, t.g, t.a, t.s.order[p]);
  }
}
