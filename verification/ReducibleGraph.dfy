/** What the labels say once irreducible edges are found: the graph without them is reducible,
    and the edges of the loop-DAG follow the block order. */
module ReducibleGraph {
  import opened FlowGraph
  import opened LoopDag
  import opened EdgeLabels
  import DominatorTheory
  import Dominators
  import opened SpanningTheory
  import opened SpanningSearch
  import opened SpanningRoots
  import opened SpanningFacts
  import opened Reducibility
  import opened IrreducibleSteps

  /** A walk from a root along edges not labelled irreducible. */
  ghost predicate GraphWalk(g: Graph, roots: set<BlockId>, path: seq<BlockId>) {
    && |path| > 0 && path[0] in roots
    && forall q :: 0 < q < |path| ==> GraphStep(g, path[q - 1], path[q])
  }

  ghost predicate GraphStep(g: Graph, b: BlockId, c: BlockId) {
    b < |g.outofthis| && exists k :: 0 <= k < |g.outofthis[b]| && !g.outofthis[b][k].bits.irreducible && g.outofthis[b][k].point == c
  }

  /** Every walk to the source of a back edge passes its target. */
  ghost predicate Reducible(g: Graph, blocks: set<BlockId>, roots: set<BlockId>) {
    forall path, b, k :: GraphWalk(g, roots, path) && path[|path| - 1] == b && BackEdgeAt(g, blocks, b, k) ==>
      g.outofthis[b][k].point in path
  }

  ghost predicate BackEdgeAt(g: Graph, blocks: set<BlockId>, b: BlockId, k: int) {
    b in blocks && b < |g.outofthis| && 0 <= k < |g.outofthis[b]| && g.outofthis[b][k].bits.back
  }

  /** Only forward and cross edges lose their kind, to become irreducible. */
  ghost predicate OnlyIrreducible(g: Graph, g': Graph) {
    && SameEdges(g, g')
    && forall b, k :: 0 <= b < |g.outofthis| && 0 <= k < |g.outofthis[b]| ==> MayBecome(g, g', b, k)
  }

  ghost predicate MayBecome(g: Graph, g': Graph, b: BlockId, k: nat)
    requires b < |g.outofthis| && k < |g.outofthis[b]|
  {
    && b < |g'.outofthis| && k < |g'.outofthis[b]|
    && var l, l' := g.outofthis[b][k].bits, g'.outofthis[b][k].bits;
       l' == l || ((l.forward || l.cross) && l' == l.(irreducible := true, forward := false, cross := false))
  }

  lemma LabelsBecome(t: Spanning, g: Graph, irr: set<Edge>)
    requires LabelsAre(t, g, irr)
    ensures OnlyIrreducible(t.g, g)
  {
    hide Paired;
    forall b, k | 0 <= b < |t.g.outofthis| && 0 <= k < |t.g.outofthis[b]| ensures MayBecome(t.g, g, b, k) {
      assert SameEnds(t.g.outofthis[b], g.outofthis[b]);
      assert LabelIs(t, g, irr, b, k);
      if Edge(b, k) in irr { assert MayRelabel(t, Edge(b, k)); }
    }
  }

  lemma OnlySelf(g: Graph)
    ensures OnlyIrreducible(g, g)
  {
  }

  ghost function RootSetOf(s: Search): set<BlockId> {
    set b | b in TreeRoots(s)
  }

  lemma StepInside(t: Spanning, g: Graph, irr: set<Edge>, b: BlockId, c: BlockId)
    requires FullSearch(t) && LabelsAre(t, g, irr) && b in t.w.blocks && GraphStep(g, b, c)
    ensures c in t.w.blocks && c < |t.s.visit| && b < |t.s.visit| && t.s.visit[b] >= 0 && t.s.visit[c] >= 0
    ensures WalkStep(t.w, t.s, irr, t.s.visit[b], t.s.visit[c])
  {
    var k :| 0 <= k < |g.outofthis[b]| && !g.outofthis[b][k].bits.irreducible && g.outofthis[b][k].point == c;
    SamePoint(t, g, b, k);
    NotIrreducible(t, g, irr, b, k);
    Positions(t.w, t.n, t.s, t.g, t.a, b);
    assert t.w.outs[b][k] == c && c in t.w.blocks;
    Positions(t.w, t.n, t.s, t.g, t.a, c);
    var i := t.s.visit[b];
    assert IsScan(t.w, t.s, i, k) && Dest(t.w, t.s, i, k) == t.s.visit[c];
  }

  /** A walk over blocks is a walk over their positions. */
  lemma {:induction false} WalkPositions(t: Spanning, g: Graph, irr: set<Edge>, path: seq<BlockId>) returns (ps: seq<nat>)
    requires FullSearch(t) && LabelsAre(t, g, irr) && GraphWalk(g, RootSetOf(t.s), path)
    ensures |ps| == |path| && Walk(t.w, t.s, irr, ps)
    ensures forall q :: 0 <= q < |path| ==> path[q] in t.w.blocks && path[q] < |t.s.visit| && t.s.visit[path[q]] == ps[q]
    decreases |path|
  {
    hide LabelsAre, FullSearch;
    var m := |path| - 1;
    if m == 0 {
      var i := RootPosition(t, path[0]);
      ps := [i];
    } else {
      assert GraphWalk(g, RootSetOf(t.s), path[..m]) by {
        forall q | 0 < q < m ensures GraphStep(g, path[..m][q - 1], path[..m][q]) { assert GraphStep(g, path[q - 1], path[q]); }
      }
      var before := WalkPositions(t, g, irr, path[..m]);
      assert path[..m][m - 1] == path[m - 1];
      assert GraphStep(g, path[m - 1], path[m]);
      StepInside(t, g, irr, path[m - 1], path[m]);
      ps := before + [t.s.visit[path[m]]];
      forall q | 0 < q < |ps| ensures WalkStep(t.w, t.s, irr, ps[q - 1], ps[q]) {
        if q < m { assert WalkStep(t.w, t.s, irr, before[q - 1], before[q]); }
      }
      forall q | 0 <= q < |path| ensures path[q] in t.w.blocks && path[q] < |t.s.visit| && t.s.visit[path[q]] == ps[q] {
        if q < m { assert path[..m][q] == path[q]; }
      }
    }
  }

  lemma RootPosition(t: Spanning, b: BlockId) returns (i: nat)
    requires FullSearch(t) && b in TreeRoots(t.s)
    ensures i < |t.s.order| == |t.s.t.par| && t.s.t.par[i] < 0 && t.s.order[i] == b
    ensures b in t.w.blocks && b < |t.s.visit| && t.s.visit[b] == i
  {
    SizedHere(t);
    RootsAre(t.s.order, t.s.t.par, b);
    i :| 0 <= i < |t.s.order| && t.s.t.par[i] < 0 && t.s.order[i] == b;
    VisitFacts(t, i);
  }

  /** Without the irreducible edges, the target of every back edge dominates its source. */
  lemma GraphIsReducible(t: Spanning, g: Graph, irr: set<Edge>, l: Loops, copymap: seq<BlockId>)
    requires Current(t, g, irr, l, -1, copymap)
    ensures Reducible(g, t.w.blocks, RootSetOf(t.s))
  {
    CurrentComplete(t, g, irr, l, -1, copymap);
    SearchHere(t);
    hide LabelsAre, FullSearch, LoopsInv, SearchInv, GraphWalk;
    forall path, b, k | GraphWalk(g, RootSetOf(t.s), path) && path[|path| - 1] == b && BackEdgeAt(g, t.w.blocks, b, k)
      ensures g.outofthis[b][k].point in path
    {
      var ps := WalkPositions(t, g, irr, path);
      BackScan(t, g, irr, b, k);
      var h := g.outofthis[b][k].point;
      BackEdgeTargetDominates(t.w, t.n, t.s, irr, l, ps, t.s.visit[b], k);
      var q :| 0 <= q < |ps| && ps[q] == t.s.visit[h];
      SamePosition(t, h, path[q]);
    }
  }

  /** Labels as the spanning tree left them. */
  lemma OwnLabels(t: Spanning)
    requires FullSearch(t)
    ensures LabelsAre(t, t.g, {})
  {
    hide Found;
    forall b, k | 0 <= b < |t.g.outofthis| && 0 <= k < |t.g.outofthis[b]| ensures LabelIs(t, t.g, {}, b, k) { }
  }

  /** With no edge to label, the graph is reducible as it is. */
  lemma ReducibleAsIs(t: Spanning, l: Loops)
    requires FullSearch(t) && LoopsInv(t.w, t.s, {}, l, -1)
    ensures Reducible(t.g, t.w.blocks, RootSetOf(t.s))
  {
    OwnLabels(t);
    SearchHere(t);
    hide LabelsAre, FullSearch, LoopsInv, SearchInv, GraphWalk;
    forall path, b, k | GraphWalk(t.g, RootSetOf(t.s), path) && path[|path| - 1] == b && BackEdgeAt(t.g, t.w.blocks, b, k)
      ensures t.g.outofthis[b][k].point in path
    {
      var ps := WalkPositions(t, t.g, {}, path);
      BackScan(t, t.g, {}, b, k);
      var h := t.g.outofthis[b][k].point;
      BackEdgeTargetDominates(t.w, t.n, t.s, {}, l, ps, t.s.visit[b], k);
      var q :| 0 <= q < |ps| && ps[q] == t.s.visit[h];
      SamePosition(t, h, path[q]);
    }
  }

  /** A step between positions is a step between their blocks. */
  lemma StepOutside(t: Spanning, i: nat, j: nat)
    requires FullSearch(t) && WalkStep(t.w, t.s, {}, i, j)
    ensures i < |t.s.order| && j < |t.s.order| && GraphStep(t.g, t.s.order[i], t.s.order[j])
  {
    OwnLabels(t);
    var k: nat :| IsScan(t.w, t.s, i, k) && Edge(t.s.order[i], k) !in {} && Dest(t.w, t.s, i, k) == j;
    ScanIsInEdge(t, t.g, {}, i, k);
    ScanFacts(t, i, k);
    var e := t.g.outofthis[t.s.order[i]][k];
    VisitInjective(t, j, e.point);
  }

  lemma {:induction false} WalkBlocks(t: Spanning, ps: seq<nat>) returns (path: seq<BlockId>)
    requires FullSearch(t) && Walk(t.w, t.s, {}, ps)
    ensures |path| == |ps| && GraphWalk(t.g, RootSetOf(t.s), path)
    ensures forall q :: 0 <= q < |ps| ==> ps[q] < |t.s.order| && path[q] == t.s.order[ps[q]]
    decreases |ps|
  {
    hide FullSearch;
    var m := |ps| - 1;
    if m == 0 {
      RootsAre(t.s.order, t.s.t.par, t.s.order[ps[0]]);
      path := [t.s.order[ps[0]]];
    } else {
      assert Walk(t.w, t.s, {}, ps[..m]) by {
        forall q | 0 < q < m ensures WalkStep(t.w, t.s, {}, ps[..m][q - 1], ps[..m][q]) { assert WalkStep(t.w, t.s, {}, ps[q - 1], ps[q]); }
      }
      var before := WalkBlocks(t, ps[..m]);
      assert WalkStep(t.w, t.s, {}, ps[m - 1], ps[m]);
      StepOutside(t, ps[m - 1], ps[m]);
      path := before + [t.s.order[ps[m]]];
      forall q | 0 < q < |path| ensures GraphStep(t.g, path[q - 1], path[q]) {
        if q < m { assert GraphStep(t.g, before[q - 1], before[q]); }
      }
    }
  }

  /** A bypassed head shows that the graph was not reducible. */
  lemma BypassedIsIrreducible(t: Spanning)
    requires FullSearch(t) && Bypassed(t.w, t.s)
    ensures !Reducible(t.g, t.w.blocks, RootSetOf(t.s))
  {
    var ps, h :| Walk(t.w, t.s, {}, ps) && h !in ps && BackTo(t.w, t.s, ps[|ps| - 1], h);
    var i := ps[|ps| - 1];
    var k: nat :| IsScan(t.w, t.s, i, k) && t.s.kinds[i][k] == Back && Dest(t.w, t.s, i, k) == h;
    var path := WalkBlocks(t, ps);
    OwnLabels(t);
    ScanIsInEdge(t, t.g, {}, i, k);
    ScanFacts(t, i, k);
    var b := t.s.order[i];
    var c := t.g.outofthis[b][k].point;
    VisitInjective(t, h, c);
    hide FullSearch, LabelsAre, GraphWalk;
    assert BackEdgeAt(t.g, t.w.blocks, b, k);
    forall q | 0 <= q < |path| ensures path[q] != c {
      VisitFacts(t, ps[q]);
      VisitFacts(t, h);
    }
    assert path[|path| - 1] == b && c !in path;
  }

  /** Edges are labelled exactly when the graph is not reducible. */
  lemma LabelledIffIrreducible(t: Spanning, g: Graph, irr: set<Edge>, l: Loops, copymap: seq<BlockId>)
    requires Current(t, g, irr, l, -1, copymap)
    ensures irr == {} <==> Reducible(t.g, t.w.blocks, RootSetOf(t.s))
  {
    hide FullSearch, LoopsInv, LabelsAre, CopiesAre, Reducible, Bypassed;
    if irr == {} { ReducibleAsIs(t, l); } else { BypassedIsIrreducible(t); }
  }

  // ----- The labels in the end

  /** An edge is irreducible and of no kind, and goes forward in the block order; or it is classified
      as the spanning tree left it. */
  ghost predicate EdgeSettled(a: Numbers, b: BlockId, e: BlockEdge) {
    if e.bits.irreducible then
      && !e.bits.tree && !e.bits.forward && !e.bits.cross && !e.bits.back && !e.bits.loopEdge
      && Before(a.index, b, e.point) && Numbered(a, b) && Numbered(a, e.point) && !Within(a, e.point, b)
    else EdgeClassified(a, b, e)
  }

  ghost predicate LabelsSettled(g: Graph, blocks: set<BlockId>, a: Numbers) {
    forall b, k :: b in blocks && b < |g.outofthis| && 0 <= k < |g.outofthis[b]| ==> EdgeSettled(a, b, g.outofthis[b][k])
  }

  lemma SettledInTheEnd(t: Spanning, g: Graph, irr: set<Edge>)
    requires FullSearch(t) && LabelsAre(t, g, irr)
    ensures LabelsSettled(g, t.w.blocks, t.a)
  {
    FoundIsExact(t.w, t.n, t.s, t.g, t.a);
    hide Found, SubtreesExact;
    forall b, k | b in t.w.blocks && b < |g.outofthis| && 0 <= k < |g.outofthis[b]| ensures EdgeSettled(t.a, b, g.outofthis[b][k]) {
      SamePoint(t, g, b, k);
      assert LabelIs(t, g, irr, b, k);
      assert EdgeClassified(t.a, b, t.g.outofthis[b][k]);
      if Edge(b, k) in irr { assert MayRelabel(t, Edge(b, k)); }
    }
  }

  lemma SamePosition(t: Spanning, b: BlockId, c: BlockId)
    requires FullSearch(t) && b in t.w.blocks && c in t.w.blocks && b < |t.s.visit| && c < |t.s.visit| && t.s.visit[b] == t.s.visit[c]
    ensures b == c
  {
    Positions(t.w, t.n, t.s, t.g, t.a, b);
    Positions(t.w, t.n, t.s, t.g, t.a, c);
  }

  lemma BackScan(t: Spanning, g: Graph, irr: set<Edge>, b: BlockId, k: nat)
    requires FullSearch(t) && LabelsAre(t, g, irr) && b in t.w.blocks && b < |g.outofthis| && k < |g.outofthis[b]|
    requires g.outofthis[b][k].bits.back
    ensures b < |t.s.visit| && t.s.visit[b] >= 0 && IsScan(t.w, t.s, t.s.visit[b], k) && t.s.kinds[t.s.visit[b]][k] == Back
    ensures var h := g.outofthis[b][k].point;
            h in t.w.blocks && h < |t.s.visit| && Dest(t.w, t.s, t.s.visit[b], k) == t.s.visit[h]
  {
    SamePoint(t, g, b, k);
    assert LabelIs(t, g, irr, b, k);
    Positions(t.w, t.n, t.s, t.g, t.a, b);
    var i := t.s.visit[b];
    assert t.w.outs[b][k] == g.outofthis[b][k].point;
    assert ShowsKind(t.g, t.s.order[i], k, t.s.kinds[i][k]);
  }

  // ----- Edges that are not loop edges follow the block order

  ghost predicate Ascends(g: Graph, blocks: set<BlockId>, index: seq<int>) {
    forall b, k :: b in blocks && b < |g.outofthis| && 0 <= k < |g.outofthis[b]| && !g.outofthis[b][k].bits.loopEdge ==>
      Before(index, b, g.outofthis[b][k].point)
  }

  ghost predicate Before(index: seq<int>, b: BlockId, c: BlockId) {
    b < |index| && c < |index| && index[b] < index[c]
  }

  lemma ClassifiedAscends(g: Graph, g': Graph, blocks: set<BlockId>, a: Numbers)
    requires Classified(g, blocks, a) && OnlyIrreducible(g, g')
    ensures Ascends(g', blocks, a.index)
  {
    forall b, k | b in blocks && b < |g'.outofthis| && 0 <= k < |g'.outofthis[b]| && !g'.outofthis[b][k].bits.loopEdge
      ensures Before(a.index, b, g'.outofthis[b][k].point)
    {
      assert SameEnds(g.outofthis[b], g'.outofthis[b]);
      assert MayBecome(g, g', b, k);
      assert EdgeClassified(a, b, g.outofthis[b][k]);
    }
  }

  /** The path of a search that follows no loop edge: the marked blocks still open, in block order. */
  ghost predicate OpenPath(blocks: set<BlockId>, index: seq<int>, path: seq<BlockId>, mark: seq<bool>, open: seq<bool>) {
    && |mark| == |open|
    && (forall b :: b in blocks ==> b < |open|)
    && (forall q :: 0 <= q < |path| ==> path[q] in blocks && path[q] < |index| && mark[path[q]])
    && (forall q, r :: 0 <= q < r < |path| ==> Before(index, path[q], path[r]))
    && (forall b :: b in blocks && open[b] ==> b in path)
  }

  /** The next block along a non-loop edge comes after the whole path. */
  lemma NextIsNew(g: Graph, blocks: set<BlockId>, index: seq<int>, path: seq<BlockId>, mark: seq<bool>, open: seq<bool>, k: nat)
    requires OpenPath(blocks, index, path, mark, open) && Ascends(g, blocks, index) && path != []
    requires var b := path[|path| - 1]; b < |g.outofthis| && k < |g.outofthis[b]| && !g.outofthis[b][k].bits.loopEdge
    requires g.outofthis[path[|path| - 1]][k].point in blocks
    ensures var c := g.outofthis[path[|path| - 1]][k].point;
            && c < |open| && !open[c] && OpenPath(blocks, index, path + [c], mark[c := true], open[c := true])
  {
    var m := |path| - 1;
    var c := g.outofthis[path[m]][k].point;
    assert Before(index, path[m], c);
    forall q | 0 <= q < |path| ensures Before(index, path[q], c) {
      if q < m { assert Before(index, path[q], path[m]); }
    }
    assert c !in path;
  }

  lemma PathPops(blocks: set<BlockId>, index: seq<int>, path: seq<BlockId>, mark: seq<bool>, open: seq<bool>)
    requires OpenPath(blocks, index, path, mark, open) && path != []
    ensures var b := path[|path| - 1];
            b < |open| && OpenPath(blocks, index, path[..|path| - 1], mark, open[b := false])
  {
  }

  ghost function MarkedIn(blocks: set<BlockId>, mark: seq<bool>): set<BlockId> {
    set b | b in blocks && b < |mark| && mark[b]
  }

  lemma MarkedFits(blocks: set<BlockId>, mark: seq<bool>)
    ensures |MarkedIn(blocks, mark)| <= |blocks|
  {
    Cardinality(MarkedIn(blocks, mark), blocks);
  }

  lemma MarkGrows(blocks: set<BlockId>, mark: seq<bool>, b: BlockId)
    requires b in blocks && b < |mark| && !mark[b]
    ensures |MarkedIn(blocks, mark[b := true])| == |MarkedIn(blocks, mark)| + 1
  {
    assert MarkedIn(blocks, mark[b := true]) == MarkedIn(blocks, mark) + {b};
  }

  // ----- What the trace of a loop-DAG needs

  /** Block indices as ranks; blocks without one rank lowest. */
  ghost function RankOf(index: seq<int>): seq<nat> {
    seq(|index|, b requires 0 <= b < |index| => if index[b] >= 0 then index[b] else 0)
  }

  /** Loop-DAG edges climb the block order. */
  lemma LoopDagRanked(g: Graph, blocks: set<BlockId>, a: Numbers)
    requires LabelsSettled(g, blocks, a) && |a.index| == |g.outofthis|
    requires forall b :: 0 <= b < |g.outofthis| && g.outofthis[b] != [] ==> b in blocks
    requires forall b :: b in blocks && b < |a.index| ==> a.index[b] >= 0
    ensures Ranked(g, RankOf(a.index))
  {
    var rank := RankOf(a.index);
    forall e | IsEdge(g, e) && Target(g, e) < |rank| ensures rank[e.source] < rank[Target(g, e)] {
      assert EdgeSettled(a, e.source, g.outofthis[e.source][e.slot]);
    }
  }

  // ----- What the dominator solver needs

  /** Every block but the tree roots has a tree edge from an earlier block. */
  ghost predicate TreesEntered(g: Graph, blocks: set<BlockId>, index: seq<int>, roots: set<BlockId>) {
    forall b :: b in blocks && b !in roots ==> EnteredAt(g, index, b)
  }

  ghost predicate EnteredAt(g: Graph, index: seq<int>, b: BlockId) {
    b < |g.intothis| && exists k :: 0 <= k < |g.intothis[b]| && g.intothis[b][k].bits.tree && Before(index, g.intothis[b][k].point, b)
  }

  lemma TreesEnteredInTheEnd(t: Spanning, g: Graph, irr: set<Edge>)
    requires FullSearch(t) && LabelsAre(t, g, irr)
    ensures TreesEntered(g, t.w.blocks, t.a.index, RootSetOf(t.s))
  {
    forall b | b in t.w.blocks && b !in RootSetOf(t.s) ensures EnteredAt(g, t.a.index, b) {
      NumbersHere(t, b);
      RootsAre(t.s.order, t.s.t.par, b);
      var k := ParentInEdge(t, g, irr, b);
    }
  }

  lemma NumbersHere(t: Spanning, b: BlockId)
    requires FullSearch(t) && b in t.w.blocks
    ensures b < |t.s.visit| && 0 <= t.s.visit[b] < |t.s.order| && |t.s.order| == |t.s.t.par| == |t.s.index|
    ensures t.s.order[t.s.visit[b]] == b && t.s.t.stack == []
    ensures Numbered(t.a, b) && t.a.index[b] == t.s.index[t.s.visit[b]]
  {
    Positions(t.w, t.n, t.s, t.g, t.a, b);
  }

  /** The edge a block was entered by, seen from the block. */
  lemma ParentInEdge(t: Spanning, g: Graph, irr: set<Edge>, b: BlockId) returns (k: nat)
    requires FullSearch(t) && LabelsAre(t, g, irr) && b in t.w.blocks && b < |t.s.visit|
    requires 0 <= t.s.visit[b] < |t.s.t.par| && t.s.t.par[t.s.visit[b]] >= 0
    ensures b < |g.intothis| && k < |g.intothis[b]| && g.intothis[b][k].bits.tree && Before(t.a.index, g.intothis[b][k].point, b)
  {
    SearchHere(t);
    NumbersHere(t, b);
    var x := t.s.visit[b];
    var p, slot := t.s.t.par[x], t.s.via[x];
    ParentIndex(t.w, t.n, t.s, x);
    ParentStep(t.w, t.n, t.s, x);
    assert EnteredBy(t.w, t.s, p, slot, x);
    VisitFacts(t, p);
    var c := t.s.order[p];
    NumbersHere(t, c);
    ScanIsInEdge(t, g, irr, p, slot);
    VisitInjective(t, x, g.outofthis[c][slot].point);
    k := g.outofthis[c][slot].reverseIndex;
  }

  /** The sources of the in-edges of every block. */
  ghost function EndPoints(edges: seq<seq<BlockEdge>>): map<BlockId, seq<BlockId>> {
    map b: BlockId | b < |edges| :: PointsOf(edges[b])
  }

  ghost function IndexMap(index: seq<int>): map<BlockId, int> {
    map b: BlockId | b < |index| :: index[b]
  }

  lemma ArenaShape(g: Graph, list: seq<BlockId>, index: seq<int>)
    requires Paired(g) && |index| == |g.outofthis| && Separate(g, set k | 0 <= k < |list| :: list[k])
    requires forall k :: 0 <= k < |list| ==> list[k] < |index| && index[list[k]] == k
    ensures Dominators.WellShaped(list, EndPoints(g.intothis), EndPoints(g.outofthis), IndexMap(index))
  {
    var into, out := EndPoints(g.intothis), EndPoints(g.outofthis);
    forall i, k | 0 <= i < |list| && 0 <= k < |out[list[i]]| ensures out[list[i]][k] in list && list[i] in into[out[list[i]][k]] {
      assert OutPaired(g, list[i], k);
      var e := g.outofthis[list[i]][k];
      assert into[e.point][e.reverseIndex] == list[i];
    }
    forall i, k | 0 <= i < |list| && 0 <= k < |into[list[i]]| ensures into[list[i]][k] in list {
      assert g.intothis[list[i]][k].point in set k | 0 <= k < |list| :: list[k];
    }
  }

  /** The positions that the solver joins to the entry: those of the other roots. */
  ghost function JoinedTops(list: seq<BlockId>, roots: seq<BlockId>): set<nat> {
    if |roots| > 1 then Dominators.TopsOf(list, roots) else {}
  }

  lemma JoinedOrdered(preds: DominatorTheory.Preds, tops: set<nat>)
    requires |preds| > 0 && forall i, k :: 0 <= i < |preds| && 0 <= k < |preds[i]| ==> preds[i][k] < |preds|
    requires forall i :: 0 < i < |preds| ==> i in tops || DominatorTheory.HasEarlier(preds[i], i)
    ensures DominatorTheory.Ordered(Dominators.Joined(preds, tops))
  {
    var joined := Dominators.Joined(preds, tops);
    forall i | 0 < i < |preds| ensures DominatorTheory.HasEarlier(joined[i], i) {
      if i in tops {
        assert joined[i][|preds[i]|] == 0;
      }
    }
  }

  /** The dominator solver can work on this list with these roots. */
  ghost predicate SolverReady(g: Graph, list: seq<BlockId>, index: seq<int>, roots: seq<BlockId>) {
    && Dominators.WellShaped(list, EndPoints(g.intothis), EndPoints(g.outofthis), IndexMap(index))
    && DominatorTheory.Ordered(Dominators.Joined(ArenaPreds(g, list, index), JoinedTops(list, roots)))
  }

  ghost function ArenaPreds(g: Graph, list: seq<BlockId>, index: seq<int>): DominatorTheory.Preds
    requires Dominators.WellShaped(list, EndPoints(g.intothis), EndPoints(g.outofthis), IndexMap(index))
  {
    Dominators.ListPreds(list, EndPoints(g.intothis), EndPoints(g.outofthis), IndexMap(index))
  }

  lemma PredsInList(g: Graph, list: seq<BlockId>, index: seq<int>)
    requires Dominators.WellShaped(list, EndPoints(g.intothis), EndPoints(g.outofthis), IndexMap(index))
    ensures var preds := ArenaPreds(g, list, index);
            |preds| == |list| && forall i, k :: 0 <= i < |preds| && 0 <= k < |preds[i]| ==> preds[i][k] < |preds|
  {
    var preds := ArenaPreds(g, list, index);
    forall i, k | 0 <= i < |preds| && 0 <= k < |preds[i]| ensures preds[i][k] < |preds| {
      assert EndPoints(g.intothis)[list[i]][k] in list;
    }
  }

  /** A root heads the list, and every block that is no root has an in-edge from an earlier one; with
      edges from the first block to the other roots, that is the order the dominator solver works on. */
  lemma RootsOrder(g: Graph, list: seq<BlockId>, index: seq<int>, roots: seq<BlockId>)
    requires Paired(g) && |index| == |g.outofthis| && Separate(g, set k | 0 <= k < |list| :: list[k]) && list != []
    requires forall k :: 0 <= k < |list| ==> list[k] < |index| && index[list[k]] == k
    requires TreesEntered(g, set k | 0 <= k < |list| :: list[k], index, set r | r in roots)
    ensures list[0] in roots && SolverReady(g, list, index, roots)
  {
    ArenaShape(g, list, index);
    PredsInList(g, list, index);
    hide Dominators.WellShaped, Paired, Separate, TreesEntered, ArenaPreds, EndPoints, IndexMap, DominatorTheory.HasEarlier;
    var preds, tops := ArenaPreds(g, list, index), JoinedTops(list, roots);
    forall i | 0 <= i < |list| && list[i] !in roots ensures i > 0 && DominatorTheory.HasEarlier(preds[i], i) {
      EarlierSource(g, list, index, roots, i);
    }
    assert list[0] in roots;
    forall i | 0 < i < |list| && list[i] in roots ensures i in tops { OtherRootIsTop(list, roots, i, index); }
    hide JoinedTops;
    JoinedOrdered(preds, tops);
  }

  lemma OtherRootIsTop(list: seq<BlockId>, roots: seq<BlockId>, i: nat, index: seq<int>)
    requires 0 < i < |list| && list[0] in roots && list[i] in roots
    requires forall k :: 0 <= k < |list| ==> list[k] < |index| && index[list[k]] == k
    ensures i in JoinedTops(list, roots)
  {
    var a :| 0 <= a < |roots| && roots[a] == list[0];
    var b :| 0 <= b < |roots| && roots[b] == list[i];
    assert index[list[0]] == 0 && index[list[i]] == i;
  }

  lemma EarlierSource(g: Graph, list: seq<BlockId>, index: seq<int>, roots: seq<BlockId>, i: nat)
    requires Dominators.WellShaped(list, EndPoints(g.intothis), EndPoints(g.outofthis), IndexMap(index)) && i < |list| && list[i] !in roots
    requires Paired(g) && |index| == |g.outofthis| && Separate(g, set k | 0 <= k < |list| :: list[k])
    requires TreesEntered(g, set k | 0 <= k < |list| :: list[k], index, set r | r in roots)
    ensures i > 0 && i < |ArenaPreds(g, list, index)| && DominatorTheory.HasEarlier(ArenaPreds(g, list, index)[i], i)
  {
    var b := list[i];
    assert b in set k | 0 <= k < |list| :: list[k];
    assert EnteredAt(g, index, b);
    hide TreesEntered, Separate;
    var k :| 0 <= k < |g.intothis[b]| && g.intothis[b][k].bits.tree && Before(index, g.intothis[b][k].point, b);
    PredAt(g, list, index, i, k);
  }

  /** An in-edge from an earlier block is an earlier predecessor. */
  lemma PredAt(g: Graph, list: seq<BlockId>, index: seq<int>, i: nat, k: nat)
    requires Dominators.WellShaped(list, EndPoints(g.intothis), EndPoints(g.outofthis), IndexMap(index)) && i < |list|
    requires list[i] < |g.intothis| && k < |g.intothis[list[i]]| && Before(index, g.intothis[list[i]][k].point, list[i])
    ensures i > 0 && i < |ArenaPreds(g, list, index)| && DominatorTheory.HasEarlier(ArenaPreds(g, list, index)[i], i)
  {
    var preds, b := ArenaPreds(g, list, index), list[i];
    var c := g.intothis[b][k].point;
    assert EndPoints(g.intothis)[b][k] == c;
    assert preds[i][k] == IndexMap(index)[c];
  }
}
