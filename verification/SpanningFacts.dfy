/** What the labels and numbers of a complete search say, without reference to how they were found. */
module SpanningFacts {
  import opened FlowGraph
  import opened LoopDag
  import opened EdgeLabels
  import opened DominatorTheory
  import opened SpanningTheory
  import opened SpanningSearch
  import opened SpanningRoots

  /** The arena's numbers for one graph while it is searched. */
  datatype Numbers = Numbers(visitcount: seq<int>, index: seq<int>, numdesc: seq<int>)

  /** Exactly one kind of edge, and loop edges are the back edges; what other passes label is cleared. */
  ghost predicate OneKind(l: EdgeLabel) {
    && (l.loopEdge <==> l.back) && !l.irreducible && !l.loopExit
    && (if l.tree then 1 else 0) + (if l.forward then 1 else 0) + (if l.cross then 1 else 0) + (if l.back then 1 else 0) == 1
  }

  /** The block is numbered within the arena's tables. */
  ghost predicate Numbered(a: Numbers, b: BlockId) {
    b < |a.visitcount| && b < |a.index| && b < |a.numdesc|
  }

  /** `c` lies in the visit interval of `b`. */
  ghost predicate Within(a: Numbers, b: BlockId, c: BlockId)
    requires Numbered(a, b) && Numbered(a, c)
  {
    a.visitcount[b] <= a.visitcount[c] < a.visitcount[b] + a.numdesc[b]
  }

  /** An edge's kind is exactly what the intervals of its ends say, and every edge but a back
      edge goes forward in the new order. */
  ghost predicate EdgeClassified(a: Numbers, b: BlockId, e: BlockEdge) {
    && Numbered(a, b) && Numbered(a, e.point) && OneKind(e.bits)
    && (e.bits.back <==> Within(a, e.point, b))
    && (e.bits.tree || e.bits.forward <==> b != e.point && Within(a, b, e.point))
    && (e.bits.cross <==> a.visitcount[e.point] + a.numdesc[e.point] <= a.visitcount[b])
    && (!e.bits.back <==> a.index[b] < a.index[e.point])
  }

  ghost predicate Classified(g: Graph, blocks: set<BlockId>, a: Numbers) {
    forall b, k :: b in blocks && b < |g.outofthis| && 0 <= k < |g.outofthis[b]| ==> EdgeClassified(a, b, g.outofthis[b][k])
  }

  /** A walk down tree edges. */
  ghost predicate TreePath(g: Graph, path: seq<BlockId>) {
    && |path| > 0
    && forall k :: 0 <= k < |path| - 1 ==> StepsDown(g, path[k], path[k + 1])
  }

  ghost predicate StepsDown(g: Graph, b: BlockId, c: BlockId) {
    b < |g.outofthis| && exists k :: 0 <= k < |g.outofthis[b]| && g.outofthis[b][k].bits.tree && g.outofthis[b][k].point == c
  }

  ghost predicate Descendant(g: Graph, b: BlockId, c: BlockId) {
    exists path :: TreePath(g, path) && path[0] == b && path[|path| - 1] == c
  }

  /** The visit interval of a block holds exactly its descendants in the tree. */
  ghost predicate SubtreesExact(g: Graph, blocks: set<BlockId>, a: Numbers) {
    forall b, c :: b in blocks && c in blocks ==>
      Numbered(a, b) && Numbered(a, c) && (Within(a, b, c) <==> Descendant(g, b, c))
  }

  // ----- Proof

  /** The search is complete and the graph and numbers are its own. */
  ghost predicate Found(w: World, n: nat, s: Search, g: Graph, a: Numbers) {
    && Closed(w) && SearchInv(w, n, s) && s.t.stack == [] && |s.order| == |w.blocks| && w.outs == Points(g)
    && NumbersAre(w, s, a) && KindsAre(w, s, g)
  }

  ghost predicate NumbersAre(w: World, s: Search, a: Numbers) {
    && Sized(w, s) && s.visit == a.visitcount && |a.index| == |a.numdesc| == |s.visit|
    && forall i :: 0 <= i < |s.order| ==>
         s.order[i] < |a.index| && a.index[s.order[i]] == s.index[i] && a.numdesc[s.order[i]] == s.t.nd[i]
  }

  /** The labels show the kinds. */
  ghost predicate KindsAre(w: World, s: Search, g: Graph) {
    Sized(w, s) && forall i, k :: 0 <= i < |s.order| && 0 <= k < |s.kinds[i]| ==> ShowsKind(g, s.order[i], k, s.kinds[i][k])
  }

  ghost predicate ShowsKind(g: Graph, b: BlockId, k: nat, kind: Kind) {
    && b < |g.outofthis| && k < |g.outofthis[b]|
    && var l := g.outofthis[b][k].bits;
       && (l.tree <==> kind == Tree) && (l.forward <==> kind == Forward) && (l.cross <==> kind == Cross)
       && (l.back <==> kind == Back) && (l.loopEdge <==> l.back) && !l.irreducible && !l.loopExit
  }

  /** Every block has a position, and every edge is scanned. */
  lemma Positions(w: World, n: nat, s: Search, g: Graph, a: Numbers, b: BlockId)
    requires Found(w, n, s, g, a) && b in w.blocks
    ensures b < |w.outs| && 0 <= s.visit[b] < |s.order| && s.order[s.visit[b]] == b && Numbered(a, b)
    ensures |w.outs[b]| == |s.kinds[s.visit[b]]| && s.visit[b] !in s.t.stack
  {
    hide DfsInv, Entered, KindsAre;
    VisitedFit(w, s);
    assert b in Visited(s);
    var i :| 0 <= i < |s.order| && s.order[i] == b;
  }

  /** Interval and ancestor chain agree. */
  lemma ChainIsInterval(w: World, n: nat, s: Search, i: nat, x: nat)
    requires SearchInv(w, n, s) && s.t.stack == [] && i < |s.order| && x < |s.order|
    ensures i in Chain(s.t.par, x) <==> i <= x < i + s.t.nd[i]
  {
    hide VisitsMatch, ScansMatch, Entered, PostMatches, StackTiles, OpenAbove, OpenAncestors;
  }

  /** Indices grow down the tree. */
  lemma {:induction false} ChainIndex(w: World, n: nat, s: Search, i: nat, x: nat)
    requires SearchInv(w, n, s) && s.t.stack == [] && i < |s.order| && x < |s.order| && i in Chain(s.t.par, x)
    ensures s.index[i] <= s.index[x] && (i != x ==> s.index[i] < s.index[x])
    decreases x
  {
    hide VisitsMatch, StackTiles, OpenAbove, OpenAncestors, IntervalsExact;
    if i != x {
      var p := s.t.par[x];
      ChainIndex(w, n, s, i, p);
      assert EnteredBy(w, s, p, s.via[x], x);
      ParentIndex(w, n, s, x);
    }
  }

  lemma ParentIndex(w: World, n: nat, s: Search, x: nat)
    requires SearchInv(w, n, s) && s.t.stack == [] && x < |s.order| && s.t.par[x] >= 0
    ensures s.t.par[x] < |s.order| && s.index[s.t.par[x]] < s.index[x]
    ensures s.via[x] < |s.kinds[s.t.par[x]]| && s.kinds[s.t.par[x]][s.via[x]] == Tree
  {
    hide StackTiles, OpenAbove, OpenAncestors, IntervalsExact;
    var p, k := s.t.par[x], s.via[x];
    assert EnteredBy(w, s, p, k, x);
    assert ScanMatches(w, s, p, k);
    assert Dest(w, s, p, k) == x;
  }

  lemma EdgeIsClassified(w: World, n: nat, s: Search, g: Graph, a: Numbers, b: BlockId, k: nat)
    requires Found(w, n, s, g, a) && b in w.blocks && b < |g.outofthis| && k < |g.outofthis[b]|
    ensures EdgeClassified(a, b, g.outofthis[b][k])
  {
    var c := g.outofthis[b][k].point;
    assert w.outs[b][k] == c && c in w.blocks;
    Positions(w, n, s, g, a, b);
    Positions(w, n, s, g, a, c);
    var i, j := s.visit[b], s.visit[c];
    assert ShowsKind(g, s.order[i], k, s.kinds[i][k]);
    assert ScanMatches(w, s, i, k) && Dest(w, s, i, k) == j;
    hide SearchInv, Closed, KindsAre, DfsInv, VisitsMatch, ScansMatch, Entered, PostMatches, Dest;
    ChainIsInterval(w, n, s, i, j);
    ChainIsInterval(w, n, s, j, i);
    SizesPositive(w, n, s, i);
    SizesPositive(w, n, s, j);
    if j in Chain(s.t.par, i) { ChainIndex(w, n, s, j, i); }
  }

  lemma SizesPositive(w: World, n: nat, s: Search, i: nat)
    requires SearchInv(w, n, s) && i < |s.order| && s.t.stack == []
    ensures s.t.nd[i] > 0 && s.index[i] >= 0
  {
    hide VisitsMatch, ScansMatch, Entered, StackTiles, OpenAbove, OpenAncestors, IntervalsExact;
  }

  lemma {:induction false} ChainIsPath(w: World, n: nat, s: Search, g: Graph, a: Numbers, i: nat, x: nat) returns (path: seq<BlockId>)
    requires Found(w, n, s, g, a) && i < |s.order| && x < |s.order| && i in Chain(s.t.par, x)
    ensures TreePath(g, path) && path[0] == s.order[i] && path[|path| - 1] == s.order[x]
    decreases x
  {
    if i == x {
      path := [s.order[x]];
    } else {
      var p := s.t.par[x];
      ParentEdge(w, n, s, g, a, x);
      var before := ChainIsPath(w, n, s, g, a, i, p);
      path := before + [s.order[x]];
    }
  }

  lemma ParentEdge(w: World, n: nat, s: Search, g: Graph, a: Numbers, x: nat)
    requires Found(w, n, s, g, a) && x < |s.order| && s.t.par[x] >= 0
    ensures s.t.par[x] < x && StepsDown(g, s.order[s.t.par[x]], s.order[x])
  {
    var p, k := s.t.par[x], s.via[x];
    assert EnteredBy(w, s, p, k, x);
    ParentIndex(w, n, s, x);
    assert ShowsKind(g, s.order[p], k, s.kinds[p][k]);
  }

  /** A tree-labelled edge leads to a child. */
  lemma StepIsParent(w: World, n: nat, s: Search, g: Graph, a: Numbers, b: BlockId, c: BlockId)
    requires Found(w, n, s, g, a) && b in w.blocks && StepsDown(g, b, c)
    ensures c in w.blocks && b < |s.visit| && c < |s.visit| && 0 <= s.visit[c] < |s.t.par| && s.t.par[s.visit[c]] == s.visit[b]
    ensures s.visit[b] >= 0
  {
    var k :| 0 <= k < |g.outofthis[b]| && g.outofthis[b][k].bits.tree && g.outofthis[b][k].point == c;
    assert w.outs[b][k] == c && c in w.blocks;
    Positions(w, n, s, g, a, b);
    var i := s.visit[b];
    assert ShowsKind(g, s.order[i], k, s.kinds[i][k]);
    assert ScanMatches(w, s, i, k);
  }

  lemma {:induction false} PathIsChain(w: World, n: nat, s: Search, g: Graph, a: Numbers, path: seq<BlockId>)
    requires Found(w, n, s, g, a) && TreePath(g, path) && path[0] in w.blocks
    ensures var c := path[|path| - 1]; c in w.blocks && path[0] < |s.visit| && c < |s.visit| && 0 <= s.visit[c]
    ensures 0 <= s.visit[path[0]] && s.visit[path[0]] in Chain(s.t.par, s.visit[path[|path| - 1]])
    decreases |path|
  {
    var m := |path| - 1;
    if m == 0 {
      Positions(w, n, s, g, a, path[0]);
      ChainBound(s.t.par, s.visit[path[0]]);
    } else {
      forall k | 0 <= k < m - 1 ensures StepsDown(g, path[..m][k], path[..m][k + 1]) {
        assert StepsDown(g, path[k], path[k + 1]);
      }
      PathIsChain(w, n, s, g, a, path[..m]);
      StepIsParent(w, n, s, g, a, path[m - 1], path[m]);
      ParentEarlier(w, n, s, s.visit[path[m]]);
    }
  }

  lemma ParentEarlier(w: World, n: nat, s: Search, x: nat)
    requires SearchInv(w, n, s) && x < |s.t.par|
    ensures s.t.par[x] < x
  {
    hide VisitsMatch, ScansMatch, Entered, PostMatches, StackTiles, OpenAbove, OpenAncestors, IntervalsExact;
  }

  lemma IntervalIsDescendants(w: World, n: nat, s: Search, g: Graph, a: Numbers, b: BlockId, c: BlockId)
    requires Found(w, n, s, g, a) && b in w.blocks && c in w.blocks
    ensures Numbered(a, b) && Numbered(a, c) && (Within(a, b, c) <==> Descendant(g, b, c))
  {
    Positions(w, n, s, g, a, b);
    Positions(w, n, s, g, a, c);
    var i, x := s.visit[b], s.visit[c];
    assert a.numdesc[s.order[i]] == s.t.nd[i];
    ChainIsInterval(w, n, s, i, x);
    hide SearchInv;
    if i in Chain(s.t.par, x) {
      var path := ChainIsPath(w, n, s, g, a, i, x);
    }
    if path :| TreePath(g, path) && path[0] == b && path[|path| - 1] == c {
      PathIsChain(w, n, s, g, a, path);
    }
  }

  /** A complete search classifies every edge, and its intervals are its subtrees. */
  lemma FoundIsExact(w: World, n: nat, s: Search, g: Graph, a: Numbers)
    requires Found(w, n, s, g, a)
    ensures Classified(g, w.blocks, a) && SubtreesExact(g, w.blocks, a)
  {
    hide Found, EdgeClassified, Descendant;
    forall b, k | b in w.blocks && b < |g.outofthis| && 0 <= k < |g.outofthis[b]|
      ensures EdgeClassified(a, b, g.outofthis[b][k])
    {
      EdgeIsClassified(w, n, s, g, a, b, k);
    }
    forall b, c | b in w.blocks && c in w.blocks
      ensures Numbered(a, b) && Numbered(a, c) && (Within(a, b, c) <==> Descendant(g, b, c))
    {
      IntervalIsDescendants(w, n, s, g, a, b, c);
    }
  }
}
