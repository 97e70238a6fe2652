/** Which roots a search needs: why a second pass from the roots of the first one reaches
    every block. */
module SpanningRoots {
  import opened FlowGraph
  import opened DominatorTheory
  import opened SpanningTheory
  import opened SpanningSearch

  // ----- Tree roots

  /** The blocks that trees were started at, in order. */
  ghost function TreeRoots(s: Search): seq<BlockId> {
    RootsOf(s.order, s.t.par)
  }

  ghost function RootsOf(order: seq<BlockId>, par: seq<int>): seq<BlockId> {
    if |order| == 0 || |par| < |order| then []
    else
      var k := |order| - 1;
      RootsOf(order[..k], par[..k]) + if par[k] < 0 then [order[k]] else []
  }

  lemma VisitRoots(s: Search, b: BlockId, slot: nat)
    requires |s.order| == |s.t.par|
    ensures TreeRoots(Visit(s, b, slot)) == TreeRoots(s) + if s.t.stack == [] then [b] else []
  {
    var s', k := Visit(s, b, slot), |s.order|;
    assert s'.order[..k] == s.order && s'.t.par[..k] == s.t.par;
  }

  lemma SameRoots(s: Search)
    requires |s.order| == |s.t.par|
    ensures forall n :: TreeRoots(Close(n, s)) == TreeRoots(s)
    ensures forall i, kind :: TreeRoots(Scan(s, i, kind)) == TreeRoots(s)
    ensures forall b :: TreeRoots(Descend(s, b)) == TreeRoots(s)
  {
    if s.t.stack != [] && Cur(s) < |s.kinds| {
      forall b ensures TreeRoots(Descend(s, b)) == TreeRoots(s) {
        VisitRoots(s, b, |s.kinds[Cur(s)]|);
      }
    }
  }

  lemma {:induction false} RootsAre(order: seq<BlockId>, par: seq<int>, b: BlockId)
    requires |order| == |par|
    ensures b in RootsOf(order, par) <==> exists i :: 0 <= i < |order| && par[i] < 0 && order[i] == b
  {
    if |order| > 0 {
      var k := |order| - 1;
      RootsAre(order[..k], par[..k], b);
      if b in RootsOf(order, par) {
        if b in RootsOf(order[..k], par[..k]) {
          var i :| 0 <= i < k && par[..k][i] < 0 && order[..k][i] == b;
          assert par[i] < 0 && order[i] == b;
        } else {
          assert par[k] < 0 && order[k] == b;
        }
      }
      if i :| 0 <= i < |order| && par[i] < 0 && order[i] == b {
        if i < k { assert par[..k][i] < 0 && order[..k][i] == b; }
      }
    }
  }

  lemma {:induction false} LastRootIs(order: seq<BlockId>, par: seq<int>, i: nat)
    requires |order| == |par| && IsLastRoot(par, i)
    ensures var roots := RootsOf(order, par); roots != [] && roots[|roots| - 1] == order[i]
    decreases |order|
  {
    var k := |order| - 1;
    if i < k { LastRootIs(order[..k], par[..k], i); }
  }

  /** When the search is done, the block closed last is the root of the last tree. */
  lemma ClosedLast(w: World, n: nat, s: Search)
    requires SearchInv(w, n, s) && s.t.stack == [] && s.rpost != []
    ensures s.rpost[0] < |s.order| && TreeRoots(s) != [] && s.order[s.rpost[0]] == TreeRoots(s)[|TreeRoots(s)| - 1]
  {
    hide VisitsMatch, ScansMatch, DfsInv, Entered;
    LastRootIs(s.order, s.t.par, s.rpost[0]);
  }

  // ----- Reaching every block

  /** The set keeps every block its members lead to. */
  ghost predicate FollowsEdges(w: World, reached: set<BlockId>) {
    forall b, k :: b in reached && b in w.blocks && b < |w.outs| && 0 <= k < |w.outs[b]| ==> w.outs[b][k] in reached
  }

  /** Every block is reached from the roots. */
  ghost predicate Reaches(w: World, roots: set<BlockId>) {
    forall reached :: roots <= reached && FollowsEdges(w, reached) ==> w.blocks <= reached
  }

  lemma {:induction false} VisitedReached(w: World, n: nat, s: Search, reached: set<BlockId>, i: nat)
    requires SearchInv(w, n, s) && i < |s.order| && FollowsEdges(w, reached)
    requires forall j :: 0 <= j < |s.order| && s.t.par[j] < 0 ==> s.order[j] in reached
    ensures s.order[i] in reached
    decreases i
  {
    hide ScansMatch, PostMatches, StackTiles, IntervalsExact, OpenAbove, OpenAncestors;
    if s.t.par[i] >= 0 {
      VisitedReached(w, n, s, reached, s.t.par[i]);
      assert EnteredBy(w, s, s.t.par[i], s.via[i], i);
    }
  }

  ghost function Visited(s: Search): set<BlockId> {
    set i | 0 <= i < |s.order| :: s.order[i]
  }

  lemma {:induction false} PrefixCounts(w: World, s: Search, k: nat)
    requires Sized(w, s) && VisitsMatch(w, s) && k <= |s.order|
    ensures (set i | 0 <= i < k :: s.order[i]) <= w.blocks
    ensures |set i | 0 <= i < k :: s.order[i]| == k
  {
    if k > 0 {
      PrefixCounts(w, s, k - 1);
      var before := set i | 0 <= i < k - 1 :: s.order[i];
      assert s.order[k - 1] !in before;
      assert (set i | 0 <= i < k :: s.order[i]) == before + {s.order[k - 1]};
    }
  }

  /** No block is visited twice. */
  lemma VisitedFit(w: World, s: Search)
    requires Sized(w, s) && VisitsMatch(w, s)
    ensures |s.order| <= |w.blocks| && Visited(s) <= w.blocks && |Visited(s)| == |s.order|
    ensures |s.order| == |w.blocks| <==> Visited(s) == w.blocks
  {
    PrefixCounts(w, s, |s.order|);
    Cardinality(Visited(s), w.blocks);
  }

  lemma Cardinality(a: set<BlockId>, b: set<BlockId>)
    requires a <= b
    ensures |a| <= |b| && (|a| == |b| ==> a == b)
  {
    assert b == a + (b - a);
  }

  /** A finished search that visited everything shows that its roots reach everything. */
  lemma CompleteReaches(w: World, n: nat, s: Search, roots: set<BlockId>)
    requires SearchInv(w, n, s) && |s.order| == |w.blocks| && forall b :: b in TreeRoots(s) ==> b in roots
    ensures Reaches(w, roots)
  {
    VisitedFit(w, s);
    hide VisitsMatch, ScansMatch, PostMatches, DfsInv, Entered;
    forall reached | roots <= reached && FollowsEdges(w, reached) ensures w.blocks <= reached {
      forall j | 0 <= j < |s.order| && s.t.par[j] < 0 ensures s.order[j] in reached {
        RootsAre(s.order, s.t.par, s.order[j]);
      }
      forall b | b in w.blocks ensures b in reached {
        assert b in Visited(s);
        var i :| 0 <= i < |s.order| && s.order[i] == b;
        VisitedReached(w, n, s, reached, i);
      }
    }
  }

  /** With the stack empty, what is visited keeps what it leads to. */
  lemma VisitedFollows(w: World, n: nat, s: Search)
    requires Closed(w) && SearchInv(w, n, s) && s.t.stack == []
    ensures FollowsEdges(w, Visited(s))
  {
    hide PostMatches, DfsInv, Entered;
    forall b, k | b in Visited(s) && b in w.blocks && b < |w.outs| && 0 <= k < |w.outs[b]|
      ensures w.outs[b][k] in Visited(s)
    {
      var i :| 0 <= i < |s.order| && s.order[i] == b;
      assert ScanMatches(w, s, i, k);
      var j := Dest(w, s, i, k);
      assert w.outs[b][k] in w.blocks;
      assert s.order[j] == w.outs[b][k];
    }
  }

  /** Roots that reach everything and are all visited leave nothing to visit. */
  lemma NothingLeft(w: World, n: nat, s: Search, roots: set<BlockId>)
    requires Closed(w) && SearchInv(w, n, s) && s.t.stack == [] && Reaches(w, roots) && roots <= Visited(s)
    ensures |s.order| == |w.blocks|
  {
    VisitedFollows(w, n, s);
    VisitedFit(w, s);
  }

  // ----- Roots that are never dropped

  ghost predicate Sourceless(w: World, r: BlockId) {
    forall b, k :: 0 <= b < |w.outs| && 0 <= k < |w.outs[b]| ==> w.outs[b][k] != r
  }

  /** One root, or distinct blocks that no edge leads to. */
  ghost predicate Sources(w: World, roots: seq<BlockId>) {
    || |roots| == 1
    || ((forall i, j :: 0 <= i < j < |roots| ==> roots[i] != roots[j]) && forall i :: 0 <= i < |roots| ==> Sourceless(w, roots[i]))
  }

  lemma SwapNoRepeats(roots: seq<BlockId>, i: nat, j: nat)
    requires NoRepeats(roots) && i < |roots| && j < |roots|
    ensures NoRepeats(roots[i := roots[j]][j := roots[i]])
  {
  }

  lemma RemoveNoRepeats(roots: seq<BlockId>, k: nat)
    requires NoRepeats(roots) && k < |roots|
    ensures NoRepeats(roots[..k] + roots[k + 1..])
  {
  }

  lemma AppendNoRepeats(roots: seq<BlockId>, r: BlockId)
    requires NoRepeats(roots) && r !in roots
    ensures NoRepeats(roots + [r])
  {
  }

  lemma RootsVisited(s: Search, r: BlockId)
    requires |s.order| == |s.t.par| && r in TreeRoots(s)
    ensures r in s.order
  {
    RootsAre(s.order, s.t.par, r);
  }

  lemma SwapSources(w: World, roots: seq<BlockId>, i: nat, j: nat)
    requires Sources(w, roots) && i < |roots| && j < |roots|
    ensures Sources(w, roots[i := roots[j]][j := roots[i]])
  {
    hide Sourceless;
  }

  lemma FirstIsRoot(w: World, n: nat, s: Search)
    requires SearchInv(w, n, s) && s.order != []
    ensures s.order[0] in TreeRoots(s)
  {
    hide VisitsMatch, ScansMatch, PostMatches, StackTiles, IntervalsExact, OpenAbove, OpenAncestors;
    assert s.t.par[0] < 0;
    RootsAre(s.order, s.t.par, s.order[0]);
  }

  lemma SourceVisitedIsRoot(w: World, n: nat, s: Search, i: nat)
    requires SearchInv(w, n, s) && i < |s.order| && Sourceless(w, s.order[i])
    ensures s.order[i] in TreeRoots(s)
  {
    hide VisitsMatch, ScansMatch, PostMatches, DfsInv;
    assert s.t.par[i] >= 0 ==> EnteredBy(w, s, s.t.par[i], s.via[i], i);
    RootsAre(s.order, s.t.par, s.order[i]);
  }

  /** With trees started at the first roots only, the next one is not visited yet. */
  lemma NextSourceUnvisited(w: World, n: nat, s: Search, roots: seq<BlockId>, next: nat)
    requires SearchInv(w, n, s) && Sources(w, roots) && next < |roots| && TreeRoots(s) == roots[..next]
    ensures roots[next] !in s.order
  {
    hide SearchInv, Sourceless, TreeRoots;
    var r := roots[next];
    if next == 0 {
      assert s.order == [] by { if s.order != [] { FirstIsRoot(w, n, s); } }
    } else {
      assert r !in TreeRoots(s);
      forall i | 0 <= i < |s.order| ensures s.order[i] != r {
        if Sourceless(w, s.order[i]) { SourceVisitedIsRoot(w, n, s, i); }
      }
    }
  }
}
