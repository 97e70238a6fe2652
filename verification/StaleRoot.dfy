/** A graph whose first block stays in the root list although it is no tree root, and what that costs. */
module StaleRoot {
  import opened FlowGraph
  import opened EdgeLabels
  import opened LoopDag
  import opened DominatorTheory
  import opened SpanningSearch
  import opened SpanningRoots
  import opened SpanningSteps
  import opened RootLists
  import opened SpanningTree

  function Half(point: BlockId, reverseIndex: nat): BlockEdge {
    BlockEdge(point, NO_FLAG, reverseIndex)
  }

  /** Two loops: 0 and 1, and 2 and 3; an edge leads from 3 to 0. */
  ghost function TwoLoops(): Graph {
    Graph([[Half(1, 0), Half(3, 0)], [Half(0, 0)], [Half(3, 1)], [Half(2, 0)]],
          [[Half(1, 0)], [Half(0, 0)], [Half(3, 0)], [Half(0, 1), Half(2, 0)]])
  }

  ghost function TwoLoopsWorld(): World {
    World(Points(TwoLoops()), set k | 0 <= k < 4 :: [0, 1, 2, 3][k])
  }

  lemma TwoLoopsPaired()
    ensures Paired(TwoLoops())
  {
    var g := TwoLoops();
    forall b, k | 0 <= b < |g.intothis| && 0 <= k < |g.intothis[b]| ensures InPaired(g, b, k) { }
    forall b, k | 0 <= b < |g.outofthis| && 0 <= k < |g.outofthis[b]| ensures OutPaired(g, b, k) { }
  }

  lemma NoSources()
    ensures forall k :: 0 <= k < 4 ==> [0, 1, 2, 3][k] < |TwoLoops().intothis|
    ensures NoInEdges(TwoLoops(), [0, 1, 2, 3]) == []
  {
    var g := TwoLoops();
    assert [0, 1, 2, 3][..3] == [0, 1, 2] && [0, 1, 2][..2] == [0, 1] && [0, 1][..1] == [0] && [0][..0] == [];
    assert NoInEdges(g, [0]) == [] && NoInEdges(g, [0, 1]) == [] && NoInEdges(g, [0, 1, 2]) == [];
  }

  lemma WorldIs()
    ensures TwoLoopsWorld().outs == [[1], [0], [3], [0, 2]] && TwoLoopsWorld().blocks == {0, 1, 2, 3}
  {
    var outs := Points(TwoLoops());
    assert outs[0] == [1] && outs[1] == [0] && outs[2] == [3] && outs[3] == [0, 2];
    assert outs == [[1], [0], [3], [0, 2]];
    var list := [0, 1, 2, 3];
    assert list[0] == 0 && list[1] == 1 && list[2] == 2 && list[3] == 3;
  }

  /** Block 2 leads to block 0, which does not lead back. */
  lemma EnteredTwoLoops(w: World)
    requires w == World([[1], [0], [3], [0, 2]], {0, 1, 2, 3})
    ensures EnteredFromOutside(w, 0)
  {
    assert FollowsEdges(w, {0, 1});
    forall reached | 2 in reached && FollowsEdges(w, reached) ensures 0 in reached {
      assert w.outs[2][0] in reached;
      assert w.outs[3][0] in reached;
    }
    assert Leads(w, 2, 0) && !Leads(w, 0, 2);
  }

  /** The search keeps block 0 in the root list, although block 2 is the only tree root. */
  lemma StaleRootKept()
    ensures Paired(TwoLoops()) && RootGoesStale(TwoLoops(), [0, 1, 2, 3])
  {
    TwoLoopsPaired();
    NoSources();
    WorldIs();
    EnteredTwoLoops(TwoLoopsWorld());
    hide EnteredFromOutside, Points, NoInEdges, TwoLoops;
  }

  /** The in-edges in the order of the search: blocks 2, 3, 0, 1. */
  ghost function ListedPreds(): Preds {
    [[1], [0], [3, 1], [2]]
  }

  lemma {:induction false} PassesSecond(path: seq<nat>)
    requires IsPath(ListedPreds(), path) && path[|path| - 1] >= 1
    ensures 1 in path
    decreases |path|
  {
    var m := |path| - 1;
    if path[m] != 1 {
      var front := path[..m];
      assert path[m - 1] in ListedPreds()[path[m]];
      assert IsPath(ListedPreds(), front);
      PassesSecond(front);
    }
  }

  /** Block 3, at position 1, is the closest strict dominator of block 0, at position 2; for a listed
      root the solver stores none. */
  lemma StaleRootHasDominator()
    ensures Ordered(ListedPreds()) && IsImmediateDominator(ListedPreds(), 1, 2)
  {
    var preds := ListedPreds();
    assert HasEarlier(preds[1], 1) by { assert preds[1][0] == 0; }
    assert HasEarlier(preds[2], 2) by { assert preds[2][1] == 1; }
    assert HasEarlier(preds[3], 3) by { assert preds[3][0] == 2; }
    forall path | IsPath(preds, path) && path[|path| - 1] == 2 ensures 1 in path { PassesSecond(path); }
    forall e | e != 2 && Dominates(preds, e, 2) ensures Dominates(preds, e, 1) {
      var path: seq<nat> := [0, 1, 2];
      assert preds[1][0] == 0 && preds[2][1] == 1;
      assert IsPath(preds, path);
      assert e in path;
      forall p | IsPath(preds, p) && p[|p| - 1] == 1 ensures e in p { assert p[0] == 0 && p[|p| - 1] == 1; }
    }
  }
}
