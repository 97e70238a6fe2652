/** Edits of the paired edge lists of blocks, and collapsing a set of blocks into one. */
module EdgeEdits {
  import opened FlowGraph
  import opened EdgeLabels
  import opened EdgePairing
  import opened EdgeCounts
  import opened EdgeFlags
  import opened EdgeOrder
  import opened Quotient

  /** Deleting the partner of an out-slot leaves the out-slot, and every list but one as long as it was. */
  lemma HalfDeleteKeepsSlot(g: Graph, b: BlockId, slot: nat, c: BlockId, k: nat, target: BlockId)
    requires Linked(g) && IsIn(g, b, slot) && IsOut(g, c, k) && target < |g.intothis|
    ensures IsOut(HalfDeleteIn(g, b, slot), c, k) && target < |HalfDeleteIn(g, b, slot).intothis|
  {
  }

  lemma LinkedSizes(g: Graph)
    requires Linked(g)
    ensures |g.intothis| == |g.outofthis|
  {
  }

  lemma MergingEndsInto(g: Graph, g': Graph, b: BlockId)
    requires MergingInto(g, g', b, [])
    ensures MergedInto(g, g', b)
  {
  }

  lemma MergingEndsFrom(g: Graph, g': Graph, b: BlockId)
    requires MergingFrom(g, g', b, [])
    ensures MergedFrom(g, g', b)
  {
  }

  lemma FewerSelf(g: Graph, members: set<BlockId>, ident: BlockId)
    ensures FewerCross(g, g, members, ident)
  {
  }

  lemma MovingSizes(g0: Graph, g: Graph, members: set<BlockId>, ident: BlockId)
    requires Moving(g0, g, members, ident)
    ensures Linked(g) && |g.intothis| == |g.outofthis| == |g0.outofthis|
  {
  }

  /** The slots already seen keep what they name when an edge is redirected. */
  lemma RedirectKeeps(g0: Graph, g: Graph, members: set<BlockId>, ident: BlockId, o: BlockId, k: nat, m: BlockId, slot: nat)
    requires Moving(g0, g, members, ident) && Outsider(members, ident, o) && m in members && ident !in members
    requires IsOut(g, o, k) && g.outofthis[o][k].point == m && ident < |g.intothis| && OutLinked(g, o, k)
    requires NoneBefore(g.outofthis[o], k, m) && NamesMembers(g.intothis[m], slot, members)
    ensures var g' := ReplaceOut(g, o, k, ident);
            && o < |g'.outofthis| && m < |g'.intothis| && |g'.outofthis[o]| == |g.outofthis[o]|
            && NoneBefore(g'.outofthis[o], k + 1, m) && NamesMembers(g'.intothis[m], slot, members)
            && |g'.intothis[m]| == |g.intothis[m]| - 1
  {
    RedirectOut(g0, g, members, ident, o, k, m);
    hide Moving, FewerCross;
    var g' := ReplaceOut(g, o, k, ident);
    hide ReplaceOut;
    DropKeepsNames(g.intothis[m], g'.intothis[m], g.outofthis[o][k].reverseIndex, slot, members);
  }

  lemma RedirectInKeeps(g0: Graph, g: Graph, members: set<BlockId>, ident: BlockId, o: BlockId, k: nat, m: BlockId, slot: nat)
    requires Moving(g0, g, members, ident) && Outsider(members, ident, o) && m in members && ident !in members
    requires IsIn(g, o, k) && g.intothis[o][k].point == m && ident < |g.outofthis| && InLinked(g, o, k)
    requires NoneBefore(g.intothis[o], k, m) && NamesMembers(g.outofthis[m], slot, members)
    ensures var g' := ReplaceIn(g, o, k, ident);
            && o < |g'.intothis| && m < |g'.outofthis| && |g'.intothis[o]| == |g.intothis[o]|
            && NoneBefore(g'.intothis[o], k + 1, m) && NamesMembers(g'.outofthis[m], slot, members)
            && |g'.outofthis[m]| == |g.outofthis[m]| - 1
  {
    RedirectIn(g0, g, members, ident, o, k, m);
    hide Moving, FewerCross;
    var g' := ReplaceIn(g, o, k, ident);
    hide ReplaceIn;
    DropKeepsNames(g.outofthis[m], g'.outofthis[m], g.intothis[o][k].reverseIndex, slot, members);
  }

  lemma NoneInIsZero(g0: Graph, g: Graph, members: set<BlockId>, ident: BlockId, o: BlockId, m: BlockId)
    requires Moving(g0, g, members, ident) && o < |g.intothis| && NoneBefore(g.intothis[o], |g.intothis[o]|, m)
    ensures Cnt(g, m, o) == 0
  {
    InSlotCounts(g, o, m);
  }

  lemma NamesNone(s: seq<BlockEdge>, members: set<BlockId>)
    ensures NamesMembers(s, 0, members)
  {
  }

  lemma NamesNext(s: seq<BlockEdge>, slot: nat, members: set<BlockId>)
    requires NamesMembers(s, slot, members) && slot < |s| && s[slot].point in members
    ensures NamesMembers(s, slot + 1, members)
  {
  }

  lemma NamesFit(s: seq<BlockEdge>, slot: nat, members: set<BlockId>)
    requires NamesMembers(s, slot, members)
    ensures slot <= |s|
  {
  }

  lemma InPointInRange(g0: Graph, g: Graph, members: set<BlockId>, ident: BlockId, b: BlockId, k: nat)
    requires Moving(g0, g, members, ident) && IsIn(g, b, k)
    ensures g.intothis[b][k].point < |g.outofthis|
  {
    assert InLinked(g, b, k);
  }

  lemma OutPointInRange(g0: Graph, g: Graph, members: set<BlockId>, ident: BlockId, b: BlockId, k: nat)
    requires Moving(g0, g, members, ident) && IsOut(g, b, k)
    ensures g.outofthis[b][k].point < |g.outofthis|
  {
    assert OutLinked(g, b, k);
  }

  lemma StillNone(g: Graph, g': Graph, members: set<BlockId>, ident: BlockId, m: BlockId)
    requires FewerCross(g, g', members, ident) && m in members
    requires NoneCrossIn(g, members, ident, m) && NoneCrossOut(g, members, ident, m)
    ensures NoneCrossIn(g', members, ident, m) && NoneCrossOut(g', members, ident, m)
  {
  }

  lemma StillNoneIn(g: Graph, g': Graph, members: set<BlockId>, ident: BlockId, m: BlockId)
    requires FewerCross(g, g', members, ident) && m in members && NoneCrossIn(g, members, ident, m)
    ensures NoneCrossIn(g', members, ident, m)
  {
  }

  ghost function SetOf(nodes: seq<BlockId>): set<BlockId> {
    set m | m in nodes
  }

  /** The quotient by a list of nodes. */
  ghost predicate Collapsed(g0: Graph, g: Graph, nodes: seq<BlockId>, ident: BlockId) {
    IsQuotient(g0, g, SetOf(nodes), ident)
  }

  ghost predicate Lists(list: seq<BlockId>, members: set<BlockId>) {
    && (forall k :: 0 <= k < |list| ==> list[k] in members)
    && (forall m :: m in members ==> m in list)
  }

  ghost function Leaves(leafCount: seq<nat>, nodes: seq<BlockId>): nat
    requires forall k :: 0 <= k < |nodes| ==> nodes[k] < |leafCount|
  {
    if nodes == [] then 0 else Leaves(leafCount, nodes[..|nodes| - 1]) + leafCount[nodes[|nodes| - 1]]
  }

  ghost function Unmarked(mark: seq<bool>, list: seq<BlockId>): seq<BlockId> {
    if list == [] then []
    else
      var last := list[|list| - 1];
      Unmarked(mark, list[..|list| - 1]) + if last < |mark| && mark[last] then [] else [last]
  }

  lemma {:induction false} UnmarkedAre(mark: seq<bool>, list: seq<BlockId>)
    ensures forall b :: b in Unmarked(mark, list) <==> b in list && !(b < |mark| && mark[b])
  {
    if list != [] {
      UnmarkedAre(mark, list[..|list| - 1]);
      assert list == list[..|list| - 1] + [list[|list| - 1]];
    }
  }

  /** The list without the nodes, in order. */
  ghost function Others(list: seq<BlockId>, nodes: set<BlockId>): seq<BlockId> {
    if list == [] then []
    else Others(list[..|list| - 1], nodes) + if list[|list| - 1] in nodes then [] else [list[|list| - 1]]
  }

  lemma {:induction false} UnmarkedIsOthers(mark: seq<bool>, list: seq<BlockId>, nodes: set<BlockId>)
    requires forall k :: 0 <= k < |list| ==> list[k] < |mark| && (mark[list[k]] <==> list[k] in nodes)
    ensures Unmarked(mark, list) == Others(list, nodes)
  {
    if list != [] { UnmarkedIsOthers(mark, list[..|list| - 1], nodes); }
  }

  lemma SameElseSelf(g: Graph, u: BlockId, v: BlockId)
    ensures SameElse(g, g, u, v)
  {
  }

  lemma RemoveInSizes(g: Graph, b: BlockId, slot: nat)
    requires Linked(g) && IsIn(g, b, slot)
    ensures InLinked(g, b, slot) && |RemoveIn(g, b, slot).outofthis| == |g.outofthis|
  {
    RemoveInPoints(g, b, slot);
  }

  lemma RemoveOutSizes(g: Graph, b: BlockId, slot: nat)
    requires Linked(g) && IsOut(g, b, slot)
    ensures OutLinked(g, b, slot) && |RemoveOut(g, b, slot).outofthis| == |g.outofthis|
  {
    RemoveOutPoints(g, b, slot);
  }

  class EdgeArena {
    var graph: Graph
    var mark: seq<bool>
    var mark2: seq<bool>
    /** The graph block each block belongs to, and the children of every block. */
    var parent: seq<Option<BlockId>>
    var children: seq<seq<BlockId>>
    var leafCount: seq<nat>

    /** A new edge, at the end of both lists. */
    method AddInEdge(b: BlockId, source: BlockId, bits: EdgeLabel)
      requires Linked(graph) && b < |graph.intothis| && source < |graph.outofthis|
      modifies this`graph
      ensures graph == AddIn(old(graph), b, source, bits) && Linked(graph)
      ensures forall x, y :: Cnt(graph, x, y) == Cnt(old(graph), x, y) + One(x == source && y == b)
    {
      forall x: nat, y: nat ensures Cnt(AddIn(graph, b, source, bits), x, y) == Cnt(graph, x, y) + One(x == source && y == b) {
        AddInCounts(graph, b, source, bits, x, y);
      }
      hide Cnt;
      AddInKeeps(graph, b, source, bits);
      var ourrev, brev := |graph.outofthis[source]|, |graph.intothis[b]|;
      graph := graph.(intothis := graph.intothis[b := graph.intothis[b] + [BlockEdge(source, bits, ourrev)]]);
      graph := graph.(outofthis := graph.outofthis[source := graph.outofthis[source] + [BlockEdge(b, bits, brev)]]);
    }

    /** An in-slot is deleted; the slots after it move down and their partners are told. The
        partner of the deleted slot is left as it is. */
    method HalfDeleteInEdge(b: BlockId, slot: nat, ghost hole: set<Edge>)
      requires Movable(graph, b, slot, hole)
      modifies this`graph
      ensures graph == HalfDeleteInBut(old(graph), b, slot, hole)
    {
      ghost var g := graph;
      var s := slot;
      while s + 1 < |graph.intothis[b]|
        invariant slot <= s && b < |graph.intothis| && s < |graph.intothis[b]| == |g.intothis[b]|
        invariant OutsShifted(g, graph, b, slot, s, hole) && InsMoved(g, graph, b, slot, s)
        decreases |graph.intothis[b]| - s
      {
        hide OutsShifted, InsMoved, Movable;
        MoveOne(g, graph, b, slot, s, hole);
        var edge := graph.intothis[b][s + 1];
        graph := graph.(intothis := graph.intothis[b := graph.intothis[b][s := edge]]);
        var told := graph.outofthis[edge.point][edge.reverseIndex];
        told := told.(reverseIndex := told.reverseIndex - 1);
        graph := graph.(outofthis := graph.outofthis[edge.point := graph.outofthis[edge.point][edge.reverseIndex := told]]);
        s := s + 1;
      }
      MovedIsDeleted(g, graph, b, slot, s, hole);
      graph := graph.(intothis := graph.intothis[b := graph.intothis[b][..|graph.intothis[b]| - 1]]);
    }

    method HalfDeleteOutEdge(b: BlockId, slot: nat, ghost hole: set<Edge>)
      requires Movable(Flip(graph), b, slot, hole)
      modifies this`graph
      ensures graph == Flip(HalfDeleteInBut(Flip(old(graph)), b, slot, hole))
    {
      ghost var f := Flip(graph);
      var s := slot;
      while s + 1 < |graph.outofthis[b]|
        invariant slot <= s && b < |graph.outofthis| && s < |graph.outofthis[b]| == |f.intothis[b]|
        invariant OutsShifted(f, Flip(graph), b, slot, s, hole) && InsMoved(f, Flip(graph), b, slot, s)
        decreases |graph.outofthis[b]| - s
      {
        hide OutsShifted, InsMoved, Movable;
        MoveOne(f, Flip(graph), b, slot, s, hole);
        var edge := graph.outofthis[b][s + 1];
        graph := graph.(outofthis := graph.outofthis[b := graph.outofthis[b][s := edge]]);
        var told := graph.intothis[edge.point][edge.reverseIndex];
        told := told.(reverseIndex := told.reverseIndex - 1);
        graph := graph.(intothis := graph.intothis[edge.point := graph.intothis[edge.point][edge.reverseIndex := told]]);
        s := s + 1;
      }
      MovedIsDeleted(f, Flip(graph), b, slot, s, hole);
      graph := graph.(outofthis := graph.outofthis[b := graph.outofthis[b][..|graph.outofthis[b]| - 1]]);
    }

    method RemoveInEdge(b: BlockId, slot: nat)
      requires Linked(graph) && IsIn(graph, b, slot)
      modifies this`graph
      ensures InLinked(old(graph), b, slot) && graph == RemoveIn(old(graph), b, slot) && Linked(graph)
      ensures forall x, y :: Cnt(graph, x, y) + One(x == old(graph).intothis[b][slot].point && y == b) == Cnt(old(graph), x, y)
    {
      forall x: nat, y: nat { RemoveInCounts(graph, b, slot, x, y); }
      hide Cnt;
      var edge := graph.intothis[b][slot];
      RemoveInKeeps(graph, b, slot);
      LinkedMovable(graph, b, slot);
      HalfDeleteMakesHole(graph, b, slot);
      hide Linked, Movable, InHole, HalfDeleteInBut, HalfDeleteIn;
      HalfDeleteInEdge(b, slot, {});
      InHoleMovable(Flip(graph), edge.point, edge.reverseIndex);
      HalfDeleteOutEdge(edge.point, edge.reverseIndex, {});
    }

    method RemoveOutEdge(b: BlockId, slot: nat)
      requires Linked(graph) && IsOut(graph, b, slot)
      modifies this`graph
      ensures OutLinked(old(graph), b, slot) && graph == RemoveOut(old(graph), b, slot) && Linked(graph)
      ensures forall x, y :: Cnt(graph, x, y) + One(x == b && y == old(graph).outofthis[b][slot].point) == Cnt(old(graph), x, y)
    {
      forall x: nat, y: nat { RemoveOutCounts(graph, b, slot, x, y); }
      hide Cnt;
      var edge := graph.outofthis[b][slot];
      RemoveOutKeeps(graph, b, slot);
      FlipLinked(graph);
      LinkedMovable(Flip(graph), b, slot);
      HalfDeleteMakesHole(Flip(graph), b, slot);
      hide Linked, Movable, InHole, HalfDeleteInBut, HalfDeleteIn;
      HalfDeleteOutEdge(b, slot, {});
      assert Flip(Flip(graph)) == graph;
      InHoleMovable(graph, edge.point, edge.reverseIndex);
      HalfDeleteInEdge(edge.point, edge.reverseIndex, {});
    }

    /** The edge in an in-slot comes from another source. */
    method ReplaceInEdge(b: BlockId, num: nat, source: BlockId)
      requires Linked(graph) && IsIn(graph, b, num) && source < |graph.outofthis|
      modifies this`graph
      ensures InLinked(old(graph), b, num) && graph == ReplaceIn(old(graph), b, num, source) && Linked(graph)
      ensures Shifts(old(graph), graph, old(graph).intothis[b][num].point, b, source, b)
    {
      forall x: nat, y: nat { ReplaceInCounts(graph, b, num, source, x, y); }
      hide Cnt;
      var oldedge := graph.intothis[b][num];
      ReplaceInKeeps(graph, b, num, source);
      FlipLinked(graph);
      LinkedMovable(Flip(graph), oldedge.point, oldedge.reverseIndex);
      HalfDeleteKeepsSlot(Flip(graph), oldedge.point, oldedge.reverseIndex, b, num, source);
      hide Linked, Movable, HalfDeleteInBut, HalfDeleteIn;
      HalfDeleteOutEdge(oldedge.point, oldedge.reverseIndex, {});
      var newrev := |graph.outofthis[source]|;
      var bits := graph.intothis[b][num].bits;
      graph := graph.(intothis := graph.intothis[b := graph.intothis[b][num := BlockEdge(source, bits, newrev)]]);
      graph := graph.(outofthis := graph.outofthis[source := graph.outofthis[source] + [BlockEdge(b, bits, num)]]);
    }

    /** The edge in an out-slot leads to another target. */
    method ReplaceOutEdge(b: BlockId, num: nat, target: BlockId)
      requires Linked(graph) && IsOut(graph, b, num) && target < |graph.intothis|
      modifies this`graph
      ensures OutLinked(old(graph), b, num) && graph == ReplaceOut(old(graph), b, num, target) && Linked(graph)
      ensures Shifts(old(graph), graph, b, old(graph).outofthis[b][num].point, b, target)
    {
      forall x: nat, y: nat { ReplaceOutCounts(graph, b, num, target, x, y); }
      hide Cnt;
      var oldedge := graph.outofthis[b][num];
      ReplaceOutKeeps(graph, b, num, target);
      FlipLinked(graph);
      LinkedMovable(graph, oldedge.point, oldedge.reverseIndex);
      HalfDeleteKeepsSlot(graph, oldedge.point, oldedge.reverseIndex, b, num, target);
      hide Linked, Movable, HalfDeleteInBut, HalfDeleteIn;
      HalfDeleteInEdge(oldedge.point, oldedge.reverseIndex, {});
      var newrev := |graph.intothis[target]|;
      var bits := graph.outofthis[b][num].bits;
      graph := graph.(outofthis := graph.outofthis[b := graph.outofthis[b][num := BlockEdge(target, bits, newrev)]]);
      graph := graph.(intothis := graph.intothis[target := graph.intothis[target] + [BlockEdge(b, bits, num)]]);
    }

    /** An in-edge and an out-edge of a block become one that bypasses it. */
    method ReplaceEdgesThru(b: BlockId, input: nat, out: nat)
      requires Linked(graph) && IsIn(graph, b, input) && IsOut(graph, b, out)
      modifies this`graph
      ensures InLinked(old(graph), b, input) && OutLinked(old(graph), b, out)
      ensures graph == ReplaceThru(old(graph), b, input, out) && Linked(graph)
      ensures var i, o := old(graph).intothis[b][input].point, old(graph).outofthis[b][out].point;
              forall x, y :: Cnt(graph, x, y) + One(x == i && y == b) + One(x == b && y == o) == Cnt(old(graph), x, y) + One(x == i && y == o)
    {
      forall x: nat, y: nat { ReplaceThruCounts(graph, b, input, out, x, y); }
      hide Cnt;
      var inedge, outedge := graph.intothis[b][input], graph.outofthis[b][out];
      ReplaceThruKeeps(graph, b, input, out);
      JoinMakesHoles(graph, b, input, out);
      HolesMovable(Join(graph, b, input, out), b, input, b, out);
      var there := graph.outofthis[inedge.point][inedge.reverseIndex].(point := outedge.point, reverseIndex := outedge.reverseIndex);
      graph := graph.(outofthis := graph.outofthis[inedge.point := graph.outofthis[inedge.point][inedge.reverseIndex := there]]);
      var here := graph.intothis[outedge.point][outedge.reverseIndex].(point := inedge.point, reverseIndex := inedge.reverseIndex);
      graph := graph.(intothis := graph.intothis[outedge.point := graph.intothis[outedge.point][outedge.reverseIndex := here]]);
      assert graph == Join(old(graph), b, input, out);
      hide Linked, Movable, HalfDeleteInBut, HalfDeleteIn, InHole, Join, Holes;
      HalfDeleteInEdge(b, input, {Edge(b, out)});
      InHoleMovable(Flip(graph), b, out);
      HalfDeleteOutEdge(b, out, {});
    }

    /** The first two out-edges change places. */
    method SwapEdges(b: BlockId)
      requires Linked(graph) && IsOut(graph, b, 1)
      modifies this`graph
      ensures OutLinked(old(graph), b, 0) && OutLinked(old(graph), b, 1) && graph == SwapOuts(old(graph), b) && Linked(graph)
      ensures graph.outofthis[b][0].point == old(graph).outofthis[b][1].point && graph.outofthis[b][1].point == old(graph).outofthis[b][0].point
      ensures forall x, y :: Cnt(graph, x, y) == Cnt(old(graph), x, y)
    {
      forall x: nat, y: nat { SwapOutsCounts(graph, b, x, y); }
      hide Cnt;
      SwapOutsKeeps(graph, b);
      hide Linked;
      var outs := graph.outofthis[b];
      graph := graph.(outofthis := graph.outofthis[b := outs[0 := outs[1]][1 := outs[0]]]);
      var first := graph.outofthis[b][0];
      TellSlot(first.point, first.reverseIndex, 0);
      var second := graph.outofthis[b][1];
      TellSlot(second.point, second.reverseIndex, 1);
    }

    method TellSlot(b: BlockId, slot: nat, reverseIndex: nat)
      requires IsIn(graph, b, slot)
      modifies this`graph
      ensures graph == old(graph).(intothis := SetReverse(old(graph).intothis, b, slot, reverseIndex))
    {
      var told := graph.intothis[b][slot].(reverseIndex := reverseIndex);
      graph := graph.(intothis := graph.intothis[b := graph.intothis[b][slot := told]]);
    }

    // ----- Parallel edges

    /** Edges from `dup` into `b` become one, which takes all their labels at `b`'s end. */
    method EliminateInDups(b: BlockId, dup: BlockId)
      requires Linked(graph) && b < |graph.intothis|
      modifies this`graph
      ensures Linked(graph) && |graph.outofthis| == |old(graph).outofthis|
      ensures SameElse(old(graph), graph, dup, b) && Cnt(graph, dup, b) <= 1 && MergesInto(old(graph), graph, dup, b)
      ensures OrderKept(old(graph), graph, dup, b) && InPoints(graph, b) == FirstOnly(old(InPoints(graph, b)), dup)
    {
      hide SameElse, Linked, MergesInto, Or, OrderKept, Sifted, FirstOnly, RemoveIn;
      ghost var g0 := graph;
      SameElseSelf(graph, dup, b);
      MergesSelf(graph, dup, b);
      OrderSelf(graph, dup, b);
      SiftStarts(InPoints(graph, b), dup);
      ghost var i: nat := 0;
      var indval, slot := -1, 0;
      while slot < |graph.intothis[b]|
        invariant Linked(graph) && |graph.outofthis| == |g0.outofthis| && b < |graph.intothis| && 0 <= slot
        invariant OnceBefore(graph.intothis[b], slot, dup, indval) && SameElse(g0, graph, dup, b) && MergesInto(g0, graph, dup, b)
        invariant OrderKept(g0, graph, dup, b) && Sifted(InPoints(g0, b), i, InPoints(graph, b), slot, dup)
        decreases |graph.intothis[b]| - slot
      {
        OnceMeans(graph.intothis[b], slot, dup, indval);
        if graph.intothis[b][slot].point != dup {
          SiftKeeps(InPoints(g0, b), i, InPoints(graph, b), slot, dup);
          slot := slot + 1;
        } else if indval == -1 {
          SiftKeeps(InPoints(g0, b), i, InPoints(graph, b), slot, dup);
          indval, slot := slot, slot + 1;
        } else {
          ghost var g := graph;
          MergeOnce(graph, b, indval, slot, dup);
          SiftDrops(InPoints(g0, b), i, InPoints(graph, b), slot, dup);
          var bits := Or(graph.intothis[b][indval].bits, graph.intothis[b][slot].bits);
          MergeOrder(graph, b, indval, slot, dup, bits);
          MergeLabelIn(b, indval, bits, g0, dup);
          DropSecondIn(g0, graph, b, slot, dup, indval);
          RemoveInSizes(graph, b, slot);
          RemoveInEdge(b, slot);
          MergesTrans(g0, g, graph, dup, b);
          OrderTrans(g0, g, graph, dup, b);
        }
        i := i + 1;
      }
      SiftEnds(InPoints(g0, b), i, InPoints(graph, b), dup);
      OnceInIsSingle(graph, b, dup, indval);
    }

    method MergeLabelIn(b: BlockId, k: nat, bits: EdgeLabel, ghost g0: Graph, ghost dup: BlockId)
      requires Linked(graph) && IsIn(graph, b, k) && SameElse(g0, graph, dup, b)
      modifies this`graph
      ensures Linked(graph) && SameElse(g0, graph, dup, b)
      ensures graph == LabelIn(old(graph), b, k, bits)
    {
      LabelInLinked(graph, b, k, bits);
      hide Linked;
      graph := graph.(intothis := graph.intothis[b := graph.intothis[b][k := graph.intothis[b][k].(bits := bits)]]);
      assert forall x, y :: Cnt(graph, x, y) == Cnt(old(graph), x, y);
    }

    method EliminateOutDups(b: BlockId, dup: BlockId)
      requires Linked(graph) && b < |graph.outofthis|
      modifies this`graph
      ensures Linked(graph) && |graph.outofthis| == |old(graph).outofthis|
      ensures SameElse(old(graph), graph, b, dup) && Cnt(graph, b, dup) <= 1 && MergesFrom(old(graph), graph, b, dup)
      ensures OrderKept(old(graph), graph, b, dup) && OutPoints(graph, b) == FirstOnly(old(OutPoints(graph, b)), dup)
    {
      hide SameElse, Linked, MergesFrom, Or, OrderKept, Sifted, FirstOnly, RemoveOut;
      ghost var g0 := graph;
      SameElseSelf(graph, b, dup);
      MergesSelf(graph, b, dup);
      OrderSelf(graph, b, dup);
      SiftStarts(OutPoints(graph, b), dup);
      ghost var i: nat := 0;
      var indval, slot := -1, 0;
      while slot < |graph.outofthis[b]|
        invariant Linked(graph) && |graph.outofthis| == |g0.outofthis| && b < |graph.outofthis| && 0 <= slot
        invariant OnceBefore(graph.outofthis[b], slot, dup, indval) && SameElse(g0, graph, b, dup) && MergesFrom(g0, graph, b, dup)
        invariant OrderKept(g0, graph, b, dup) && Sifted(OutPoints(g0, b), i, OutPoints(graph, b), slot, dup)
        decreases |graph.outofthis[b]| - slot
      {
        OnceMeans(graph.outofthis[b], slot, dup, indval);
        if graph.outofthis[b][slot].point != dup {
          SiftKeeps(OutPoints(g0, b), i, OutPoints(graph, b), slot, dup);
          slot := slot + 1;
        } else if indval == -1 {
          SiftKeeps(OutPoints(g0, b), i, OutPoints(graph, b), slot, dup);
          indval, slot := slot, slot + 1;
        } else {
          ghost var g := graph;
          MergeOnceOut(graph, b, indval, slot, dup);
          SiftDrops(OutPoints(g0, b), i, OutPoints(graph, b), slot, dup);
          var bits := Or(graph.outofthis[b][indval].bits, graph.outofthis[b][slot].bits);
          MergeOutOrder(graph, b, indval, slot, dup, bits);
          MergeLabelOut(b, indval, bits, g0, dup);
          DropSecondOut(g0, graph, b, slot, dup, indval);
          RemoveOutSizes(graph, b, slot);
          RemoveOutEdge(b, slot);
          MergesFromTrans(g0, g, graph, b, dup);
          OrderTrans(g0, g, graph, b, dup);
        }
        i := i + 1;
      }
      SiftEnds(OutPoints(g0, b), i, OutPoints(graph, b), dup);
      OnceIsSingle(graph.outofthis[b], dup, indval);
    }

    method MergeLabelOut(b: BlockId, k: nat, bits: EdgeLabel, ghost g0: Graph, ghost dup: BlockId)
      requires Linked(graph) && IsOut(graph, b, k) && SameElse(g0, graph, b, dup)
      modifies this`graph
      ensures Linked(graph) && SameElse(g0, graph, b, dup)
      ensures graph == LabelOut(old(graph), b, k, bits)
    {
      LabelOutLinked(graph, b, k, bits);
      hide Linked;
      graph := graph.(outofthis := graph.outofthis[b := graph.outofthis[b][k := graph.outofthis[b][k].(bits := bits)]]);
    }

    /** No block is marked. */
    ghost predicate Clean()
      reads this
    {
      && |mark| == |mark2| == |graph.outofthis|
      && (forall b :: 0 <= b < |mark| ==> !mark[b] && !mark2[b])
    }

    /** The blocks that more than one of the edges name, by two rounds of marks. */
    method FindDups(edges: seq<BlockEdge>) returns (duplist: seq<BlockId>)
      requires Clean() && forall k :: 0 <= k < |edges| ==> edges[k].point < |mark|
      modifies this`mark, this`mark2
      ensures Clean() && forall b :: b in duplist <==> Count(edges, b) >= 2
    {
      duplist := [];
      var i := 0;
      while i < |edges|
        invariant 0 <= i <= |edges| && |mark| == |mark2| == |graph.outofthis|
        invariant forall b :: 0 <= b < |mark| ==> (mark[b] <==> Count(edges[..i], b) >= 1) && (mark2[b] <==> Count(edges[..i], b) >= 2)
        invariant forall b :: b in duplist <==> Count(edges[..i], b) >= 2
      {
        var point := edges[i].point;
        assert edges[..i + 1] == edges[..i] + [edges[i]];
        forall b: nat ensures Count(edges[..i + 1], b) == Count(edges[..i], b) + One(point == b) { CountAppend(edges[..i], edges[i], b); }
        if !mark2[point] {
          if mark[point] {
            duplist := duplist + [point];
            mark2 := mark2[point := true];
          } else {
            mark := mark[point := true];
          }
        }
        i := i + 1;
      }
      assert edges[..i] == edges;
      Unmark(edges);
    }

    method Unmark(edges: seq<BlockEdge>)
      requires |mark| == |mark2| == |graph.outofthis| && forall k :: 0 <= k < |edges| ==> edges[k].point < |mark|
      requires forall b :: 0 <= b < |mark| ==> (mark[b] || mark2[b] ==> Count(edges, b) >= 1)
      modifies this`mark, this`mark2
      ensures Clean()
    {
      var i := 0;
      while i < |edges|
        invariant 0 <= i <= |edges| && |mark| == |mark2| == |graph.outofthis|
        invariant forall k :: 0 <= k < i ==> !mark[edges[k].point] && !mark2[edges[k].point]
        invariant forall b :: 0 <= b < |mark| ==> (mark[b] || mark2[b] ==> Count(edges, b) >= 1)
      {
        mark, mark2 := mark[edges[i].point := false], mark2[edges[i].point := false];
        i := i + 1;
      }
      forall b | 0 <= b < |mark| ensures !mark[b] && !mark2[b] { CountPositive(edges, b); }
    }

    /** Parallel edges into a block become one. */
    method DedupIns(b: BlockId)
      requires Linked(graph) && b < |graph.intothis| && Clean()
      modifies this`graph, this`mark, this`mark2
      ensures Linked(graph) && Clean() && |graph.outofthis| == |old(graph).outofthis| && MergedInto(old(graph), graph, b)
      ensures LabelsInto(old(graph), graph, b)
    {
      ghost var g0 := graph;
      var duplist := InDups(b);
      hide Linked, SameElse, MergingInto, LabelsInto, MergesInto;
      LabelsSelf(graph, b);
      StartMergingInto(graph, b, duplist);
      var i := 0;
      while i < |duplist|
        invariant 0 <= i <= |duplist| && Linked(graph) && Clean() && |graph.outofthis| == |g0.outofthis| && b < |graph.intothis|
        invariant MergingInto(g0, graph, b, duplist[i..]) && LabelsInto(g0, graph, b)
      {
        ghost var g1 := graph;
        EliminateInDups(b, duplist[i]);
        MergeOneInto(g0, g1, graph, b, duplist[i..]);
        OneMoreInto(g0, g1, graph, duplist[i], b);
        assert duplist[i..][1..] == duplist[i + 1..];
        LinkedSizes(graph);
        i := i + 1;
      }
      MergingEndsInto(g0, graph, b);
    }

    method InDups(b: BlockId) returns (duplist: seq<BlockId>)
      requires Linked(graph) && b < |graph.intothis| && Clean()
      modifies this`mark, this`mark2
      ensures Clean() && forall x :: x in duplist <==> Count(graph.intothis[b], x) >= 2
    {
      forall k | 0 <= k < |graph.intothis[b]| ensures graph.intothis[b][k].point < |mark| { assert IsIn(graph, b, k) && InLinked(graph, b, k); }
      duplist := FindDups(graph.intothis[b]);
    }

    method OutDups(b: BlockId) returns (duplist: seq<BlockId>)
      requires Linked(graph) && b < |graph.outofthis| && Clean()
      modifies this`mark, this`mark2
      ensures Clean() && forall x :: x in duplist <==> Count(graph.outofthis[b], x) >= 2
    {
      forall k | 0 <= k < |graph.outofthis[b]| ensures graph.outofthis[b][k].point < |mark| { assert IsOut(graph, b, k) && OutLinked(graph, b, k); }
      duplist := FindDups(graph.outofthis[b]);
    }

    /** Parallel edges out of a block become one. */
    method DedupOuts(b: BlockId)
      requires Linked(graph) && b < |graph.outofthis| && Clean()
      modifies this`graph, this`mark, this`mark2
      ensures Linked(graph) && Clean() && |graph.outofthis| == |old(graph).outofthis| && MergedFrom(old(graph), graph, b)
      ensures LabelsFrom(old(graph), graph, b)
    {
      ghost var g0 := graph;
      var duplist := OutDups(b);
      assert MergingFrom(g0, graph, b, duplist) && forall y :: y in duplist ==> Cnt(g0, b, y) >= 2;
      hide Linked, SameElse, MergingFrom, LabelsFrom, MergesFrom;
      LabelsSelf(graph, b);
      var i := 0;
      while i < |duplist|
        invariant 0 <= i <= |duplist| && Linked(graph) && Clean() && |graph.outofthis| == |g0.outofthis|
        invariant MergingFrom(g0, graph, b, duplist[i..]) && LabelsFrom(g0, graph, b)
      {
        ghost var g1 := graph;
        EliminateOutDups(b, duplist[i]);
        MergeOneFrom(g0, g1, graph, b, duplist[i..]);
        OneMoreFrom(g0, g1, graph, b, duplist[i]);
        assert duplist[i..][1..] == duplist[i + 1..];
        i := i + 1;
      }
      MergingEndsFrom(g0, graph, b);
    }

    /** Parallel edges at a block become one in each direction; nothing else changes. */
    method Dedup(b: BlockId)
      requires Linked(graph) && b < |graph.outofthis| && Clean()
      modifies this`graph, this`mark, this`mark2
      ensures Linked(graph) && Clean() && |graph.outofthis| == |old(graph).outofthis| && Merged(old(graph), graph, b)
      ensures LabelsMerged(old(graph), graph, b)
    {
      LinkedSizes(graph);
      hide Linked, MergedFrom, LabelsInto, LabelsFrom, LabelsMerged;
      DedupIns(b);
      ghost var g1 := graph;
      assert Cnt(g1, b, b) <= 1;
      DedupOuts(b);
      BothMerged(old(graph), g1, graph, b);
      BothLabels(old(graph), g1, graph, b);
    }

    // ----- Collapsing

    /** Every edge from `other` to the member `mybl` is redirected to the new block. */
    method RedirectOuts(other: BlockId, mybl: BlockId, ident: BlockId, ghost g0: Graph, ghost members: set<BlockId>, ghost slot: nat)
      requires Moving(g0, graph, members, ident) && Outsider(members, ident, other) && mybl in members && ident !in members
      requires ident < |graph.intothis| && other < |graph.outofthis| && mybl < |graph.intothis|
      requires NamesMembers(graph.intothis[mybl], slot, members) && Cnt(graph, other, mybl) > 0
      modifies this`graph
      ensures Moving(g0, graph, members, ident) && FewerCross(old(graph), graph, members, ident)
      ensures |graph.intothis| == |old(graph).intothis| && mybl < |graph.intothis| && |graph.intothis[mybl]| < |old(graph).intothis[mybl]|
      ensures NamesMembers(graph.intothis[mybl], slot, members)
    {
      hide Moving, FewerCross, PointsBut, PointsDropped, NamesMembers;
      FewerSelf(graph, members, ident);
      MovingSizes(g0, graph, members, ident);
      var edgeslot := 0;
      while edgeslot < |graph.outofthis[other]|
        invariant Moving(g0, graph, members, ident) && FewerCross(old(graph), graph, members, ident)
        invariant |graph.intothis| == |graph.outofthis| == |old(graph).intothis|
        invariant 0 <= edgeslot && NoneBefore(graph.outofthis[other], edgeslot, mybl) && NamesMembers(graph.intothis[mybl], slot, members)
        invariant |graph.intothis[mybl]| - Cnt(graph, other, mybl) == |old(graph).intothis[mybl]| - Cnt(old(graph), other, mybl)
        decreases |graph.outofthis[other]| - edgeslot
      {
        if graph.outofthis[other][edgeslot].point == mybl {
          ghost var g := graph;
          RedirectOut(g0, graph, members, ident, other, edgeslot, mybl);
          RedirectKeeps(g0, graph, members, ident, other, edgeslot, mybl, slot);
          MovingSizes(g0, graph, members, ident);
          ReplaceOutEdge(other, edgeslot, ident);
          FewerTrans(old(graph), g, graph, members, ident);
          MovingSizes(g0, graph, members, ident);
        }
        edgeslot := edgeslot + 1;
      }
      NoneIsZero(graph.outofthis[other], mybl);
    }

    /** Every edge from the member `mybl` to `other` comes from the new block instead. */
    method RedirectIns(other: BlockId, mybl: BlockId, ident: BlockId, ghost g0: Graph, ghost members: set<BlockId>, ghost slot: nat)
      requires Moving(g0, graph, members, ident) && Outsider(members, ident, other) && mybl in members && ident !in members
      requires ident < |graph.outofthis| && other < |graph.intothis| && mybl < |graph.outofthis|
      requires NamesMembers(graph.outofthis[mybl], slot, members) && Cnt(graph, mybl, other) > 0
      modifies this`graph
      ensures Moving(g0, graph, members, ident) && FewerCross(old(graph), graph, members, ident)
      ensures |graph.outofthis| == |old(graph).outofthis| && mybl < |graph.outofthis| && |graph.outofthis[mybl]| < |old(graph).outofthis[mybl]|
      ensures NamesMembers(graph.outofthis[mybl], slot, members)
    {
      hide Moving, FewerCross, PointsBut, PointsDropped, NamesMembers;
      FewerSelf(graph, members, ident);
      MovingSizes(g0, graph, members, ident);
      var edgeslot := 0;
      while edgeslot < |graph.intothis[other]|
        invariant Moving(g0, graph, members, ident) && FewerCross(old(graph), graph, members, ident)
        invariant |graph.intothis| == |graph.outofthis| == |old(graph).outofthis|
        invariant 0 <= edgeslot && NoneBefore(graph.intothis[other], edgeslot, mybl) && NamesMembers(graph.outofthis[mybl], slot, members)
        invariant |graph.outofthis[mybl]| - Cnt(graph, mybl, other) == |old(graph).outofthis[mybl]| - Cnt(old(graph), mybl, other)
        decreases |graph.intothis[other]| - edgeslot
      {
        if graph.intothis[other][edgeslot].point == mybl {
          ghost var g := graph;
          RedirectIn(g0, graph, members, ident, other, edgeslot, mybl);
          RedirectInKeeps(g0, graph, members, ident, other, edgeslot, mybl, slot);
          MovingSizes(g0, graph, members, ident);
          ReplaceInEdge(other, edgeslot, ident);
          FewerTrans(old(graph), g, graph, members, ident);
          MovingSizes(g0, graph, members, ident);
        }
        edgeslot := edgeslot + 1;
      }
      NoneInIsZero(g0, graph, members, ident, other, mybl);
    }

    /** The children of the new block are its members. */
    ghost predicate Parented(ident: BlockId, members: set<BlockId>)
      reads this
    {
      && |parent| == |graph.outofthis| && ident < |parent| && ident !in members
      && forall b :: 0 <= b < |parent| ==> (parent[b] == Some(ident) <==> b in members)
    }

    /** Every edge from an outsider to one member moves to the new block. */
    method PullIns(mybl: BlockId, ident: BlockId, ghost g0: Graph, ghost members: set<BlockId>)
      requires Moving(g0, graph, members, ident) && mybl in members && mybl < |graph.intothis| && Parented(ident, members)
      modifies this`graph
      ensures Moving(g0, graph, members, ident) && FewerCross(old(graph), graph, members, ident)
      ensures NoneCrossIn(graph, members, ident, mybl)
    {
      hide Moving, FewerCross, NamesMembers;
      FewerSelf(graph, members, ident);
      MovingSizes(g0, graph, members, ident);
      NamesNone(graph.intothis[mybl], members);
      var slot := 0;
      while slot < |graph.intothis[mybl]|
        invariant Moving(g0, graph, members, ident) && FewerCross(old(graph), graph, members, ident)
        invariant |graph.intothis| == |graph.outofthis| == |old(graph).outofthis| && 0 <= slot
        invariant NamesMembers(graph.intothis[mybl], slot, members) && slot <= |graph.intothis[mybl]|
        decreases |graph.intothis[mybl]| - slot
      {
        var otherbl := graph.intothis[mybl][slot].point;
        InPointInRange(g0, graph, members, ident, mybl, slot);
        if parent[otherbl] == Some(ident) {
          NamesNext(graph.intothis[mybl], slot, members);
          slot := slot + 1;
        } else {
          ghost var g := graph;
          SourceIsOutsider(g0, graph, members, ident, mybl, slot);
          RedirectOuts(otherbl, mybl, ident, g0, members, slot);
          FewerTrans(old(graph), g, graph, members, ident);
          MovingSizes(g0, graph, members, ident);
          NamesFit(graph.intothis[mybl], slot, members);
        }
      }
      MovingSizes(g0, graph, members, ident);
      InsAreInside(graph, members, ident, mybl);
    }

    /** Every edge from one member to an outsider moves to the new block. */
    method PullOuts(mybl: BlockId, ident: BlockId, ghost g0: Graph, ghost members: set<BlockId>)
      requires Moving(g0, graph, members, ident) && mybl in members && mybl < |graph.outofthis| && Parented(ident, members)
      modifies this`graph
      ensures Moving(g0, graph, members, ident) && FewerCross(old(graph), graph, members, ident)
      ensures NoneCrossOut(graph, members, ident, mybl)
    {
      hide Moving, FewerCross, NamesMembers;
      FewerSelf(graph, members, ident);
      MovingSizes(g0, graph, members, ident);
      NamesNone(graph.outofthis[mybl], members);
      var slot := 0;
      while slot < |graph.outofthis[mybl]|
        invariant Moving(g0, graph, members, ident) && FewerCross(old(graph), graph, members, ident)
        invariant |graph.intothis| == |graph.outofthis| == |old(graph).outofthis| && 0 <= slot
        invariant NamesMembers(graph.outofthis[mybl], slot, members) && slot <= |graph.outofthis[mybl]|
        decreases |graph.outofthis[mybl]| - slot
      {
        var otherbl := graph.outofthis[mybl][slot].point;
        OutPointInRange(g0, graph, members, ident, mybl, slot);
        if parent[otherbl] == Some(ident) {
          NamesNext(graph.outofthis[mybl], slot, members);
          slot := slot + 1;
        } else {
          ghost var g := graph;
          TargetIsOutsider(g0, graph, members, ident, mybl, slot);
          RedirectIns(otherbl, mybl, ident, g0, members, slot);
          FewerTrans(old(graph), g, graph, members, ident);
          MovingSizes(g0, graph, members, ident);
          NamesFit(graph.outofthis[mybl], slot, members);
        }
      }
      OutsAreInside(graph, members, ident, mybl);
    }

    /** Nothing crosses the boundary at the first `count` children. */
    ghost predicate Pulled(list: seq<BlockId>, count: nat, ident: BlockId, members: set<BlockId>)
      reads this
    {
      count <= |list| && forall j :: 0 <= j < count ==>
        NoneCrossIn(graph, members, ident, list[j]) && NoneCrossOut(graph, members, ident, list[j])
    }

    /** Both directions of one child. */
    method PullMember(list: seq<BlockId>, i: nat, ident: BlockId, ghost g0: Graph, ghost members: set<BlockId>)
      requires Moving(g0, graph, members, ident) && Parented(ident, members) && i < |list| && list[i] < |graph.outofthis|
      requires Pulled(list, i, ident, members) && forall j :: 0 <= j < |list| ==> list[j] in members
      modifies this`graph
      ensures Moving(g0, graph, members, ident) && |graph.outofthis| == |old(graph).outofthis| && Pulled(list, i + 1, ident, members)
    {
      hide Moving, FewerCross, NoneCrossIn, NoneCrossOut;
      MovingSizes(g0, graph, members, ident);
      ghost var g1 := graph;
      PullIns(list[i], ident, g0, members);
      MovingSizes(g0, graph, members, ident);
      ghost var g2 := graph;
      PullOuts(list[i], ident, g0, members);
      MovingSizes(g0, graph, members, ident);
      FewerTrans(g1, g2, graph, members, ident);
      StillNoneIn(g2, graph, members, ident, list[i]);
      forall j | 0 <= j < i ensures NoneCrossIn(graph, members, ident, list[j]) && NoneCrossOut(graph, members, ident, list[j]) {
        StillNone(g1, graph, members, ident, list[j]);
      }
    }

    /** Edges that cross the boundary of the new block's children become its own. */
    method SelfIdentify(ident: BlockId, ghost members: set<BlockId>)
      requires Linked(graph) && Clean() && ident < |graph.outofthis| && graph.outofthis[ident] == [] && graph.intothis[ident] == []
      requires |children| == |graph.outofthis| && Parented(ident, members) && Lists(children[ident], members)
      requires forall k :: 0 <= k < |children[ident]| ==> children[ident][k] < |graph.outofthis|
      modifies this`graph, this`mark, this`mark2
      ensures IsQuotient(old(graph), graph, members, ident) && Clean() && |graph.outofthis| == |old(graph).outofthis|
    {
      ghost var g0 := graph;
      hide Moving, IsQuotient, Linked, Merged, NoneCrossIn, NoneCrossOut, LabelsMerged;
      StartMoving(graph, members, ident);
      var list, i := children[ident], 0;
      while i < |list|
        invariant 0 <= i <= |list| && Moving(g0, graph, members, ident) && |graph.outofthis| == |g0.outofthis|
        invariant Clean() && Pulled(list, i, ident, members)
      {
        PullMember(list, i, ident, g0, members);
        i := i + 1;
      }
      ghost var g3 := graph;
      MovingSizes(g0, graph, members, ident);
      assert forall m :: m in members ==> NoneCrossIn(g3, members, ident, m) && NoneCrossOut(g3, members, ident, m);
      Dedup(ident);
      MergedIsQuotient(g0, g3, graph, members, ident);
    }

    /** A block joins the children of the new block. */
    method AddBlock(ident: BlockId, node: BlockId)
      requires ident < |children| == |parent| == |leafCount| && node < |parent|
      modifies this`parent, this`children, this`leafCount
      ensures parent == old(parent)[node := Some(ident)] && children == old(children)[ident := old(children)[ident] + [node]]
      ensures leafCount == old(leafCount)[ident := old(leafCount)[ident] + old(leafCount)[node]]
    {
      parent := parent[node := Some(ident)];
      children := children[ident := children[ident] + [node]];
      leafCount := leafCount[ident := leafCount[ident] + leafCount[node]];
    }

    /** The nodes are marked and become the children of the new block. */
    method Adopt(ident: BlockId, nodes: seq<BlockId>)
      requires |mark| == |children| == |parent| == |leafCount| && ident < |children| && ident !in nodes && children[ident] == []
      requires forall k :: 0 <= k < |nodes| ==> nodes[k] < |children|
      modifies this`mark, this`parent, this`children, this`leafCount
      ensures |mark| == |old(mark)| && |parent| == |old(parent)| && children == old(children)[ident := nodes]
      ensures forall b :: 0 <= b < |mark| ==> mark[b] == (old(mark)[b] || b in nodes)
      ensures forall b :: 0 <= b < |parent| ==> parent[b] == if b in nodes then Some(ident) else old(parent)[b]
      ensures leafCount == old(leafCount)[ident := old(leafCount)[ident] + Leaves(old(leafCount), nodes)]
    {
      var i := 0;
      assert nodes[..0] == [];
      while i < |nodes|
        invariant 0 <= i <= |nodes| && |mark| == |old(mark)| && |parent| == |old(parent)|
        invariant children == old(children)[ident := nodes[..i]]
        invariant forall b :: 0 <= b < |mark| ==> mark[b] == (old(mark)[b] || b in nodes[..i])
        invariant forall b :: 0 <= b < |parent| ==> parent[b] == if b in nodes[..i] then Some(ident) else old(parent)[b]
        invariant leafCount == old(leafCount)[ident := old(leafCount)[ident] + Leaves(old(leafCount), nodes[..i])]
      {
        assert nodes[..i + 1] == nodes[..i] + [nodes[i]] && nodes[..i + 1][..i] == nodes[..i];
        assert nodes[i] in nodes;
        mark := mark[nodes[i] := true];
        AddBlock(ident, nodes[i]);
        i := i + 1;
      }
      assert nodes[..i] == nodes;
    }

    /** The marked blocks leave the list of a graph, and lose their marks. */
    method RemoveMarked(graphBlock: BlockId)
      requires graphBlock < |children| && NoRepeats(children[graphBlock])
      requires forall k :: 0 <= k < |children[graphBlock]| ==> children[graphBlock][k] < |mark|
      modifies this`mark, this`children
      ensures children == old(children)[graphBlock := Unmarked(old(mark), old(children)[graphBlock])] && |mark| == |old(mark)|
      ensures forall b :: 0 <= b < |mark| ==> mark[b] == (old(mark)[b] && b !in old(children)[graphBlock])
    {
      var list, newlist, i := children[graphBlock], [], 0;
      ghost var marked := mark;
      while i < |list|
        invariant 0 <= i <= |list| && |mark| == |marked| && newlist == Unmarked(marked, list[..i]) && children == old(children)
        invariant forall b :: 0 <= b < |mark| ==> mark[b] == (marked[b] && b !in list[..i])
      {
        assert list[..i + 1] == list[..i] + [list[i]] && list[..i + 1][..i] == list[..i];
        assert list[i] !in list[..i];
        if !mark[list[i]] {
          newlist := newlist + [list[i]];
        } else {
          mark := mark[list[i] := false];
        }
        i := i + 1;
      }
      assert list[..i] == list;
      children := children[graphBlock := newlist];
    }

    /** The nodes of a graph collapse into a new block: its edges are those of the quotient, it takes
        the nodes' place in the hierarchy, and it counts their leaves. */
    method IdentifyInternal(graphBlock: BlockId, ident: BlockId, nodes: seq<BlockId>)
      requires Linked(graph) && Clean() && |children| == |parent| == |leafCount| == |graph.outofthis|
      requires ident < |children| && graphBlock < |children| && ident != graphBlock && ident !in nodes
      requires graph.outofthis[ident] == [] && graph.intothis[ident] == [] && children[ident] == []
      requires forall b :: 0 <= b < |parent| ==> parent[b] != Some(ident)
      requires NoRepeats(children[graphBlock]) && forall b :: b in children[graphBlock] ==> b < |children|
      requires forall k :: 0 <= k < |nodes| ==> nodes[k] in children[graphBlock]
      modifies this
      ensures Collapsed(old(graph), graph, nodes, ident) && Clean()
      ensures |children| == |old(children)| && children[ident] == nodes
      ensures forall b :: b in children[graphBlock] <==> b in old(children)[graphBlock] && b !in nodes
      ensures children[graphBlock] == Others(old(children)[graphBlock], SetOf(nodes))
      ensures forall b :: 0 <= b < |children| && b != ident && b != graphBlock ==> children[b] == old(children)[b]
      ensures |parent| == |old(parent)|
      ensures forall b :: 0 <= b < |parent| ==> parent[b] == if b in nodes then Some(ident) else old(parent)[b]
      ensures forall k :: 0 <= k < |nodes| ==> nodes[k] < |old(leafCount)|
      ensures leafCount == old(leafCount)[ident := old(leafCount)[ident] + Leaves(old(leafCount), nodes)]
    {
      hide Linked, IsQuotient;
      TakeOver(graphBlock, ident, nodes);
      SelfIdentify(ident, SetOf(nodes));
    }

    /** The nodes leave their graph's list and become children of the new block. */
    method TakeOver(graphBlock: BlockId, ident: BlockId, nodes: seq<BlockId>)
      requires Clean() && |children| == |parent| == |leafCount| == |graph.outofthis|
      requires ident < |children| && graphBlock < |children| && ident != graphBlock && ident !in nodes && children[ident] == []
      requires forall b :: 0 <= b < |parent| ==> parent[b] != Some(ident)
      requires NoRepeats(children[graphBlock]) && forall b :: b in children[graphBlock] ==> b < |children|
      requires forall k :: 0 <= k < |nodes| ==> nodes[k] in children[graphBlock]
      modifies this`mark, this`parent, this`children, this`leafCount
      ensures Clean() && Parented(ident, SetOf(nodes)) && |children| == |old(children)| && children[ident] == nodes
      ensures forall b :: b in children[graphBlock] <==> b in old(children)[graphBlock] && b !in nodes
      ensures children[graphBlock] == Others(old(children)[graphBlock], SetOf(nodes))
      ensures forall b :: 0 <= b < |children| && b != ident && b != graphBlock ==> children[b] == old(children)[b]
      ensures |parent| == |old(parent)|
      ensures forall b :: 0 <= b < |parent| ==> parent[b] == if b in nodes then Some(ident) else old(parent)[b]
      ensures forall k :: 0 <= k < |nodes| ==> nodes[k] < |old(leafCount)|
      ensures leafCount == old(leafCount)[ident := old(leafCount)[ident] + Leaves(old(leafCount), nodes)]
    {
      Adopt(ident, nodes);
      ghost var marked := mark;
      assert forall k :: 0 <= k < |children[graphBlock]| ==> children[graphBlock][k] in old(children)[graphBlock];
      RemoveMarked(graphBlock);
      UnmarkedAre(marked, old(children)[graphBlock]);
      UnmarkedIsOthers(marked, old(children)[graphBlock], SetOf(nodes));
    }
  }
}
