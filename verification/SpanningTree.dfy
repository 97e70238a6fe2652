/** The spanning-tree pass over a block graph: an explicit-stack depth-first search that
    numbers the blocks, classifies every edge and reorders the block list. */
module SpanningTree {
  import opened FlowGraph
  import opened LoopDag
  import opened EdgeLabels
  import opened DominatorTheory
  import opened SpanningTheory
  import opened SpanningSearch
  import opened SpanningRoots
  import opened RootLists
  import opened SpanningFacts
  import opened SpanningSteps
  import opened Reducibility
  import opened IrreducibleSteps
  import opened ReducibleGraph
  import Dominators
  import opened TraceLedger
  import BadEdges

  /** A finished spanning-tree pass leaves a complete search. */
  lemma AgreesFull(w: World, n: nat, base: Graph, s: Search, g: Graph, a: Numbers, v: Stacks)
    requires Agrees(w, n, base, s, g, a, v) && v.state == [] && |v.preorder| == n && Separate(g, w.blocks)
    ensures FullSearch(Spanning(w, n, s, g, a)) && |s.order| == |v.preorder| && s.order == v.preorder
    ensures |a.visitcount| == |s.visit| == |g.outofthis|
  {
    AgreesFound(w, n, base, s, g, a, v);
    hide DfsInv, Entered, PostMatches, Closed, Found, Separate, StackMatches, NumbersMatch, OutputMatches;
    var t := Spanning(w, n, s, g, a);
    forall b, k | b in w.blocks && b < |g.outofthis| && 0 <= k < |g.outofthis[b]| ensures !g.outofthis[b][k].bits.irreducible {
      Positions(w, n, s, g, a, b);
      assert SlotLabelled(base, g, s, s.visit[b], k);
    }
  }

  /** The tree roots reach every block. */
  lemma RootsReach(t: Spanning, g: Graph, irr: set<Edge>)
    requires FullSearch(t) && LabelsAre(t, g, irr)
    ensures Reaches(World(Points(g), t.w.blocks), RootSetOf(t.s))
  {
    SearchHere(t);
    SameEdgesPoints(t.g, g);
    CompleteReaches(t.w, t.n, t.s, RootSetOf(t.s));
  }

  /** What the finder leaves. */
  lemma FinderEnds(t: Spanning, g: Graph, irr: set<Edge>, l: Loops, copymap: seq<BlockId>, mark: seq<bool>)
    requires Current(t, g, irr, l, -1, copymap) && QueueIs(t, [], mark, {})
    ensures Reducible(g, t.w.blocks, RootSetOf(t.s)) && OnlyIrreducible(t.g, g) && LabelsSettled(g, t.w.blocks, t.a)
    ensures irr == {} <==> Reducible(t.g, t.w.blocks, RootSetOf(t.s))
    ensures Reaches(World(Points(g), t.w.blocks), RootSetOf(t.s)) && TreesEntered(g, t.w.blocks, t.a.index, RootSetOf(t.s))
    ensures |mark| == |t.s.visit| && |g.outofthis| == |t.g.outofthis| && |copymap| == |t.s.visit|
    ensures Paired(g) && Separate(g, t.w.blocks)
    ensures forall b :: b in t.w.blocks && b < |mark| ==> !mark[b]
    ensures forall b, k :: b in t.w.blocks && b < |g.outofthis| && 0 <= k < |g.outofthis[b]| ==>
              (g.outofthis[b][k].bits.irreducible <==> Edge(b, k) in irr)
  {
    CurrentComplete(t, g, irr, l, -1, copymap);
    GraphIsReducible(t, g, irr, l, copymap);
    LabelsBecome(t, g, irr);
    SeparateSame(t.g, g, t.w.blocks);
    LabelledIffIrreducible(t, g, irr, l, copymap);
    SettledInTheEnd(t, g, irr);
    RootsReach(t, g, irr);
    TreesEnteredInTheEnd(t, g, irr);
    hide TreesEntered, Bypassed, LabelsSettled, Reaches, LoopsInv, CopiesAre, FullSearch, LabelsAre, OnlyIrreducible, Reducible;
    forall b, k | b in t.w.blocks && b < |g.outofthis| && 0 <= k < |g.outofthis[b]|
      ensures g.outofthis[b][k].bits.irreducible <==> Edge(b, k) in irr
    {
      NotIrreducible(t, g, irr, b, k);
    }
  }

  /** The first block stays in the root list although it is no tree root: every block has in-edges, and
      some block leads to the first one and not back. */
  ghost predicate RootGoesStale(g: Graph, list: seq<BlockId>)
  {
    && list != [] && (forall k :: 0 <= k < |list| ==> list[k] < |g.intothis|) && NoInEdges(g, list) == []
    && EnteredFromOutside(World(Points(g), set k | 0 <= k < |list| :: list[k]), list[0])
  }

  /** After the passes: the entry ends the list of roots, and the last tree is its own exactly when no root
      is left over. */
  ghost predicate RootsFound(g: Graph, list: seq<BlockId>, s: Search, roots: seq<BlockId>) {
    && roots != [] && IsEntry(g, list, roots[|roots| - 1])
    && (TreesAlone(roots, s) <==> !RootGoesStale(g, list))
    && (EndsWith(TreeRoots(s), roots[|roots| - 1]) <==> TreesAlone(roots, s))
  }

  lemma RootsFoundIs(g: Graph, list: seq<BlockId>, w: World, h: BlockId, s: Search, roots: seq<BlockId>)
    requires list != [] && (forall k :: 0 <= k < |list| ==> list[k] < |g.intothis|) && h == EntryOf(g, list)
    requires w == World(Points(g), set k | 0 <= k < |list| :: list[k])
    requires TreesAlone(roots, s) <==> NoInEdges(g, list) != [] || !EnteredFromOutside(w, h)
    requires EndsWith(roots, h) && (EndsWith(TreeRoots(s), h) <==> TreesAlone(roots, s))
    ensures RootsFound(g, list, s, roots)
  {
    hide TreesAlone, EnteredFromOutside, TreeRoots, IsEntry, Points;
  }

  /** A list on which every block has its index has just those blocks, each once. */
  lemma IndexedSet(blocks: set<BlockId>, sorted: seq<BlockId>, index: seq<int>)
    requires forall b :: b in blocks ==> b < |index| && 0 <= index[b] < |sorted| && sorted[index[b]] == b
    requires forall k :: 0 <= k < |sorted| ==> sorted[k] in blocks && index[sorted[k]] == k
    ensures (set k | 0 <= k < |sorted| :: sorted[k]) == blocks
    ensures forall j, k :: 0 <= j < k < |sorted| ==> sorted[j] != sorted[k]
  {
  }

  // ----- Which roots are used

  lemma FirstStays(w: World, n: nat, base: Graph, s: Search, g: Graph, a: Numbers, v: Stacks, b: BlockId)
    requires Agrees(w, n, base, s, g, a, v) && v.state == [] && b !in v.preorder && FirstApart(w, TreeRoots(s))
    ensures FirstApart(w, TreeRoots(s) + [b])
  {
    EmptyStack(w, n, base, s, g, a, v);
    AgreesBounds(w, n, base, s, g, a, v);
    AgreesOrder(w, n, base, s, g, a, v);
    AgreesSearch(w, n, base, s, g, a, v);
    hide Agrees, SearchInv, Leads, TreeRoots;
    if TreeRoots(s) != [] {
      RootsVisited(s, TreeRoots(s)[0]);
      UnvisitedNotLed(w, n, s, TreeRoots(s)[0], b);
    }
  }

  lemma AgreesSearch(w: World, n: nat, base: Graph, s: Search, g: Graph, a: Numbers, v: Stacks)
    requires Agrees(w, n, base, s, g, a, v)
    ensures Closed(w) && SearchInv(w, n, s) && |w.blocks| == n
  {
  }

  /** A listed root is used: if it is the last, those before it do not reach everything. */
  lemma ChosenFound(w: World, n: nat, base: Graph, s: Search, g: Graph, a: Numbers, v: Stacks, given: seq<BlockId>,
                    roots0: seq<BlockId>, roots: seq<BlockId>, used: nat, b: BlockId, before: bool)
    requires Agrees(w, n, base, s, g, a, v) && v.state == [] && |v.preorder| < n && b !in v.preorder
    requires Growing(w, s, given, roots0, used, before) && used < |roots| && IsTail(roots0[used..], roots[used..])
    requires roots[used] == b && roots[..used] == TreeRoots(s) && NoRepeats(roots)
    requires forall r :: r in given ==> r in roots || r in v.preorder
    ensures Chosen(w, s, given, roots, used + 1, b, before)
  {
    assert |roots[used..]| <= |roots0[used..]|;
    hide Agrees, Reaches, Leads, TreeRoots, IsTail, EndsWith;
    FirstStays(w, n, base, s, g, a, v, b);
    TailTrans(given, roots0[used..], roots[used..]);
    TailNext(given, roots, used);
    if used + 1 == |roots| {
      forall r | r in Front(given) ensures r in TreeRoots(s) || r in v.preorder {
        if r in roots {
          var i :| 0 <= i < |roots| && roots[i] == r;
          assert i < used ==> r in roots[..used];
        }
      }
      AllRootsVisited(w, n, base, s, g, a, v, Front(given));
    }
  }

  /** No listed root is left: those given do not reach everything. */
  lemma ChosenExtra(w: World, n: nat, base: Graph, s: Search, g: Graph, a: Numbers, v: Stacks, given: seq<BlockId>,
                    roots0: seq<BlockId>, roots: seq<BlockId>, used: nat, b: BlockId, before: bool)
    requires Agrees(w, n, base, s, g, a, v) && v.state == [] && |v.preorder| < n && b !in v.preorder
    requires Growing(w, s, given, roots0, used, before) && used == |roots| && roots == TreeRoots(s) && NoRepeats(roots + [b])
    requires forall r :: r in given ==> r in roots || r in v.preorder
    ensures Chosen(w, s, given, roots + [b], used + 1, b, true)
  {
    hide Agrees, Reaches, Leads, TreeRoots;
    FirstStays(w, n, base, s, g, a, v, b);
    AllRootsVisited(w, n, base, s, g, a, v, Front(given));
  }

  lemma PassGrown(w: World, n: nat, base: Graph, s: Search, g: Graph, a: Numbers, v: Stacks, given: seq<BlockId>,
                  roots: seq<BlockId>, used: nat, extra: bool)
    requires Agrees(w, n, base, s, g, a, v) && |v.preorder| == n && Growing(w, s, given, roots, used, extra)
    requires Sources(w, given) && extra ==> given <= roots
    ensures Grown(w, s, given, roots, extra)
  {
    AgreesOrder(w, n, base, s, g, a, v);
    AgreesSearch(w, n, base, s, g, a, v);
    hide Agrees, SearchInv, Growing, Grown;
    GrowingEnds(w, n, s, given, roots, used, extra);
  }

  lemma CollectedFrom(g: Graph, list: seq<BlockId>, blocks: set<BlockId>)
    requires Paired(g) && list != [] && forall k :: 0 <= k < |list| ==> list[k] < |g.intothis| && list[k] in blocks
    requires forall j, k :: 0 <= j < k < |list| ==> list[j] != list[k]
    ensures var w, roots := World(Points(g), blocks), NoInEdges(g, list);
            && (roots != [] ==> AreSources(w, roots) && Sources(w, roots))
            && StartRoots(w, [list[0]], list[0], false) && Sources(w, [list[0]])
  {
    var w, roots := World(Points(g), blocks), NoInEdges(g, list);
    CollectedSources(g, list, blocks);
    NoInEdgesAre(g, list);
    OneCollected(w, list[0]);
    hide Sources, Paired, NoInEdges, Sourceless;
    forall i | 0 <= i < |roots| ensures Sourceless(w, roots[i]) {
      assert roots[i] in roots;
      NoInEdgeSourceless(g, blocks, roots[i]);
    }
  }

  lemma CollectedParts(w: World, roots: seq<BlockId>, h: BlockId, sources: bool)
    requires StartRoots(w, roots, h, sources)
    ensures roots != [] && NoRepeats(roots) && forall r :: r in roots ==> r in w.blocks
  {
  }

  class BlockGraph {
    var graph: Graph
    var list: seq<BlockId>
    var visitcount: seq<int>
    var index: seq<int>
    var numdesc: seq<int>
    var copymap: seq<BlockId>
    // The caller's vectors.
    var preorder: seq<BlockId>
    var rootlist: seq<BlockId>
    // The search in progress.
    var state: seq<BlockId>
    var istate: seq<nat>
    var rpostcount: int
    var rpostorder: seq<Option<BlockId>>
    ghost var w: World
    ghost var base: Graph
    ghost var s: Search
    // The irreducible-edge finder in progress.
    var mark: seq<bool>
    var mark2: seq<bool>
    var reachunder: seq<BlockId>
    ghost var t: Spanning
    ghost var irr: set<Edge>
    ghost var loops: Loops
    ghost var reach: set<nat>

    /** The child list names distinct blocks of the arena, and no edge leaves or enters the set. */
    ghost predicate Whole()
      reads this
    {
      && Paired(graph) && Separate(graph, Blocks())
      && |visitcount| == |index| == |numdesc| == |copymap| == |graph.outofthis|
      && (forall k :: 0 <= k < |list| ==> list[k] < |graph.outofthis|)
      && (forall j, k :: 0 <= j < k < |list| ==> list[j] != list[k])
    }

    ghost function Blocks(): set<BlockId>
      reads this
    {
      set k | 0 <= k < |list| :: list[k]
    }

    function Num(): Numbers
      reads this
    {
      Numbers(visitcount, index, numdesc)
    }

    ghost function Vecs(): Stacks
      reads this
    {
      Stacks(preorder, state, istate, rpostcount, rpostorder)
    }

    ghost predicate Ties()
      reads this
    {
      Agrees(w, |list|, base, s, graph, Num(), Vecs())
    }

    /** Sets flags on an out-edge, at both of its ends. */
    method SetOutEdgeFlag(b: BlockId, slot: nat, flags: EdgeLabel)
      requires Paired(graph) && b < |graph.outofthis| && slot < |graph.outofthis[b]|
      modifies this`graph
      ensures graph == Flagged(old(graph), b, slot, flags) && Paired(graph)
    {
      assert OutPaired(graph, b, slot);
      RelabelKeeps(graph, b, slot, Or(graph.outofthis[b][slot].bits, flags));
      var edge := graph.outofthis[b][slot];
      var outs := graph.outofthis[b][slot := edge.(bits := Or(edge.bits, flags))];
      var twin := graph.intothis[edge.point][edge.reverseIndex];
      var ins := graph.intothis[edge.point][edge.reverseIndex := twin.(bits := Or(twin.bits, flags))];
      graph := Graph(graph.intothis[edge.point := ins], graph.outofthis[b := outs]);
    }

    /** A block is entered: numbered, and pushed on both stacks. */
    method PushBlock(b: BlockId)
      requires b < |visitcount| == |numdesc|
      modifies this`state, this`istate, this`visitcount, this`preorder, this`numdesc
      ensures state == old(state) + [b] && istate == old(istate) + [0]
      ensures visitcount == old(visitcount)[b := |old(preorder)|] && preorder == old(preorder) + [b]
      ensures numdesc == old(numdesc)[b := 1]
    {
      state := state + [b];
      istate := istate + [0];
      visitcount := visitcount[b := |preorder|];
      preorder := preorder + [b];
      numdesc := numdesc[b := 1];
    }

    /** A new tree starts at an unvisited block. */
    method StartTree(b: BlockId)
      requires Ties() && state == [] && b in w.blocks && visitcount[b] == -1
      modifies this`state, this`istate, this`visitcount, this`preorder, this`numdesc, this`s
      ensures Ties() && s == Visit(old(s), b, 0) && preorder == old(preorder) + [b]
    {
      assert |visitcount| == |numdesc|;
      hide Agrees;
      StartAgrees(w, |list|, base, s, graph, Num(), Vecs(), b);
      PushBlock(b);
      s := Visit(s, b, 0);
    }

    /** The next out-edge of the innermost open block leads to an unvisited block. */
    method EnterChild(curbl: BlockId, edgenum: nat, childbl: BlockId)
      requires Ties() && Paired(graph) && AtEdge(w, s, graph, Num(), Vecs(), curbl, edgenum)
      requires childbl == graph.outofthis[curbl][edgenum].point < |visitcount| == |numdesc| && visitcount[childbl] == -1
      modifies this`graph, this`state, this`istate, this`visitcount, this`preorder, this`numdesc, this`s
      ensures Ties() && s == Descend(old(s), childbl) && preorder == old(preorder) + [childbl]
    {
      hide Agrees, Paired, Flagged;
      DescendAgrees(w, |list|, base, s, graph, Num(), Vecs(), curbl, edgenum);
      istate := istate[|istate| - 1 := edgenum + 1];
      SetOutEdgeFlag(curbl, edgenum, TREE_EDGE);
      PushBlock(childbl);
      s := Descend(s, childbl);
    }

    /** The next out-edge of the innermost open block leads to a visited block. */
    method LabelEdge(curbl: BlockId, edgenum: nat, kind: Kind)
      requires Ties() && Paired(graph) && AtEdge(w, s, graph, Num(), Vecs(), curbl, edgenum) && KindIs(w, s, kind)
      modifies this`graph, this`istate, this`s
      ensures Ties() && s == Scan(old(s), Cur(old(s)), kind) && |istate| == |old(istate)| > 0
      ensures istate[|istate| - 1] == edgenum + 1
      ensures |graph.outofthis| == |old(graph.outofthis)| && |graph.outofthis[curbl]| == |old(graph.outofthis[curbl])|
    {
      hide Agrees, Paired, NextEdge, KindIs;
      ScanAgrees(w, |list|, base, s, graph, Num(), Vecs(), curbl, edgenum, kind);
      istate := istate[|istate| - 1 := edgenum + 1];
      SetOutEdgeFlag(curbl, edgenum, KindFlags(kind));
      s := Scan(s, Cur(s), kind);
    }

    /** The innermost open block has no out-edge left: it takes the next reverse post-order number. */
    method CloseBlock()
      requires Ties() && AllScanned(w, s)
      modifies this`state, this`istate, this`rpostcount, this`index, this`rpostorder, this`numdesc, this`s
      ensures Ties() && s == Close(|list|, old(s)) && rpostcount == old(rpostcount) - 1
    {
      hide Agrees, AllScanned, StackTiles, Close, CanClose;
      CloseAgrees(w, |list|, base, s, graph, Num(), Vecs());
      ghost var a, v := ClosedNumbers(Num(), Vecs()), ClosedStacks(Num(), Vecs());
      s := Close(|list|, s);
      var m := |state| - 1;
      var curbl := state[m];
      state := state[..m];
      istate := istate[..m];
      rpostcount := rpostcount - 1;
      index := index[curbl := rpostcount];
      rpostorder := rpostorder[rpostcount := Some(curbl)];
      if m > 0 {
        var parentbl := state[m - 1];
        numdesc := numdesc[parentbl := numdesc[parentbl] + numdesc[curbl]];
      }
      assert Num() == a && Vecs() == v;
    }

    /** Out-edges of the innermost open block still to scan. */
    ghost function Room(): nat
      reads this
    {
      if |state| == |istate| > 0 && state[|state| - 1] < |graph.outofthis| then
        var left := |graph.outofthis[state[|state| - 1]]| - istate[|state| - 1];
        if left > 0 then left else 0
      else 0
    }

    /** One turn of the search. */
    method SearchStep()
      requires Ties() && state != []
      modifies this`graph, this`state, this`istate, this`visitcount, this`preorder, this`numdesc, this`index,
               this`rpostcount, this`rpostorder, this`s
      ensures Ties() && TreeRoots(s) == TreeRoots(old(s)) && old(preorder) <= preorder
      ensures |preorder| > |old(preorder)| ||
              (|preorder| == |old(preorder)| &&
               (rpostcount < old(rpostcount) || (rpostcount == old(rpostcount) && Room() < old(Room()))))
    {
      hide Agrees, AllScanned, Paired, AtEdge, KindIs, TreeRoots, Scan, Descend, Close;
      CurrentEdge(w, |list|, base, s, graph, Num(), Vecs());
      AgreesBounds(w, |list|, base, s, graph, Num(), Vecs());
      SameRoots(s);
      var curbl, curstate := state[|state| - 1], istate[|state| - 1];
      if |graph.outofthis[curbl]| <= curstate {
        CloseBlock();
      } else {
        NextTarget(w, s, graph, Num(), Vecs(), curbl, curstate);
        if graph.outofthis[curbl][curstate].bits.irreducible {
          assert false;
        } else {
          var childbl := graph.outofthis[curbl][curstate].point;
          if visitcount[childbl] == -1 {
            EnterChild(curbl, curstate, childbl);
          } else {
            var kind := KindFor(Num(), curbl, childbl);
            LabelEdge(curbl, curstate, kind);
          }
        }
      }
    }

    /** The search from an open tree root until the stack is empty. */
    method Explore()
      requires Ties()
      modifies this`graph, this`state, this`istate, this`visitcount, this`preorder, this`numdesc, this`index,
               this`rpostcount, this`rpostorder, this`s
      ensures Ties() && state == [] && TreeRoots(s) == TreeRoots(old(s)) && old(preorder) <= preorder
    {
      hide Agrees;
      while state != []
        invariant Ties() && TreeRoots(s) == TreeRoots(old(s)) && old(preorder) <= preorder
        decreases |list| - |preorder|, rpostcount, Room()
      {
        AgreesBounds(w, |list|, base, s, graph, Num(), Vecs());
        SearchStep();
        AgreesBounds(w, |list|, base, s, graph, Num(), Vecs());
      }
    }

    // ----- Roots

    /** The first `rootindex` roots are those trees were started at. */
    ghost predicate RootsMatch(rootindex: nat)
      reads this
    {
      && rootindex <= |rootlist| && rootlist[..rootindex] == TreeRoots(s) && NoRepeats(rootlist)
      && forall r :: r in rootlist ==> r in w.blocks
    }

    ghost predicate NotVisited(b: BlockId)
      reads this
    {
      b < |visitcount| && visitcount[b] == -1
    }

    /** The next listed root that is not visited; roots found visited are dropped. */
    method NextRoot(rootindex: nat) returns (startbl: Option<BlockId>, next: nat)
      requires forall r :: r in w.blocks ==> r < |visitcount|
      requires RootsMatch(rootindex)
      modifies this`rootlist
      ensures RootsMatch(rootindex)
      ensures forall r :: r in rootlist ==> r in old(rootlist)
      ensures forall r :: r in old(rootlist) && r !in rootlist ==> r < |visitcount| && visitcount[r] != -1
      ensures match startbl
              case Some(b) => && next == rootindex + 1 <= |rootlist| && b == rootlist[rootindex]
                              && b < |visitcount| && visitcount[b] == -1
              case None => next == rootindex == |rootlist|
      ensures rootindex == |old(rootlist)| || NotVisited(old(rootlist)[rootindex]) ==> rootlist == old(rootlist)
      ensures IsTail(old(rootlist)[rootindex..], rootlist[rootindex..])
    {
      next := rootindex;
      startbl := None;
      hide NoRepeats, IsTail, TreeRoots;
      assert IsTail(rootlist[rootindex..], rootlist[rootindex..]) by { TailSelf(rootlist[rootindex..]); }
      while next < |rootlist|
        invariant next == rootindex && RootsMatch(rootindex) && startbl == None
        invariant forall r :: r in rootlist ==> r in old(rootlist)
        invariant forall r :: r in old(rootlist) && r !in rootlist ==> r < |visitcount| && visitcount[r] != -1
        invariant rootlist == old(rootlist) || (rootindex < |old(rootlist)| && !NotVisited(old(rootlist)[rootindex]))
        invariant IsTail(old(rootlist)[rootindex..], rootlist[rootindex..])
        decreases |rootlist| - next
      {
        var candidate := rootlist[next];
        assert candidate in rootlist;
        if visitcount[candidate] == -1 {
          return Some(candidate), next + 1;
        }
        ghost var before := rootlist;
        RemoveNoRepeats(rootlist, next);
        TailDrops(old(rootlist)[rootindex..], rootlist, next, rootlist[..next] + rootlist[next + 1..]);
        rootlist := rootlist[..next] + rootlist[next + 1..];
        assert before == before[..next] + [candidate] + before[next + 1..];
      }
    }

    /** The first block of the list that is not visited. */
    method FirstUnvisited() returns (chosen: BlockId)
      requires list != [] && forall k :: 0 <= k < |list| ==> list[k] < |visitcount|
      requires exists k :: 0 <= k < |list| && visitcount[list[k]] == -1
      ensures chosen < |visitcount| && visitcount[chosen] == -1
      ensures exists k :: 0 <= k < |list| && list[k] == chosen && forall j :: 0 <= j < k ==> visitcount[list[j]] != -1
    {
      chosen := list[0];
      var i := 0;
      while i < |list|
        invariant 0 <= i <= |list|
        invariant forall k :: 0 <= k < i ==> visitcount[list[k]] != -1
      {
        chosen := list[i];
        if visitcount[chosen] == -1 { return; }
        i := i + 1;
      }
    }

    /** The list names the blocks of the world. */
    ghost predicate Listed()
      reads this
    {
      && w.blocks == Blocks() && |w.blocks| == |list| && (forall k :: 0 <= k < |list| ==> list[k] < |visitcount|)
    }

    /** Every one of `roots` is still listed or already visited. */
    ghost predicate Covered(roots: set<BlockId>)
      reads this
    {
      forall r :: r in roots ==> r in rootlist || r in preorder
    }

    ghost function RootSet(): set<BlockId>
      reads this
    {
      SetOf(rootlist)
    }

    /** `given` is untouched until its last root is used, and only added to afterwards. */
    ghost predicate Keeps(given: seq<BlockId>, rootindex: nat)
      reads this
    {
      rootlist == given || (given <= rootlist && rootindex == |rootlist|)
    }

    /** The next tree: from a listed root, or from any unvisited block when none is left. */
    method ChooseRoot(rootindex: nat, ghost given: seq<BlockId>, ghost roots: set<BlockId>, ghost before: bool)
      returns (startbl: BlockId, next: nat, extra: bool)
      requires Ties() && Listed() && state == [] && |preorder| < |list| && RootsMatch(rootindex) && Covered(roots)
      requires Growing(w, s, given, rootlist, rootindex, before) && roots == SetOf(given)
      requires Sources(w, given) ==> Keeps(given, rootindex)
      modifies this`rootlist
      ensures next <= |rootlist| && rootlist[..next] == TreeRoots(s) + [startbl] && Covered(roots)
      ensures NoRepeats(rootlist) && forall r :: r in rootlist ==> r in w.blocks
      ensures startbl in w.blocks && startbl < |visitcount| && visitcount[startbl] == -1
      ensures extra ==> !Reaches(w, roots)
      ensures Sources(w, given) ==> Keeps(given, next) && (extra ==> |rootlist| > |given|)
      ensures Chosen(w, s, given, rootlist, next, startbl, before || extra)
    {
      hide Agrees, Reaches, Sources, TreeRoots, NoRepeats, Growing, Chosen, IsTail;
      AgreesBounds(w, |list|, base, s, graph, Num(), Vecs());
      AgreesOrder(w, |list|, base, s, graph, Num(), Vecs());
      AgreesVisits(w, |list|, base, s, graph, Num(), Vecs());
      if Sources(w, given) && rootindex < |rootlist| {
        SourceUnvisited(w, |list|, base, s, graph, Num(), Vecs(), rootlist, rootindex);
        assert rootlist[rootindex] in rootlist;
      }
      var found;
      found, next := NextRoot(rootindex);
      if found.Some? {
        startbl, extra := found.value, false;
        assert rootlist[..next] == rootlist[..rootindex] + [startbl];
        ChosenFound(w, |list|, base, s, graph, Num(), Vecs(), given, old(rootlist), rootlist, rootindex, startbl, before);
      } else {
        assert rootlist == rootlist[..rootindex];
        AllRootsVisited(w, |list|, base, s, graph, Num(), Vecs(), roots);
        extra := true;
        startbl := FirstUnvisited();
        forall r | r in rootlist ensures r != startbl { RootsVisited(s, r); }
        AppendNoRepeats(rootlist, startbl);
        ChosenExtra(w, |list|, base, s, graph, Num(), Vecs(), given, old(rootlist), rootlist, rootindex, startbl, before);
        rootlist := rootlist + [startbl];
        next := next + 1;
      }
    }

    /** The state of a pass that was given these roots, between two trees. */
    ghost predicate Sprouting(given: seq<BlockId>, rootindex: nat, extra: bool)
      reads this
    {
      && RootsMatch(rootindex) && Covered(SetOf(given)) && Growing(w, s, given, rootlist, rootindex, extra)
      && (Reaches(w, SetOf(given)) ==> !extra)
      && (Sources(w, given) ==> Keeps(given, rootindex) && (extra ==> |rootlist| > |given|))
    }

    /** One more tree. */
    method NextTree(rootindex: nat, ghost given: seq<BlockId>, before: bool) returns (next: nat, extraroots: bool)
      requires Ties() && Listed() && state == [] && |preorder| < |list| && Sprouting(given, rootindex, before)
      modifies this`graph, this`state, this`istate, this`visitcount, this`preorder, this`numdesc, this`index,
               this`rpostcount, this`rpostorder, this`rootlist, this`s
      ensures Ties() && Listed() && state == [] && Sprouting(given, next, extraroots)
      ensures |old(preorder)| < |preorder| <= |list|
    {
      hide Agrees, Reaches, Sources, NoRepeats, Growing, Chosen, TreeRoots;
      var startbl, extra;
      startbl, next, extra := ChooseRoot(rootindex, given, SetOf(given), before);
      extraroots := before || extra;
      ghost var s1 := s;
      PlantTree(startbl);
      GrowingGoesOn(w, s1, s, given, rootlist, next, startbl, extraroots);
      AgreesBounds(w, |list|, base, s, graph, Num(), Vecs());
    }

    /** One pass: trees until every block is visited. No extra root is needed when the
        listed ones reach everything. */
    method GrowTrees() returns (extraroots: bool)
      requires Ties() && Listed() && state == [] && RootsMatch(0) && rootlist != []
      modifies this`graph, this`state, this`istate, this`visitcount, this`preorder, this`numdesc, this`index,
               this`rpostcount, this`rpostorder, this`rootlist, this`s
      ensures Grown(w, s, old(rootlist), rootlist, extraroots)
      ensures Ties() && Listed() && state == [] && |preorder| == |list| && NoRepeats(rootlist)
      ensures forall r :: r in rootlist ==> r in w.blocks
      ensures forall r :: r in TreeRoots(s) ==> r in rootlist
      ensures old(Reaches(w, RootSet())) ==> !extraroots
      ensures Sources(w, old(rootlist)) && extraroots ==> |rootlist| > |old(rootlist)|
    {
      SproutingStarts();
      hide Agrees, Reaches, Sources, NoRepeats, Growing, Grown, TreeRoots, Sprouting;
      var rootindex: nat := 0;
      extraroots := false;
      AgreesBounds(w, |list|, base, s, graph, Num(), Vecs());
      while |preorder| < |list|
        invariant Ties() && Listed() && state == [] && |preorder| <= |list| && Sprouting(old(rootlist), rootindex, extraroots)
        decreases |list| - |preorder|
      {
        rootindex, extraroots := NextTree(rootindex, old(rootlist), extraroots);
      }
      SproutingEnds(old(rootlist), rootindex, extraroots);
    }

    lemma SproutingStarts()
      requires RootsMatch(0) && rootlist != []
      ensures Sprouting(rootlist, 0, false)
    {
      GrowingStarts(w, s, rootlist);
      hide Reaches, Sources, NoRepeats, Growing, TreeRoots;
    }

    lemma SproutingEnds(given: seq<BlockId>, rootindex: nat, extra: bool)
      requires Ties() && Listed() && |preorder| == |list| && Sprouting(given, rootindex, extra)
      ensures Grown(w, s, given, rootlist, extra) && NoRepeats(rootlist)
      ensures (forall r :: r in rootlist ==> r in w.blocks) && forall r :: r in TreeRoots(s) ==> r in rootlist
      ensures Reaches(w, SetOf(given)) ==> !extra
      ensures Sources(w, given) && extra ==> |rootlist| > |given|
    {
      hide Agrees, Reaches, Sources, NoRepeats, Growing, Grown, TreeRoots;
      assert forall r :: r in rootlist[..rootindex] ==> r in rootlist;
      PassGrown(w, |list|, base, s, graph, Num(), Vecs(), given, rootlist, rootindex, extra);
    }

    /** A tree from an unvisited block, searched to its end. */
    method PlantTree(startbl: BlockId)
      requires Ties() && Listed() && state == [] && startbl in w.blocks && startbl < |visitcount| && visitcount[startbl] == -1
      modifies this`graph, this`state, this`istate, this`visitcount, this`preorder, this`numdesc, this`index,
               this`rpostcount, this`rpostorder, this`s
      ensures Ties() && Listed() && state == [] && TreeRoots(s) == TreeRoots(old(s)) + [startbl]
      ensures old(preorder) <= preorder && |preorder| > |old(preorder)|
    {
      hide Agrees;
      AgreesBounds(w, |list|, base, s, graph, Num(), Vecs());
      AgreesVisits(w, |list|, base, s, graph, Num(), Vecs());
      EmptyStack(w, |list|, base, s, graph, Num(), Vecs());
      VisitRoots(s, startbl, 0);
      StartTree(startbl);
      Explore();
      AgreesVisits(w, |list|, base, s, graph, Num(), Vecs());
      assert forall k :: 0 <= k < |list| ==> list[k] in Blocks();
    }

    /** Clears flags on every edge of the listed blocks, at both ends. */
    method ClearEdgeFlags(flags: EdgeLabel)
      requires forall k :: 0 <= k < |list| ==> list[k] < |graph.intothis| == |graph.outofthis|
      modifies this`graph
      ensures graph == ClearGraph(old(graph), Blocks(), flags)
    {
      hide Minus, ClearGraph, ClearEdges;
      var i := 0;
      ghost var cleared: set<BlockId> := {};
      ClearNone(graph, flags);
      while i < |list|
        invariant 0 <= i <= |list| && cleared == set k | 0 <= k < i :: list[k]
        invariant graph == ClearGraph(old(graph), cleared, flags)
      {
        var child := list[i];
        ClearOne(old(graph), cleared, child, flags);
        var ins := ClearEdges(graph.intothis[child], flags);
        var outs := ClearEdges(graph.outofthis[child], flags);
        graph := Graph(graph.intothis[child := ins], graph.outofthis[child := outs]);
        cleared := cleared + {child};
        i := i + 1;
      }
    }

    /** Every listed block is unvisited, unnumbered and its own copy; a block without in-edges is
        a root when roots are collected. */
    method ResetBlocks(collect: bool)
      requires |visitcount| == |index| == |copymap| == |graph.intothis|
      requires forall k :: 0 <= k < |list| ==> list[k] < |visitcount|
      modifies this`visitcount, this`index, this`copymap, this`rootlist
      ensures |visitcount| == |index| == |copymap| == |old(visitcount)|
      ensures Blank() && forall r :: r in rootlist ==> r in old(rootlist) || r in list
      ensures !collect ==> rootlist == old(rootlist)
      ensures old(rootlist) == [] && collect ==> rootlist == NoInEdges(graph, list)
    {
      var i := 0;
      while i < |list|
        invariant 0 <= i <= |list| && |visitcount| == |index| == |copymap| == |old(visitcount)|
        invariant forall k :: 0 <= k < i ==> visitcount[list[k]] == -1 && index[list[k]] == -1 && copymap[list[k]] == list[k]
        invariant forall r :: r in rootlist ==> r in old(rootlist) || r in list
        invariant !collect ==> rootlist == old(rootlist)
        invariant old(rootlist) == [] && collect ==> rootlist == NoInEdges(graph, list[..i])
      {
        assert list[..i + 1][..i] == list[..i];
        var child := list[i];
        index := index[child := -1];
        visitcount := visitcount[child := -1];
        copymap := copymap[child := child];
        if collect && |graph.intothis[child]| == 0 {
          rootlist := rootlist + [child];
        }
        i := i + 1;
      }
      assert list[..i] == list;
    }

    /** The pass starts: labels cleared, nothing visited. */
    method BeginPass()
      requires Whole() && w == World(Points(graph), Blocks()) && |w.blocks| == |list| && preorder == [] && state == [] && istate == []
      requires |rpostorder| == |list| && Blank()
      modifies this`graph, this`rpostcount, this`base, this`s
      ensures Ties() && Listed() && TreeRoots(s) == [] && base == graph == ClearGraph(old(graph), Blocks(), SEARCH_FLAGS)
    {
      hide Paired, Separate, ClearGraph, Agrees, Points;
      BeginAgrees(graph, list, Num(), rpostorder);
      ClearEdgeFlags(SEARCH_FLAGS);
      rpostcount := |list|;
      base := graph;
      s := EmptySearch(visitcount);
    }

    /** No listed block is visited or numbered, and each is its own copy. */
    ghost predicate Blank()
      reads this
    {
      && SelfCopies() && |visitcount| == |index|
      && forall k :: 0 <= k < |list| ==> list[k] < |visitcount| && visitcount[list[k]] == -1 && index[list[k]] == -1
    }

    ghost predicate SelfCopies()
      reads this
    {
      forall k :: 0 <= k < |list| ==> list[k] < |copymap| && copymap[list[k]] == list[k]
    }

    /** What a finished pass leaves: the search visited every block, its order is the new list. */
    ghost predicate Spanned()
      reads this
    {
      && Ties() && Whole() && w == World(Points(graph), Blocks()) && state == [] && |preorder| == |list|
      && SelfCopies() && NoRepeats(rootlist) && (forall k :: 0 <= k < |list| ==> list[k] < |index| && index[list[k]] == k)
      && (forall r :: r in TreeRoots(s) ==> r in rootlist) && (forall r :: r in rootlist ==> r in Blocks())
    }

    /** The roots: every block without in-edges, or else the first listed block. */
    method CollectRoots()
      requires Whole() && list != [] && rootlist == []
      modifies this`visitcount, this`index, this`copymap, this`rootlist
      ensures Whole() && Blank() && rootlist != [] && NoRepeats(rootlist) && forall r :: r in rootlist ==> r in Blocks()
      ensures var w := World(Points(graph), Blocks());
              Sources(w, rootlist) && StartRoots(w, rootlist, EntryOf(graph, list), NoInEdges(graph, list) != [])
    {
      assert |graph.intothis| == |graph.outofthis|;
      hide Paired, Separate, Points, Sources, NoInEdges, StartRoots, Blank, NoRepeats;
      ResetBlocks(true);
      CollectedFrom(graph, list, Blocks());
      ArrangeRoots(World(Points(graph), Blocks()));
      CollectedParts(World(Points(graph), Blocks()), rootlist, EntryOf(graph, list), NoInEdges(graph, list) != []);
    }

    /** The last of several blocks without in-edges comes first; without any, the first block is the root. */
    method ArrangeRoots(ghost world: World)
      requires list != [] && (rootlist != [] ==> AreSources(world, rootlist) && Sources(world, rootlist))
      requires StartRoots(world, [list[0]], list[0], false) && Sources(world, [list[0]])
      modifies this`rootlist
      ensures Sources(world, rootlist)
      ensures StartRoots(world, rootlist, if old(rootlist) != [] then old(rootlist)[0] else list[0], old(rootlist) != [])
    {
      hide Sources, StartRoots, NoRepeats, AreSources;
      if rootlist != [] { SwapCollected(world, rootlist); }
      if |rootlist| == 1 { assert rootlist == rootlist[0 := rootlist[0]][0 := rootlist[0]]; }
      if |rootlist| > 1 {
        var last := |rootlist| - 1;
        SwapRoots(0, last);
      } else if rootlist == [] {
        rootlist := [list[0]];
      }
    }

    method SwapRoots(i: nat, j: nat)
      requires i < |rootlist| && j < |rootlist|
      modifies this`rootlist
      ensures rootlist == old(rootlist)[i := old(rootlist)[j]][j := old(rootlist)[i]]
      ensures forall r :: r in rootlist <==> r in old(rootlist)
      ensures NoRepeats(old(rootlist)) ==> NoRepeats(rootlist)
    {
      if NoRepeats(rootlist) { SwapNoRepeats(rootlist, i, j); }
      ghost var before := rootlist;
      rootlist := rootlist[i := rootlist[j]][j := rootlist[i]];
      assert forall r :: r in rootlist <==> r in multiset(rootlist);
      assert forall r :: r in before <==> r in multiset(before);
    }

    /** The reverse post-order becomes the list. */
    method Relist()
      requires Complete()
      modifies this`list
      ensures Spanned() && Blocks() == old(Blocks()) && |list| == |old(list)|
      ensures list != [] ==> EndsWith(TreeRoots(s), list[0])
    {
      hide Agrees, Paired, Separate, Points, TreeRoots;
      FinalOrder(w, |list|, base, s, graph, Num(), Vecs());
      if list != [] { FirstInOrder(w, |list|, base, s, graph, Num(), Vecs()); }
      ghost var blocks := Blocks();
      assert forall b :: b in blocks ==> b < |copymap| && copymap[b] == b && b < |graph.outofthis|;
      var sorted := Ordered();
      IndexedSet(blocks, sorted, index);
      list := sorted;
    }

    /** The entries of the reverse post-order, all present. */
    method Ordered() returns (sorted: seq<BlockId>)
      requires forall k :: 0 <= k < |rpostorder| ==> rpostorder[k].Some?
      ensures |sorted| == |rpostorder| && forall k :: 0 <= k < |rpostorder| ==> sorted[k] == rpostorder[k].value
    {
      sorted := [];
      var i := 0;
      while i < |rpostorder|
        invariant 0 <= i == |sorted| <= |rpostorder|
        invariant forall k :: 0 <= k < i ==> sorted[k] == rpostorder[k].value
      {
        sorted := sorted + [rpostorder[i].value];
        i := i + 1;
      }
    }

    /** A pass over a cleared graph: it stays whole, and only the search's flags change. */
    method Pass() returns (extraroots: bool)
      requires Whole() && w == World(Points(graph), Blocks()) && Listed() && preorder == [] && state == [] && istate == []
      requires |rpostorder| == |list| && Blank() && rootlist != [] && NoRepeats(rootlist) && forall r :: r in rootlist ==> r in Blocks()
      modifies this`graph, this`state, this`istate, this`visitcount, this`preorder, this`numdesc, this`index,
               this`rpostcount, this`rpostorder, this`rootlist, this`s, this`base
      ensures Complete() && Listed() && SameBut(old(graph), graph, SEARCH_FLAGS) && |rpostorder| == |list|
      ensures old(Reaches(w, RootSet())) ==> !extraroots
      ensures Sources(w, old(rootlist)) && extraroots ==> |rootlist| > |old(rootlist)|
      ensures Reaches(w, RootSet()) && RootsGood() && Grown(w, s, old(rootlist), rootlist, extraroots)
    {
      hide Paired, Separate, ClearGraph, Agrees, Points, TreeRoots, Reaches, SameBut, SameEdges, Grown;
      ClearSameBut(graph, Blocks(), SEARCH_FLAGS);
      BeginPass();
      extraroots := GrowTrees();
      PassEnds(w, |list|, base, s, graph, Num(), Vecs(), old(graph), RootSet());
    }

    /** A failed first pass is undone; the last extra root takes the place of the last original one. */
    method Rewind(origrootpos: nat)
      requires Whole() && rootlist != [] && origrootpos < |rootlist| && NoRepeats(rootlist)
      modifies this`rootlist, this`visitcount, this`index, this`copymap, this`preorder, this`state, this`istate
      ensures Whole() && Blank() && preorder == [] && state == [] && istate == []
      ensures RootSet() == old(RootSet()) && NoRepeats(rootlist) && |rootlist| == |old(rootlist)|
      ensures rootlist == Rearranged(old(rootlist), origrootpos)
    {
      assert |graph.intothis| == |graph.outofthis|;
      hide Paired, Separate;
      SwapRoots(|rootlist| - 1, origrootpos);
      ResetBlocks(false);
      preorder, state, istate := [], [], [];
    }

    ghost predicate RootsGood()
      reads this
    {
      NoRepeats(rootlist) && forall r :: r in rootlist ==> r in w.blocks
    }

    /** What a complete pass leaves, before the list is replaced. */
    ghost predicate Complete()
      reads this
    {
      && Ties() && Whole() && w == World(Points(graph), Blocks()) && state == [] && |preorder| == |list| && SelfCopies()
      && NoRepeats(rootlist) && (forall r :: r in rootlist ==> r in Blocks())
      && forall r :: r in TreeRoots(s) ==> r in rootlist
    }

    /** The second pass, from the roots of the first: they reach everything, so it needs no other. */
    method SecondPass(origrootpos: nat) returns (extraroots: bool)
      requires Complete() && Listed() && |rpostorder| == |list| && origrootpos < |rootlist| && Reaches(w, RootSet())
      requires forall r :: r in rootlist ==> r in Blocks()
      modifies this`graph, this`state, this`istate, this`visitcount, this`preorder, this`numdesc, this`index,
               this`rpostcount, this`rpostorder, this`rootlist, this`s, this`base, this`copymap
      ensures Complete() && SameBut(old(graph), graph, SEARCH_FLAGS) && !extraroots && w == old(w)
      ensures Grown(w, s, Rearranged(old(rootlist), origrootpos), rootlist, false)
    {
      hide Paired, Separate, Agrees, Points, TreeRoots, Reaches, SameBut, Blank, Sources, SelfCopies, NoRepeats, Grown, Rearranged;
      Rewind(origrootpos);
      assert forall r :: r in rootlist ==> r in RootSet();
      extraroots := Pass();
    }

    /** Numbers and lists every block and classifies every edge. It always succeeds. */
    method FindSpanningTree() returns (ok: bool)
      requires Whole() && preorder == [] && rootlist == []
      modifies this`graph, this`state, this`istate, this`visitcount, this`preorder, this`numdesc, this`index, this`list,
               this`rpostcount, this`rpostorder, this`rootlist, this`s, this`base, this`copymap, this`w
      ensures ok && Whole() && Blocks() == old(Blocks()) && |list| == |old(list)| && SameBut(old(graph), graph, SEARCH_FLAGS)
      ensures list != [] ==> Spanned()
      ensures Classified(graph, Blocks(), Num()) && SubtreesExact(graph, Blocks(), Num())
      ensures list != [] ==> (TreesAlone(rootlist, s) <==> !RootGoesStale(old(graph), old(list)))
      ensures list != [] ==> rootlist != [] && IsEntry(old(graph), old(list), rootlist[0])
      ensures list != [] ==> (list[0] == rootlist[0] <==> !RootGoesStale(old(graph), old(list)))
    {
      hide Paired, Separate, Agrees, Points, TreeRoots, Reaches, SameBut, Blank, Sources, Classified, SubtreesExact, Found, NoRepeats,
        RootGoesStale, IsEntry;
      ok := true;
      if list == [] {
        SameButRefl(graph, SEARCH_FLAGS);
        NothingToClassify(graph, Blocks(), Num());
      } else {
        ok := SearchAll();
        if ok {
          if |rootlist| > 1 {
            var last := |rootlist| - 1;
            SwapRoots(0, last);
          }
          AgreesFound(w, |list|, base, s, graph, Num(), Vecs());
          FoundIsExact(w, |list|, s, graph, Num());
          Relist();
        }
      }
    }

    /** At most two passes, from the blocks without in-edges or from the first block `h`. */
    method Passes(ghost h: BlockId, ghost sources: bool) returns (ok: bool)
      requires Whole() && w == World(Points(graph), Blocks()) && Closed(w) && Listed() && preorder == [] && state == [] && istate == []
      requires |rpostorder| == |list| && Blank() && Sources(w, rootlist) && StartRoots(w, rootlist, h, sources)
      modifies this`graph, this`state, this`istate, this`visitcount, this`preorder, this`numdesc, this`index,
               this`rpostcount, this`rpostorder, this`rootlist, this`s, this`base, this`copymap
      ensures ok && Complete() && SameBut(old(graph), graph, SEARCH_FLAGS)
      ensures TreesAlone(rootlist, s) <==> sources || !EnteredFromOutside(w, h)
      ensures EndsWith(rootlist, h) && (EndsWith(TreeRoots(s), h) <==> TreesAlone(rootlist, s))
    {
      CollectedParts(w, rootlist, h, sources);
      hide Paired, Separate, Agrees, Points, TreeRoots, Reaches, SameBut, Blank, Sources, SelfCopies, NoRepeats, Grown, StartRoots,
        EnteredFromOutside, TreesAlone, Closed, Rearranged, Complete, Listed, Whole;
      ghost var roots := rootlist;
      var origrootpos := |rootlist| - 1;
      var extraroots := Pass();
      if extraroots {
        ghost var g1, left, s1 := graph, rootlist, s;
        extraroots := SecondPass(origrootpos);
        SameButTrans(old(graph), g1, graph, SEARCH_FLAGS);
        TwoPassesExact(w, s1, roots, h, sources, left, s, Rearranged(left, origrootpos), rootlist);
      } else {
        OnePassExact(w, s, roots, h, sources, rootlist);
      }
      ok := !extraroots;
    }

    /** Everything is blank, and the roots are collected. */
    method StartSearch()
      requires Whole() && rootlist == [] && list != []
      modifies this`state, this`istate, this`visitcount, this`index, this`rpostorder, this`rootlist, this`copymap, this`w
      ensures Whole() && w == World(Points(graph), Blocks()) && Closed(w) && Listed() && Blank() && |rpostorder| == |list|
      ensures state == [] && istate == [] && Sources(w, rootlist)
      ensures StartRoots(w, rootlist, EntryOf(graph, list), NoInEdges(graph, list) != [])
    {
      assert |graph.intothis| == |graph.outofthis|;
      WorldClosed(graph, list);
      hide Paired, Separate, Points, Blank, Sources, SelfCopies, StartRoots, NoInEdges, Closed, EntryOf;
      rpostorder := seq(|list|, i => None);
      state, istate := [], [];
      w := World(Points(graph), Blocks());
      ListCounts(list);
      CollectRoots();
    }

    method SearchAll() returns (ok: bool)
      requires Whole() && preorder == [] && rootlist == [] && list != []
      modifies this`graph, this`state, this`istate, this`visitcount, this`preorder, this`numdesc, this`index,
               this`rpostcount, this`rpostorder, this`rootlist, this`s, this`base, this`copymap, this`w
      ensures ok && Complete() && SameBut(old(graph), graph, SEARCH_FLAGS)
      ensures RootsFound(old(graph), old(list), s, rootlist)
    {
      assert |graph.intothis| == |graph.outofthis|;
      hide Paired, Separate, Agrees, Points, TreeRoots, SameBut, Blank, Sources, SelfCopies, StartRoots,
        EnteredFromOutside, NoInEdges, TreesAlone, Closed, IsEntry, EntryOf, Complete, NoRepeats, EndsWith, RootsFound, Listed;
      StartSearch();
      ghost var h := EntryOf(graph, list);
      ok := Passes(h, NoInEdges(graph, list) != []);
      RootsFoundIs(old(graph), old(list), w, h, s, rootlist);
    }

    // ----- Irreducible edges

    /** Clears flags on an out-edge, at both of its ends. */
    method ClearOutEdgeFlag(b: BlockId, slot: nat, flags: EdgeLabel)
      requires Paired(graph) && b < |graph.outofthis| && slot < |graph.outofthis[b]|
      modifies this`graph
      ensures graph == Unflagged(old(graph), b, slot, flags) && Paired(graph)
    {
      assert OutPaired(graph, b, slot);
      RelabelKeeps(graph, b, slot, Minus(graph.outofthis[b][slot].bits, flags));
      var edge := graph.outofthis[b][slot];
      var outs := graph.outofthis[b][slot := edge.(bits := Minus(edge.bits, flags))];
      var twin := graph.intothis[edge.point][edge.reverseIndex];
      var ins := graph.intothis[edge.point][edge.reverseIndex := twin.(bits := Minus(twin.bits, flags))];
      graph := Graph(graph.intothis[edge.point := ins], graph.outofthis[b := outs]);
    }

    /** Heads after visit position `p` are processed. */
    ghost predicate At(p: int)
      reads this
    {
      Current(t, graph, irr, loops, p, copymap) && Num() == t.a && preorder == t.s.order
    }

    /** The queue of the head at visit position `p` holds blocks strictly below it. */
    ghost predicate Queued(p: nat)
      reads this
    {
      QueueIs(t, reachunder, mark, reach) && Collected(t.w, t.s, p, reach)
    }

    /** A block below the head joins the queue. */
    method PushReach(b: BlockId, ghost p: nat, ghost r: nat)
      requires FullSearch(t) && Queued(p) && p < r < |t.s.order| && p in Chain(t.s.t.par, r) && b == t.s.order[r]
      requires LeadsBack(t.w, t.s, p, r)
      modifies this`reachunder, this`mark, this`reach
      ensures Queued(p) && reachunder == old(reachunder) + [b] && reach == old(reach) + {r}
    {
      hide FullSearch, QueueIs;
      QueuePush(t, reachunder, mark, reach, r);
      reachunder := reachunder + [b];
      mark := mark[b := true];
      reach := reach + {r};
    }

    /** The queue starts with the sources of the head's back edges. */
    method CollectSources(head: BlockId, ghost p: nat)
      requires At(p) && Queued(p) && p < |t.s.order| && head == t.s.order[p] && head in t.w.blocks && head < |graph.intothis|
      modifies this`reachunder, this`mark, this`reach
      ensures At(p) && Queued(p) && SourcesUpTo(t, graph, loops, head, |graph.intothis[head]|, reach)
    {
      hide Current, QueueIs, Collected, SourcesUpTo;
      var slot := 0;
      assert SourcesUpTo(t, graph, loops, head, 0, reach) by { NoSourcesYet(t, graph, loops, head, reach); }
      while slot < |graph.intothis[head]|
        invariant 0 <= slot <= |graph.intothis[head]|
        invariant At(p) && Queued(p) && SourcesUpTo(t, graph, loops, head, slot, reach)
      {
        CollectSource(head, slot, p);
        slot := slot + 1;
      }
    }

    method CollectSource(head: BlockId, slot: nat, ghost p: nat)
      requires At(p) && Queued(p) && p < |t.s.order| && head == t.s.order[p] && head in t.w.blocks && head < |graph.intothis|
      requires slot < |graph.intothis[head]| && SourcesUpTo(t, graph, loops, head, slot, reach)
      modifies this`reachunder, this`mark, this`reach
      ensures At(p) && Queued(p) && SourcesUpTo(t, graph, loops, head, slot + 1, reach)
    {
      hide Current, QueueIs, Collected, SourcesUpTo, FullSearch;
      ghost var before := reach;
      var edge := graph.intothis[head][slot];
      if edge.bits.back && edge.point != head {
        SourceRepIs(t, graph, irr, loops, p, copymap, head, slot);
        SourceBelow(t, graph, irr, loops, p, copymap, slot);
        CurrentComplete(t, graph, irr, loops, p, copymap);
        var ymap := copymap[edge.point];
        PushReach(ymap, p, SourceRep(t, graph, loops, head, slot));
      }
      SourcesNext(t, graph, loops, head, slot, before, reach);
    }

    ghost predicate Drain(p: nat, count: nat, member: BlockId, slot: nat)
      reads this
    {
      && Draining(t, graph, irr, loops, p, copymap, reachunder, mark, reach, count, member, slot)
      && Num() == t.a && preorder == t.s.order
    }

    /** The in-edge comes from outside the head's subtree. */
    method CutEdge(member: BlockId, slot: nat, ghost p: nat, ghost count: nat) returns (rebuild: bool)
      requires Drain(p, count, member, slot) && member < |graph.intothis| && slot < |graph.intothis[member]| && Paired(graph)
      requires ReadsEdge(t, graph, loops, p, copymap, mark, reach, member, slot) && !graph.intothis[member][slot].bits.irreducible
      requires p !in Chain(t.s.t.par, SourceRep(t, graph, loops, member, slot))
      modifies this`graph, this`irr
      ensures Drain(p, count, member, slot + 1) && !rebuild && |irr| == |old(irr)| + 1
      ensures |graph.intothis| == |old(graph.intothis)| && |graph.intothis[member]| == |old(graph.intothis[member])|
    {
      hide Draining, FullSearch, Paired, SlotDone;
      rebuild := false;
      DrainCuts(t, graph, irr, loops, p, copymap, reachunder, mark, reach, count, member, slot);
      var source, edgeout := graph.intothis[member][slot].point, graph.intothis[member][slot].reverseIndex;
      RelabelledSizes(graph, source, edgeout);
      CutFlags(graph, member, slot);
      hide ReadsEdge, Flagged, Unflagged, SameEdges;
      ghost var g' := Relabelled(graph, source, edgeout);
      SetOutEdgeFlag(source, edgeout, IRREDUCIBLE);
      if graph.intothis[member][slot].bits.tree {
        rebuild := true;
      } else {
        ClearOutEdgeFlag(source, edgeout, Or(CROSS_EDGE, FORWARD_EDGE));
      }
      irr := irr + {Edge(source, edgeout)};
      assert graph == g';
      assert SameEnds(old(graph).intothis[member], graph.intothis[member]);
    }

    /** The source's copy is below the head: it is queued unless it is the head or queued already. */
    method FollowSource(head: BlockId, member: BlockId, slot: nat, yprime: BlockId, ghost p: nat, ghost count: nat)
      requires Drain(p, count, member, slot) && member < |graph.intothis| && slot < |graph.intothis[member]|
      requires ReadsEdge(t, graph, loops, p, copymap, mark, reach, member, slot) && head == t.s.order[p]
      requires yprime == t.s.order[SourceRep(t, graph, loops, member, slot)]
      requires p in Chain(t.s.t.par, SourceRep(t, graph, loops, member, slot))
      modifies this`reachunder, this`mark, this`reach
      ensures Drain(p, count, member, slot + 1)
      ensures old(reachunder) <= reachunder && |reach| >= |old(reach)| && (|reach| == |old(reach)| ==> reachunder == old(reachunder))
    {
      hide Draining, FullSearch, Paired, SlotDone;
      ghost var r := SourceRep(t, graph, loops, member, slot);
      if !mark[yprime] && yprime != head {
        ChainBound(t.s.t.par, r);
        RepLeads(t, graph, irr, loops, p, copymap, reachunder, mark, reach, count, member, slot);
        DrainPushes(t, graph, irr, loops, p, copymap, reachunder, mark, reach, count, member, slot, r, yprime);
        reachunder := reachunder + [yprime];
        mark := mark[yprime := true];
        reach := reach + {r};
      } else {
        LabelledDone(t, graph, loops, p, member, slot, reach);
        DrainPasses(t, graph, irr, loops, p, copymap, reachunder, mark, reach, count, member, slot);
      }
    }

    /** One in-edge of a queued block: skipped, labelled irreducible, or followed to its source's copy. */
    method DrainSlot(head: BlockId, member: BlockId, slot: nat, ghost p: nat, ghost count: nat) returns (found: nat, rebuild: bool)
      requires Drain(p, count, member, slot) && p < |t.s.order| && head == t.s.order[p]
      requires member < |graph.intothis| && slot < |graph.intothis[member]|
      modifies this`graph, this`irr, this`reachunder, this`mark, this`reach
      ensures Drain(p, count, member, slot + 1) && !rebuild && |irr| == |old(irr)| + found
      ensures |graph.intothis| == |old(graph.intothis)| && |graph.intothis[member]| == |old(graph.intothis[member])|
      ensures old(reachunder) <= reachunder && |reach| >= |old(reach)| && (|reach| == |old(reach)| ==> reachunder == old(reachunder))
    {
      hide Draining, FullSearch, Paired, Relabelled, SlotDone;
      DrainReads(t, graph, irr, loops, p, copymap, reachunder, mark, reach, count, member, slot);
      found, rebuild := 0, false;
      var edge := graph.intothis[member][slot];
      if edge.bits.irreducible {
        assert SlotDone(t, graph, loops, p, member, slot, reach) by { LabelledDone(t, graph, loops, p, member, slot, reach); }
        DrainPasses(t, graph, irr, loops, p, copymap, reachunder, mark, reach, count, member, slot);
      } else {
        var yprime := copymap[edge.point];
        if Outside(Num(), head, yprime) {
          found := 1;
          rebuild := CutEdge(member, slot, p, count);
        } else {
          FollowSource(head, member, slot, yprime, p, count);
        }
      }
    }

    ghost predicate DrainUpTo(p: nat, count: nat)
      reads this
    {
      && DrainedTo(t, graph, irr, loops, p, copymap, reachunder, mark, reach, count)
      && Num() == t.a && preorder == t.s.order
    }

    /** Every in-edge of one queued block. */
    method DrainMember(head: BlockId, count: nat, ghost p: nat) returns (found: nat, rebuild: bool)
      requires DrainUpTo(p, count) && count < |reachunder| && p < |t.s.order| && head == t.s.order[p]
      modifies this`graph, this`irr, this`reachunder, this`mark, this`reach
      ensures DrainUpTo(p, count + 1) && !rebuild && |irr| == |old(irr)| + found
      ensures |reach| >= |old(reach)| && (|reach| == |old(reach)| ==> reachunder == old(reachunder))
    {
      hide DrainedTo, Draining;
      StartMember(t, graph, irr, loops, p, copymap, reachunder, mark, reach, count);
      found, rebuild := 0, false;
      var member, slot := reachunder[count], 0;
      var sizein := |graph.intothis[member]|;
      while slot < sizein
        invariant 0 <= slot <= sizein && member < |graph.intothis| && |graph.intothis[member]| == sizein
        invariant Drain(p, count, member, slot) && !rebuild && |irr| == |old(irr)| + found
        invariant old(reachunder) <= reachunder && |reach| >= |old(reach)|
        invariant |reach| == |old(reach)| ==> reachunder == old(reachunder)
      {
        var more, again := DrainSlot(head, member, slot, p, count);
        found, rebuild := found + more, rebuild || again;
        slot := slot + 1;
      }
      EndMember(t, graph, irr, loops, p, copymap, reachunder, mark, reach, count, member);
    }

    /** The whole queue, which grows on the way. */
    method DrainQueue(head: BlockId, ghost p: nat) returns (found: nat, rebuild: bool)
      requires DrainUpTo(p, 0) && p < |t.s.order| && head == t.s.order[p]
      modifies this`graph, this`irr, this`reachunder, this`mark, this`reach
      ensures DrainUpTo(p, |reachunder|) && !rebuild && |irr| == |old(irr)| + found
    {
      hide DrainedTo;
      found, rebuild := 0, false;
      var index: nat := 0;
      ReachFits(t, graph, irr, loops, p, copymap, reachunder, mark, reach, index);
      while index < |reachunder|
        invariant index <= |reachunder| && DrainUpTo(p, index) && !rebuild && |irr| == |old(irr)| + found
        decreases |t.s.order| - |reach|, |reachunder| - index
      {
        var more, again := DrainMember(head, index, p);
        found, rebuild := found + more, rebuild || again;
        index := index + 1;
        ReachFits(t, graph, irr, loops, p, copymap, reachunder, mark, reach, index);
      }
    }

    /** The collected blocks lose their marks and become copies of the head. */
    method CollapseInto(head: BlockId)
      requires forall q :: 0 <= q < |reachunder| ==> reachunder[q] < |mark| == |copymap|
      modifies this`mark, this`copymap
      ensures copymap == CopiedTo(old(copymap), reachunder, head, |reachunder|) && |mark| == |old(mark)|
      ensures forall b :: 0 <= b < |mark| && mark[b] ==> old(mark)[b] && b !in reachunder
    {
      var q := 0;
      assert copymap == CopiedTo(copymap, reachunder, head, 0);
      while q < |reachunder|
        invariant 0 <= q <= |reachunder| && |mark| == |old(mark)| && |copymap| == |old(copymap)|
        invariant copymap == CopiedTo(old(copymap), reachunder, head, q)
        invariant forall b :: 0 <= b < |mark| && mark[b] ==> old(mark)[b] && b !in reachunder[..q]
      {
        assert reachunder[..q + 1] == reachunder[..q] + [reachunder[q]];
        mark := mark[reachunder[q] := false];
        copymap := copymap[reachunder[q] := head];
        q := q + 1;
      }
      assert reachunder[..q] == reachunder;
    }

    /** One head: its loop body is collected, edges into it from outside are labelled, and it is collapsed. */
    method ProcessHead(head: BlockId, ghost p: nat) returns (found: nat, rebuild: bool)
      requires At(p) && p < |t.s.order| && head == t.s.order[p] && reachunder == [] && QueueIs(t, [], mark, {})
      modifies this`graph, this`irr, this`reachunder, this`mark, this`reach, this`copymap, this`loops
      ensures At(p - 1) && reachunder == [] && QueueIs(t, [], mark, {}) && !rebuild && |irr| == |old(irr)| + found
    {
      hide Current, QueueIs, SourcesUpTo, FullSearch, DrainedTo, Collapse, CopiedTo;
      CurrentComplete(t, graph, irr, loops, p, copymap);
      HeadInside(t, graph, irr, p);
      reach := {};
      CollectSources(head, p);
      StartDrain(t, graph, irr, loops, p, copymap, reachunder, mark, reach);
      found, rebuild := DrainQueue(head, p);
      EndDrain(t, graph, irr, loops, p, copymap, reachunder, mark, reach);
      ghost var marked := mark;
      CollapseInto(head);
      MarksCleared(t, reachunder, marked, reach, mark);
      loops := Collapse(loops, p, reach);
      reachunder := [];
    }

    /** Labels irreducible edges, from the last visited head to the first. No tree edge is ever labelled. */
    method LabelIrreducible() returns (found: nat, rebuild: bool)
      requires At(|preorder| - 1) && reachunder == [] && QueueIs(t, [], mark, {}) && irr == {}
      modifies this`graph, this`irr, this`reachunder, this`mark, this`reach, this`copymap, this`loops
      ensures At(-1) && QueueIs(t, [], mark, {}) && !rebuild && found == |irr|
    {
      hide Current, QueueIs;
      found, rebuild := 0, false;
      var index := |preorder| - 1;
      while index >= 0
        invariant -1 <= index < |preorder| && At(index) && reachunder == [] && QueueIs(t, [], mark, {})
        invariant !rebuild && found == |irr|
      {
        var head := preorder[index];
        index := index - 1;
        var more, again := ProcessHead(head, index + 1);
        found, rebuild := found + more, rebuild || again;
      }
    }

    ghost predicate NoMarks()
      reads this
    {
      |mark| == |graph.outofthis| && forall b :: b in Blocks() && b < |mark| ==> !mark[b]
    }

    /** What the labels say when loops are structured: the tree roots, all of them listed, reach every
        block, and without the edges in `irr`, which are the irreducible ones, every back edge leads
        to a block that every walk from those roots to its source passes. */
    ghost predicate Structured()
      reads this
    {
      && Reducible(graph, Blocks(), RootSetOf(s)) && NoMarks() && LabelsSettled(graph, Blocks(), Num())
      && TreesEntered(graph, Blocks(), index, RootSetOf(s))
      && Reaches(World(Points(graph), Blocks()), RootSetOf(s)) && (forall r :: r in TreeRoots(s) ==> r in rootlist)
      && NoRepeats(rootlist) && (forall r :: r in rootlist ==> r in Blocks())
      && forall b, k :: b in Blocks() && b < |graph.outofthis| && 0 <= k < |graph.outofthis[b]| ==>
           (graph.outofthis[b][k].bits.irreducible <==> Edge(b, k) in irr)
    }

    /** Labels irreducible edges over a spanning tree. Only forward and cross edges are ever
        labelled, so the tree never has to be rebuilt; and none is, exactly when the graph is
        reducible to begin with. */
    method FindIrreducible() returns (found: nat, rebuild: bool)
      requires Spanned() && NoMarks()
      modifies this`graph, this`irr, this`reachunder, this`mark, this`reach, this`copymap, this`loops, this`t
      ensures !rebuild && found == |irr| && Structured() && Whole() && OnlyIrreducible(old(graph), graph)
      ensures found == 0 <==> Reducible(old(graph), Blocks(), RootSetOf(s))
    {
      hide Current, QueueIs, FullSearch, Agrees, LabelsAre, OnlyIrreducible, Reducible, Separate, Paired, Points, LabelsSettled,
        Reaches, TreeRoots, TreesEntered;
      t := Spanning(w, |list|, s, graph, Num());
      irr, reachunder, loops := {}, [], NoLoops(|s.order|);
      AgreesFull(w, |list|, base, s, graph, Num(), Vecs());
      assert forall k :: 0 <= k < |list| ==> list[k] in Blocks();
      StartCurrent(t, copymap);
      EmptyQueue(t, mark);
      found, rebuild := LabelIrreducible();
      FinderEnds(t, graph, irr, loops, copymap, mark);
    }

    // ----- Loop edges

    /** The list is in the order of the indices. */
    ghost predicate Listing()
      reads this
    {
      forall k :: 0 <= k < |list| ==> list[k] < |index| && index[list[k]] == k
    }

    /** A search that follows no loop edge and labels one whenever it closes a cycle. */
    method CalcLoop() returns (added: int)
      requires Whole() && NoMarks() && Ascends(graph, Blocks(), index) && |mark2| == |mark|
      requires forall b :: b in Blocks() && b < |mark2| ==> !mark2[b]
      modifies this`mark, this`mark2
      ensures added == 0 && NoMarks() && |mark2| == |mark|
    {
      hide Paired, Ascends;
      added := 0;
      if list == [] { return; }
      assert list[0] in Blocks();
      var path, state := [list[0]], [0];
      mark, mark2 := mark[list[0] := true], mark2[list[0] := true];
      while path != []
        invariant OpenPath(Blocks(), index, path, mark, mark2) && |path| == |state| && added == 0
        invariant |mark| == |graph.outofthis|
        decreases |Blocks()| - |MarkedIn(Blocks(), mark)|, |path|, Left(path, state)
      {
        MarkedFits(Blocks(), mark);
        var more;
        path, state, more := CalcStep(path, state);
        added := added + more;
        MarkedFits(Blocks(), mark);
      }
      ClearMarks();
    }

    ghost function Left(path: seq<BlockId>, state: seq<nat>): nat
      reads this
    {
      if |path| == |state| > 0 && path[|path| - 1] < |graph.outofthis| then
        var left := |graph.outofthis[path[|path| - 1]]| - state[|path| - 1];
        if left > 0 then left else 0
      else 0
    }

    /** One turn: no edge it looks at closes a cycle. */
    method CalcStep(path: seq<BlockId>, state: seq<nat>) returns (path': seq<BlockId>, state': seq<nat>, added: int)
      requires Whole() && Ascends(graph, Blocks(), index) && path != [] && |path| == |state|
      requires OpenPath(Blocks(), index, path, mark, mark2) && |mark| == |graph.outofthis|
      modifies this`mark, this`mark2
      ensures added == 0 && |path'| == |state'| && OpenPath(Blocks(), index, path', mark, mark2) && |mark| == |graph.outofthis|
      ensures |MarkedIn(Blocks(), mark)| > |MarkedIn(Blocks(), old(mark))| ||
              (mark == old(mark) && (|path'| < |path| || (path' == path && Left(path', state') < Left(path, state))))
    {
      hide Paired, Ascends;
      added := 0;
      var m := |path| - 1;
      var bl, slot := path[m], state[m];
      assert bl in Blocks();
      if slot >= |graph.outofthis[bl]| {
        PathPops(Blocks(), index, path, mark, mark2);
        mark2 := mark2[bl := false];
        path', state' := path[..m], state[..m];
      } else {
        path', state' := path, state[m := slot + 1];
        if !graph.outofthis[bl][slot].bits.loopEdge {
          var nextbl := graph.outofthis[bl][slot].point;
          assert nextbl in Blocks();
          NextIsNew(graph, Blocks(), index, path, mark, mark2, slot);
          added := if mark2[nextbl] then 1 else 0;
          if !mark2[nextbl] && !mark[nextbl] {
            MarkGrows(Blocks(), mark, nextbl);
            mark, mark2 := mark[nextbl := true], mark2[nextbl := true];
            path', state' := path + [nextbl], state' + [0];
          }
        }
      }
    }

    method ClearMarks()
      requires |mark| == |mark2| == |graph.outofthis| && forall k :: 0 <= k < |list| ==> list[k] < |mark|
      modifies this`mark, this`mark2
      ensures NoMarks() && |mark2| == |mark|
    {
      var i := 0;
      while i < |list|
        invariant 0 <= i <= |list| && |mark| == |mark2| == |graph.outofthis|
        invariant forall k :: 0 <= k < i ==> !mark[list[k]]
      {
        mark, mark2 := mark[list[i] := false], mark2[list[i] := false];
        i := i + 1;
      }
    }

    /** One turn of the loop that structures loops: spanning tree, irreducible edges, loop edges.
        `again` says whether a tree edge was labelled and another turn is needed: it never is.
        The loop edges labelled by the spanning tree already break every cycle. */
    method StructureLoops() returns (ok: bool, again: bool, irreducible: nat, added: int)
      requires Whole() && preorder == [] && rootlist == [] && NoMarks() && |mark2| == |mark|
      requires forall b :: b in Blocks() && b < |mark2| ==> !mark2[b]
      modifies this
      ensures ok && !again && added == 0
      ensures Blocks() == old(Blocks()) && |list| == |old(list)|
      ensures list != [] ==> Structured() && Listing() && irreducible == |irr|
      ensures list != [] ==> (TreesAlone(rootlist, s) <==> !RootGoesStale(old(graph), old(list)))
      ensures list != [] ==> rootlist != [] && IsEntry(old(graph), old(list), rootlist[0])
      ensures list != [] ==> (list[0] == rootlist[0] <==> !RootGoesStale(old(graph), old(list)))
      ensures Whole() && Ascends(graph, Blocks(), index)
    {
      hide Paired, Separate, Agrees, Points, TreeRoots, Classified, SubtreesExact, Reducible, Ascends, OnlyIrreducible, SameBut, SameEdges,
        LabelsSettled, Reaches, TreesEntered, TreesAlone, RootGoesStale, IsEntry;
      again, irreducible, added := false, 0, 0;
      ok := FindSpanningTree();
      SameButSizes(old(graph), graph, SEARCH_FLAGS);
      if ok {
        ghost var g1 := graph;
        OnlySelf(graph);
        if list != [] {
          irreducible, again := FindIrreducible();
        }
        if !again {
          ClassifiedAscends(g1, graph, Blocks(), Num());
          if irreducible > 0 {
            added := CalcLoop();
          }
        }
      }
    }
  }

  // ----- What the other passes start from

  /** What the structured graph gives the dominator solver, on the same list and edges and with the
      roots found: distinct listed roots, the first listed block among them, and the order it needs. */
  lemma StructuredForDominators(bg: BlockGraph)
    requires bg.Structured() && bg.Whole() && bg.Listing() && bg.list != []
    ensures NoRepeats(bg.rootlist) && bg.list[0] in bg.rootlist
    ensures forall k :: 0 <= k < |bg.rootlist| ==> bg.rootlist[k] in bg.list
    ensures SolverReady(bg.graph, bg.list, bg.index, bg.rootlist)
  {
    hide SolverReady, Reducible, Reaches, LabelsSettled, TreeRoots, Paired, Separate;
    assert TreesEntered(bg.graph, bg.Blocks(), bg.index, set r | r in bg.rootlist);
    RootsOrder(bg.graph, bg.list, bg.index, bg.rootlist);
    forall k | 0 <= k < |bg.rootlist| ensures bg.rootlist[k] in bg.list { assert bg.rootlist[k] in bg.Blocks(); }
  }

  /** The roots of a trace: one loop head, or blocks without in-edges. */
  ghost predicate TraceRoots(g: Graph, roots: seq<BlockId>) {
    && NoRepeats(roots) && |g.intothis| == |g.outofthis| && (forall i :: 0 <= i < |roots| ==> roots[i] < |g.intothis|)
    && (|roots| <= 1 || forall i :: 0 <= i < |roots| ==> |g.intothis[roots[i]]| == 0)
  }

  /** Ranks that put the roots first. */
  ghost function RootsFirst(rank: seq<nat>, roots: seq<BlockId>): seq<nat> {
    if |roots| <= 1 then rank else seq(|rank|, b requires 0 <= b < |rank| => if b in roots then 0 else rank[b] + 1)
  }

  lemma RootsFirstRanked(g: Graph, rank: seq<nat>, roots: seq<BlockId>)
    requires Paired(g) && Ranked(g, rank) && |rank| == |g.outofthis| && TraceRoots(g, roots)
    ensures Setting(g, RootsFirst(rank, roots), roots)
  {
    if |roots| > 1 {
      forall e | IsEdge(g, e) ensures Target(g, e) !in roots { assert OutPaired(g, e.source, e.slot); }
    }
  }

  /** When every block with out-edges is listed, block indices rank the loop-DAG for a trace from its
      roots, and tell the exits of traces apart. */
  lemma StructuredForTrace(bg: BlockGraph, roots: seq<BlockId>)
    requires bg.Structured() && bg.Whole() && bg.Listing() && TraceRoots(bg.graph, roots)
    requires forall b :: 0 <= b < |bg.graph.outofthis| && bg.graph.outofthis[b] != [] ==> b in bg.Blocks()
    ensures Setting(bg.graph, RootsFirst(RankOf(bg.index), roots), roots) && BadEdges.IndexedApart(bg.graph, bg.index)
  {
    forall b | b in bg.Blocks() ensures b < |bg.index| && bg.index[b] >= 0 { }
    LoopDagRanked(bg.graph, bg.Blocks(), bg.Num());
    RootsFirstRanked(bg.graph, RankOf(bg.index), roots);
    forall u, v, u', v' | Flows(bg.graph, u, v) && Flows(bg.graph, u', v') && BadEdges.IndexOf(bg.index, v) == BadEdges.IndexOf(bg.index, v')
      ensures v == v'
    {
      assert v in bg.Blocks() && v' in bg.Blocks();
    }
  }

  /** Each edge is where it was, and in the loop-DAG only if it was. */
  ghost predicate FewerInDag(g: Graph, g': Graph) {
    && |g'.outofthis| == |g.outofthis|
    && forall e :: IsEdge(g', e) ==> IsEdge(g, e) && Target(g', e) == Target(g, e)
  }

  /** Labels that take edges out of the loop-DAG, such as goto and loop-exit marks, leave the graph ready for a trace. */
  lemma LabelsKeepSetting(g: Graph, g': Graph, rank: seq<nat>, roots: seq<BlockId>, index: seq<int>)
    requires Setting(g, rank, roots) && BadEdges.IndexedApart(g, index) && Paired(g') && FewerInDag(g, g')
    ensures Setting(g', rank, roots) && BadEdges.IndexedApart(g', index)
  {
    forall u, v | Flows(g', u, v) ensures Flows(g, u, v) {
      var e :| IsEdge(g', e) && e.source == u && Target(g', e) == v;
    }
    hide Flows;
    forall u, v, u', v' | Flows(g', u, v) && Flows(g', u', v') && BadEdges.IndexOf(index, v) == BadEdges.IndexOf(index, v')
      ensures v == v'
    {
      assert Flows(g, u, v) && Flows(g, u', v');
    }
  }
}
