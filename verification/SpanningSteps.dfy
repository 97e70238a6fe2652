/** The vectors and tables of the spanning-tree pass, and how each of its steps keeps them in
    agreement with the search. */
module SpanningSteps {
  import opened FlowGraph
  import opened LoopDag
  import opened EdgeLabels
  import opened SpanningTheory
  import opened SpanningSearch
  import opened SpanningRoots
  import opened RootLists
  import opened SpanningFacts

  // ----- Labels written so far

  function KindFlags(kind: Kind): EdgeLabel {
    match kind
    case Tree => TREE_EDGE
    case Forward => FORWARD_EDGE
    case Cross => CROSS_EDGE
    case Back => Or(BACK_EDGE, LOOP_EDGE)
  }

  ghost function FlagsAt(s: Search, i: nat, k: nat): EdgeLabel
    requires i < |s.kinds|
  {
    if k < |s.kinds[i]| then KindFlags(s.kinds[i][k]) else NO_FLAG
  }

  /** Scanned edges carry the flags of their kind on top of their label in `base`; the others
      are as in `base`. */
  ghost predicate LabelsMatch(w: World, base: Graph, g: Graph, s: Search) {
    && Paired(g) && SameEdges(base, g) && Sized(w, s) && |g.outofthis| == |w.outs|
    && (forall i, k :: 0 <= i < |s.order| && s.order[i] < |g.outofthis| && 0 <= k < |g.outofthis[s.order[i]]| ==>
          SlotLabelled(base, g, s, i, k))
    && (forall b :: 0 <= b < |g.outofthis| && (b !in w.blocks || s.visit[b] == -1) ==> g.outofthis[b] == base.outofthis[b])
  }

  ghost predicate SlotLabelled(base: Graph, g: Graph, s: Search, i: nat, k: nat)
    requires i < |s.order| == |s.kinds|
  {
    && s.order[i] < |g.outofthis| == |base.outofthis|
    && k < |g.outofthis[s.order[i]]| == |base.outofthis[s.order[i]]|
    && g.outofthis[s.order[i]][k].bits == Or(base.outofthis[s.order[i]][k].bits, FlagsAt(s, i, k))
  }

  lemma LabelScan(w: World, base: Graph, g: Graph, s: Search, i: nat, kind: Kind)
    requires LabelsMatch(w, base, g, s) && VisitsMatch(w, s)
    requires i < |s.order| && s.order[i] < |g.outofthis| && |s.kinds[i]| < |g.outofthis[s.order[i]]|
    ensures LabelsMatch(w, base, Flagged(g, s.order[i], |s.kinds[i]|, KindFlags(kind)), Scan(s, i, kind))
  {
    hide OutPaired, InPaired, Paired;
    var b, slot := s.order[i], |s.kinds[i]|;
    assert SlotLabelled(base, g, s, i, slot);
    RelabelKeeps(g, b, slot, Or(g.outofthis[b][slot].bits, KindFlags(kind)));
    var g' := Relabel(g, b, slot, Or(g.outofthis[b][slot].bits, KindFlags(kind)));
    var s' := Scan(s, i, kind);
    assert SameEdges(base, g') by { SameEdgesTrans(base, g, g'); }
    forall j, k | 0 <= j < |s'.order| && s'.order[j] < |g'.outofthis| && 0 <= k < |g'.outofthis[s'.order[j]]|
      ensures SlotLabelled(base, g', s', j, k)
    {
      assert SlotLabelled(base, g, s, j, k);
      assert s.order[j] == b ==> j == i;
    }
    forall c | 0 <= c < |g.outofthis| && (c !in w.blocks || s.visit[c] == -1)
      ensures g'.outofthis[c] == base.outofthis[c]
    {
      assert c != b;
    }
  }

  lemma LabelVisit(w: World, base: Graph, g: Graph, s: Search, b: BlockId, slot: nat)
    requires LabelsMatch(w, base, g, s) && VisitsMatch(w, s) && b in w.blocks && b < |s.visit| && s.visit[b] == -1
    ensures LabelsMatch(w, base, g, Visit(s, b, slot))
  {
    assert |base.outofthis| == |g.outofthis|;
    hide OutPaired, InPaired, Paired, SameEdges;
    var s' := Visit(s, b, slot);
    forall j, k | 0 <= j < |s'.order| && s'.order[j] < |g.outofthis| && 0 <= k < |g.outofthis[s'.order[j]]|
      ensures SlotLabelled(base, g, s', j, k)
    {
      if j < |s.order| {
        assert SlotLabelled(base, g, s, j, k);
      } else {
        assert s'.order[j] == b && g.outofthis[b] == base.outofthis[b];
        assert s'.kinds[j] == [];
      }
    }
  }

  // ----- The stacks and numbers of the search, by block

  /** The stacks hold the open blocks and how many of their out-edges are scanned. */
  ghost predicate StackMatches(s: Search, state: seq<BlockId>, istate: seq<nat>) {
    && |state| == |istate| == |s.t.stack|
    && forall k :: 0 <= k < |state| ==>
         s.t.stack[k] < |s.order| && s.t.stack[k] < |s.kinds| &&
         state[k] == s.order[s.t.stack[k]] && istate[k] == |s.kinds[s.t.stack[k]]|
  }

  lemma StackVisit(s: Search, state: seq<BlockId>, istate: seq<nat>, b: BlockId, slot: nat)
    requires StackMatches(s, state, istate) && b < |s.visit| && |s.order| == |s.t.par| == |s.kinds|
    ensures StackMatches(Visit(s, b, slot), state + [b], istate + [0])
  {
  }

  lemma StackScan(s: Search, state: seq<BlockId>, istate: seq<nat>, m: nat, kind: Kind)
    requires StackMatches(s, state, istate) && m < |state| && Ascending(s.t.stack)
    ensures StackMatches(Scan(s, s.t.stack[m], kind), state, istate[m := istate[m] + 1])
  {
    var i := s.t.stack[m];
    assert forall k :: 0 <= k < |state| && k != m ==> s.t.stack[k] != i;
  }

  lemma StackDescend(s: Search, state: seq<BlockId>, istate: seq<nat>, b: BlockId)
    requires StackMatches(s, state, istate) && b < |s.visit| && |s.order| == |s.t.par| == |s.kinds| && state != []
    requires Ascending(Enter(s.t).stack)
    ensures StackMatches(Descend(s, b), state + [b], istate[|state| - 1 := istate[|state| - 1] + 1] + [0])
  {
    var m, slot := |state| - 1, |s.kinds[Cur(s)]|;
    StackVisit(s, state, istate, b, slot);
    StackScan(Visit(s, b, slot), state + [b], istate + [0], m, Tree);
    assert (istate + [0])[m := istate[m] + 1] == istate[m := istate[m] + 1] + [0];
  }

  /** Reverse post-order numbers (-1 while open or unvisited) and descendant counts. */
  ghost predicate NumbersMatch(w: World, s: Search, index: seq<int>, numdesc: seq<int>) {
    && Sized(w, s) && |index| == |numdesc| == |s.visit|
    && (forall i :: 0 <= i < |s.order| ==>
          s.order[i] < |index| && index[s.order[i]] == s.index[i] && numdesc[s.order[i]] == s.t.nd[i])
    && (forall b :: b in w.blocks && b < |index| && s.visit[b] == -1 ==> index[b] == -1)
  }

  lemma NumbersVisit(w: World, s: Search, index: seq<int>, numdesc: seq<int>, b: BlockId, slot: nat)
    requires NumbersMatch(w, s, index, numdesc) && VisitsMatch(w, s)
    requires b in w.blocks && b < |s.visit| && s.visit[b] == -1
    ensures NumbersMatch(w, Visit(s, b, slot), index, numdesc[b := 1])
  {
  }

  /** The numbers after the innermost open block closes. */
  lemma NumbersClose(w: World, n: nat, s: Search, index: seq<int>, numdesc: seq<int>)
    requires NumbersMatch(w, s, index, numdesc) && VisitsMatch(w, s) && StackTiles(s.t) && s.t.stack != [] && |s.rpost| < n
    ensures NumbersMatch(w, Close(n, s), index[s.order[Cur(s)] := n - |s.rpost| - 1],
                         if |s.t.stack| == 1 then numdesc
                         else var p := s.order[s.t.stack[|s.t.stack| - 2]];
                              numdesc[p := numdesc[p] + numdesc[s.order[Cur(s)]]])
  {
    hide Tiled;
  }

  /** The closed blocks fill the end of the reverse post-order. */
  ghost predicate OutputMatches(n: nat, s: Search, rpostcount: int, rpostorder: seq<Option<BlockId>>) {
    && |rpostorder| == n && rpostcount == n - |s.rpost| >= 0
    && forall x :: rpostcount <= x < n ==> OutputAt(s, rpostorder[x], x - rpostcount)
  }

  ghost predicate OutputAt(s: Search, entry: Option<BlockId>, k: nat)
    requires k < |s.rpost|
  {
    s.rpost[k] < |s.order| && entry == Some(s.order[s.rpost[k]])
  }

  lemma OutputClose(n: nat, s: Search, rpostcount: int, rpostorder: seq<Option<BlockId>>)
    requires OutputMatches(n, s, rpostcount, rpostorder) && StackTiles(s.t) && s.t.stack != [] && rpostcount > 0
    requires |s.order| == |s.t.nd| == |s.index|
    ensures OutputMatches(n, Close(n, s), rpostcount - 1, rpostorder[rpostcount - 1 := Some(s.order[Cur(s)])])
  {
    hide Tiled;
    var s', out := Close(n, s), rpostorder[rpostcount - 1 := Some(s.order[Cur(s)])];
    forall x | rpostcount - 1 <= x < n
      ensures OutputAt(s', out[x], x - (rpostcount - 1))
    {
      if x >= rpostcount {
        assert OutputAt(s, rpostorder[x], x - rpostcount);
      } else {
        assert s.t.stack[|s.t.stack| - 1] < |s.t.nd|;
      }
    }
  }

  /** The search's own vectors. */
  datatype Stacks = Stacks(preorder: seq<BlockId>, state: seq<BlockId>, istate: seq<nat>, rpostcount: int,
                           rpostorder: seq<Option<BlockId>>)

  ghost predicate Agrees(w: World, n: nat, base: Graph, s: Search, g: Graph, a: Numbers, v: Stacks) {
    && Closed(w) && |w.blocks| == n && w.outs == Points(g)
    && SearchInv(w, n, s) && s.visit == a.visitcount && s.order == v.preorder
    && StackMatches(s, v.state, v.istate) && NumbersMatch(w, s, a.index, a.numdesc)
    && OutputMatches(n, s, v.rpostcount, v.rpostorder) && LabelsMatch(w, base, g, s) && Unmarked(w, base)
  }

  /** The flags the search writes, and those that depend on it. */
  const SEARCH_FLAGS := NO_FLAG.(irreducible := true, tree := true, forward := true, cross := true, back := true,
                               loopEdge := true, loopExit := true)

  /** The search labels edges with every flag but goto and default-switch. */
  lemma SearchFlagsAre(f: Flag)
    ensures Has(SEARCH_FLAGS, f) <==> f != GotoFlag && f != DefaultSwitchFlag
  {
  }

  ghost predicate Unmarked(w: World, g: Graph) {
    forall b, k :: b in w.blocks && b < |g.outofthis| && 0 <= k < |g.outofthis[b]| ==>
      g.outofthis[b][k].bits == Minus(g.outofthis[b][k].bits, SEARCH_FLAGS)
  }

  ghost function PushedNumbers(a: Numbers, b: BlockId, at: nat): Numbers {
    a.(visitcount := Put(a.visitcount, b, at), numdesc := Put(a.numdesc, b, 1))
  }

  ghost function PushedStacks(v: Stacks, b: BlockId): Stacks {
    v.(preorder := v.preorder + [b], state := v.state + [b], istate := v.istate + [0])
  }

  /** The innermost open block has one more out-edge scanned. */
  ghost function Advanced(v: Stacks): Stacks {
    if v.istate == [] then v
    else v.(istate := v.istate[|v.istate| - 1 := v.istate[|v.istate| - 1] + 1])
  }

  lemma StartAgrees(w: World, n: nat, base: Graph, s: Search, g: Graph, a: Numbers, v: Stacks, b: BlockId)
    requires Agrees(w, n, base, s, g, a, v) && v.state == [] && b in w.blocks && b < |a.visitcount| == |a.numdesc|
    requires a.visitcount[b] == -1
    ensures Agrees(w, n, base, Visit(s, b, 0), g, PushedNumbers(a, b, |v.preorder|), PushedStacks(v, b))
  {
    assert s.t.stack == [];
    RootKeeps(w, n, s, b);
    hide SearchInv, ScansMatch, DfsInv, PostMatches, Entered;
    StackVisit(s, v.state, v.istate, b, 0);
    NumbersVisit(w, s, a.index, a.numdesc, b, 0);
    LabelVisit(w, base, g, s, b, 0);
  }

  lemma TargetIn(w: World, b: BlockId, k: nat)
    requires Closed(w) && b in w.blocks && b < |w.outs| && k < |w.outs[b]|
    ensures w.outs[b][k] in w.blocks && w.outs[b][k] < |w.outs|
  {
    assert w.outs[b][k] in w.blocks;
  }

  /** The next out-edge of the innermost open block is not labelled irreducible and leads to a
      block of the graph; when that is visited, the numbers are its position and its index. */
  ghost predicate NextEdge(w: World, s: Search, g: Graph, a: Numbers)
    requires s.t.stack != [] && Sized(w, s) && Cur(s) < |s.order|
    requires s.order[Cur(s)] < |g.outofthis| == |w.outs|
    requires |s.kinds[Cur(s)]| < |g.outofthis[s.order[Cur(s)]]| == |w.outs[s.order[Cur(s)]]|
  {
    var e := g.outofthis[s.order[Cur(s)]][|s.kinds[Cur(s)]|];
    && !e.bits.irreducible && e.point == w.outs[s.order[Cur(s)]][|s.kinds[Cur(s)]|]
    && e.point in w.blocks && e.point < |a.visitcount| == |a.index|
    && a.visitcount[e.point] == Dest(w, s, Cur(s), |s.kinds[Cur(s)]|)
    && (a.visitcount[e.point] != -1 ==>
          0 <= a.visitcount[e.point] < |s.index| && a.index[e.point] == s.index[a.visitcount[e.point]])
    && s.order[Cur(s)] < |a.visitcount| && a.visitcount[s.order[Cur(s)]] == Cur(s)
  }

  /** `curbl` is the innermost open block and `edgenum` its next out-edge. */
  ghost predicate AtEdge(w: World, s: Search, g: Graph, a: Numbers, v: Stacks, curbl: BlockId, edgenum: nat) {
    && v.state != [] && |v.state| == |v.istate| == |s.t.stack| && Sized(w, s) && Cur(s) < |s.order|
    && v.state[|v.state| - 1] == curbl && v.istate[|v.state| - 1] == edgenum
    && s.order[Cur(s)] == curbl < |g.outofthis| == |w.outs| && |s.kinds[Cur(s)]| == edgenum
    && edgenum < |g.outofthis[curbl]| == |w.outs[curbl]|
    && NextEdge(w, s, g, a)
  }

  /** How an edge to a visited block is classified from the arena's numbers. */
  function KindFor(a: Numbers, curbl: BlockId, childbl: BlockId): Kind
    requires curbl < |a.visitcount| && childbl < |a.visitcount| == |a.index|
  {
    if a.index[childbl] == -1 then Back
    else if a.visitcount[curbl] < a.visitcount[childbl] then Forward
    else Cross
  }

  lemma NextTarget(w: World, s: Search, g: Graph, a: Numbers, v: Stacks, curbl: BlockId, edgenum: nat)
    requires AtEdge(w, s, g, a, v, curbl, edgenum)
    ensures curbl < |g.outofthis| && edgenum < |g.outofthis[curbl]| && !g.outofthis[curbl][edgenum].bits.irreducible
    ensures var childbl := g.outofthis[curbl][edgenum].point;
            && curbl < |a.visitcount| && childbl < |a.visitcount| == |a.index|
            && (a.visitcount[childbl] != -1 ==> KindIs(w, s, KindFor(a, curbl, childbl)))
  {
  }

  /** An edge to a visited block is labelled and counted as scanned. */
  lemma ScanAgrees(w: World, n: nat, base: Graph, s: Search, g: Graph, a: Numbers, v: Stacks, curbl: BlockId, edgenum: nat,
                   kind: Kind)
    requires Agrees(w, n, base, s, g, a, v) && AtEdge(w, s, g, a, v, curbl, edgenum) && KindIs(w, s, kind)
    ensures Agrees(w, n, base, Scan(s, Cur(s), kind), Flagged(g, curbl, edgenum, KindFlags(kind)), a, Advanced(v))
  {
    hide SearchInv, ScansMatch, DfsInv, PostMatches, Entered, Unmarked, Paired, SameEdges, NumbersMatch,
      LabelsMatch, StackMatches, OutputMatches, Closed, VisitsMatch, StackTiles, NextEdge, Flagged;
    ScannedSearch(w, n, s, g, a, v, curbl, edgenum, kind);
    StackScan(s, v.state, v.istate, |v.state| - 1, kind);
    ScannedLabels(w, base, g, s, a, v, curbl, edgenum, kind);
    NumbersScan(w, s, a.index, a.numdesc, Cur(s), kind);
    OutputSame(n, s, Scan(s, Cur(s), kind), v.rpostcount, v.rpostorder);
    FlaggedPoints(g, curbl, edgenum, KindFlags(kind));
  }

  /** The next out-edge leads to a visited block and the rule gives it this kind. */
  ghost predicate KindIs(w: World, s: Search, kind: Kind) {
    && s.t.stack != [] && Sized(w, s) && Cur(s) < |s.order| && s.order[Cur(s)] < |w.outs|
    && |s.kinds[Cur(s)]| < |w.outs[s.order[Cur(s)]]|
    && var j := Dest(w, s, Cur(s), |s.kinds[Cur(s)]|);
       0 <= j < |s.index| && kind == Classify(s, Cur(s), j)
  }

  lemma ScannedSearch(w: World, n: nat, s: Search, g: Graph, a: Numbers, v: Stacks, curbl: BlockId, edgenum: nat, kind: Kind)
    requires Closed(w) && SearchInv(w, n, s) && AtEdge(w, s, g, a, v, curbl, edgenum) && KindIs(w, s, kind)
    ensures SearchInv(w, n, Scan(s, Cur(s), kind)) && VisitsMatch(w, s) && Ascending(s.t.stack)
  {
    assert StackTiles(s.t);
    hide DfsInv, ScansMatch, PostMatches, Entered;
    assert s.t.stack[|s.t.stack| - 1] == Cur(s);
    ScanKeeps(w, n, s);
  }

  lemma ScannedLabels(w: World, base: Graph, g: Graph, s: Search, a: Numbers, v: Stacks, curbl: BlockId, edgenum: nat, kind: Kind)
    requires LabelsMatch(w, base, g, s) && Sized(w, s) && VisitsMatch(w, s) && AtEdge(w, s, g, a, v, curbl, edgenum)
    ensures LabelsMatch(w, base, Flagged(g, curbl, edgenum, KindFlags(kind)), Scan(s, Cur(s), kind))
  {
    hide LabelsMatch, VisitsMatch, NextEdge;
    LabelScan(w, base, g, s, Cur(s), kind);
  }

  /** An edge to an unvisited block is labelled a tree edge and its target entered. */
  lemma DescendAgrees(w: World, n: nat, base: Graph, s: Search, g: Graph, a: Numbers, v: Stacks, curbl: BlockId, edgenum: nat)
    requires Agrees(w, n, base, s, g, a, v) && AtEdge(w, s, g, a, v, curbl, edgenum)
    requires Dest(w, s, Cur(s), |s.kinds[Cur(s)]|) == -1
    ensures var child := w.outs[curbl][edgenum];
            Agrees(w, n, base, Descend(s, child), Flagged(g, curbl, edgenum, TREE_EDGE),
                   PushedNumbers(a, child, |v.preorder|), PushedStacks(Advanced(v), child))
  {
    var child := w.outs[curbl][edgenum];
    hide SearchInv, ScansMatch, DfsInv, PostMatches, Entered, Unmarked, Paired, SameEdges, NumbersMatch,
      LabelsMatch, StackMatches, OutputMatches, Closed, VisitsMatch, StackTiles, NextEdge, Flagged, Dest;
    DescendStep(w, n, s);
    DescendStacks(n, s, v, child);
    DescendLabels(w, base, g, s, child);
    DescendNumbers(w, s, a, child);
    FlaggedPoints(g, curbl, edgenum, TREE_EDGE);
  }

  lemma DescendStacks(n: nat, s: Search, v: Stacks, child: BlockId)
    requires StackMatches(s, v.state, v.istate) && OutputMatches(n, s, v.rpostcount, v.rpostorder) && s.order == v.preorder
    requires child < |s.visit| && |s.order| == |s.t.par| == |s.kinds| && v.state != [] && Ascending(Enter(s.t).stack)
    ensures var v' := PushedStacks(Advanced(v), child);
            && StackMatches(Descend(s, child), v'.state, v'.istate) && v'.preorder == Descend(s, child).order
            && OutputMatches(n, Descend(s, child), v'.rpostcount, v'.rpostorder)
  {
    assert s.t.stack[|v.state| - 1] == Cur(s);
    hide OutputMatches;
    StackDescend(s, v.state, v.istate, child);
    OutputSame(n, s, Descend(s, child), v.rpostcount, v.rpostorder);
  }

  lemma DescendNumbers(w: World, s: Search, a: Numbers, child: BlockId)
    requires NumbersMatch(w, s, a.index, a.numdesc) && VisitsMatch(w, s) && s.visit == a.visitcount
    requires child in w.blocks && child < |s.visit| && s.visit[child] == -1 && s.t.stack != [] && Cur(s) < |s.kinds|
    ensures var a' := PushedNumbers(a, child, |s.order|);
            NumbersMatch(w, Descend(s, child), a'.index, a'.numdesc) && a'.visitcount == Descend(s, child).visit
  {
    hide VisitsMatch;
    NumbersVisit(w, s, a.index, a.numdesc, child, |s.kinds[Cur(s)]|);
    NumbersScan(w, Visit(s, child, |s.kinds[Cur(s)]|), a.index, a.numdesc[child := 1], Cur(s), Tree);
  }

  lemma DescendStep(w: World, n: nat, s: Search)
    requires Closed(w) && SearchInv(w, n, s) && s.t.stack != [] && Sized(w, s) && Cur(s) < |s.order|
    requires s.order[Cur(s)] < |w.outs| && |s.kinds[Cur(s)]| < |w.outs[s.order[Cur(s)]]|
    requires Dest(w, s, Cur(s), |s.kinds[Cur(s)]|) == -1
    ensures var b := w.outs[s.order[Cur(s)]][|s.kinds[Cur(s)]|];
            && b in w.blocks && b < |s.visit| == |w.outs| && s.visit[b] == -1
            && SearchInv(w, n, Descend(s, b)) && Sized(w, Visit(s, b, |s.kinds[Cur(s)]|))
            && VisitsMatch(w, Visit(s, b, |s.kinds[Cur(s)]|)) && VisitsMatch(w, s)
    ensures Ascending(Enter(s.t).stack)
  {
    EnterKeeps(s.t);
    assert s.t.stack[|s.t.stack| - 1] == Cur(s);
    assert s.order[Cur(s)] in w.blocks;
    TargetIn(w, s.order[Cur(s)], |s.kinds[Cur(s)]|);
    hide DfsInv, Entered, ScansMatch, PostMatches;
    DescendKeeps(w, n, s);
    VisitKeepsVisits(w, n, s, w.outs[s.order[Cur(s)]][|s.kinds[Cur(s)]|], |s.kinds[Cur(s)]|);
  }

  lemma DescendLabels(w: World, base: Graph, g: Graph, s: Search, child: BlockId)
    requires LabelsMatch(w, base, g, s) && VisitsMatch(w, s) && s.t.stack != [] && Cur(s) < |s.order|
    requires s.order[Cur(s)] < |g.outofthis| && |s.kinds[Cur(s)]| < |g.outofthis[s.order[Cur(s)]]|
    requires child in w.blocks && child < |s.visit| && s.visit[child] == -1
    requires Sized(w, Visit(s, child, |s.kinds[Cur(s)]|)) && VisitsMatch(w, Visit(s, child, |s.kinds[Cur(s)]|))
    ensures LabelsMatch(w, base, Flagged(g, s.order[Cur(s)], |s.kinds[Cur(s)]|, TREE_EDGE), Descend(s, child))
  {
    LabelVisit(w, base, g, s, child, |s.kinds[Cur(s)]|);
    hide LabelsMatch, VisitsMatch;
    LabelScan(w, base, g, Visit(s, child, |s.kinds[Cur(s)]|), Cur(s), Tree);
  }

  lemma NumbersScan(w: World, s: Search, index: seq<int>, numdesc: seq<int>, i: nat, kind: Kind)
    requires NumbersMatch(w, s, index, numdesc) && i < |s.kinds|
    ensures NumbersMatch(w, Scan(s, i, kind), index, numdesc)
  {
  }

  lemma OutputSame(n: nat, s: Search, s': Search, rpostcount: int, rpostorder: seq<Option<BlockId>>)
    requires OutputMatches(n, s, rpostcount, rpostorder) && s'.rpost == s.rpost && s.order <= s'.order
    ensures OutputMatches(n, s', rpostcount, rpostorder)
  {
    forall x | rpostcount <= x < n ensures OutputAt(s', rpostorder[x], x - rpostcount) {
      assert OutputAt(s, rpostorder[x], x - rpostcount);
    }
  }

  lemma FlaggedPoints(g: Graph, b: BlockId, k: nat, flags: EdgeLabel)
    ensures Points(Flagged(g, b, k, flags)) == Points(g)
  {
    FlaggedSame(g, b, k, flags);
    hide Flagged, SameEdges;
    SameEdgesPoints(g, Flagged(g, b, k, flags));
  }

  /** The vectors have a block to close. */
  ghost predicate Closable(a: Numbers, v: Stacks) {
    && |v.state| == |v.istate| > 0 && 0 < v.rpostcount <= |v.rpostorder| && |a.numdesc| == |a.index|
    && v.state[|v.state| - 1] < |a.numdesc| && (|v.state| > 1 ==> v.state[|v.state| - 2] < |a.numdesc|)
  }

  ghost function ClosedNumbers(a: Numbers, v: Stacks): Numbers {
    if !Closable(a, v) then a
    else
      var b, m := v.state[|v.state| - 1], |v.state| - 1;
      Numbers(a.visitcount, a.index[b := v.rpostcount - 1],
              if m == 0 then a.numdesc
              else a.numdesc[v.state[m - 1] := a.numdesc[v.state[m - 1]] + a.numdesc[b]])
  }

  ghost function ClosedStacks(a: Numbers, v: Stacks): Stacks {
    if !Closable(a, v) then v
    else
      var b, m := v.state[|v.state| - 1], |v.state| - 1;
      Stacks(v.preorder, v.state[..m], v.istate[..m], v.rpostcount - 1, v.rpostorder[v.rpostcount - 1 := Some(b)])
  }

  /** The innermost open block has no out-edge left to scan. */
  ghost predicate AllScanned(w: World, s: Search) {
    && s.t.stack != [] && Sized(w, s) && Cur(s) < |s.order| && s.order[Cur(s)] < |w.outs|
    && |s.kinds[Cur(s)]| == |w.outs[s.order[Cur(s)]]|
  }

  /** What the vectors say about the block to close and its parent. */
  ghost predicate Closing(n: nat, s: Search, a: Numbers, v: Stacks) {
    && Closable(a, v) && CanClose(n, s) && StackTiles(s.t) && |s.order| == |s.t.nd| == |s.index|
    && |v.state| == |s.t.stack| && v.rpostcount == n - |s.rpost|
    && Cur(s) < |s.order| && v.state[|v.state| - 1] == s.order[Cur(s)]
    && (|v.state| > 1 ==> s.t.stack[|v.state| - 2] < |s.order| && v.state[|v.state| - 2] == s.order[s.t.stack[|v.state| - 2]])
  }

  lemma CanCloseNow(w: World, n: nat, base: Graph, s: Search, g: Graph, a: Numbers, v: Stacks)
    requires Agrees(w, n, base, s, g, a, v) && AllScanned(w, s)
    ensures Closing(n, s, a, v)
  {
    hide ScansMatch, Entered, LabelsMatch, Unmarked, Closed, Tiled, IntervalsExact, OpenAbove, OpenAncestors;
    VisitedFit(w, s);
    var m := |v.state| - 1;
    assert v.state[m] == s.order[s.t.stack[m]];
    if m > 0 { assert v.state[m - 1] == s.order[s.t.stack[m - 1]]; }
  }

  /** The innermost open block takes the next reverse post-order number. */
  lemma CloseAgrees(w: World, n: nat, base: Graph, s: Search, g: Graph, a: Numbers, v: Stacks)
    requires Agrees(w, n, base, s, g, a, v) && AllScanned(w, s)
    ensures Closing(n, s, a, v) && Agrees(w, n, base, Close(n, s), g, ClosedNumbers(a, v), ClosedStacks(a, v))
  {
    hide SearchInv, ScansMatch, DfsInv, PostMatches, Entered, Unmarked, Paired, SameEdges, NumbersMatch,
      LabelsMatch, StackMatches, OutputMatches, Closed, VisitsMatch, StackTiles;
    CanCloseNow(w, n, base, s, g, a, v);
    ClosedSearch(w, n, s);
    ClosedNumbersMatch(w, n, s, a, v);
    ClosedStacksMatch(n, s, a, v);
    LabelClose(w, n, base, g, s);
  }

  lemma ClosedSearch(w: World, n: nat, s: Search)
    requires Closed(w) && SearchInv(w, n, s) && AllScanned(w, s) && CanClose(n, s)
    ensures SearchInv(w, n, Close(n, s)) && Close(n, s).visit == s.visit && Close(n, s).order == s.order
    ensures VisitsMatch(w, s)
  {
    hide DfsInv, ScansMatch, PostMatches, Entered;
    CloseKeeps(w, n, s);
  }

  lemma ClosedNumbersMatch(w: World, n: nat, s: Search, a: Numbers, v: Stacks)
    requires NumbersMatch(w, s, a.index, a.numdesc) && VisitsMatch(w, s) && Closing(n, s, a, v)
    ensures NumbersMatch(w, Close(n, s), ClosedNumbers(a, v).index, ClosedNumbers(a, v).numdesc)
    ensures ClosedNumbers(a, v).visitcount == a.visitcount
  {
    hide Tiled;
    NumbersClose(w, n, s, a.index, a.numdesc);
  }

  lemma ClosedStacksMatch(n: nat, s: Search, a: Numbers, v: Stacks)
    requires StackMatches(s, v.state, v.istate) && OutputMatches(n, s, v.rpostcount, v.rpostorder) && Closing(n, s, a, v)
    ensures var v' := ClosedStacks(a, v);
            && StackMatches(Close(n, s), v'.state, v'.istate) && OutputMatches(n, Close(n, s), v'.rpostcount, v'.rpostorder)
            && v'.preorder == v.preorder
  {
    hide Tiled;
    OutputClose(n, s, v.rpostcount, v.rpostorder);
  }

  /** The innermost open block has a next out-edge to scan, or all of them are scanned. */
  lemma CurrentEdge(w: World, n: nat, base: Graph, s: Search, g: Graph, a: Numbers, v: Stacks)
    requires Agrees(w, n, base, s, g, a, v) && v.state != []
    ensures |v.state| == |v.istate| && v.state[|v.state| - 1] < |g.outofthis|
    ensures |a.visitcount| == |a.index| == |a.numdesc| == |g.outofthis| && Paired(g)
    ensures var b, k := v.state[|v.state| - 1], v.istate[|v.state| - 1];
            if k < |g.outofthis[b]| then AtEdge(w, s, g, a, v, b, k) else AllScanned(w, s)
  {
    hide DfsInv, PostMatches, Entered, SameEdges, OutputMatches, Paired;
    assert s.t.stack[|s.t.stack| - 1] == Cur(s);
    var b := s.order[Cur(s)];
    assert w.outs[b] == PointsOf(g.outofthis[b]);
    if |s.kinds[Cur(s)]| < |g.outofthis[b]| {
      assert SlotLabelled(base, g, s, Cur(s), |s.kinds[Cur(s)]|);
      TargetIn(w, b, |s.kinds[Cur(s)]|);
    }
  }

  lemma LabelClose(w: World, n: nat, base: Graph, g: Graph, s: Search)
    requires LabelsMatch(w, base, g, s)
    ensures LabelsMatch(w, base, g, Close(n, s))
  {
    hide Paired, SameEdges, Tiled;
    var s' := Close(n, s);
    forall i, k | 0 <= i < |s'.order| && s'.order[i] < |g.outofthis| && 0 <= k < |g.outofthis[s'.order[i]]|
      ensures SlotLabelled(base, g, s', i, k)
    {
      assert SlotLabelled(base, g, s, i, k);
    }
  }

  lemma AgreesBounds(w: World, n: nat, base: Graph, s: Search, g: Graph, a: Numbers, v: Stacks)
    requires Agrees(w, n, base, s, g, a, v)
    ensures |v.preorder| <= n && v.rpostcount >= 0 && |s.order| == |s.t.par|
  {
    hide ScansMatch, DfsInv, PostMatches, Entered;
    VisitedFit(w, s);
  }

  lemma AgreesVisits(w: World, n: nat, base: Graph, s: Search, g: Graph, a: Numbers, v: Stacks)
    requires Agrees(w, n, base, s, g, a, v)
    ensures forall b :: b in w.blocks ==> b < |a.visitcount| && (a.visitcount[b] == -1 <==> b !in v.preorder)
    ensures |v.preorder| < n ==> exists b :: b in w.blocks && b !in v.preorder
  {
    hide ScansMatch, DfsInv, PostMatches, Entered;
    VisitedFit(w, s);
    if forall b :: b in w.blocks ==> b in v.preorder {
      assert Visited(s) == w.blocks;
    }
  }

  lemma SourceUnvisited(w: World, n: nat, base: Graph, s: Search, g: Graph, a: Numbers, v: Stacks, roots: seq<BlockId>, next: nat)
    requires Agrees(w, n, base, s, g, a, v) && Sources(w, roots) && next < |roots| && TreeRoots(s) == roots[..next]
    ensures roots[next] !in v.preorder
  {
    hide SearchInv, StackMatches, NumbersMatch, OutputMatches, LabelsMatch;
    NextSourceUnvisited(w, n, s, roots, next);
  }

  lemma AgreesOrder(w: World, n: nat, base: Graph, s: Search, g: Graph, a: Numbers, v: Stacks)
    requires Agrees(w, n, base, s, g, a, v)
    ensures s.order == v.preorder
  {
  }

  /** When every root is visited, either they do not reach everything or nothing is left. */
  lemma AllRootsVisited(w: World, n: nat, base: Graph, s: Search, g: Graph, a: Numbers, v: Stacks, roots: set<BlockId>)
    requires Agrees(w, n, base, s, g, a, v) && v.state == [] && |v.preorder| < n
    requires forall r :: r in roots ==> r in TreeRoots(s) || r in v.preorder
    ensures !Reaches(w, roots)
  {
    hide ScansMatch, DfsInv, PostMatches, Entered;
    if Reaches(w, roots) {
      forall r | r in roots ensures r in Visited(s) {
        RootsAre(s.order, s.t.par, r);
      }
      NothingLeft(w, n, s, roots);
    }
  }

  lemma EmptyStack(w: World, n: nat, base: Graph, s: Search, g: Graph, a: Numbers, v: Stacks)
    requires Agrees(w, n, base, s, g, a, v)
    ensures v.state == [] <==> s.t.stack == []
  {
    hide SearchInv, LabelsMatch, NumbersMatch, OutputMatches, Closed;
  }

  // ----- Before the search

  /** The listed blocks without in-edges, in order. */
  ghost function NoInEdges(g: Graph, list: seq<BlockId>): seq<BlockId>
    requires forall k :: 0 <= k < |list| ==> list[k] < |g.intothis|
  {
    if list == [] then []
    else
      var last := list[|list| - 1];
      NoInEdges(g, list[..|list| - 1]) + if |g.intothis[last]| == 0 then [last] else []
  }

  lemma {:induction false} NoInEdgesAre(g: Graph, list: seq<BlockId>)
    requires forall k :: 0 <= k < |list| ==> list[k] < |g.intothis|
    requires forall j, k :: 0 <= j < k < |list| ==> list[j] != list[k]
    ensures forall r :: r in NoInEdges(g, list) ==> r in list && r < |g.intothis| && |g.intothis[r]| == 0
    ensures forall i, j :: 0 <= i < j < |NoInEdges(g, list)| ==> NoInEdges(g, list)[i] != NoInEdges(g, list)[j]
  {
    if list != [] {
      var m := |list| - 1;
      NoInEdgesAre(g, list[..m]);
      assert list[m] !in list[..m];
      var before, roots := NoInEdges(g, list[..m]), NoInEdges(g, list);
      assert roots == before || (roots == before + [list[m]] && |g.intothis[list[m]]| == 0);
      assert forall r :: r in roots ==> r in before || r == list[m];
      assert forall i :: 0 <= i < |before| ==> before[i] in before && before[i] != list[m];
    }
  }

  ghost predicate HasInEdges(g: Graph, b: BlockId) {
    b < |g.intothis| && |g.intothis[b]| > 0
  }

  /** The first listed block without in-edges, or the first listed block when all have some. */
  ghost predicate IsEntry(g: Graph, list: seq<BlockId>, b: BlockId) {
    exists k :: 0 <= k < |list| && list[k] == b &&
      if HasInEdges(g, b) then k == 0 && forall j :: 0 <= j < |list| ==> HasInEdges(g, list[j])
      else forall j :: 0 <= j < k ==> HasInEdges(g, list[j])
  }

  ghost function EntryOf(g: Graph, list: seq<BlockId>): (b: BlockId)
    requires list != [] && forall k :: 0 <= k < |list| ==> list[k] < |g.intothis|
    ensures IsEntry(g, list, b)
  {
    EntryIs(g, list);
    if NoInEdges(g, list) == [] then list[0] else NoInEdges(g, list)[0]
  }

  lemma {:induction false} EntryIs(g: Graph, list: seq<BlockId>)
    requires list != [] && forall k :: 0 <= k < |list| ==> list[k] < |g.intothis|
    ensures IsEntry(g, list, if NoInEdges(g, list) == [] then list[0] else NoInEdges(g, list)[0])
    ensures NoInEdges(g, list) == [] ==> forall j :: 0 <= j < |list| ==> HasInEdges(g, list[j])
    ensures NoInEdges(g, list) != [] ==> !HasInEdges(g, NoInEdges(g, list)[0])
    decreases |list|
  {
    var m := |list| - 1;
    var front := list[..m];
    assert NoInEdges(g, []) == [];
    if m > 0 {
      EntryIs(g, front);
      if NoInEdges(g, front) != [] {
        var b := NoInEdges(g, front)[0];
        var k :| 0 <= k < |front| && front[k] == b && forall j :: 0 <= j < k ==> HasInEdges(g, front[j]);
        assert list[k] == b && forall j :: 0 <= j < k ==> list[j] == front[j];
      } else {
        assert forall j :: 0 <= j < m ==> list[j] == front[j];
        assert list[0] == front[0] && list[m] == list[m];
      }
    } else {
      assert front == [] && list[0] == list[m];
    }
  }

  /** The collected roots are blocks no edge leads to. */
  lemma CollectedSources(g: Graph, list: seq<BlockId>, blocks: set<BlockId>)
    requires Paired(g) && forall k :: 0 <= k < |list| ==> list[k] < |g.intothis|
    requires forall j, k :: 0 <= j < k < |list| ==> list[j] != list[k]
    ensures Sources(World(Points(g), blocks), NoInEdges(g, list))
  {
    NoInEdgesAre(g, list);
    hide Sourceless, Paired, Points;
    forall i | 0 <= i < |NoInEdges(g, list)| ensures Sourceless(World(Points(g), blocks), NoInEdges(g, list)[i]) {
      assert NoInEdges(g, list)[i] in NoInEdges(g, list);
      NoInEdgeSourceless(g, blocks, NoInEdges(g, list)[i]);
    }
  }

  lemma NoInEdgeSourceless(g: Graph, blocks: set<BlockId>, r: BlockId)
    requires Paired(g) && r < |g.intothis| && |g.intothis[r]| == 0
    ensures Sourceless(World(Points(g), blocks), r)
  {
    forall b, k | 0 <= b < |g.outofthis| && 0 <= k < |g.outofthis[b]| ensures g.outofthis[b][k].point != r {
      assert OutPaired(g, b, k);
    }
  }

  lemma WorldClosed(g: Graph, list: seq<BlockId>)
    requires Paired(g) && Separate(g, set k | 0 <= k < |list| :: list[k])
    requires forall k :: 0 <= k < |list| ==> list[k] < |g.outofthis|
    ensures Closed(World(Points(g), set k | 0 <= k < |list| :: list[k]))
  {
    hide Paired;
  }

  lemma ClearUnmarks(w: World, g: Graph)
    ensures Unmarked(w, ClearGraph(g, w.blocks, SEARCH_FLAGS))
  {
    hide Minus;
    var g' := ClearGraph(g, w.blocks, SEARCH_FLAGS);
    forall b, k | b in w.blocks && b < |g'.outofthis| && 0 <= k < |g'.outofthis[b]|
      ensures g'.outofthis[b][k].bits == Minus(g'.outofthis[b][k].bits, SEARCH_FLAGS)
    {
      MinusTwice(g.outofthis[b][k].bits, SEARCH_FLAGS);
    }
  }

  ghost function EmptySearch(visitcount: seq<int>): Search {
    Search(visitcount, [], Dfs([], [], []), [], [], [], [])
  }

  lemma EmptySearchInv(w: World, n: nat, visitcount: seq<int>)
    requires |visitcount| == |w.outs| && forall b :: b in w.blocks ==> b < |visitcount| && visitcount[b] == -1
    ensures SearchInv(w, n, EmptySearch(visitcount))
  {
    var s := EmptySearch(visitcount);
    assert DfsInv(s.t);
    assert VisitsMatch(w, s);
    assert ScansMatch(w, s) && Entered(w, s) && PostMatches(n, s);
  }

  lemma EmptyLabels(w: World, g: Graph, visitcount: seq<int>)
    requires Paired(g) && |visitcount| == |w.outs| == |g.outofthis|
    ensures LabelsMatch(w, g, g, EmptySearch(visitcount))
  {
    hide Paired;
  }

  lemma EmptyAgrees(w: World, n: nat, g: Graph, a: Numbers, rpostorder: seq<Option<BlockId>>)
    requires Closed(w) && |w.blocks| == n && w.outs == Points(g) && Paired(g) && Unmarked(w, g)
    requires |a.visitcount| == |a.index| == |a.numdesc| == |g.outofthis| && |rpostorder| == n
    requires forall b :: b in w.blocks ==> b < |a.visitcount| && a.visitcount[b] == -1 && a.index[b] == -1
    ensures Agrees(w, n, g, EmptySearch(a.visitcount), g, a, Stacks([], [], [], n, rpostorder))
  {
    hide Closed, Unmarked, Paired, LabelsMatch, SearchInv;
    EmptySearchInv(w, n, a.visitcount);
    EmptyLabels(w, g, a.visitcount);
  }

  lemma BeginAgrees(g: Graph, list: seq<BlockId>, a: Numbers, rpostorder: seq<Option<BlockId>>)
    requires var blocks := set k | 0 <= k < |list| :: list[k];
             Paired(g) && Separate(g, blocks) && |blocks| == |list|
    requires |a.visitcount| == |a.index| == |a.numdesc| == |g.outofthis| && |rpostorder| == |list|
    requires forall k :: 0 <= k < |list| ==>
               list[k] < |g.outofthis| && a.visitcount[list[k]] == -1 && a.index[list[k]] == -1
    ensures |g.intothis| == |g.outofthis|
    ensures var blocks := set k | 0 <= k < |list| :: list[k];
            var g' := ClearGraph(g, blocks, SEARCH_FLAGS);
            Agrees(World(Points(g), blocks), |list|, g', EmptySearch(a.visitcount), g', a,
                   Stacks([], [], [], |list|, rpostorder))
  {
    var blocks := set k | 0 <= k < |list| :: list[k];
    var w, g' := World(Points(g), blocks), ClearGraph(g, blocks, SEARCH_FLAGS);
    ClearKeeps(g, blocks, SEARCH_FLAGS);
    WorldClosed(g, list);
    assert |g'.outofthis| == |g.outofthis|;
    hide Paired, Separate, ClearGraph, SameEdges, Unmarked, Agrees, Closed;
    SameEdgesPoints(g, g');
    ClearUnmarks(w, g);
    EmptyAgrees(w, |list|, g', a, rpostorder);
  }

  // ----- After the search

  /** The reverse post-order lists every block once, at its index. */
  lemma FinalOrder(w: World, n: nat, base: Graph, s: Search, g: Graph, a: Numbers, v: Stacks)
    requires Agrees(w, n, base, s, g, a, v) && v.state == [] && |v.preorder| == n
    ensures |v.rpostorder| == n && |a.visitcount| == |a.index| == |a.numdesc|
    ensures forall k :: 0 <= k < n ==>
              v.rpostorder[k].Some? && v.rpostorder[k].value in w.blocks && v.rpostorder[k].value < |a.index| &&
              a.index[v.rpostorder[k].value] == k
    ensures forall b :: b in w.blocks ==> b < |a.index| && 0 <= a.index[b] < n && v.rpostorder[a.index[b]] == Some(b)
  {
    hide ScansMatch, DfsInv, Entered, LabelsMatch, Closed, Unmarked;
    assert v.rpostcount == 0;
    forall k | 0 <= k < n
      ensures v.rpostorder[k].Some? && v.rpostorder[k].value in w.blocks && v.rpostorder[k].value < |a.index| &&
              a.index[v.rpostorder[k].value] == k
    {
      assert OutputAt(s, v.rpostorder[k], k - v.rpostcount);
    }
    VisitedFit(w, s);
    forall b | b in w.blocks ensures b < |a.index| && 0 <= a.index[b] < n && v.rpostorder[a.index[b]] == Some(b) {
      assert b in Visited(s);
      var i :| 0 <= i < |s.order| && s.order[i] == b;
      var k := s.index[i];
      assert s.rpost[k] == i;
      assert OutputAt(s, v.rpostorder[k], k - v.rpostcount);
    }
  }

  /** The root of the last tree comes first. */
  lemma FirstInOrder(w: World, n: nat, base: Graph, s: Search, g: Graph, a: Numbers, v: Stacks)
    requires Agrees(w, n, base, s, g, a, v) && v.state == [] && |v.preorder| == n > 0
    ensures |v.rpostorder| == n && v.rpostorder[0].Some? && EndsWith(TreeRoots(s), v.rpostorder[0].value)
  {
    assert SearchInv(w, n, s) && s.t.stack == [] && v.rpostcount == 0 && |s.rpost| == n;
    ClosedLast(w, n, s);
    assert OutputAt(s, v.rpostorder[0], 0 - v.rpostcount);
  }

  lemma LabelsSameBut(w: World, base: Graph, g: Graph, s: Search)
    requires LabelsMatch(w, base, g, s) && VisitsMatch(w, s)
    ensures SameBut(base, g, SEARCH_FLAGS)
  {
    hide Paired, Or, Minus, KeepsOthers;
    KeepsSelf(SEARCH_FLAGS);
    forall b | 0 <= b < |base.outofthis| ensures SameFlagsBut(base.outofthis[b], g.outofthis[b], SEARCH_FLAGS) {
      assert SameEnds(base.outofthis[b], g.outofthis[b]);
      if b in w.blocks && s.visit[b] != -1 {
        var i := s.visit[b];
        assert s.order[i] == b;
        forall k | 0 <= k < |g.outofthis[b]|
          ensures KeepsOthers(base.outofthis[b][k].bits, g.outofthis[b][k].bits, SEARCH_FLAGS)
        {
          assert SlotLabelled(base, g, s, i, k);
          KindFlagsOnly(base.outofthis[b][k].bits, s, i, k);
        }
      }
    }
  }

  lemma KindFlagsOnly(bits: EdgeLabel, s: Search, i: nat, k: nat)
    requires i < |s.kinds|
    ensures KeepsOthers(bits, Or(bits, FlagsAt(s, i, k)), SEARCH_FLAGS)
  {
    forall f ensures Has(FlagsAt(s, i, k), f) ==> Has(SEARCH_FLAGS, f) { }
    OrKeeps(bits, FlagsAt(s, i, k), SEARCH_FLAGS);
  }

  lemma KeepsSelf(flags: EdgeLabel)
    ensures forall l :: KeepsOthers(l, l, flags)
  {
  }

  /** What a pass over all of the blocks leaves. */
  lemma PassEnds(w: World, n: nat, base: Graph, s: Search, g: Graph, a: Numbers, v: Stacks, g0: Graph, roots: set<BlockId>)
    requires Agrees(w, n, base, s, g, a, v) && |v.preorder| == n && forall b :: b in TreeRoots(s) ==> b in roots
    requires SameBut(g0, base, SEARCH_FLAGS) && Separate(g0, w.blocks)
    ensures SameBut(g0, g, SEARCH_FLAGS) && Paired(g) && Separate(g, w.blocks) && Points(g) == w.outs
    ensures |a.visitcount| == |a.index| == |a.numdesc| == |g.outofthis| == |g0.outofthis| && |v.rpostorder| == n
    ensures Reaches(w, roots)
  {
    hide ScansMatch, PostMatches, DfsInv, Entered, Closed, Unmarked, Separate, TreeRoots, Reaches, Minus, SameFlagsBut, KeepsOthers;
    CompleteReaches(w, n, s, roots);
    LabelsSameBut(w, base, g, s);
    SameButTrans(g0, base, g, SEARCH_FLAGS);
    SeparateSame(g0, g, w.blocks);
  }

  lemma {:induction false} ListCounts(list: seq<BlockId>)
    requires forall j, k :: 0 <= j < k < |list| ==> list[j] != list[k]
    ensures |set k | 0 <= k < |list| :: list[k]| == |list|
  {
    if list != [] {
      var m := |list| - 1;
      ListCounts(list[..m]);
      var before := set k | 0 <= k < m :: list[..m][k];
      assert (set k | 0 <= k < |list| :: list[k]) == before + {list[m]};
    }
  }

  lemma NothingToClassify(g: Graph, blocks: set<BlockId>, a: Numbers)
    requires blocks == {}
    ensures Classified(g, blocks, a) && SubtreesExact(g, blocks, a)
  {
  }

  /** When every block is visited and none is open, the search is complete. */
  lemma AgreesFound(w: World, n: nat, base: Graph, s: Search, g: Graph, a: Numbers, v: Stacks)
    requires Agrees(w, n, base, s, g, a, v) && v.state == [] && |v.preorder| == n
    ensures Found(w, n, s, g, a)
  {
    hide SearchInv, Closed, Paired, SameEdges, OutputMatches, Unmarked;
    forall i, k | 0 <= i < |s.order| && 0 <= k < |s.kinds[i]| ensures ShowsKind(g, s.order[i], k, s.kinds[i][k]) {
      ScannedShows(w, n, base, s, g, a, v, i, k);
    }
  }

  lemma ScannedShows(w: World, n: nat, base: Graph, s: Search, g: Graph, a: Numbers, v: Stacks, i: nat, k: nat)
    requires Agrees(w, n, base, s, g, a, v) && i < |s.order| && i < |s.kinds| && k < |s.kinds[i]|
    ensures ShowsKind(g, s.order[i], k, s.kinds[i][k])
  {
    hide DfsInv, Entered, PostMatches, Closed, Paired, OutputMatches, NumbersMatch, StackMatches;
    var b := s.order[i];
    assert w.outs[b] == PointsOf(g.outofthis[b]);
    assert SlotLabelled(base, g, s, i, k);
  }
}
