/** Edge labels as sets of flags, kept equal at both ends of every edge. */
module EdgeLabels {
  import opened FlowGraph
  import opened LoopDag

  const NO_FLAG := EdgeLabel(false, false, false, false, false, false, false, false, false)
  const TREE_EDGE := NO_FLAG.(tree := true)
  const FORWARD_EDGE := NO_FLAG.(forward := true)
  const CROSS_EDGE := NO_FLAG.(cross := true)
  const BACK_EDGE := NO_FLAG.(back := true)
  const LOOP_EDGE := NO_FLAG.(loopEdge := true)
  const IRREDUCIBLE := NO_FLAG.(irreducible := true)

  function Or(a: EdgeLabel, b: EdgeLabel): EdgeLabel {
    EdgeLabel(a.gotoEdge || b.gotoEdge, a.loopEdge || b.loopEdge, a.defaultSwitch || b.defaultSwitch,
              a.irreducible || b.irreducible, a.tree || b.tree, a.forward || b.forward, a.cross || b.cross,
              a.back || b.back, a.loopExit || b.loopExit)
  }

  function Minus(a: EdgeLabel, b: EdgeLabel): EdgeLabel {
    EdgeLabel(a.gotoEdge && !b.gotoEdge, a.loopEdge && !b.loopEdge, a.defaultSwitch && !b.defaultSwitch,
              a.irreducible && !b.irreducible, a.tree && !b.tree, a.forward && !b.forward, a.cross && !b.cross,
              a.back && !b.back, a.loopExit && !b.loopExit)
  }

  datatype Flag = GotoFlag | LoopFlag | DefaultSwitchFlag | IrreducibleFlag | TreeFlag | ForwardFlag | CrossFlag | BackFlag | LoopExitFlag

  ghost predicate Has(l: EdgeLabel, f: Flag) {
    match f
    case GotoFlag => l.gotoEdge
    case LoopFlag => l.loopEdge
    case DefaultSwitchFlag => l.defaultSwitch
    case IrreducibleFlag => l.irreducible
    case TreeFlag => l.tree
    case ForwardFlag => l.forward
    case CrossFlag => l.cross
    case BackFlag => l.back
    case LoopExitFlag => l.loopExit
  }

  /** Flags are added and removed one by one. */
  lemma FlagsAre(a: EdgeLabel, b: EdgeLabel, f: Flag)
    ensures Has(Or(a, b), f) <==> Has(a, f) || Has(b, f)
    ensures Has(Minus(a, b), f) <==> Has(a, f) && !Has(b, f)
  {
  }

  /** Four flags take an edge out of the loop-DAG. */
  lemma InLoopDagIs(e: BlockEdge)
    ensures InLoopDag(e) <==> forall f :: Has(e.bits, f) ==> f !in {IrreducibleFlag, BackFlag, LoopExitFlag, GotoFlag}
  {
    assert Has(e.bits, IrreducibleFlag) == e.bits.irreducible && Has(e.bits, BackFlag) == e.bits.back;
    assert Has(e.bits, LoopExitFlag) == e.bits.loopExit && Has(e.bits, GotoFlag) == e.bits.gotoEdge;
  }

  /** Targets of the out-edges of every block. */
  ghost function Points(g: Graph): seq<seq<BlockId>> {
    seq(|g.outofthis|, b requires 0 <= b < |g.outofthis| => PointsOf(g.outofthis[b]))
  }

  ghost function PointsOf(edges: seq<BlockEdge>): seq<BlockId> {
    seq(|edges|, k requires 0 <= k < |edges| => edges[k].point)
  }

  /** The out-edge in slot `k` of `b`, at both ends, with a new label. */
  ghost function Relabel(g: Graph, b: BlockId, k: nat, bits: EdgeLabel): Graph
    requires b < |g.outofthis| && k < |g.outofthis[b]| && OutPaired(g, b, k)
  {
    var e := g.outofthis[b][k];
    var twin := g.intothis[e.point][e.reverseIndex];
    Graph(g.intothis[e.point := g.intothis[e.point][e.reverseIndex := twin.(bits := bits)]],
          g.outofthis[b := g.outofthis[b][k := e.(bits := bits)]])
  }

  /** Flags added to an out-edge, at both ends. */
  ghost function Flagged(g: Graph, b: BlockId, k: nat, flags: EdgeLabel): Graph {
    if b < |g.outofthis| && k < |g.outofthis[b]| && OutPaired(g, b, k)
    then Relabel(g, b, k, Or(g.outofthis[b][k].bits, flags)) else g
  }

  /** Flags removed from an out-edge, at both ends. */
  ghost function Unflagged(g: Graph, b: BlockId, k: nat, flags: EdgeLabel): Graph {
    if b < |g.outofthis| && k < |g.outofthis[b]| && OutPaired(g, b, k)
    then Relabel(g, b, k, Minus(g.outofthis[b][k].bits, flags)) else g
  }

  /** Same edges, labels aside. */
  ghost predicate SameEdges(g: Graph, g': Graph) {
    && |g'.intothis| == |g.intothis| && |g'.outofthis| == |g.outofthis|
    && (forall b :: 0 <= b < |g.intothis| ==> SameEnds(g.intothis[b], g'.intothis[b]))
    && (forall b :: 0 <= b < |g.outofthis| ==> SameEnds(g.outofthis[b], g'.outofthis[b]))
  }

  ghost predicate SameEnds(es: seq<BlockEdge>, es': seq<BlockEdge>) {
    && |es'| == |es|
    && forall k :: 0 <= k < |es| ==> es'[k].point == es[k].point && es'[k].reverseIndex == es[k].reverseIndex
  }

  lemma FlaggedSame(g: Graph, b: BlockId, k: nat, flags: EdgeLabel)
    ensures SameEdges(g, Flagged(g, b, k, flags))
  {
    hide Or;
  }

  lemma UnflaggedSame(g: Graph, b: BlockId, k: nat, flags: EdgeLabel)
    ensures SameEdges(g, Unflagged(g, b, k, flags))
  {
    hide Minus;
  }

  lemma SameEdgesPoints(g: Graph, g': Graph)
    requires SameEdges(g, g')
    ensures Points(g') == Points(g)
  {
    forall b | 0 <= b < |g.outofthis| ensures Points(g')[b] == Points(g)[b] {
      assert SameEnds(g.outofthis[b], g'.outofthis[b]);
    }
  }

  /** Labelling both ends keeps the pairing and touches no other edge. */
  lemma RelabelKeeps(g: Graph, b: BlockId, k: nat, bits: EdgeLabel)
    requires Paired(g) && b < |g.outofthis| && k < |g.outofthis[b]|
    ensures OutPaired(g, b, k)
    ensures Paired(Relabel(g, b, k, bits)) && SameEdges(g, Relabel(g, b, k, bits))
    ensures forall c, m :: 0 <= c < |g.outofthis| && 0 <= m < |g.outofthis[c]| && (c != b || m != k) ==>
              Relabel(g, b, k, bits).outofthis[c][m] == g.outofthis[c][m]
    ensures Relabel(g, b, k, bits).outofthis[b][k].bits == bits
  {
    assert OutPaired(g, b, k);
    var e := g.outofthis[b][k];
    var g' := Relabel(g, b, k, bits);
    forall c, m | 0 <= c < |g'.intothis| && 0 <= m < |g'.intothis[c]| ensures InPaired(g', c, m) {
      assert InPaired(g, c, m);
    }
    forall c, m | 0 <= c < |g'.outofthis| && 0 <= m < |g'.outofthis[c]| ensures OutPaired(g', c, m) {
      assert OutPaired(g, c, m);
    }
  }

  // ----- Clearing flags over a set of blocks

  function ClearEdges(edges: seq<BlockEdge>, flags: EdgeLabel): (r: seq<BlockEdge>)
    ensures |r| == |edges|
    ensures forall k :: 0 <= k < |edges| ==> r[k] == edges[k].(bits := Minus(edges[k].bits, flags))
  {
    if edges == [] then []
    else [edges[0].(bits := Minus(edges[0].bits, flags))] + ClearEdges(edges[1..], flags)
  }

  ghost function ClearGraph(g: Graph, blocks: set<BlockId>, flags: EdgeLabel): Graph {
    Graph(ClearLists(g.intothis, blocks, flags), ClearLists(g.outofthis, blocks, flags))
  }

  ghost function ClearLists(ends: seq<seq<BlockEdge>>, blocks: set<BlockId>, flags: EdgeLabel): seq<seq<BlockEdge>> {
    seq(|ends|, b requires 0 <= b < |ends| => if b in blocks then ClearEdges(ends[b], flags) else ends[b])
  }

  lemma MinusTwice(a: EdgeLabel, flags: EdgeLabel)
    ensures Minus(Minus(a, flags), flags) == Minus(a, flags)
  {
  }

  lemma ClearNone(g: Graph, flags: EdgeLabel)
    ensures ClearGraph(g, {}, flags) == g
  {
    hide Minus;
  }

  /** Clearing one more block's edges. */
  lemma ClearOne(g: Graph, blocks: set<BlockId>, b: BlockId, flags: EdgeLabel)
    requires b < |g.intothis| == |g.outofthis|
    ensures var g' := ClearGraph(g, blocks, flags);
            && |g'.intothis| == |g.intothis| && |g'.outofthis| == |g.outofthis|
            && ClearGraph(g, blocks + {b}, flags) ==
            Graph(g'.intothis[b := ClearEdges(g'.intothis[b], flags)], g'.outofthis[b := ClearEdges(g'.outofthis[b], flags)])
  {
    ClearListOne(g.intothis, blocks, b, flags);
    ClearListOne(g.outofthis, blocks, b, flags);
  }

  lemma ClearListOne(ends: seq<seq<BlockEdge>>, blocks: set<BlockId>, b: BlockId, flags: EdgeLabel)
    requires b < |ends|
    ensures var ends' := ClearLists(ends, blocks, flags);
            ClearLists(ends, blocks + {b}, flags) == ends'[b := ClearEdges(ends'[b], flags)]
  {
    hide Minus;
    var ends' := ClearLists(ends, blocks, flags);
    forall k | 0 <= k < |ends[b]| ensures ClearEdges(ends'[b], flags)[k] == ClearEdges(ends[b], flags)[k] {
      MinusTwice(ends[b][k].bits, flags);
    }
    assert ClearEdges(ends'[b], flags) == ClearEdges(ends[b], flags);
  }

  /** No edge joins a block of the set with one outside. */
  ghost predicate Separate(g: Graph, blocks: set<BlockId>) {
    && (forall b, k :: b in blocks && b < |g.outofthis| && 0 <= k < |g.outofthis[b]| ==> g.outofthis[b][k].point in blocks)
    && (forall b, k :: b in blocks && b < |g.intothis| && 0 <= k < |g.intothis[b]| ==> g.intothis[b][k].point in blocks)
  }

  lemma SeparateSame(g: Graph, g': Graph, blocks: set<BlockId>)
    requires Separate(g, blocks) && SameEdges(g, g')
    ensures Separate(g', blocks)
  {
    forall b, k | b in blocks && b < |g'.outofthis| && 0 <= k < |g'.outofthis[b]| ensures g'.outofthis[b][k].point in blocks {
      assert SameEnds(g.outofthis[b], g'.outofthis[b]);
    }
    forall b, k | b in blocks && b < |g'.intothis| && 0 <= k < |g'.intothis[b]| ensures g'.intothis[b][k].point in blocks {
      assert SameEnds(g.intothis[b], g'.intothis[b]);
    }
  }

  /** The same edges, with the same flags except for those in `flags`. */
  ghost predicate SameBut(g: Graph, g': Graph, flags: EdgeLabel) {
    && SameEdges(g, g')
    && forall b :: 0 <= b < |g.outofthis| ==> SameFlagsBut(g.outofthis[b], g'.outofthis[b], flags)
  }

  ghost predicate SameFlagsBut(es: seq<BlockEdge>, es': seq<BlockEdge>, flags: EdgeLabel) {
    && |es| == |es'|
    && forall k :: 0 <= k < |es| ==> KeepsOthers(es[k].bits, es'[k].bits, flags)
  }

  /** Only flags in `flags` may differ. */
  ghost predicate KeepsOthers(l: EdgeLabel, l': EdgeLabel, flags: EdgeLabel) {
    forall f :: !Has(flags, f) ==> (Has(l', f) <==> Has(l, f))
  }

  lemma MinusKeeps(l: EdgeLabel, flags: EdgeLabel)
    ensures KeepsOthers(l, Minus(l, flags), flags)
  {
    hide Minus;
    forall f ensures Has(Minus(l, flags), f) <==> Has(l, f) && !Has(flags, f) { FlagsAre(l, flags, f); }
  }

  lemma OrKeeps(l: EdgeLabel, more: EdgeLabel, flags: EdgeLabel)
    requires forall f :: Has(more, f) ==> Has(flags, f)
    ensures KeepsOthers(l, Or(l, more), flags)
  {
    hide Or;
    forall f ensures Has(Or(l, more), f) <==> Has(l, f) || Has(more, f) { FlagsAre(l, more, f); }
  }

  lemma SameEdgesTrans(a: Graph, b: Graph, c: Graph)
    requires SameEdges(a, b) && SameEdges(b, c)
    ensures SameEdges(a, c)
  {
    forall x | 0 <= x < |a.intothis| ensures SameEnds(a.intothis[x], c.intothis[x]) {
      assert SameEnds(a.intothis[x], b.intothis[x]) && SameEnds(b.intothis[x], c.intothis[x]);
    }
    forall x | 0 <= x < |a.outofthis| ensures SameEnds(a.outofthis[x], c.outofthis[x]) {
      assert SameEnds(a.outofthis[x], b.outofthis[x]) && SameEnds(b.outofthis[x], c.outofthis[x]);
    }
  }

  lemma SameButSizes(g: Graph, g': Graph, flags: EdgeLabel)
    requires SameBut(g, g', flags)
    ensures |g'.outofthis| == |g.outofthis| && |g'.intothis| == |g.intothis|
  {
  }

  lemma SameButRefl(g: Graph, flags: EdgeLabel)
    ensures SameBut(g, g, flags)
  {
  }

  lemma SameButTrans(a: Graph, b: Graph, c: Graph, flags: EdgeLabel)
    requires SameBut(a, b, flags) && SameBut(b, c, flags)
    ensures SameBut(a, c, flags)
  {
    SameEdgesTrans(a, b, c);
    forall x | 0 <= x < |a.outofthis| ensures SameFlagsBut(a.outofthis[x], c.outofthis[x], flags) {
      assert SameFlagsBut(a.outofthis[x], b.outofthis[x], flags) && SameFlagsBut(b.outofthis[x], c.outofthis[x], flags);
    }
  }

  lemma ClearSameBut(g: Graph, blocks: set<BlockId>, flags: EdgeLabel)
    requires Paired(g) && Separate(g, blocks)
    ensures SameBut(g, ClearGraph(g, blocks, flags), flags)
  {
    ClearKeeps(g, blocks, flags);
    hide Minus, Has, Paired, Separate, SameEdges;
    var g' := ClearGraph(g, blocks, flags);
    forall x | 0 <= x < |g.outofthis| ensures SameFlagsBut(g.outofthis[x], g'.outofthis[x], flags) {
      forall k | 0 <= k < |g.outofthis[x]| ensures KeepsOthers(g.outofthis[x][k].bits, g'.outofthis[x][k].bits, flags) {
        MinusKeeps(g.outofthis[x][k].bits, flags);
      }
    }
  }

  lemma ClearKeeps(g: Graph, blocks: set<BlockId>, flags: EdgeLabel)
    requires Paired(g) && Separate(g, blocks)
    ensures Paired(ClearGraph(g, blocks, flags)) && SameEdges(g, ClearGraph(g, blocks, flags))
  {
    var g' := ClearGraph(g, blocks, flags);
    hide Minus;
    forall c, m | 0 <= c < |g'.intothis| && 0 <= m < |g'.intothis[c]| ensures InPaired(g', c, m) {
      assert InPaired(g, c, m);
      var e := g.intothis[c][m];
      assert OutPaired(g, e.point, e.reverseIndex);
      assert c in blocks <==> e.point in blocks;
    }
    forall c, m | 0 <= c < |g'.outofthis| && 0 <= m < |g'.outofthis[c]| ensures OutPaired(g', c, m) {
      assert OutPaired(g, c, m);
      var e := g.outofthis[c][m];
      assert InPaired(g, e.point, e.reverseIndex);
      assert c in blocks <==> e.point in blocks;
    }
  }
}
