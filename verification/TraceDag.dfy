/** The trace of a loop-DAG that picks likely gotos. */
module TraceDagging {
  import opened FlowGraph
  import opened LoopDag
  import opened TraceTree
  import opened TraceLedger
  import opened BadEdges
  import opened TraceRun

  /** The targets of the gotos proposed from position `from` on. */
  ghost function Bottoms(edges: seq<FloatingEdge>, from: nat): set<BlockId> {
    set i | from <= i < |edges| :: edges[i].bottom
  }

  /** New gotos are loop-DAG edges leaving opened blocks, and only their targets gain visits. */
  ghost predicate Grows(g: Graph, l: Ledger, visits: seq<int>, visits': seq<int>, edges: seq<FloatingEdge>, edges': seq<FloatingEdge>) {
    && |visits'| == |visits| && edges <= edges'
    && (forall i :: |edges| <= i < |edges'| ==>
          Flows(g, edges'[i].top, edges'[i].bottom) && edges'[i].top in l.openBlocks && edges'[i].bottom < |visits| &&
          IsCut(g, l, edges'[i].top, edges'[i].bottom))
    && (forall b :: 0 <= b < |visits| && visits'[b] != visits[b] ==>
          exists i :: |edges| <= i < |edges'| && edges'[i].bottom == b)
  }

  lemma TargetsInRange(g: Graph, rank: seq<nat>, roots: seq<BlockId>, root: BranchId, d: Dag, l: Ledger, visits: seq<int>)
    requires LedgerInv(g, rank, roots, root, d, l, visits)
    ensures |g.intothis| == |g.outofthis| && forall e :: IsEdge(g, e) ==> Target(g, e) < |g.outofthis|
  {
    forall e | IsEdge(g, e) ensures Target(g, e) < |g.outofthis| { assert OutPaired(g, e.source, e.slot); }
  }

  /** Every cut edge leads where a goto was proposed: the visit counts tell. */
  lemma CutsAreProposed(g: Graph, roots: seq<BlockId>, l: Ledger, v0: seq<int>, visits: seq<int>, e0: seq<FloatingEdge>,
                        edges: seq<FloatingEdge>)
    requires Finished(g, roots, l) && VisitsCount(g, l, visits) && Grows(g, l, v0, visits, e0, edges)
    requires forall b :: 0 <= b < |v0| ==> v0[b] == 0
    requires |g.intothis| == |g.outofthis| && forall e :: IsEdge(g, e) ==> Target(g, e) < |g.outofthis|
    ensures forall e :: e in l.holder && l.holder[e] == Cut ==> IsEdge(g, e) && Target(g, e) in Bottoms(edges, |e0|)
  {
    forall e | e in l.holder && l.holder[e] == Cut ensures IsEdge(g, e) && Target(g, e) in Bottoms(edges, |e0|) {
      var b := Target(g, e);
      assert e in CutSet(g, l.holder, b);
      assert visits[b] == |CutSet(g, l.holder, b)| > 0;
      var i :| |e0| <= i < |edges| && edges[i].bottom == b;
    }
  }

  lemma GrowsOn(g: Graph, l1: Ledger, l2: Ledger, v0: seq<int>, v1: seq<int>, v2: seq<int>,
                e0: seq<FloatingEdge>, e1: seq<FloatingEdge>, e2: seq<FloatingEdge>)
    requires Grows(g, l1, v0, v1, e0, e1) && Grows(g, l2, v1, v2, e1, e2) && l1.openBlocks <= l2.openBlocks && CutsStay(l1, l2)
    ensures Grows(g, l2, v0, v2, e0, e2)
  {
    hide CutsStay, IsCut;
    forall i | |e0| <= i < |e2| ensures IsCut(g, l2, e2[i].top, e2[i].bottom) {
      if i < |e1| { CutStays(g, l1, l2, e1[i].top, e1[i].bottom); }
    }
    forall b | 0 <= b < |v0| && v2[b] != v0[b] ensures exists i :: |e0| <= i < |e2| && e2[i].bottom == b {
      if v2[b] == v1[b] {
        var i :| |e0| <= i < |e1| && e1[i].bottom == b;
        assert e2[i] == e1[i];
      }
    }
  }

  ghost function RootTrace(roots: seq<BlockId>, x: TraceId): BlockTrace
    requires x < |roots|
  {
    BlockTrace(true, false, 0, x, None, Some(roots[x]), 1, None)
  }

  /** The state `Initialize` leaves after `k` roots. */
  ghost predicate Initial(roots: seq<BlockId>, k: nat, d: Dag) {
    && k <= |roots|
    && d.branches == map[0 := BranchPoint(None, -1, None, NewIds(0, k), 0)]
    && d.active == NewIds(0, k)
    && (forall x :: x in d.traces <==> 0 <= x < k)
    && (forall x :: 0 <= x < k ==> d.traces[x] == RootTrace(roots, x))
  }

  lemma InitialEmpty(roots: seq<BlockId>)
    ensures Initial(roots, 0, Dag(map[][0 := BranchPoint(None, -1, None, [], 0)], map[], []))
  {
    assert map[][0 := BranchPoint(None, -1, None, [], 0)] == map[0 := BranchPoint(None, -1, None, NewIds(0, 0), 0)];
    assert NewIds(0, 0) == [];
  }

  lemma SettingSizes(g: Graph, rank: seq<nat>, roots: seq<BlockId>)
    requires Setting(g, rank, roots)
    ensures |g.intothis| == |g.outofthis|
  {
  }

  lemma InitialSize(roots: seq<BlockId>, k: nat, d: Dag)
    requires Initial(roots, k, d)
    ensures |d.active| == k
  {
  }

  lemma InitialGrows(roots: seq<BlockId>, k: nat, d: Dag)
    requires Initial(roots, k, d) && k < |roots|
    ensures 0 in d.branches && |d.branches[0].paths| == k
    ensures var r := BlockTrace(false, false, 0, k, None, Some(roots[k]), 1, None);
            Initial(roots, k + 1, Dag(d.branches[0 := d.branches[0].(paths := d.branches[0].paths + [k])],
                                      d.traces[k := r][k := r.(active := true)], d.active + [k]))
  {
    assert NewIds(0, k) + [k] == NewIds(0, k + 1);
  }

  lemma InitialTree(roots: seq<BlockId>, d: Dag)
    requires Initial(roots, |roots|, d)
    ensures TreeInv(d, {0}, 0) && FreshFrom(d, 1, |roots|)
  {
    var ids := NewIds(0, |roots|);
    forall x: TraceId ensures x in ids <==> x < |roots| {
      if x < |roots| { assert ids[x] == x; }
    }
    forall x: TraceId ensures LiveTrace(d, {0}, x) <==> x < |roots| {
    }
  }

  lemma InitialLedger(g: Graph, rank: seq<nat>, roots: seq<BlockId>, d: Dag, visits: seq<int>)
    requires Initial(roots, |roots|, d) && Setting(g, rank, roots)
    requires |visits| == |g.outofthis| && forall b :: 0 <= b < |visits| ==> visits[b] == 0
    ensures LedgerInv(g, rank, roots, 0, d, Ledger({0}, {}, map[]), visits)
    ensures RootsStarted(roots, d, Ledger({0}, {}, map[]))
  {
    var l := Ledger({0}, {}, map[]);
    var ids := NewIds(0, |roots|);
    forall x: TraceId | Waiting(d, x) ensures TraceSound(g, roots, 0, d, l, x) {
      assert x < |roots|;
    }
    forall i | 0 <= i < |roots| ensures StillToStart(d, roots[i]) {
      assert ids[i] == i;
      assert Waiting(d, i);
    }
    forall b | 0 <= b < |visits| ensures visits[b] == |CutSet(g, l.holder, b)| {
      assert CutSet(g, l.holder, b) == {};
    }
  }

  lemma AllAround(s: seq<TraceId>, start: nat, x: TraceId)
    requires start < |s| && x in s
    ensures exists k {:trigger Around(s, k)} :: start <= k < start + |s| && Around(s, k) == x
  {
    var i :| 0 <= i < |s| && s[i] == x;
    var k := if i >= start then i else i + |s|;
    assert Around(s, k) == x;
  }

  lemma AllInTraces(d: Dag, live: set<BranchId>, root: BranchId)
    requires TreeInv(d, live, root)
    ensures forall x :: x in d.active ==> x in d.traces
  {
  }

  lemma PathsInTraces(d: Dag, live: set<BranchId>, root: BranchId, t: TraceId)
    requires TreeInv(d, live, root) && t in d.active
    ensures t in d.traces && d.traces[t].top in d.branches
    ensures forall i :: 0 <= i < |d.branches[d.traces[t].top].paths| ==> d.branches[d.traces[t].top].paths[i] in d.traces
  {
  }

  lemma StuckNow(g: Graph, d: Dag, live: set<BranchId>, root: BranchId, visits: seq<int>, finish: Option<BlockId>, t: TraceId)
    requires TreeInv(d, live, root) && t in d.active && |visits| == |g.intothis|
    requires t in d.traces && d.traces[t].top in d.branches
    requires forall i :: 0 <= i < |d.branches[d.traces[t].top].paths| ==> d.branches[d.traces[t].top].paths[i] in d.traces
    requires !CanRetire(d, t) && !CanOpen(g, d, finish, visits, t)
    ensures StuckAt(g, d, finish, visits, t)
  {
  }

  lemma TestedHere(g: Graph, d: Dag, live: set<BranchId>, root: BranchId, visits: seq<int>, t: TraceId)
    requires TreeInv(d, live, root) && t in d.active && |visits| == |g.intothis|
    ensures Tested(g, d, visits, t)
  {
  }

  lemma OpensHere(g: Graph, s: Snap, t: TraceId, b: BlockId, nb: BranchId, nt: TraceId, s': Snap)
    requires t in s.d.traces && s.d.traces[t].top in s.d.branches && b < |g.outofthis| && FreshFrom(s.d, nb, nt)
    requires var outs := g.outofthis[b];
             var slots := DagSlots(outs, |outs|);
             if slots == [] then
               && s'.d == s.d.(traces := s.d.traces[t := Ended(s.d.traces[t])])
               && s'.l == Ledger(s.l.live, s.l.openBlocks + {b}, AddPending(Settle(s.l.holder, t), b, outs, nt))
             else
               Opens(s.d, t, nb, nt, b, Dests(g, b, slots), s'.d) && s'.l == OpenLedger(s.l, t, b, outs, nb, nt)
    ensures OpensTo(g, s, t, b, nb, nt, s')
  {
  }

  ghost predicate RetireFolds(s: Snap, b: BranchId, exit: Option<BlockId>, s': Snap) {
    && AgreesWithParent(s.d, s.l.live, b)
    && (forall i :: 0 <= i < |s.d.branches[b].paths| ==> s.d.branches[b].paths[i] in s.d.traces)
    && exists rec: BlockTrace :: RetiresTo(s, b, exit, rec, s')
  }

  lemma RetiresHere(s: Snap, b: BranchId, exit: Option<BlockId>, edgeout: Option<BlockId>, s': Snap)
    requires AgreesWithParent(s.d, s.l.live, b)
    requires forall i :: 0 <= i < |s.d.branches[b].paths| ==> s.d.branches[b].paths[i] in s.d.traces
    requires var pt, paths := ParentTrace(s.d, s.l.live, b), s.d.branches[b].paths;
             var rec := Folded(s.d.traces[pt], exit, edgeout, SumLump(s.d, paths, |paths|));
             && CommonExit(s.d, paths, exit) && Retires(s.d, s.l.live, b, rec, s'.d) && RetiredRecord(s.d, paths, exit, s.d.traces[pt], rec)
             && s'.l == Ledger(s.l.live - {b}, s.l.openBlocks, HandOver(s.l.holder, paths, pt))
    ensures RetireFolds(s, b, exit, s')
  {
    hide Retires, RetiredRecord, CommonExit;
    var pt, paths := ParentTrace(s.d, s.l.live, b), s.d.branches[b].paths;
    assert RetiresTo(s, b, exit, Folded(s.d.traces[pt], exit, edgeout, SumLump(s.d, paths, |paths|)), s');
  }

  lemma RetireMoves(sc: Scene, s: Snap, t: TraceId, exit: Option<BlockId>, s': Snap)
    requires Tested(sc.g, s.d, s.visits, t) && CanRetire(s.d, t) && s.d.traces[t].top != sc.root
    requires RetireFolds(s, s.d.traces[t].top, exit, s') && s'.visits == s.visits && s'.edges == s.edges
    ensures RetireMove(sc, s, t, s')
  {
    hide CanRetire, RetiresTo;
    var rec: BlockTrace :| RetiresTo(s, s.d.traces[t].top, exit, rec, s');
    RetireIsMove(sc, s, t, exit, rec, s');
  }

  lemma CutIsMove(sc: Scene, s: Snap, t: TraceId, s': Snap)
    requires AllStuck(sc, s) && t in s.d.active && IsBestTrace(sc.g, s.d, s.l.live, sc.root, sc.index, t)
    requires t in s.d.traces && s.d.traces[t].top in s.d.branches
    requires s.d.traces[t].bottom.Some? && s.d.traces[t].destnode.Some? && s.d.traces[t].destnode.value < |s.visits|
    requires s'.edges == s.edges + [FloatingEdge(s.d.traces[t].bottom.value, s.d.traces[t].destnode.value)]
    requires s'.visits == Visited(s.visits, s.d.traces[t].destnode.value, s.d.traces[t].edgelump)
    requires s'.l == s.l.(holder := CutOver(s.l.holder, t)) && CutsTo(s.d, t, s'.d)
    ensures CutMove(sc, s, t, s')
  {
    hide Stuck, IsBestTrace, CutsTo;
    assert StuckAt(sc.g, s.d, sc.finish, s.visits, t);
  }

  lemma CutGrowsEdges(g: Graph, l: Ledger, visits: seq<int>, v: BlockId, lump: int, edges: seq<FloatingEdge>, u: BlockId)
    requires v < |visits| && Flows(g, u, v) && u in l.openBlocks && IsCut(g, l, u, v)
    ensures Grows(g, l, visits, Visited(visits, v, lump), edges, edges + [FloatingEdge(u, v)])
  {
    var edges' := edges + [FloatingEdge(u, v)];
    assert edges'[|edges|] == FloatingEdge(u, v);
  }

  lemma SuccessorIs(d: Dag, t: TraceId, nb: BranchId, nt: TraceId, block: BlockId, dests: seq<BlockId>, d': Dag)
    requires t in d.traces && d.traces[t].top in d.branches && d.traces[t].derivedbp == None
    requires if dests == [] then d' == d.(traces := d.traces[t := Ended(d.traces[t])]) else Opens(d, t, nb, nt, block, dests, d')
    ensures Successor(d', t) == if dests == [] then t else nt
  {
  }

  lemma InTurnHere(sc: Scene, s: Snap, start: nat, missed: nat, t: TraceId)
    requires start < |s.d.active| && missed < |s.d.active| && t == Around(s.d.active, start + missed)
    requires forall k {:trigger Around(s.d.active, k)} :: start <= k < start + missed ==>
               StuckAt(sc.g, s.d, sc.finish, s.visits, Around(s.d.active, k))
    ensures InTurn(sc, s, start, t)
  {
    assert IsFirst(sc, s, start, start + missed, t);
  }

  /** The node after `t` in the list. */
  function NextActive(s: seq<TraceId>, t: TraceId): Option<TraceId> {
    if s == [] then None
    else if s[0] == t then if |s| > 1 then Some(s[1]) else None
    else NextActive(s[1..], t)
  }

  lemma {:induction false} NextIs(s: seq<TraceId>, i: nat)
    requires NoRepeats(s) && i < |s|
    ensures NextActive(s, s[i]) == if i + 1 < |s| then Some(s[i + 1]) else None
  {
    if i > 0 {
      NextIs(s[1..], i - 1);
    }
  }

  /** The traces of a branch are numbered, and derive distinct other branches. */
  ghost predicate Shiftable(d: Dag, b: BranchId)
    requires b in d.branches
  {
    var paths := d.branches[b].paths;
    && (forall i :: 0 <= i < |paths| ==> paths[i] in d.traces && d.traces[paths[i]].pathout == i)
    && (forall i :: 0 <= i < |paths| && d.traces[paths[i]].derivedbp.Some? ==>
          d.traces[paths[i]].derivedbp.value in d.branches && d.traces[paths[i]].derivedbp.value != b)
    && (forall i, j :: 0 <= i < j < |paths| && d.traces[paths[i]].derivedbp.Some? ==>
          d.traces[paths[i]].derivedbp != d.traces[paths[j]].derivedbp)
  }

  /** Slots from `po + 1` up to `slot` have moved down. */
  ghost predicate Shifted(d: Dag, b: BranchId, po: nat, slot: nat, d': Dag)
    requires b in d.branches && po < slot <= |d.branches[b].paths|
  {
    var paths := d.branches[b].paths;
    && d'.active == d.active
    && d'.traces.Keys == d.traces.Keys
    && (forall x :: x in d.traces ==>
          d'.traces[x] == if x in paths[po + 1..slot] then d.traces[x].(pathout := d.traces[x].pathout - 1) else d.traces[x])
    && d'.branches.Keys == d.branches.Keys
    && d'.branches[b] == d.branches[b].(paths := MovedDown(paths, po, slot))
    && (forall c :: c in d.branches && c != b ==>
          d'.branches[c] == if DerivedAfter(d, paths[po + 1..slot], c) then d.branches[c].(pathout := d.branches[c].pathout - 1)
                            else d.branches[c])
  }

  ghost function MovedDown(paths: seq<TraceId>, po: nat, slot: nat): (r: seq<TraceId>)
    requires po < slot <= |paths|
    ensures |r| == |paths|
    ensures forall j :: 0 <= j < |r| ==> r[j] == paths[if po <= j < slot - 1 then j + 1 else j]
  {
    paths[..po] + paths[po + 1..slot] + paths[slot - 1..]
  }

  lemma ShiftableStays(d: Dag, t: TraceId, b: BranchId, d1: Dag)
    requires b in d.branches && t in d.traces && Shiftable(d, b)
    requires d1.branches == d.branches && d1.traces == d.traces[t := d.traces[t].(active := false)]
    ensures Shiftable(d1, b)
  {
  }

  lemma ShiftedBranch(d: Dag, b: BranchId, po: nat, d': Dag)
    requires b in d.branches && po < |d.branches[b].paths| && Shifted(d, b, po, |d.branches[b].paths|, d')
    ensures b in d'.branches && |d'.branches[b].paths| == |d.branches[b].paths| > 0
  {
  }

  /** Shifting the later paths down and dropping the last slot drops the path. */
  ghost predicate ShiftsAway(d: Dag, t: TraceId, b: BranchId, po: nat, d1: Dag, d2: Dag, d3: Dag) {
    && t in d.traces && b in d.branches && po < |d.branches[b].paths| && d.traces[t].top == b && d.traces[t].pathout == po
    && d1.branches == d.branches && d1.traces == d.traces[t := d.traces[t].(active := false)] && d1.active == Without(d.active, t)
    && Shifted(d1, b, po, |d.branches[b].paths|, d2)
    && |d2.branches[b].paths| > 0 && d3.active == d2.active && d3.traces == d2.traces - {t}
    && d3.branches == d2.branches[b := d2.branches[b].(paths := d2.branches[b].paths[..|d2.branches[b].paths| - 1])]
  }

  lemma ShiftDropsTraces(d: Dag, t: TraceId, b: BranchId, po: nat, d1: Dag, d2: Dag, d3: Dag)
    requires ShiftsAway(d, t, b, po, d1, d2, d3)
    ensures forall x :: x in d3.traces <==> x in d.traces && x != t
    ensures var later := d.branches[b].paths[po + 1..];
            forall x :: x in d3.traces ==> d3.traces[x] == if x in later then d.traces[x].(pathout := d.traces[x].pathout - 1) else d.traces[x]
  {
    var paths := d.branches[b].paths;
    assert paths[po + 1..|paths|] == paths[po + 1..];
  }

  lemma ShiftDropsBranches(d: Dag, t: TraceId, b: BranchId, po: nat, d1: Dag, d2: Dag, d3: Dag)
    requires ShiftsAway(d, t, b, po, d1, d2, d3)
    ensures d3.branches.Keys == d.branches.Keys
    ensures var paths := d.branches[b].paths;
            forall c :: c in d.branches ==>
              d3.branches[c] == if c == b then d.branches[b].(paths := DropSlot(paths, po))
                                else if DerivedAfter(d, paths[po + 1..], c) then d.branches[c].(pathout := d.branches[c].pathout - 1)
                                else d.branches[c]
  {
    var paths := d.branches[b].paths;
    assert paths[po + 1..|paths|] == paths[po + 1..];
    assert d3.branches[b].paths == DropSlot(paths, po);
    SameDerived(d, d1, t, paths[po + 1..]);
    hide DerivedAfter;
  }

  lemma ShiftDrops(d: Dag, t: TraceId, d1: Dag, d2: Dag, d3: Dag)
    requires t in d.traces && d.traces[t].top in d.branches
    requires 0 <= d.traces[t].pathout < |d.branches[d.traces[t].top].paths|
    requires ShiftsAway(d, t, d.traces[t].top, d.traces[t].pathout, d1, d2, d3)
    ensures Drops(d, t, d3)
  {
    var b, po := d.traces[t].top, d.traces[t].pathout;
    ShiftDropsTraces(d, t, b, po, d1, d2, d3);
    ShiftDropsBranches(d, t, b, po, d1, d2, d3);
    assert d3.active == Without(d.active, t);
    hide ShiftsAway, DerivedAfter;
  }

  lemma SameDerived(d: Dag, d1: Dag, t: TraceId, later: seq<TraceId>)
    requires t in d.traces && d1.traces == d.traces[t := d.traces[t].(active := false)]
    ensures forall c: BranchId :: DerivedAfter(d1, later, c) <==> DerivedAfter(d, later, c)
  {
  }

  /** What `RemoveTrace` starts from. */
  lemma CutStarts(g: Graph, rank: seq<nat>, roots: seq<BlockId>, root: BranchId, d: Dag, l: Ledger, visits: seq<int>,
                  finish: Option<BlockId>, t: TraceId)
    requires TreeInv(d, l.live, root) && LedgerInv(g, rank, roots, root, d, l, visits) && |visits| == |g.intothis|
    requires t in d.active && IsCandidate(d, t)
    ensures LiveTrace(d, l.live, t) && Waiting(d, t) && Shiftable(d, d.traces[t].top)
    ensures d.traces[t].bottom.Some? && d.traces[t].destnode.Some? && d.traces[t].destnode.value < |visits|
    ensures d.traces[t].bottom == d.branches[d.traces[t].top].top ==> d.traces[t].top != root
  {
    assert Waiting(d, t) && TraceSound(g, roots, root, d, l, t);
    DepthZero(d, l.live, root, d.traces[t].top);
    TreeIsShiftable(d, l.live, root, d.traces[t].top);
  }

  lemma TreeIsShiftable(d: Dag, live: set<BranchId>, root: BranchId, b: BranchId)
    requires TreeInv(d, live, root) && b in live
    ensures b in d.branches && Shiftable(d, b)
  {
    var paths := d.branches[b].paths;
    forall i | 0 <= i < |paths|
      ensures paths[i] in d.traces && d.traces[paths[i]].pathout == i
      ensures d.traces[paths[i]].derivedbp.Some? ==>
        && d.traces[paths[i]].derivedbp.value in d.branches && d.traces[paths[i]].derivedbp.value != b
        && d.branches[d.traces[paths[i]].derivedbp.value].pathout == i
    {
      LivePath(d, live, root, b, i);
      assert AgreesWithDerived(d, live, root, paths[i]);
      DerivedNotBelowTrace(d, live, root, paths[i]);
    }
  }

  lemma CutEnds(g: Graph, rank: seq<nat>, roots: seq<BlockId>, root: BranchId, d: Dag, l: Ledger, visits: seq<int>,
                t: TraceId, nb: BranchId, nt: TraceId)
    requires TreeInv(d, l.live, root) && LedgerInv(g, rank, roots, root, d, l, visits) && FreshFrom(d, nb, nt)
    requires Waiting(d, t) && d.traces[t].bottom.Some? && d.traces[t].destnode.Some? && d.traces[t].destnode.value < |visits|
    requires RootsStarted(roots, d, l)
    ensures RootsStarted(roots, d.(traces := d.traces[t := Ended(d.traces[t])]), l.(holder := CutOver(l.holder, t)))
    ensures var d' := d.(traces := d.traces[t := Ended(d.traces[t])]);
            && TreeInv(d', l.live, root) && FreshFrom(d', nb, nt) && Size(d', l.live) < Size(d, l.live)
            && LedgerInv(g, rank, roots, root, d', l.(holder := CutOver(l.holder, t)),
                         Visited(visits, d.traces[t].destnode.value, d.traces[t].edgelump))
    ensures Flows(g, d.traces[t].bottom.value, d.traces[t].destnode.value) && d.traces[t].bottom.value in l.openBlocks
  {
    hide TreeInv, LedgerInv, RootsStarted, Size;
    var d' := d.(traces := d.traces[t := Ended(d.traces[t])]);
    EndKeepsTree(d, l.live, root, t);
    EndShrinks(d, l.live, root, t);
    assert WaitingRemoved(d, root, t, d');
    CutKeepsRoots(roots, root, d, l, t, d', l.(holder := CutOver(l.holder, t)));
    CutKeepsLedger(g, rank, roots, root, d, l, visits, t, d');
  }

  lemma CutDrops(g: Graph, rank: seq<nat>, roots: seq<BlockId>, root: BranchId, d: Dag, l: Ledger, visits: seq<int>,
                 finish: Option<BlockId>, t: TraceId, d': Dag, nb: BranchId, nt: TraceId)
    requires TreeInv(d, l.live, root) && LedgerInv(g, rank, roots, root, d, l, visits) && FreshFrom(d, nb, nt)
    requires LiveTrace(d, l.live, t) && Waiting(d, t) && d.traces[t].bottom.Some? && d.traces[t].destnode.Some?
    requires d.traces[t].destnode.value < |visits| == |g.intothis| && d.traces[t].top != root
    requires forall i :: 0 <= i < |d.branches[d.traces[t].top].paths| ==> d.branches[d.traces[t].top].paths[i] in d.traces
    requires Stuck(g, d, finish, visits, t) && Drops(d, t, d') && RootsStarted(roots, d, l)
    ensures RootsStarted(roots, d', l.(holder := CutOver(l.holder, t)))
    ensures TreeInv(d', l.live, root) && FreshFrom(d', nb, nt) && Size(d', l.live) < Size(d, l.live)
    ensures |d'.active| == |d.active| - 1
    ensures LedgerInv(g, rank, roots, root, d', l.(holder := CutOver(l.holder, t)),
                      Visited(visits, d.traces[t].destnode.value, d.traces[t].edgelump))
    ensures Flows(g, d.traces[t].bottom.value, d.traces[t].destnode.value) && d.traces[t].bottom.value in l.openBlocks
  {
    hide TreeInv, LedgerInv, RootsStarted, Size, Stuck, Drops, FreshFrom;
    StuckHasSiblings(g, d, l.live, root, finish, visits, t);
    DropKeepsTree(d, l.live, root, t, d');
    DropShrinks(d, l.live, root, t, d');
    DropWaiting(d, l.live, root, t, d');
    DropActive(d, l.live, root, t, d', nb, nt);
    CutKeepsRoots(roots, root, d, l, t, d', l.(holder := CutOver(l.holder, t)));
    CutKeepsLedger(g, rank, roots, root, d, l, visits, t, d');
  }

  lemma DropActive(d: Dag, live: set<BranchId>, root: BranchId, t: TraceId, d': Dag, nb: BranchId, nt: TraceId)
    requires TreeInv(d, live, root) && FreshFrom(d, nb, nt) && t in d.active && Drops(d, t, d')
    ensures |d'.active| == |d.active| - 1 && FreshFrom(d', nb, nt)
  {
    WithoutIs(d.active, t);
  }

  lemma ShiftStarts(d: Dag, b: BranchId, po: nat)
    requires b in d.branches && po < |d.branches[b].paths|
    ensures Shifted(d, b, po, po + 1, d)
  {
    assert MovedDown(d.branches[b].paths, po, po + 1) == d.branches[b].paths;
  }

  lemma ShiftReads(d: Dag, b: BranchId, po: nat, slot: nat, d': Dag)
    requires b in d.branches && po < slot < |d.branches[b].paths| && Shiftable(d, b) && Shifted(d, b, po, slot, d')
    ensures b in d'.branches && |d'.branches[b].paths| == |d.branches[b].paths|
    ensures d'.branches[b].paths[slot] == d.branches[b].paths[slot]
    ensures d.branches[b].paths[slot] in d'.traces && d'.traces[d.branches[b].paths[slot]] == d.traces[d.branches[b].paths[slot]]
    ensures d.traces[d.branches[b].paths[slot]].derivedbp.Some? ==>
      var c := d.traces[d.branches[b].paths[slot]].derivedbp.value; c in d'.branches && c != b
  {
    var paths := d.branches[b].paths;
    assert paths[slot] !in paths[po + 1..slot];
  }

  ghost predicate CanShift(d': Dag, b: BranchId, slot: nat) {
    && b in d'.branches && 0 < slot < |d'.branches[b].paths| && d'.branches[b].paths[slot] in d'.traces
    && var c := d'.traces[d'.branches[b].paths[slot]].derivedbp; c.Some? ==> c.value in d'.branches && c.value != b
  }

  /** The state after slots from `po + 1` up to `slot` have moved in turn. */
  ghost function ShiftAll(d: Dag, b: BranchId, po: nat, slot: nat): Dag {
    if slot <= po + 1 then d else ShiftNext(b, slot - 1, ShiftAll(d, b, po, slot - 1))
  }

  lemma {:induction false} ShiftAllIs(d: Dag, b: BranchId, po: nat, slot: nat)
    requires b in d.branches && po < slot <= |d.branches[b].paths| && Shiftable(d, b)
    ensures Shifted(d, b, po, slot, ShiftAll(d, b, po, slot))
  {
    hide Shifted, Shiftable, ShiftNext;
    if slot == po + 1 {
      ShiftStarts(d, b, po);
    } else {
      ShiftAllIs(d, b, po, slot - 1);
      ShiftOne(d, b, po, slot - 1, ShiftAll(d, b, po, slot - 1));
    }
  }

  lemma CanShiftOn(d: Dag, b: BranchId, po: nat, slot: nat)
    requires b in d.branches && po < slot < |d.branches[b].paths| && Shiftable(d, b)
    ensures CanShift(ShiftAll(d, b, po, slot), b, slot)
  {
    ShiftAllIs(d, b, po, slot);
    ShiftReads(d, b, po, slot, ShiftAll(d, b, po, slot));
  }

  /** The state after one more slot has moved. */
  ghost function ShiftNext(b: BranchId, slot: nat, d': Dag): Dag {
    if !CanShift(d', b, slot) then d' else
    var moved := d'.branches[b].paths[slot];
    var r := d'.traces[moved];
    var traces := d'.traces[moved := r.(pathout := r.pathout - 1)];
    var branches := if r.derivedbp.Some?
                    then d'.branches[r.derivedbp.value := d'.branches[r.derivedbp.value].(pathout := d'.branches[r.derivedbp.value].pathout - 1)]
                    else d'.branches;
    Dag(branches[b := branches[b].(paths := branches[b].paths[slot - 1 := moved])], traces, d'.active)
  }

  lemma ShiftOneTraces(d: Dag, b: BranchId, po: nat, slot: nat, d': Dag, x: TraceId)
    requires b in d.branches && po < slot < |d.branches[b].paths| && Shiftable(d, b) && Shifted(d, b, po, slot, d')
    requires x in d.traces
    ensures x in ShiftNext(b, slot, d').traces
    ensures ShiftNext(b, slot, d').traces[x] == if x in d.branches[b].paths[po + 1..slot + 1]
              then d.traces[x].(pathout := d.traces[x].pathout - 1) else d.traces[x]
  {
    ShiftReads(d, b, po, slot, d');
    var paths := d.branches[b].paths;
    assert paths[po + 1..slot + 1] == paths[po + 1..slot] + [paths[slot]];
  }

  lemma ShiftOneBranches(d: Dag, b: BranchId, po: nat, slot: nat, d': Dag, c: BranchId)
    requires b in d.branches && po < slot < |d.branches[b].paths| && Shiftable(d, b) && Shifted(d, b, po, slot, d')
    requires c in d.branches && c != b
    ensures c in ShiftNext(b, slot, d').branches
    ensures ShiftNext(b, slot, d').branches[c] == if DerivedAfter(d, d.branches[b].paths[po + 1..slot + 1], c)
              then d.branches[c].(pathout := d.branches[c].pathout - 1) else d.branches[c]
  {
    ShiftReads(d, b, po, slot, d');
    var paths := d.branches[b].paths;
    assert paths[po + 1..slot + 1] == paths[po + 1..slot] + [paths[slot]];
    DerivedAfterExtends(d, paths[po + 1..slot], paths[slot], c);
    if d.traces[paths[slot]].derivedbp.Some? { NotDerivedTwice(d, b, po, slot); }
    hide DerivedAfter;
  }

  lemma ShiftOne(d: Dag, b: BranchId, po: nat, slot: nat, d': Dag)
    requires b in d.branches && po < slot < |d.branches[b].paths| && Shiftable(d, b) && Shifted(d, b, po, slot, d')
    ensures Shifted(d, b, po, slot + 1, ShiftNext(b, slot, d'))
  {
    ShiftReads(d, b, po, slot, d');
    var paths, d'' := d.branches[b].paths, ShiftNext(b, slot, d');
    assert d''.branches[b].paths == MovedDown(paths, po, slot + 1);
    assert d''.active == d.active && d''.traces.Keys == d.traces.Keys && d''.branches.Keys == d.branches.Keys;
    assert d''.branches[b] == d.branches[b].(paths := MovedDown(paths, po, slot + 1));
    hide Shiftable, ShiftNext, DerivedAfter;
    forall x | x in d.traces
      ensures d''.traces[x] == if x in paths[po + 1..slot + 1]
                then d.traces[x].(pathout := d.traces[x].pathout - 1) else d.traces[x]
    {
      ShiftOneTraces(d, b, po, slot, d', x);
    }
    forall c | c in d.branches && c != b
      ensures d''.branches[c] == if DerivedAfter(d, paths[po + 1..slot + 1], c)
                then d.branches[c].(pathout := d.branches[c].pathout - 1) else d.branches[c]
    {
      ShiftOneBranches(d, b, po, slot, d', c);
    }
  }

  lemma DerivedAfterExtends(d: Dag, later: seq<TraceId>, moved: TraceId, c: BranchId)
    requires moved in d.traces
    ensures DerivedAfter(d, later + [moved], c) <==> DerivedAfter(d, later, c) || d.traces[moved].derivedbp == Some(c)
  {
    var longer := later + [moved];
    if DerivedAfter(d, later, c) {
      var i :| 0 <= i < |later| && later[i] in d.traces && d.traces[later[i]].derivedbp == Some(c);
      assert longer[i] == later[i];
    }
    if d.traces[moved].derivedbp == Some(c) { assert longer[|later|] == moved; }
  }

  lemma NotDerivedTwice(d: Dag, b: BranchId, po: nat, slot: nat)
    requires b in d.branches && po < slot < |d.branches[b].paths| && Shiftable(d, b)
    requires d.traces[d.branches[b].paths[slot]].derivedbp.Some?
    ensures !DerivedAfter(d, d.branches[b].paths[po + 1..slot], d.traces[d.branches[b].paths[slot]].derivedbp.value)
  {
    var later, c := d.branches[b].paths[po + 1..slot], d.traces[d.branches[b].paths[slot]].derivedbp.value;
    forall i | 0 <= i < |later| ensures d.traces[later[i]].derivedbp != Some(c) {
      assert later[i] == d.branches[b].paths[po + 1 + i];
    }
  }

  /** The parent trace after its branch is folded into it. */
  ghost function Folded(r: BlockTrace, exit: Option<BlockId>, edgeout: Option<BlockId>, lumpsum: int): BlockTrace {
    var back := r.(derivedbp := None, active := true);
    if edgeout == None then Ended(back)
    else back.(bottom := edgeout, destnode := exit, edgelump := lumpsum)
  }

  lemma DeactivatedKeys(before: map<TraceId, BlockTrace>, paths: seq<TraceId>, after: map<TraceId, BlockTrace>)
    requires Deactivated(before, paths, after)
    ensures after.Keys == before.Keys
  {
  }

  lemma FoldedIsRetired(d: Dag, live: set<BranchId>, root: BranchId, b: BranchId, exit: Option<BlockId>,
                        edgeout: Option<BlockId>, t1: map<TraceId, BlockTrace>, d': Dag)
    requires TreeInv(d, live, root) && b in live && b != root && AgreesWithParent(d, live, b)
    requires forall i :: 0 <= i < |d.branches[b].paths| ==> d.branches[b].paths[i] in d.traces
    requires Deactivated(d.traces, d.branches[b].paths, t1) && d'.branches == d.branches
    requires edgeout == None ==> forall i :: 0 <= i < |d.branches[b].paths| ==> d.traces[d.branches[b].paths[i]].terminal
    requires edgeout.Some? ==> exists f :: FirstOpen(d, d.branches[b].paths, f) && edgeout == d.traces[d.branches[b].paths[f]].bottom
    requires var pt, paths := ParentTrace(d, live, b), d.branches[b].paths;
             pt in t1 && d'.traces == t1[pt := Folded(t1[pt], exit, edgeout, SumLump(d, paths, |paths|))]
             && d'.active == WithoutAll(d.active, paths, |paths|) + [pt]
    ensures var pt, paths := ParentTrace(d, live, b), d.branches[b].paths;
            var rec := Folded(d.traces[pt], exit, edgeout, SumLump(d, paths, |paths|));
            && Retires(d, live, b, rec, d') && RetiredRecord(d, paths, exit, d.traces[pt], rec)
            && Reactivates(d.traces[pt], rec)
  {
    ParentTraceLives(d, live, root, b);
    hide TreeInv, Deactivated;
    var pt, paths := ParentTrace(d, live, b), d.branches[b].paths;
    assert t1[pt] == d.traces[pt] by { DeactivatedKeeps(d.traces, paths, t1, pt); }
    FoldedRetires(d, live, b, paths, pt, t1, Folded(d.traces[pt], exit, edgeout, SumLump(d, paths, |paths|)), d');
    hide Retires;
  }

  lemma NoneDeactivated(t: map<TraceId, BlockTrace>)
    ensures Deactivated(t, [], t)
  {
  }

  lemma DeactivatedKeeps(t0: map<TraceId, BlockTrace>, paths: seq<TraceId>, t1: map<TraceId, BlockTrace>, pt: TraceId)
    requires Deactivated(t0, paths, t1) && pt in t0 && pt !in paths
    ensures pt in t1 && t1[pt] == t0[pt]
  {
  }

  lemma FoldedRetires(d: Dag, live: set<BranchId>, b: BranchId, paths: seq<TraceId>, pt: TraceId, t1: map<TraceId, BlockTrace>,
                      rec: BlockTrace, d': Dag)
    requires b in live && b in d.branches && AgreesWithParent(d, live, b) && paths == d.branches[b].paths
    requires pt == ParentTrace(d, live, b) && pt in d.traces && pt !in paths
    requires forall i :: 0 <= i < |paths| ==> paths[i] in d.traces
    requires Deactivated(d.traces, paths, t1) && d'.branches == d.branches
    requires d'.traces == t1[pt := rec] && d'.active == WithoutAll(d.active, paths, |paths|) + [pt]
    ensures Retires(d, live, b, rec, d')
  {
  }

  lemma RetireTree(g: Graph, rank: seq<nat>, roots: seq<BlockId>, root: BranchId, d: Dag, l: Ledger, visits: seq<int>,
                     b: BranchId, exit: Option<BlockId>, edgeout: Option<BlockId>, t1: map<TraceId, BlockTrace>, d': Dag,
                     nb: BranchId, nt: TraceId)
    requires TreeInv(d, l.live, root) && LedgerInv(g, rank, roots, root, d, l, visits) && FreshFrom(d, nb, nt)
    requires b in l.live && b != root && AgreesWithParent(d, l.live, b)
    requires forall i :: 0 <= i < |d.branches[b].paths| ==> d.branches[b].paths[i] in d.traces
    requires CommonExit(d, d.branches[b].paths, exit)
    requires Deactivated(d.traces, d.branches[b].paths, t1) && d'.branches == d.branches
    requires edgeout == None ==> forall i :: 0 <= i < |d.branches[b].paths| ==> d.traces[d.branches[b].paths[i]].terminal
    requires edgeout.Some? ==> exists f :: FirstOpen(d, d.branches[b].paths, f) && edgeout == d.traces[d.branches[b].paths[f]].bottom
    requires var pt, paths := ParentTrace(d, l.live, b), d.branches[b].paths;
             pt in t1 && d'.traces == t1[pt := Folded(t1[pt], exit, edgeout, SumLump(d, paths, |paths|))]
             && d'.active == WithoutAll(d.active, paths, |paths|) + [pt]
    ensures TreeInv(d', l.live - {b}, root) && FreshFrom(d', nb, nt) && Size(d', l.live - {b}) < Size(d, l.live)
    ensures ParentTrace(d, l.live, b) in d'.active && |d'.active| == |d.active| - |d.branches[b].paths| + 1
  {
    hide TreeInv, LedgerInv, RootsStarted, Retires, Deactivated, CommonExit, RetiredRecord, FirstOpen, FreshFrom, Size, NoRepeats;
    var paths := d.branches[b].paths;
    var rec := Folded(d.traces[ParentTrace(d, l.live, b)], exit, edgeout, SumLump(d, paths, |paths|));
    FoldedIsRetired(d, l.live, root, b, exit, edgeout, t1, d');
    RetirePaths(d, l.live, root, b, exit);
    RetireFresh(d, l.live, b, rec, d', nb, nt);
    WithoutAllSize(d.active, paths, |paths|);
    RetireKeepsTree(d, l.live, root, b, rec, d');
    RetireShrinks(d, l.live, root, b, rec, d');
  }

  lemma RetireAccounts(g: Graph, rank: seq<nat>, roots: seq<BlockId>, root: BranchId, d: Dag, l: Ledger, visits: seq<int>,
                     b: BranchId, exit: Option<BlockId>, edgeout: Option<BlockId>, t1: map<TraceId, BlockTrace>, d': Dag,
                     nb: BranchId, nt: TraceId)
    requires TreeInv(d, l.live, root) && LedgerInv(g, rank, roots, root, d, l, visits) && FreshFrom(d, nb, nt)
    requires b in l.live && b != root && AgreesWithParent(d, l.live, b)
    requires forall i :: 0 <= i < |d.branches[b].paths| ==> d.branches[b].paths[i] in d.traces
    requires CommonExit(d, d.branches[b].paths, exit)
    requires Deactivated(d.traces, d.branches[b].paths, t1) && d'.branches == d.branches
    requires edgeout == None ==> forall i :: 0 <= i < |d.branches[b].paths| ==> d.traces[d.branches[b].paths[i]].terminal
    requires edgeout.Some? ==> exists f :: FirstOpen(d, d.branches[b].paths, f) && edgeout == d.traces[d.branches[b].paths[f]].bottom
    requires var pt, paths := ParentTrace(d, l.live, b), d.branches[b].paths;
             pt in t1 && d'.traces == t1[pt := Folded(t1[pt], exit, edgeout, SumLump(d, paths, |paths|))]
             && d'.active == WithoutAll(d.active, paths, |paths|) + [pt]
    requires RootsStarted(roots, d, l)
    ensures RootsStarted(roots, d', Ledger(l.live - {b}, l.openBlocks,
                         HandOver(l.holder, d.branches[b].paths, ParentTrace(d, l.live, b))))
    ensures LedgerInv(g, rank, roots, root, d', Ledger(l.live - {b}, l.openBlocks,
                      HandOver(l.holder, d.branches[b].paths, ParentTrace(d, l.live, b))), visits)
  {
    hide TreeInv, LedgerInv, RootsStarted, Retires, Deactivated, CommonExit, RetiredRecord, FirstOpen, FreshFrom, NoRepeats, WaitingRetired;
    var pt, paths := ParentTrace(d, l.live, b), d.branches[b].paths;
    var rec := Folded(d.traces[pt], exit, edgeout, SumLump(d, paths, |paths|));
    FoldedIsRetired(d, l.live, root, b, exit, edgeout, t1, d');
    RetirePaths(d, l.live, root, b, exit);
    ParentTraceLives(d, l.live, root, b);
    RetireWaiting(d, l.live, root, b, rec, d');
    RetireKeepsRoots(g, rank, roots, root, d, l, visits, paths, exit, pt, rec, d',
                     Ledger(l.live - {b}, l.openBlocks, HandOver(l.holder, paths, pt)));
    RetireKeepsLedger(g, rank, roots, root, d, l, visits, paths, exit, pt, rec, d');
    LiveIsSeparate(g, rank, roots, root, d', l.(holder := HandOver(l.holder, paths, pt)), visits, l.live - {b});
  }

  lemma RetirePaths(d: Dag, live: set<BranchId>, root: BranchId, b: BranchId, exit: Option<BlockId>)
    requires TreeInv(d, live, root) && b in live && b != root
    requires forall i :: 0 <= i < |d.branches[b].paths| ==> d.branches[b].paths[i] in d.traces
    requires CommonExit(d, d.branches[b].paths, exit)
    ensures NoRepeats(d.branches[b].paths) && NoRepeats(d.active)
    ensures forall i :: 0 <= i < |d.branches[b].paths| ==>
      d.branches[b].paths[i] in d.active && d.traces[d.branches[b].paths[i]].top != root
  {
    forall i | 0 <= i < |d.branches[b].paths|
      ensures d.branches[b].paths[i] in d.active && d.traces[d.branches[b].paths[i]].top != root
    {
      LivePath(d, live, root, b, i);
    }
  }

  lemma RetireFresh(d: Dag, live: set<BranchId>, b: BranchId, rec: BlockTrace, d': Dag, nb: BranchId, nt: TraceId)
    requires AgreesWithParent(d, live, b) && FreshFrom(d, nb, nt)
    requires Reactivates(d.traces[ParentTrace(d, live, b)], rec) && Retires(d, live, b, rec, d')
    ensures FreshFrom(d', nb, nt)
  {
    forall x | x in d'.traces ensures x < nt && d'.traces[x].top < nb {
      assert d'.traces[x].top == d.traces[x].top;
    }
  }

  lemma {:induction false} WithoutAllSize(s: seq<TraceId>, paths: seq<TraceId>, k: nat)
    requires NoRepeats(s) && NoRepeats(paths) && k <= |paths| && forall i :: 0 <= i < |paths| ==> paths[i] in s
    ensures |WithoutAll(s, paths, k)| == |s| - k
  {
    if k > 0 {
      WithoutAllSize(s, paths, k - 1);
      WithoutAllIs(s, paths, k - 1);
      WithoutIs(WithoutAll(s, paths, k - 1), paths[k - 1]);
      assert paths[k - 1] !in paths[..k - 1];
    }
  }

  /** What `RetireBranch` reads of its branch. */
  lemma RetireStarts(g: Graph, rank: seq<nat>, roots: seq<BlockId>, root: BranchId, d: Dag, l: Ledger, visits: seq<int>,
                     b: BranchId, exit: Option<BlockId>)
    requires TreeInv(d, l.live, root) && LedgerInv(g, rank, roots, root, d, l, visits) && b in l.live
    requires b == root ==> AllTerminal(d, d.branches[b].paths)
    requires b != root ==> CommonExit(d, d.branches[b].paths, exit)
    ensures b in d.branches
    ensures var paths := d.branches[b].paths;
            && NoRepeats(paths)
            && (forall i :: 0 <= i < |paths| ==> paths[i] in d.traces)
            && (forall i :: 0 <= i < |paths| && !d.traces[paths[i]].terminal ==> d.traces[paths[i]].bottom.Some?)
    ensures d.branches[b].depth == 0 <==> b == root
    ensures b != root ==> AgreesWithParent(d, l.live, b)
  {
    DepthZero(d, l.live, root, b);
    var paths := d.branches[b].paths;
    forall i | 0 <= i < |paths| ensures !d.traces[paths[i]].terminal ==> d.traces[paths[i]].bottom.Some? {
      OnTheWay(g, rank, roots, root, d, l, visits, b, i);
    }
  }

  /** No live branch but the root once every path of the root is active. */
  lemma {:induction false} NoneBelowRoot(d: Dag, live: set<BranchId>, root: BranchId, b: BranchId)
    requires TreeInv(d, live, root) && b in live
    requires forall i :: 0 <= i < |d.branches[root].paths| ==> d.branches[root].paths[i] in d.active
    ensures b == root
    decreases if b in d.branches then d.branches[b].depth else 0
  {
    if b != root {
      ParentAgrees(d, live, root, b);
      NoneBelowRoot(d, live, root, d.branches[b].parent.value);
      NoChildren(d, live, root, root, b);
    }
  }

  /** Retiring the root empties the active list. */
  lemma RootRetires(d: Dag, live: set<BranchId>, root: BranchId)
    requires TreeInv(d, live, root) && AllTerminal(d, d.branches[root].paths)
    ensures WithoutAll(d.active, d.branches[root].paths, |d.branches[root].paths|) == []
    ensures |d.active| == |d.branches[root].paths|
    ensures forall x :: x in d.active ==> d.traces[x].terminal
  {
    var paths := d.branches[root].paths;
    forall i | 0 <= i < |paths| ensures paths[i] in d.active {
      LivePath(d, live, root, root, i);
    }
    forall x | x in d.active ensures x in paths {
      NoneBelowRoot(d, live, root, d.traces[x].top);
    }
    SameSize(d.active, paths);
    WithoutAllSize(d.active, paths, |paths|);
  }

  lemma SameSize(a: seq<TraceId>, b: seq<TraceId>)
    requires NoRepeats(a) && NoRepeats(b) && forall x :: x in a <==> x in b
    ensures |a| == |b|
  {
    WithoutAllSize(a, b, |b|);
    WithoutAllSize(b, a, |a|);
  }

  /** The traces of `paths` are marked inactive and nothing else changes. */
  ghost predicate Deactivated(before: map<TraceId, BlockTrace>, paths: seq<TraceId>, after: map<TraceId, BlockTrace>) {
    && after.Keys == before.Keys
    && forall x :: x in before ==> after[x] == if x in paths then before[x].(active := false) else before[x]
  }

  lemma DeactivatedOne(before: map<TraceId, BlockTrace>, paths: seq<TraceId>, i: nat, after: map<TraceId, BlockTrace>)
    requires i < |paths| && paths[i] in before && Deactivated(before, paths[..i], after)
    ensures Deactivated(before, paths[..i + 1], after[paths[i] := after[paths[i]].(active := false)])
  {
    assert paths[..i + 1] == paths[..i] + [paths[i]];
  }

  /** A trace after its parent was replaced on the active list by new ones. */
  ghost function Replaced(created: map<TraceId, BlockTrace>, t: TraceId, nb: BranchId, ids: seq<TraceId>, x: TraceId): BlockTrace
    requires t in created && x in created
  {
    var c := if x == t then created[t].(derivedbp := Some(nb), active := false) else created[x];
    if x in ids then c.(active := true) else c
  }

  /** The traces created for the slots of a block, with their parent replaced on the active list. */
  ghost predicate Expanding(g: Graph, d: Dag, t: TraceId, nb: BranchId, block: BlockId, slots: seq<nat>, nt: TraceId,
                            created: map<TraceId, BlockTrace>, d': Dag) {
    && t in d.traces && d.traces[t].top in d.branches && FreshFrom(d, nb, nt)
    && block < |g.outofthis| && (forall i :: 0 <= i < |slots| ==> slots[i] < |g.outofthis[block]|)
    && AddsTraces(d.traces, nb, block, nt, g.outofthis[block], slots, created)
    && d'.branches == d.branches[nb := BranchPoint(Some(d.traces[t].top), d.traces[t].pathout, Some(block),
                                                   NewIds(nt, |slots|), d.branches[d.traces[t].top].depth + 1)]
    && d'.active == Without(d.active, t) + NewIds(nt, |slots|)
    && d'.traces.Keys == created.Keys
    && t in created && forall x :: x in created ==> d'.traces[x] == Replaced(created, t, nb, NewIds(nt, |slots|), x)
  }

  lemma ExpandedOld(g: Graph, d: Dag, t: TraceId, nb: BranchId, block: BlockId, slots: seq<nat>, nt: TraceId,
                    created: map<TraceId, BlockTrace>, d': Dag, x: TraceId)
    requires Expanding(g, d, t, nb, block, slots, nt, created, d') && x in d.traces
    ensures x in d'.traces && d'.traces[x] == if x == t then d.traces[t].(active := false, derivedbp := Some(nb)) else d.traces[x]
  {
    InNewIds(nt, |slots|, x);
    assert x < nt && created[x] == d.traces[x];
  }

  lemma ExpandedNew(g: Graph, d: Dag, t: TraceId, nb: BranchId, block: BlockId, slots: seq<nat>, nt: TraceId,
                    created: map<TraceId, BlockTrace>, d': Dag, x: TraceId)
    requires Expanding(g, d, t, nb, block, slots, nt, created, d') && nt <= x < nt + |slots|
    ensures x in d'.traces && d'.traces[x] == BlockTrace(true, false, nb, x - nt, Some(block), Some(g.outofthis[block][slots[x - nt]].point), 1, None)
  {
    InNewIds(nt, |slots|, x);
    assert t < nt && x in created;
  }

  lemma ExpandedKeys(g: Graph, d: Dag, t: TraceId, nb: BranchId, block: BlockId, slots: seq<nat>, nt: TraceId,
                     created: map<TraceId, BlockTrace>, d': Dag)
    requires Expanding(g, d, t, nb, block, slots, nt, created, d')
    ensures forall x :: x in d'.traces <==> x in d.traces || nt <= x < nt + |slots|
  {
  }

  lemma ExpandOpens(g: Graph, d: Dag, t: TraceId, nb: BranchId, block: BlockId, slots: seq<nat>, nt: TraceId,
                    created: map<TraceId, BlockTrace>, d': Dag)
    requires Expanding(g, d, t, nb, block, slots, nt, created, d')
    ensures Opens(d, t, nb, nt, block, Dests(g, block, slots), d')
  {
    hide AddsTraces, FreshFrom, NewIds, Without, Replaced;
    ExpandedKeys(g, d, t, nb, block, slots, nt, created, d');
    ExpandedOld(g, d, t, nb, block, slots, nt, created, d', t);
    forall x: TraceId | x in d.traces && x != t ensures d'.traces[x] == d.traces[x] {
      ExpandedOld(g, d, t, nb, block, slots, nt, created, d', x);
    }
    forall x: TraceId | nt <= x < nt + |slots|
      ensures d'.traces[x] == BlockTrace(true, false, nb, x - nt, Some(block), Some(Dests(g, block, slots)[x - nt]), 1, None)
    {
      ExpandedNew(g, d, t, nb, block, slots, nt, created, d', x);
    }
    hide Expanding;
  }

  lemma InNewIds(nt: TraceId, k: nat, x: TraceId)
    ensures x in NewIds(nt, k) <==> nt <= x < nt + k
  {
    if nt <= x < nt + k { assert NewIds(nt, k)[x - nt] == x; }
  }

  /** What `OpenBranch` starts from. */
  lemma OpenStarts(g: Graph, rank: seq<nat>, roots: seq<BlockId>, root: BranchId, d: Dag, l: Ledger,
                   visits: seq<int>, finish: Option<BlockId>, t: TraceId)
    requires TreeInv(d, l.live, root) && LedgerInv(g, rank, roots, root, d, l, visits) && |visits| == |g.intothis|
    requires t in d.active && d.traces[t].top in d.branches && CanOpen(g, d, finish, visits, t)
    ensures d.traces[t].destnode.Some? && d.traces[t].derivedbp == None
    ensures d.traces[t].destnode.value < |g.outofthis| && d.traces[t].destnode.value !in l.openBlocks
    ensures var b := d.traces[t].destnode.value;
            Opening(g, rank, roots, root, d, l, visits, finish, t, b, DagSlots(g.outofthis[b], |g.outofthis[b]|))
  {
    assert Waiting(d, t) && TraceSound(g, roots, root, d, l, t);
    var b := d.traces[t].destnode.value;
    DagSlotsAre(g.outofthis[b], |g.outofthis[b]|);
  }

  lemma OpenLeaf(g: Graph, rank: seq<nat>, roots: seq<BlockId>, root: BranchId, d: Dag, l: Ledger, visits: seq<int>,
                 finish: Option<BlockId>, t: TraceId, b: BlockId, slots: seq<nat>, nb: BranchId, nt: TraceId)
    requires Opening(g, rank, roots, root, d, l, visits, finish, t, b, slots) && FreshFrom(d, nb, nt) && slots == []
    requires RootsStarted(roots, d, l)
    ensures var d' := d.(traces := d.traces[t := Ended(d.traces[t])]);
            && TreeInv(d', l.live, root) && FreshFrom(d', nb + 1, nt)
            && LedgerInv(g, rank, roots, root, d', Ledger(l.live, l.openBlocks + {b}, AddPending(Settle(l.holder, t), b, g.outofthis[b], nt)), visits)
            && RootsStarted(roots, d', Ledger(l.live, l.openBlocks + {b}, AddPending(Settle(l.holder, t), b, g.outofthis[b], nt)))
  {
    hide TreeInv, LedgerInv, RootsStarted, CanOpen, HoldersOpened, WaitingOpened, AddPending, Settle;
    var d' := d.(traces := d.traces[t := Ended(d.traces[t])]);
    var h' := AddPending(Settle(l.holder, t), b, g.outofthis[b], nt);
    EndKeepsTree(d, l.live, root, t);
    OpeningIsNew(g, rank, roots, root, d, l, visits, finish, t, b, slots);
    OpenHolders(g, l.holder, t, b, slots, nt);
    EndWaiting(g, d, t, b, nb, nt, d');
    OpenKeepsRoots(g, roots, d, l, t, b, slots, nb, nt, d', Ledger(l.live, l.openBlocks + {b}, h'));
    OpenKeepsLedger(g, rank, roots, root, d, l, visits, finish, t, b, slots, nb, nt, d', h');
    LiveIsSeparate(g, rank, roots, root, d', Ledger(l.live + {nb}, l.openBlocks + {b}, h'), visits, l.live);
  }

  lemma EndWaiting(g: Graph, d: Dag, t: TraceId, b: BlockId, nb: BranchId, nt: TraceId, d': Dag)
    requires b < |g.outofthis| && AreDagSlots(g.outofthis[b], []) && t in d.traces && FreshFrom(d, nb, nt)
    requires d' == d.(traces := d.traces[t := Ended(d.traces[t])])
    ensures WaitingOpened(g, d, t, b, [], nb, nt, d')
  {
  }

  lemma OpenBranches(g: Graph, rank: seq<nat>, roots: seq<BlockId>, root: BranchId, d: Dag, l: Ledger, visits: seq<int>,
                     finish: Option<BlockId>, t: TraceId, b: BlockId, slots: seq<nat>, nb: BranchId, nt: TraceId, d': Dag)
    requires Opening(g, rank, roots, root, d, l, visits, finish, t, b, slots) && FreshFrom(d, nb, nt) && slots != []
    requires Opens(d, t, nb, nt, b, Dests(g, b, slots), d') && RootsStarted(roots, d, l)
    ensures RootsStarted(roots, d', OpenLedger(l, t, b, g.outofthis[b], nb, nt))
    ensures TreeInv(d', l.live + {nb}, root) && FreshFrom(d', nb + 1, nt + |slots|)
    ensures LedgerInv(g, rank, roots, root, d', OpenLedger(l, t, b, g.outofthis[b], nb, nt), visits)
    ensures nt in d'.active && |d'.active| == |d.active| - 1 + |slots|
  {
    hide TreeInv, LedgerInv, RootsStarted, CanOpen, HoldersOpened, WaitingOpened, AddPending, Settle;
    ActiveIsLive(d, l.live, root, t);
    WithoutIs(d.active, t);
    assert NewIds(nt, |slots|)[0] == nt;
    assert nt in d'.active && |d'.active| == |d.active| - 1 + |slots|;
    hide Opens, FreshFrom;
    OpenKeepsTree(d, l.live, root, t, nb, nt, b, Dests(g, b, slots), d');
    OpenWaiting(g, d, l.live, root, t, nb, nt, b, slots, d');
    OpeningIsNew(g, rank, roots, root, d, l, visits, finish, t, b, slots);
    OpenHolders(g, l.holder, t, b, slots, nt);
    OpenKeepsRoots(g, roots, d, l, t, b, slots, nb, nt, d', OpenLedger(l, t, b, g.outofthis[b], nb, nt));
    OpenKeepsLedger(g, rank, roots, root, d, l, visits, finish, t, b, slots, nb, nt, d',
                    AddPending(Settle(l.holder, t), b, g.outofthis[b], nt));
  }

  lemma ActiveIsLive(d: Dag, live: set<BranchId>, root: BranchId, t: TraceId)
    requires TreeInv(d, live, root) && t in d.active
    ensures LiveTrace(d, live, t) && d.traces[t].derivedbp == None && NoRepeats(d.active)
  {
  }

  /** The arena gains one inactive trace per slot, in order. */
  ghost predicate AddsTraces(before: map<TraceId, BlockTrace>, bp: BranchId, top: BlockId, nt: TraceId,
                             outs: seq<BlockEdge>, slots: seq<nat>, after: map<TraceId, BlockTrace>)
    requires forall i :: 0 <= i < |slots| ==> slots[i] < |outs|
  {
    && (forall x :: x in after <==> x in before || nt <= x < nt + |slots|)
    && (forall x :: x in before ==> after[x] == before[x])
    && (forall x :: nt <= x < nt + |slots| ==>
          after[x] == BlockTrace(false, false, bp, x - nt, Some(top), Some(outs[slots[x - nt]].point), 1, None))
  }

  lemma AddsKeeps(before: map<TraceId, BlockTrace>, bp: BranchId, top: BlockId, nt: TraceId,
                  outs: seq<BlockEdge>, slots: seq<nat>, after: map<TraceId, BlockTrace>)
    requires forall i :: 0 <= i < |slots| ==> slots[i] < |outs|
    requires AddsTraces(before, bp, top, nt, outs, slots, after)
    ensures forall x :: x in before ==> x in after && after[x] == before[x]
    ensures forall i :: 0 <= i < |slots| ==> NewIds(nt, |slots|)[i] in after
    ensures slots == [] ==> after == before
  {
    assert forall i :: 0 <= i < |slots| ==> NewIds(nt, |slots|)[i] == nt + i;
  }

  lemma AddsParent(before: map<TraceId, BlockTrace>, bp: BranchId, top: BlockId, nt: TraceId, outs: seq<BlockEdge>,
                   slots: seq<nat>, after: map<TraceId, BlockTrace>, parent: TraceId)
    requires forall i :: 0 <= i < |slots| ==> slots[i] < |outs|
    requires AddsTraces(before, bp, top, nt, outs, slots, after) && parent in before
    ensures parent in after && after[parent] == before[parent] && (slots == [] ==> after == before)
  {
    AddsKeeps(before, bp, top, nt, outs, slots, after);
  }

  lemma AddsOne(before: map<TraceId, BlockTrace>, bp: BranchId, top: BlockId, nt: TraceId,
                outs: seq<BlockEdge>, slots: seq<nat>, slot: nat, after: map<TraceId, BlockTrace>)
    requires slot < |outs| && forall i :: 0 <= i < |slots| ==> slots[i] < |outs|
    requires forall x :: x in before ==> x < nt
    requires AddsTraces(before, bp, top, nt, outs, slots, after)
    ensures AddsTraces(before, bp, top, nt, outs, slots + [slot],
                       after[nt + |slots| := BlockTrace(false, false, bp, |slots|, Some(top), Some(outs[slot].point), 1, None)])
  {
  }

  /** What `CheckOpen` reads of a trace on its way. */
  lemma OpenReads(g: Graph, rank: seq<nat>, roots: seq<BlockId>, root: BranchId, d: Dag, l: Ledger, visits: seq<int>, t: TraceId)
    requires LedgerInv(g, rank, roots, root, d, l, visits) && |visits| == |g.intothis| && t in d.active && t in d.traces
    ensures !d.traces[t].terminal ==>
      && d.traces[t].destnode.Some? && d.traces[t].destnode.value < |visits|
      && d.traces[t].edgelump + visits[d.traces[t].destnode.value] > 0
  {
    if !d.traces[t].terminal { assert Waiting(d, t) && TraceSound(g, roots, root, d, l, t); }
  }

  lemma NoCommonExit(d: Dag, paths: seq<TraceId>, i: nat, out: Option<BlockId>)
    requires i < |paths| && forall j :: 0 <= j < |paths| ==> paths[j] in d.traces
    requires CommonExit(d, paths[..i], out) && out.Some?
    requires !d.traces[paths[i]].terminal && d.traces[paths[i]].destnode != out
    ensures !exists exit :: CommonExit(d, paths, exit)
  {
    var j :| 0 <= j < |paths[..i]| && !d.traces[paths[..i][j]].terminal && d.traces[paths[..i][j]].destnode == out;
    assert paths[..i][j] == paths[j];
  }

  lemma ExitExtends(d: Dag, paths: seq<TraceId>, i: nat, before: Option<BlockId>, out: Option<BlockId>)
    requires i < |paths| && forall j :: 0 <= j < |paths| ==> paths[j] in d.traces
    requires forall j :: 0 <= j < |paths| && d.traces[paths[j]].active && !d.traces[paths[j]].terminal ==>
      d.traces[paths[j]].destnode.Some?
    requires CommonExit(d, paths[..i], before) && d.traces[paths[i]].active
    requires if d.traces[paths[i]].terminal then out == before
             else out == d.traces[paths[i]].destnode && (before == None || before == out)
    ensures CommonExit(d, paths[..i + 1], out)
  {
    var longer := paths[..i + 1];
    assert forall j :: 0 <= j < i ==> paths[..i][j] == paths[j] == longer[j];
    assert longer[i] == paths[i];
    if before.Some? {
      var j :| 0 <= j < |paths[..i]| && !d.traces[paths[..i][j]].terminal && d.traces[paths[..i][j]].destnode == before;
      assert longer[j] == paths[j];
    }
  }

  /** A path that is on its way has a destination. */
  lemma OnTheWay(g: Graph, rank: seq<nat>, roots: seq<BlockId>, root: BranchId, d: Dag, l: Ledger, visits: seq<int>,
                 b: BranchId, i: nat)
    requires TreeInv(d, l.live, root) && LedgerInv(g, rank, roots, root, d, l, visits)
    requires b in l.live && i < |d.branches[b].paths|
    ensures d.branches[b].paths[i] in d.traces
    ensures var r := d.traces[d.branches[b].paths[i]];
            r.active && !r.terminal ==> r.destnode.Some? && (b != root ==> r.bottom.Some?)
  {
    var t := d.branches[b].paths[i];
    LivePath(d, l.live, root, b, i);
    if d.traces[t].active && !d.traces[t].terminal {
      assert t in d.active;
      assert Waiting(d, t) && TraceSound(g, roots, root, d, l, t);
    }
  }


  /** Blocks and their edges do not change during a trace; visit counts do. */
  class TraceDag {
    const g: Graph
    const index: seq<int>
    var visits: seq<int>
    var rootlist: seq<BlockId>
    var branches: map<BranchId, BranchPoint>
    var traces: map<TraceId, BlockTrace>
    var activetrace: seq<TraceId>
    var activecount: int
    var missedactivecount: int
    var currentActive: Option<TraceId>
    var finishblock: Option<BlockId>
    var nextBranch: BranchId
    var nextTrace: TraceId
    ghost const rank: seq<nat>
    ghost const root: BranchId := 0
    ghost var ledger: Ledger

    ghost function Now(): Dag
      reads this
    {
      Dag(branches, traces, activetrace)
    }

    ghost function Stage(): Scene
      reads this
    {
      Scene(g, index, finishblock, root)
    }

    ghost function Shot(edges: seq<FloatingEdge>): Snap
      reads this
    {
      Snap(Now(), ledger, visits, edges)
    }

    ghost predicate Valid()
      reads this
    {
      && activecount == |activetrace| && |visits| == |g.intothis| == |g.outofthis|
      && TreeInv(Now(), ledger.live, root)
      && LedgerInv(g, rank, rootlist, root, Now(), ledger, visits)
      && RootsStarted(rootlist, Now(), ledger)
      && FreshFrom(Now(), nextBranch, nextTrace)
    }

    /** A trace over graph `graph`, whose blocks have the given indices; `order` ranks blocks along loop-DAG edges. */
    constructor (graph: Graph, indices: seq<int>, counts: seq<int>, ghost order: seq<nat>)
      ensures g == graph && index == indices && visits == counts && rank == order && Blank()
      ensures rootlist == [] && finishblock == None
    {
      g, index, visits, rank := graph, indices, counts, order;
      rootlist, branches, traces, activetrace := [], map[], map[], [];
      activecount, missedactivecount, currentActive, finishblock := 0, 0, None, None;
      nextBranch, nextTrace := 0, 0;
      ledger := Ledger({}, {}, map[]);
    }

    /** Nothing has been allocated yet. */
    ghost predicate Blank()
      reads this
    {
      && branches == map[] && traces == map[] && activetrace == [] && activecount == 0
      && nextBranch == 0 && nextTrace == 0 && ledger == Ledger({}, {}, map[])
    }

    method AddRoot(bl: BlockId)
      modifies this`rootlist
      ensures rootlist == old(rootlist) + [bl]
    {
      rootlist := rootlist + [bl];
    }

    method SetFinishBlock(bl: BlockId)
      modifies this`finishblock
      ensures finishblock == Some(bl)
    {
      finishblock := Some(bl);
    }

    /** The root branch gets one active trace per root. */
    method Initialize()
      requires Blank() && Setting(g, rank, rootlist)
      requires |visits| == |g.outofthis| && forall b :: 0 <= b < |visits| ==> visits[b] == 0
      modifies this`branches, this`traces, this`activetrace, this`activecount, this`nextBranch, this`nextTrace, this`ledger
      ensures Valid() && ledger.openBlocks == {} && activecount == |rootlist|
    {
      hide TreeInv, LedgerInv, RootsStarted, FreshFrom, Setting, Initial;
      SettingSizes(g, rank, rootlist);
      var rootBranch := nextBranch;
      nextBranch := nextBranch + 1;
      branches := branches[rootBranch := BranchPoint(None, -1, None, [], 0)];
      InitialEmpty(rootlist);
      var i := 0;
      while i < |rootlist|
        invariant 0 <= i <= |rootlist| && nextBranch == 1 && nextTrace == i && activecount == i && Initial(rootlist, i, Now())
      {
        InitialGrows(rootlist, i, Now());
        var pathout := |branches[rootBranch].paths|;
        var newtrace := nextTrace;
        nextTrace := nextTrace + 1;
        traces := traces[newtrace := BlockTrace(false, false, rootBranch, pathout, None, Some(rootlist[i]), 1, None)];
        branches := branches[rootBranch := branches[rootBranch].(paths := branches[rootBranch].paths + [newtrace])];
        InsertActive(newtrace);
        i := i + 1;
      }
      assert |activetrace| == i by { InitialSize(rootlist, i, Now()); }
      ledger := Ledger({0}, {}, map[]);
      InitialTree(rootlist, Now());
      InitialLedger(g, rank, rootlist, Now(), visits);
    }

    // ----- The two tests of the scan

    method CheckRetirement(trace: TraceId, exitblock: Option<BlockId>) returns (ok: bool, exit: Option<BlockId>)
      requires Valid() && trace in activetrace
      ensures ok <==> CanRetire(Now(), trace)
      ensures ok && branches[traces[trace].top].depth != 0 ==> CommonExit(Now(), branches[traces[trace].top].paths, exit)
    {
      exit := exitblock;
      if traces[trace].pathout != 0 { return false, exit; }
      var bp := branches[traces[trace].top];
      ghost var d := Now();
      forall i | 0 <= i < |bp.paths|
        ensures bp.paths[i] in d.traces
        ensures traces[bp.paths[i]].active && !traces[bp.paths[i]].terminal ==> traces[bp.paths[i]].destnode.Some?
      {
        OnTheWay(g, rank, rootlist, root, d, ledger, visits, traces[trace].top, i);
      }
      hide TreeInv, LedgerInv, RootsStarted;
      if bp.depth == 0 {
        var i := 0;
        while i < |bp.paths|
          invariant 0 <= i <= |bp.paths|
          invariant forall j :: 0 <= j < i ==> traces[bp.paths[j]].active && traces[bp.paths[j]].terminal
        {
          var cur := traces[bp.paths[i]];
          if !cur.active { return false, exit; }
          if !cur.terminal { return false, exit; }
          i := i + 1;
        }
        return true, exit;
      }
      var outblock: Option<BlockId> := None;
      var i := 0;
      while i < |bp.paths|
        invariant 0 <= i <= |bp.paths|
        invariant CommonExit(d, bp.paths[..i], outblock)
      {
        var cur := traces[bp.paths[i]];
        ghost var before := outblock;
        if !cur.active { return false, exit; }
        if !cur.terminal && outblock != cur.destnode {
          if outblock.Some? {
            NoCommonExit(d, bp.paths, i, outblock);
            return false, exit;
          }
          outblock := cur.destnode;
        }
        ExitExtends(d, bp.paths, i, before, outblock);
        i := i + 1;
      }
      assert bp.paths[..i] == bp.paths;
      return true, outblock;
    }

    method CheckOpen(trace: TraceId) returns (ok: bool)
      requires Valid() && trace in activetrace
      ensures ok <==> CanOpen(g, Now(), finishblock, visits, trace)
    {
      hide TreeInv, LedgerInv, RootsStarted, FreshFrom, InLoopDag;
      ActiveIsLive(Now(), ledger.live, root, trace);
      DepthZero(Now(), ledger.live, root, traces[trace].top);
      OpenReads(g, rank, rootlist, root, Now(), ledger, visits, trace);
      var record := traces[trace];
      if record.terminal { return false; }
      var isroot := false;
      if branches[record.top].depth == 0 {
        if record.bottom == None { return true; }
        isroot := true;
      }
      var bl := record.destnode.value;
      if Some(bl) == finishblock && !isroot { return false; }
      var ignore := record.edgelump + visits[bl];
      var ins := g.intothis[bl];
      var count := 0;
      var slot := 0;
      while slot < |ins|
        invariant 0 <= slot <= |ins| && count == CountIn(ins, slot) && count <= ignore
      {
        if InLoopDag(ins[slot]) {
          count := count + 1;
          if count > ignore {
            CountMonotone(ins, slot + 1, |ins|);
            return false;
          }
        }
        slot := slot + 1;
      }
      return true;
    }

    // ----- The active list

    method InsertActive(trace: TraceId)
      requires trace in traces
      modifies this`activetrace, this`traces, this`activecount
      ensures activetrace == old(activetrace) + [trace]
      ensures traces == old(traces)[trace := old(traces)[trace].(active := true)]
      ensures activecount == old(activecount) + 1
    {
      activetrace := activetrace + [trace];
      traces := traces[trace := traces[trace].(active := true)];
      activecount := activecount + 1;
    }

    method RemoveActive(trace: TraceId)
      requires trace in traces
      modifies this`activetrace, this`traces, this`activecount
      ensures activetrace == Without(old(activetrace), trace)
      ensures traces == old(traces)[trace := old(traces)[trace].(active := false)]
      ensures activecount == old(activecount) - 1
    {
      activetrace := Without(activetrace, trace);
      traces := traces[trace := traces[trace].(active := false)];
      activecount := activecount - 1;
    }

    // ----- Opening

    /** One trace per loop-DAG out-edge of the branch's top block. */
    method CreateTraces(bp: BranchId, top: BlockId)
      requires bp in branches && branches[bp].top == Some(top) && branches[bp].paths == [] && top < |g.outofthis|
      requires forall t :: t in traces ==> t < nextTrace
      modifies this`branches, this`traces, this`nextTrace
      ensures var k := |DagSlots(g.outofthis[top], |g.outofthis[top]|)|;
              && nextTrace == old(nextTrace) + k
              && branches == old(branches)[bp := old(branches)[bp].(paths := NewIds(old(nextTrace), k))]
      ensures AddsTraces(old(traces), bp, top, old(nextTrace), g.outofthis[top],
                         DagSlots(g.outofthis[top], |g.outofthis[top]|), traces)
    {
      var outs := g.outofthis[top];
      var slot := 0;
      ghost var nt := nextTrace;
      ghost var slots := [];
      assert AddsTraces(traces, bp, top, nt, outs, slots, traces);
      assert branches == branches[bp := branches[bp].(paths := NewIds(nt, 0))];
      hide AddsTraces;
      while slot < |outs|
        invariant 0 <= slot <= |outs| && slots == DagSlots(outs, slot)
        invariant nextTrace == nt + |slots|
        invariant branches == old(branches)[bp := old(branches)[bp].(paths := NewIds(nt, |slots|))]
        invariant AddsTraces(old(traces), bp, top, nt, outs, slots, traces)
      {
        if InLoopDag(outs[slot]) {
          var pathout := |branches[bp].paths|;
          var trace := nextTrace;
          nextTrace := nextTrace + 1;
          AddsOne(old(traces), bp, top, nt, outs, slots, slot, traces);
          traces := traces[trace := BlockTrace(false, false, bp, pathout, Some(top), Some(outs[slot].point), 1, None)];
          assert NewIds(nt, |slots|) + [trace] == NewIds(nt, |slots| + 1);
          branches := branches[bp := branches[bp].(paths := branches[bp].paths + [trace])];
          slots := slots + [slot];
        }
        slot := slot + 1;
      }
    }

    method ActivateAll(paths: seq<TraceId>)
      requires forall i :: 0 <= i < |paths| ==> paths[i] in traces
      modifies this`activetrace, this`traces, this`activecount
      ensures activetrace == old(activetrace) + paths && activecount == old(activecount) + |paths|
      ensures traces.Keys == old(traces).Keys
      ensures forall x :: x in traces ==>
        traces[x] == if x in paths then old(traces)[x].(active := true) else old(traces)[x]
    {
      var i := 0;
      while i < |paths|
        invariant 0 <= i <= |paths|
        invariant activetrace == old(activetrace) + paths[..i] && activecount == old(activecount) + i
        invariant traces.Keys == old(traces).Keys
        invariant forall x :: x in traces ==>
          traces[x] == if x in paths[..i] then old(traces)[x].(active := true) else old(traces)[x]
      {
        assert paths[..i + 1] == paths[..i] + [paths[i]];
        InsertActive(paths[i]);
        i := i + 1;
      }
      assert paths[..i] == paths;
    }

    /** A new branch point at the destination of `parent`, with a trace per out-edge. */
    method NewBranch(parent: TraceId, block: BlockId) returns (newbranch: BranchId)
      requires parent in traces && traces[parent].top in branches && traces[parent].destnode == Some(block)
      requires block < |g.outofthis| && forall t :: t in traces ==> t < nextTrace
      modifies this`branches, this`traces, this`nextTrace, this`nextBranch
      ensures newbranch == old(nextBranch) && nextBranch == newbranch + 1
      ensures var k := |DagSlots(g.outofthis[block], |g.outofthis[block]|)|;
              && nextTrace == old(nextTrace) + k
              && branches == old(branches)[newbranch :=
                   BranchPoint(Some(old(traces)[parent].top), old(traces)[parent].pathout, Some(block),
                               NewIds(old(nextTrace), k), old(branches)[old(traces)[parent].top].depth + 1)]
      ensures AddsTraces(old(traces), newbranch, block, old(nextTrace), g.outofthis[block],
                         DagSlots(g.outofthis[block], |g.outofthis[block]|), traces)
    {
      hide DagSlots, AddsTraces, NewIds;
      var record := traces[parent];
      newbranch := nextBranch;
      nextBranch := nextBranch + 1;
      branches := branches[newbranch := BranchPoint(Some(record.top), record.pathout, Some(block), [],
                                                    branches[record.top].depth + 1)];
      CreateTraces(newbranch, block);
    }

    /** The new traces take the place of `parent` on the active list. */
    method ReplaceActive(parent: TraceId, paths: seq<TraceId>, ghost created: map<TraceId, BlockTrace>, newbranch: BranchId)
      requires parent in created && traces == created[parent := created[parent].(derivedbp := Some(newbranch))]
      requires forall i :: 0 <= i < |paths| ==> paths[i] in traces
      modifies this`activetrace, this`traces, this`activecount
      ensures activetrace == Without(old(activetrace), parent) + paths && activecount == old(activecount) - 1 + |paths|
      ensures traces.Keys == created.Keys
      ensures forall x :: x in created ==>
        traces[x] == Replaced(created, parent, newbranch, paths, x)
    {
      RemoveActive(parent);
      assert traces == created[parent := created[parent].(derivedbp := Some(newbranch), active := false)];
      ActivateAll(paths);
    }

    /** A branch point without paths is dropped again, and its trace ends. */
    method AbandonBranch(parent: TraceId, newbranch: BranchId, ghost d: Dag)
      requires branches - {newbranch} == d.branches && parent in d.traces && d.traces[parent].derivedbp == None
      requires traces == d.traces[parent := d.traces[parent].(derivedbp := Some(newbranch))]
      modifies this`branches, this`traces
      ensures branches == d.branches && traces == d.traces[parent := Ended(d.traces[parent])]
    {
      branches := branches - {newbranch};
      traces := traces[parent := Ended(traces[parent].(derivedbp := None))];
    }

    /** A branch point for the destination of `parent` replaces it on the active list, or
        `parent` ends if the destination has no loop-DAG out-edge. */
    method ExpandTrace(parent: TraceId, block: BlockId) returns (first: TraceId, ghost slots: seq<nat>)
      requires parent in traces && traces[parent].top in branches && traces[parent].destnode == Some(block)
      requires block < |g.outofthis| && traces[parent].derivedbp == None && FreshFrom(Now(), nextBranch, nextTrace)
      modifies this`branches, this`traces, this`nextTrace, this`nextBranch, this`activetrace, this`activecount
      ensures slots == DagSlots(g.outofthis[block], |g.outofthis[block]|)
      ensures nextBranch == old(nextBranch) + 1 && nextTrace == old(nextTrace) + |slots|
      ensures slots == [] ==> first == parent && activecount == old(activecount)
      ensures slots == [] ==> Now() == old(Now()).(traces := old(traces)[parent := Ended(old(traces)[parent])])
      ensures slots != [] ==> first == old(nextTrace) && activecount == old(activecount) - 1 + |slots|
      ensures slots != [] ==>
        Opens(old(Now()), parent, old(nextBranch), old(nextTrace), block, Dests(g, block, slots), Now())
    {
      ghost var d, nt := Now(), nextTrace;
      slots := DagSlots(g.outofthis[block], |g.outofthis[block]|);
      assert forall t :: t in traces ==> t < nextTrace;
      assert nextBranch !in branches;
      hide Opens, DagSlots, AddsTraces, NewIds, FreshFrom, Without;
      var newbranch := NewBranch(parent, block);
      ghost var created := traces;
      AddsParent(d.traces, newbranch, block, nt, g.outofthis[block], slots, created, parent);
      traces := traces[parent := traces[parent].(derivedbp := Some(newbranch))];
      var paths := branches[newbranch].paths;
      if paths == [] {
        AbandonBranch(parent, newbranch, d);
        first := parent;
      } else {
        GrowBranch(parent, block, newbranch, paths, d, slots, nt, created);
        first := paths[0];
      }
    }

    /** The new traces take the place of their parent on the active list. */
    method GrowBranch(parent: TraceId, block: BlockId, newbranch: BranchId, paths: seq<TraceId>, ghost d: Dag, ghost slots: seq<nat>,
                      ghost nt: TraceId, ghost created: map<TraceId, BlockTrace>)
      requires parent in d.traces && d.traces[parent].top in d.branches && FreshFrom(d, newbranch, nt) && d.active == activetrace
      requires block < |g.outofthis| && slots == DagSlots(g.outofthis[block], |g.outofthis[block]|)
      requires AddsTraces(d.traces, newbranch, block, nt, g.outofthis[block], slots, created) && paths == NewIds(nt, |slots|)
      requires branches == d.branches[newbranch :=
                 BranchPoint(Some(d.traces[parent].top), d.traces[parent].pathout, Some(block), paths,
                             d.branches[d.traces[parent].top].depth + 1)]
      requires parent in created && traces == created[parent := created[parent].(derivedbp := Some(newbranch))]
      modifies this`activetrace, this`traces, this`activecount
      ensures activecount == old(activecount) - 1 + |slots| && Opens(d, parent, newbranch, nt, block, Dests(g, block, slots), Now())
    {
      hide Opens, DagSlots, AddsTraces, NewIds, FreshFrom, Without;
      AddsKeeps(d.traces, newbranch, block, nt, g.outofthis[block], slots, created);
      ReplaceActive(parent, paths, created, newbranch);
      ExpandOpens(g, d, parent, newbranch, block, slots, nt, created, Now());
    }

    /** The destination of `parent` is opened: it becomes a branch point with one active trace
        per loop-DAG out-edge, or ends the trace if it has none. */
    method OpenBranch(parent: TraceId, ghost edges: seq<FloatingEdge>) returns (next: Option<TraceId>)
      requires Valid() && parent in activetrace && CanOpen(g, Now(), finishblock, visits, parent)
      modifies this`branches, this`traces, this`nextTrace, this`nextBranch, this`activetrace, this`activecount, this`ledger
      ensures Valid() && next.Some? && next.value in activetrace
      ensures old(traces)[parent].destnode.Some? && old(traces)[parent].destnode.value !in old(ledger).openBlocks
      ensures ledger.openBlocks == old(ledger).openBlocks + {old(traces)[parent].destnode.value} && CutsStay(old(ledger), ledger)
      ensures OpenMove(Stage(), old(Shot(edges)), parent, Shot(edges)) && next.value == Successor(Now(), parent)
    {
      hide OpenMove, Tested, OpensTo;
      hide TreeInv, LedgerInv, RootsStarted, CanOpen, Opening, Opens, DagSlots, FreshFrom, AddPending, Settle, CutsStay, Accounts;
      LedgerVisits(g, rank, rootlist, root, Now(), ledger, visits);
      ActiveIsLive(Now(), ledger.live, root, parent);
      OpenStarts(g, rank, rootlist, root, Now(), ledger, visits, finishblock, parent);
      TestedHere(g, Now(), ledger.live, root, visits, parent);
      ghost var d, l, nb, nt := Now(), ledger, nextBranch, nextTrace;
      var block := traces[parent].destnode.value;
      ghost var slots;
      var first;
      first, slots := ExpandTrace(parent, block);
      SuccessorIs(d, parent, nb, nt, block, Dests(g, block, slots), Now());
      if slots == [] {
        ledger := Ledger(l.live, l.openBlocks + {block}, AddPending(Settle(l.holder, parent), block, g.outofthis[block], nt));
        OpenLeaf(g, rank, rootlist, root, d, l, visits, finishblock, parent, block, slots, nb, nt);
      } else {
        ledger := OpenLedger(l, parent, block, g.outofthis[block], nb, nt);
        OpenBranches(g, rank, rootlist, root, d, l, visits, finishblock, parent, block, slots, nb, nt, Now());
      }
      OpenLeavesCuts(g, l, parent, block, g.outofthis[block], nt, ledger);
      OpensHere(g, Snap(d, l, visits, edges), parent, block, nb, nt, Shot(edges));
      OpenIsMove(Stage(), Snap(d, l, visits, edges), parent, nb, nt, Shot(edges));
      next := Some(first);
    }

    // ----- Retiring

    /** The paths of a branch leave the active list. The first that has not ended gives the
        bottom of the merged trace; the lumps of those are added up. */
    method DeactivateAll(paths: seq<TraceId>) returns (edgeout: Option<BlockId>, lumpsum: int)
      requires NoRepeats(paths) && forall i :: 0 <= i < |paths| ==> paths[i] in traces
      requires forall i :: 0 <= i < |paths| && !traces[paths[i]].terminal ==> traces[paths[i]].bottom.Some?
      modifies this`activetrace, this`traces, this`activecount
      ensures activetrace == WithoutAll(old(activetrace), paths, |paths|) && activecount == old(activecount) - |paths|
      ensures Deactivated(old(traces), paths, traces)
      ensures lumpsum == SumLump(old(Now()), paths, |paths|)
      ensures edgeout == None ==> forall i :: 0 <= i < |paths| ==> old(traces)[paths[i]].terminal
      ensures edgeout.Some? ==> exists f :: FirstOpen(old(Now()), paths, f) && edgeout == old(traces)[paths[f]].bottom
    {
      hide Deactivated;
      edgeout, lumpsum := None, 0;
      ghost var d := Now();
      var i := 0;
      assert paths[..0] == [];
      NoneDeactivated(traces);
      while i < |paths|
        invariant 0 <= i <= |paths|
        invariant activetrace == WithoutAll(d.active, paths, i) && activecount == old(activecount) - i
        invariant Deactivated(d.traces, paths[..i], traces)
        invariant lumpsum == SumLump(d, paths, i)
        invariant edgeout == None ==> forall j :: 0 <= j < i ==> d.traces[paths[j]].terminal
        invariant edgeout.Some? ==> exists f :: FirstOpen(d, paths, f) && edgeout == d.traces[paths[f]].bottom
      {
        var curtrace := paths[i];
        DeactivatedKeeps(d.traces, paths[..i], traces, curtrace);
        if !traces[curtrace].terminal {
          lumpsum := lumpsum + traces[curtrace].edgelump;
          if edgeout == None {
            edgeout := traces[curtrace].bottom;
            assert FirstOpen(d, paths, i);
          }
        }
        DeactivatedOne(d.traces, paths, i, traces);
        RemoveActive(curtrace);
        i := i + 1;
      }
      assert paths[..i] == paths;
    }

    /** The trace the branch was derived from becomes active again. */
    method FoldIntoParent(bp: BranchId, exitblock: Option<BlockId>, edgeout: Option<BlockId>, lumpsum: int)
      returns (parenttrace: TraceId)
      requires bp in branches && branches[bp].parent.Some? && branches[bp].parent.value in branches
      requires 0 <= branches[bp].pathout < |branches[branches[bp].parent.value].paths|
      requires branches[branches[bp].parent.value].paths[branches[bp].pathout] in traces
      modifies this`traces, this`activetrace, this`activecount
      ensures parenttrace == branches[branches[bp].parent.value].paths[branches[bp].pathout]
      ensures traces == old(traces)[parenttrace := Folded(old(traces)[parenttrace], exitblock, edgeout, lumpsum)]
      ensures activetrace == old(activetrace) + [parenttrace] && activecount == old(activecount) + 1
    {
      var parent, pathout := branches[bp].parent.value, branches[bp].pathout;
      parenttrace := branches[parent].paths[pathout];
      var record := traces[parenttrace].(derivedbp := None);
      match edgeout {
        case None => record := Ended(record);
        case Some(_) => record := record.(bottom := edgeout, destnode := exitblock, edgelump := lumpsum);
      }
      traces := traces[parenttrace := record];
      InsertActive(parenttrace);
    }

    /** A branch whose paths have all ended or come together is folded into the trace it was
        derived from; retiring the root branch ends the run. */
    method RetireBranch(bp: BranchId, exitblock: Option<BlockId>, ghost edges: seq<FloatingEdge>) returns (next: Option<TraceId>)
      requires Valid() && bp in ledger.live
      requires bp == root ==> AllTerminal(Now(), branches[bp].paths)
      requires bp != root ==> CommonExit(Now(), branches[bp].paths, exitblock)
      modifies this`traces, this`activetrace, this`activecount, this`ledger
      ensures bp == root ==> activecount == 0 && activetrace == [] && ledger == old(ledger) && next == None
      ensures bp != root ==> Valid() && next.Some? && next.value in activetrace
      ensures bp != root ==> ledger.openBlocks == old(ledger).openBlocks && CutsStay(old(ledger), ledger)
      ensures bp != root ==> Size(Now(), ledger.live) < Size(old(Now()), old(ledger).live)
      ensures bp != root ==> RetireFolds(old(Shot(edges)), bp, exitblock, Shot(edges))
      ensures bp != root ==> AgreesWithParent(old(Now()), old(ledger).live, bp) && next == Some(ParentTrace(old(Now()), old(ledger).live, bp))
    {
      hide RetireFolds;
      hide TreeInv, LedgerInv, RootsStarted, Deactivated, CommonExit, RetiredRecord, Retires, FreshFrom, FirstOpen, AllTerminal, Size;
      ghost var d, l := Now(), ledger;
      RetireStarts(g, rank, rootlist, root, d, l, visits, bp, exitblock);
      var paths := branches[bp].paths;
      var edgeout, lumpsum := DeactivateAll(paths);
      ghost var t1 := traces;
      if branches[bp].depth == 0 {
        RootRetires(d, l.live, root);
        next := None;
      } else {
        assert t1.Keys == d.traces.Keys by { DeactivatedKeys(d.traces, paths, t1); }
        var parenttrace := FoldIntoParent(bp, exitblock, edgeout, lumpsum);
        RetireTree(g, rank, rootlist, root, d, l, visits, bp, exitblock, edgeout, t1, Now(), nextBranch, nextTrace);
        RetireAccounts(g, rank, rootlist, root, d, l, visits, bp, exitblock, edgeout, t1, Now(), nextBranch, nextTrace);
        ledger := Ledger(l.live - {bp}, l.openBlocks, HandOver(l.holder, paths, parenttrace));
        FoldedIsRetired(d, l.live, root, bp, exitblock, edgeout, t1, Now());
        RetiresHere(Snap(d, l, visits, edges), bp, exitblock, edgeout, Shot(edges));
        next := Some(parenttrace);
      }
    }

    // ----- Cutting

    /** The path in `slot` moves down one, with the branch derived from it. */
    method MoveSlot(b: BranchId, slot: nat)
      requires CanShift(Now(), b, slot)
      modifies this`branches, this`traces
      ensures Now() == ShiftNext(b, slot, old(Now()))
    {
      var movedtrace := branches[b].paths[slot];
      traces := traces[movedtrace := traces[movedtrace].(pathout := traces[movedtrace].pathout - 1)];
      match traces[movedtrace].derivedbp {
        case Some(derivedbp) =>
          branches := branches[derivedbp := branches[derivedbp].(pathout := branches[derivedbp].pathout - 1)];
        case None =>
      }
      branches := branches[b := branches[b].(paths := branches[b].paths[slot - 1 := movedtrace])];
    }

    /** Paths after slot `po` move down one, with the branches derived from them. */
    method ShiftPaths(b: BranchId, po: nat)
      requires b in branches && po < |branches[b].paths| && Shiftable(Now(), b)
      modifies this`branches, this`traces
      ensures Now() == ShiftAll(old(Now()), b, po, |old(branches)[b].paths|)
    {
      ghost var d := Now();
      var size := |branches[b].paths|;
      var slot := po + 1;
      hide Shiftable, CanShift, ShiftNext;
      while slot < size
        invariant po + 1 <= slot <= size && activetrace == d.active
        invariant Now() == ShiftAll(d, b, po, slot)
      {
        CanShiftOn(d, b, po, slot);
        MoveSlot(b, slot);
        slot := slot + 1;
      }
    }

    /** A trace still on its first edge leaves its branch for good. */
    method DropPath(trace: TraceId)
      requires trace in traces && traces[trace].top in branches && Shiftable(Now(), traces[trace].top)
      requires 0 <= traces[trace].pathout < |branches[traces[trace].top].paths|
      requires branches[traces[trace].top].paths[traces[trace].pathout] == trace
      modifies this`branches, this`traces, this`activetrace, this`activecount
      ensures Drops(old(Now()), trace, Now()) && activecount == old(activecount) - 1
    {
      ghost var d := Now();
      var b, po := traces[trace].top, traces[trace].pathout;
      RemoveActive(trace);
      ghost var d1 := Now();
      assert Shiftable(d1, b) by { ShiftableStays(d, trace, b, d1); }
      hide Shiftable, Shifted, Drops, ShiftAll;
      ShiftPaths(b, po);
      ghost var d2 := Now();
      ShiftAllIs(d1, b, po, |d1.branches[b].paths|);
      ShiftedBranch(d1, b, po, d2);
      branches := branches[b := branches[b].(paths := branches[b].paths[..|branches[b].paths| - 1])];
      traces := traces - {trace};
      ShiftDrops(d, trace, d1, d2, Now());
    }

    /** The edge the trace is about to follow is proposed as a goto and its lump counted as
        visits of the destination; the trace is dropped from its branch, or ends. */
    method RemoveTrace(trace: TraceId, likelygoto: seq<FloatingEdge>) returns (edges: seq<FloatingEdge>)
      requires Valid() && trace in activetrace
      requires IsCandidate(Now(), trace) && Stuck(g, Now(), finishblock, visits, trace)
      modifies this`branches, this`traces, this`activetrace, this`activecount, this`visits, this`ledger
      ensures Valid() && ledger.openBlocks == old(ledger).openBlocks && CutsStay(old(ledger), ledger)
      ensures Size(Now(), ledger.live) < Size(old(Now()), old(ledger).live)
      ensures old(traces)[trace].bottom.Some? && old(traces)[trace].destnode.Some?
      ensures var u, v := old(traces)[trace].bottom.value, old(traces)[trace].destnode.value;
              && edges == likelygoto + [FloatingEdge(u, v)]
              && Flows(g, u, v) && u in ledger.openBlocks && v < |old(visits)| && IsCut(g, ledger, u, v)
              && visits == Visited(old(visits), v, old(traces)[trace].edgelump)
      ensures ledger == old(ledger).(holder := CutOver(old(ledger).holder, trace)) && CutsTo(old(Now()), trace, Now())
    {
      ghost var d, l := Now(), ledger;
      hide TreeInv, LedgerInv, RootsStarted, IsCandidate, Stuck, Drops, Shiftable, FreshFrom, Size, CutsStay, IsCut;
      CutStarts(g, rank, rootlist, root, d, l, visits, finishblock, trace);
      CutIsCut(g, rank, rootlist, root, d, l, visits, trace);
      var record := traces[trace];
      var destnode := record.destnode.value;
      edges := likelygoto + [FloatingEdge(record.bottom.value, destnode)];
      ghost var v := visits;
      visits := Visited(visits, destnode, record.edgelump);
      ledger := l.(holder := CutOver(l.holder, trace));
      if record.bottom != branches[record.top].top {
        traces := traces[trace := Ended(record)];
        CutEnds(g, rank, rootlist, root, d, l, v, trace, nextBranch, nextTrace);
      } else {
        DropPath(trace);
        CutDrops(g, rank, rootlist, root, d, l, v, finishblock, trace, Now(), nextBranch, nextTrace);
      }
    }

    /** The active trace to cut: the candidate with the best score. */
    method SelectBadEdge() returns (trace: TraceId)
      requires Valid() && activetrace != [] && IndexedApart(g, index)
      requires forall x :: x in activetrace ==> Stuck(g, Now(), finishblock, visits, x)
      ensures trace in activetrace && IsCandidate(Now(), trace)
      ensures IsBestTrace(g, Now(), ledger.live, root, index, trace)
    {
      ghost var some := CandidateExists(g, Now(), ledger.live, root, finishblock, visits);
      RunIsReady(g, rank, rootlist, root, Now(), ledger, visits, index);
      hide TreeInv, LedgerInv, RootsStarted, Stuck, IsScore, AllLive, IsCandidate;
      assert Candidate(Now(), some);
      trace := Select(g, Dag(branches, traces, activetrace), index, ledger.live, root);
    }

    // ----- The scan

    /** The active traces from position `start` on, `missedactivecount` of them and wrapping
        round, were found stuck, and the scan stands right after them. */
    ghost predicate Scanning(start: nat)
      reads this
    {
      && start < |activetrace| && 0 <= missedactivecount <= |activetrace|
      && (forall k {:trigger Around(activetrace, k)} :: start <= k < start + missedactivecount ==>
            StuckAt(g, Now(), finishblock, visits, Around(activetrace, k)))
      && currentActive == if start + missedactivecount == |activetrace| then None
                          else Some(Around(activetrace, start + missedactivecount))
    }

    function Front(): Option<TraceId>
      reads this
    {
      if activetrace == [] then None else Some(activetrace[0])
    }

    /** A fresh scan from trace `from`. */
    method RestartScan(from: Option<TraceId>) returns (ghost start: nat)
      requires from.Some? && from.value in activetrace
      modifies this`missedactivecount, this`currentActive
      ensures Scanning(start) && missedactivecount == 0 && currentActive == from && activetrace[start] == from.value
    {
      currentActive := from;
      missedactivecount := 0;
      start :| 0 <= start < |activetrace| && activetrace[start] == from.value;
    }

    /** Every active trace was missed: one of them is cut. */
    method CutStep(likelygoto: seq<FloatingEdge>, ghost start: nat)
      returns (edges: seq<FloatingEdge>, ghost start': nat, ghost cut: TraceId)
      requires Valid() && activecount > 0 && missedactivecount >= activecount && start < |activetrace| && IndexedApart(g, index)
      requires forall k {:trigger Around(activetrace, k)} :: start <= k < start + |activetrace| ==>
                 StuckAt(g, Now(), finishblock, visits, Around(activetrace, k))
      modifies this`branches, this`traces, this`activetrace, this`activecount, this`visits, this`ledger,
               this`missedactivecount, this`currentActive
      ensures Valid() && (activecount > 0 ==> Scanning(start'))
      ensures Grows(g, ledger, old(visits), visits, likelygoto, edges) && CutsStay(old(ledger), ledger)
      ensures ledger.openBlocks == old(ledger).openBlocks && Size(Now(), ledger.live) < Size(old(Now()), old(ledger).live)
      ensures cut in old(activetrace) && CutMove(Stage(), old(Shot(likelygoto)), cut, Shot(edges)) && start' == 0
      ensures activecount == 0 ==> Finished(g, rootlist, ledger) && VisitsCount(g, ledger, visits)
    {
      hide TreeInv, LedgerInv, RootsStarted, Stuck, IsCandidate, FreshFrom, Size, CutsStay, IsCut, IsBestTrace, IndexedApart,
        CutMove, CutsTo, Finished, VisitsCount, Accounts;
      forall x | x in activetrace ensures StuckAt(g, Now(), finishblock, visits, x) {
        AllAround(activetrace, start, x);
      }
      var badtrace := SelectBadEdge();
      cut := badtrace;
      edges := RemoveTrace(badtrace, likelygoto);
      CutGrowsEdges(g, ledger, old(visits), old(traces)[badtrace].destnode.value, old(traces)[badtrace].edgelump,
                    likelygoto, old(traces)[badtrace].bottom.value);
      CutIsMove(Stage(), old(Shot(likelygoto)), badtrace, Shot(edges));
      if activecount == 0 {
        NothingWaits(g, rank, rootlist, root, Now(), ledger, visits);
        LedgerVisits(g, rank, rootlist, root, Now(), ledger, visits);
      }
      start' := 0;
      currentActive := Front();
      missedactivecount := 0;
    }

    /** The branch of `curtrace` is retired. */
    method RetireStep(curtrace: TraceId, exitblock: Option<BlockId>, ghost edges: seq<FloatingEdge>)
      returns (ghost start': nat, ghost move: Move)
      requires Valid() && curtrace in activetrace && CanRetire(Now(), curtrace)
      requires branches[traces[curtrace].top].depth != 0 ==> CommonExit(Now(), branches[traces[curtrace].top].paths, exitblock)
      modifies this`traces, this`activetrace, this`activecount, this`ledger, this`missedactivecount, this`currentActive
      ensures activecount == |activetrace| && (activecount > 0 ==> Valid() && Scanning(start'))
      ensures CutsStay(old(ledger), ledger)
      ensures activecount > 0 ==>
        ledger.openBlocks == old(ledger).openBlocks && Size(Now(), ledger.live) < Size(old(Now()), old(ledger).live)
      ensures activecount == 0 ==> Finished(g, rootlist, ledger) && VisitsCount(g, ledger, visits) && ledger == old(ledger)
      ensures Legal(Stage(), old(Shot(edges)), move, Shot(edges)) && move in {Retire(curtrace), Finish(curtrace)}
      ensures ResumesAfter(old(Shot(edges)), move, Shot(edges), start')
    {
      hide TreeInv, LedgerInv, RootsStarted, CommonExit, FreshFrom, Size, Finished, VisitsCount, Accounts, RetireMove, RetireFolds,
        Tested;
      TestedHere(g, Now(), ledger.live, root, visits, curtrace);
      ghost var d := Now();
      LedgerVisits(g, rank, rootlist, root, d, ledger, visits);
      ActiveIsLive(d, ledger.live, root, curtrace);
      var top := traces[curtrace].top;
      DepthZero(d, ledger.live, root, top);
      if top == root {
        RootRetires(d, ledger.live, root);
        AllInTraces(d, ledger.live, root);
        NothingWaits(g, rank, rootlist, root, d, ledger, visits);
      }
      var next := RetireBranch(top, exitblock, edges);
      if top == root {
        move := Finish(curtrace);
      } else {
        move := Retire(curtrace);
        RetireMoves(Stage(), old(Shot(edges)), curtrace, exitblock, Shot(edges));
      }
      currentActive := next;
      missedactivecount := 0;
      start' := 0;
      if top != root { start' :| 0 <= start' < |activetrace| && activetrace[start'] == next.value; }
    }

    /** The destination of `curtrace` is opened. */
    method OpenStep(curtrace: TraceId, ghost edges: seq<FloatingEdge>) returns (ghost start': nat)
      requires Valid() && curtrace in activetrace && CanOpen(g, Now(), finishblock, visits, curtrace)
      modifies this`branches, this`traces, this`nextTrace, this`nextBranch, this`activetrace, this`activecount, this`ledger,
               this`missedactivecount, this`currentActive
      ensures Valid() && Scanning(start') && activecount > 0 && CutsStay(old(ledger), ledger)
      ensures old(ledger).openBlocks <= ledger.openBlocks && |ledger.openBlocks| > |old(ledger).openBlocks|
      ensures Legal(Stage(), old(Shot(edges)), Open(curtrace), Shot(edges))
      ensures ResumesAfter(old(Shot(edges)), Open(curtrace), Shot(edges), start')
    {
      hide TreeInv, LedgerInv, RootsStarted, FreshFrom, CanOpen, OpenMove, CutsStay, StuckAt;
      var next := OpenBranch(curtrace, edges);
      start' := RestartScan(next);
    }

    /** Nothing can be done at `curtrace` now. */
    method MissStep(curtrace: TraceId, ghost start: nat)
      requires Valid() && start < |activetrace| && 0 <= missedactivecount < |activetrace|
      requires curtrace == Around(activetrace, start + missedactivecount)
      requires forall k {:trigger Around(activetrace, k)} :: start <= k < start + missedactivecount ==>
                 StuckAt(g, Now(), finishblock, visits, Around(activetrace, k))
      requires StuckAt(g, Now(), finishblock, visits, curtrace)
      modifies this`missedactivecount, this`currentActive
      ensures Valid() && Scanning(start) && missedactivecount == old(missedactivecount) + 1
    {
      hide TreeInv, LedgerInv, RootsStarted, StuckAt, FreshFrom;
      ghost var pos := start + missedactivecount;
      ActiveIsLive(Now(), ledger.live, root, curtrace);
      NextIs(activetrace, if pos < |activetrace| then pos else pos - |activetrace|);
      missedactivecount := missedactivecount + 1;
      currentActive := NextActive(activetrace, curtrace);
    }

    /** One round of the scan: cut, retire, open or move on. */
    method ScanStep(likelygoto: seq<FloatingEdge>, exitblock: Option<BlockId>, ghost start: nat)
      returns (edges: seq<FloatingEdge>, exit: Option<BlockId>, ghost start': nat, ghost move: Option<Move>)
      requires Valid() && activecount > 0 && Scanning(start) && IndexedApart(g, index)
      modifies this`branches, this`traces, this`activetrace, this`activecount, this`visits, this`ledger,
               this`missedactivecount, this`currentActive, this`nextBranch, this`nextTrace
      ensures activecount == |activetrace| && (activecount > 0 ==> Valid() && Scanning(start'))
      ensures activecount == 0 ==> Finished(g, rootlist, ledger) && VisitsCount(g, ledger, visits)
      ensures Grows(g, ledger, old(visits), visits, likelygoto, edges)
      ensures old(ledger).openBlocks <= ledger.openBlocks && CutsStay(old(ledger), ledger)
      ensures activecount > 0 ==>
        || |ledger.openBlocks| > |old(ledger).openBlocks|
        || (ledger.openBlocks == old(ledger).openBlocks && Size(Now(), ledger.live) < Size(old(Now()), old(ledger).live))
        || (ledger == old(ledger) && Now() == old(Now()) && activecount == old(activecount)
            && missedactivecount == old(missedactivecount) + 1 <= activecount)
      ensures match move
              case Some(m) =>
                && Legal(Stage(), old(Shot(likelygoto)), m, Shot(edges))
                && Turn(Stage(), old(Shot(likelygoto)), start, m, Shot(edges), start')
              case None => Shot(edges) == old(Shot(likelygoto)) && start' == start
    {
      hide TreeInv, LedgerInv, RootsStarted, StuckAt, FreshFrom, CanRetire, CanOpen, CommonExit, Size, Finished, VisitsCount, Accounts,
        IndexedApart, IsBestTrace, CutMove, OpenMove, RetireMove, FinishMove, InTurn, Tested;
      edges, exit, start', move := likelygoto, exitblock, start, None;
      if currentActive == None { currentActive := Front(); }
      var curtrace := currentActive.value;
      assert curtrace == Around(activetrace, start + missedactivecount);
      PathsInTraces(Now(), ledger.live, root, curtrace);
      if missedactivecount >= activecount {
        ghost var cut;
        edges, start', cut := CutStep(likelygoto, start);
        move := Some(CutAt(cut));
        return;
      }
      var canRetire;
      canRetire, exit := CheckRetirement(curtrace, exitblock);
      if canRetire {
        ghost var m;
        InTurnHere(Stage(), Shot(edges), start, missedactivecount, curtrace);
        start', m := RetireStep(curtrace, exit, likelygoto);
        move := Some(m);
        return;
      }
      var canOpen := CheckOpen(curtrace);
      if canOpen {
        InTurnHere(Stage(), Shot(edges), start, missedactivecount, curtrace);
        start' := OpenStep(curtrace, likelygoto);
        move := Some(Open(curtrace));
        return;
      }
      StuckNow(g, Now(), ledger.live, root, visits, finishblock, curtrace);
      MissStep(curtrace, start);
    }

    /** Runs the scan until nothing is active. */
    method ScanAll(likelygoto: seq<FloatingEdge>)
      returns (edges: seq<FloatingEdge>, ghost history: seq<Snap>, ghost moves: seq<Move>, ghost starts: seq<nat>)
      requires Valid() && IndexedApart(g, index)
      modifies this`branches, this`traces, this`activetrace, this`activecount, this`visits, this`ledger,
               this`missedactivecount, this`currentActive, this`nextBranch, this`nextTrace
      ensures Run(Stage(), history, moves) && history[0] == old(Shot(likelygoto)) && history[|moves|] == Shot(edges)
      ensures InOrder(Stage(), history, moves, starts)
      ensures activecount == 0 && activetrace == [] && Finished(g, rootlist, ledger) && VisitsCount(g, ledger, visits)
      ensures Grows(g, ledger, old(visits), visits, likelygoto, edges)
    {
      hide TreeInv, LedgerInv, RootsStarted, FreshFrom, Size, Finished, StuckAt, Setting, VisitsCount, Accounts, CutsStay,
        IndexedApart, Legal, Turn;
      edges := likelygoto;
      var exitblock: Option<BlockId> := None;
      currentActive := Front();
      missedactivecount := 0;
      ghost var start := 0;
      history, moves, starts := [Shot(edges)], [], [0];
      RunStarts(Stage(), Shot(edges));
      if activecount == 0 { NothingWaits(g, rank, rootlist, root, Now(), ledger, visits); }
      LedgerVisits(g, rank, rootlist, root, Now(), ledger, visits);
      while activecount > 0
        invariant activecount == |activetrace| && (activecount > 0 ==> Valid() && Scanning(start))
        invariant activecount == 0 ==> Finished(g, rootlist, ledger) && VisitsCount(g, ledger, visits)
        invariant Grows(g, ledger, old(visits), visits, likelygoto, edges)
        invariant Run(Stage(), history, moves) && history[0] == old(Shot(likelygoto)) && history[|moves|] == Shot(edges)
        invariant InOrder(Stage(), history, moves, starts) && (activecount > 0 ==> starts[|moves|] == start)
        decreases activecount > 0, |g.outofthis| - |ledger.openBlocks|, Size(Now(), ledger.live), activecount - missedactivecount
      {
        OpenBounded(g, rank, rootlist, root, Now(), ledger, visits);
        ghost var l1, v1, e1 := ledger, visits, edges;
        ghost var move;
        edges, exitblock, start, move := ScanStep(edges, exitblock, start);
        if move.Some? {
          RunExtends(Stage(), history, moves, move.value, Shot(edges));
          OrderExtends(Stage(), history, moves, starts, move.value, Shot(edges), start);
          history, moves, starts := history + [Shot(edges)], moves + [move.value], starts + [start];
        }
        GrowsOn(g, l1, ledger, old(visits), v1, visits, likelygoto, e1, edges);
        if activecount > 0 { OpenBounded(g, rank, rootlist, root, Now(), ledger, visits); }
      }
    }

    /** A run of legal moves from the given state to one where nothing is active: an edge is cut, and
        becomes a goto, where every trace is stuck and nowhere else. Every goto is a loop-DAG edge that
        leaves an open block; every cut edge leads where a goto does; every other loop-DAG edge that
        leaves an open block leads to an open one. So every block on a walk from the roots that enters
        no goto's target is open. The visit counts are back at zero. */
    method PushBranches(likelygoto: seq<FloatingEdge>)
      returns (edges: seq<FloatingEdge>, ghost history: seq<Snap>, ghost moves: seq<Move>, ghost starts: seq<nat>)
      requires Valid() && IndexedApart(g, index) && forall b :: 0 <= b < |visits| ==> visits[b] == 0
      requires forall i :: 0 <= i < |likelygoto| ==> likelygoto[i].bottom < |visits|
      modifies this`branches, this`traces, this`activetrace, this`activecount, this`visits, this`ledger,
               this`missedactivecount, this`currentActive, this`nextBranch, this`nextTrace
      ensures Run(Stage(), history, moves) && history[0] == old(Shot(likelygoto)) && InOrder(Stage(), history, moves, starts)
      ensures history[|moves|].d == Now() && history[|moves|].l == ledger && history[|moves|].edges == edges
      ensures edges == likelygoto + Gotos(Stage(), history, moves)
      ensures activecount == 0 && activetrace == [] && likelygoto <= edges
      ensures forall i :: |likelygoto| <= i < |edges| ==>
        Flows(g, edges[i].top, edges[i].bottom) && edges[i].top in ledger.openBlocks
      ensures forall i :: |likelygoto| <= i < |edges| ==> IsCut(g, ledger, edges[i].top, edges[i].bottom)
      ensures Finished(g, rootlist, ledger)
      ensures forall e :: e in ledger.holder && ledger.holder[e] == Cut ==> Target(g, e) in Bottoms(edges, |likelygoto|)
      ensures forall path :: UncutWalk(g, rootlist, Bottoms(edges, |likelygoto|), path) ==> path[|path| - 1] in ledger.openBlocks
      ensures |visits| == |g.outofthis| && forall b :: 0 <= b < |visits| ==> visits[b] == 0
    {
      hide TreeInv, LedgerInv, RootsStarted, FreshFrom, Finished, Setting, VisitsCount, Accounts, IndexedApart, Legal, Gotos, Turn;
      TargetsInRange(g, rank, rootlist, root, Now(), ledger, visits);
      edges, history, moves, starts := ScanAll(likelygoto);
      EdgesAreGotos(Stage(), history, moves);
      CutsAreProposed(g, rootlist, ledger, old(visits), visits, likelygoto, edges);
      forall path | UncutWalk(g, rootlist, Bottoms(edges, |likelygoto|), path) ensures path[|path| - 1] in ledger.openBlocks {
        UncutIsOpen(g, rootlist, ledger, Bottoms(edges, |likelygoto|), path);
      }
      ClearVisitCount(edges);
    }

    /** The targets of all proposed gotos get their visit count cleared. */
    method ClearVisitCount(likelygoto: seq<FloatingEdge>)
      requires forall i :: 0 <= i < |likelygoto| ==> likelygoto[i].bottom < |visits|
      modifies this`visits
      ensures |visits| == |old(visits)|
      ensures forall b :: 0 <= b < |visits| ==>
        visits[b] == if exists i :: 0 <= i < |likelygoto| && likelygoto[i].bottom == b then 0 else old(visits)[b]
    {
      var k := 0;
      while k < |likelygoto|
        invariant 0 <= k <= |likelygoto| && |visits| == |old(visits)|
        invariant forall b :: 0 <= b < |visits| ==>
          visits[b] == if exists i :: 0 <= i < k && likelygoto[i].bottom == b then 0 else old(visits)[b]
      {
        visits := visits[likelygoto[k].bottom := 0];
        k := k + 1;
      }
    }
  }
}
