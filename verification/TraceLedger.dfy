/** Who accounts for each loop-DAG edge that leaves an opened block. */
module TraceLedger {
  import opened FlowGraph
  import opened LoopDag
  import opened TraceTree

  /** Lumped into an active trace, cut as a likely goto, or used up when its target opened. */
  datatype Holder = Pending(trace: TraceId) | Cut | Absorbed

  datatype Ledger = Ledger(live: set<BranchId>, openBlocks: set<BlockId>, holder: map<Edge, Holder>)

  ghost function PendingSet(h: map<Edge, Holder>, t: TraceId): set<Edge> {
    set e | e in h && h[e] == Pending(t)
  }

  ghost function CutSet(g: Graph, h: map<Edge, Holder>, b: BlockId): set<Edge> {
    set e | e in h && h[e] == Cut && IsEdge(g, e) && Target(g, e) == b
  }

  // ----- The setting

  ghost predicate Setting(g: Graph, rank: seq<nat>, roots: seq<BlockId>) {
    Paired(g) && Ranked(g, rank) && RootsApart(g, rank, roots)
  }

  ghost predicate Waiting(d: Dag, t: TraceId) {
    t in d.active && t in d.traces && !d.traces[t].terminal
  }

  // ----- The accounts

  /** Exactly the loop-DAG edges leaving opened blocks have a holder, and so just one. */
  ghost predicate Accounts(g: Graph, l: Ledger) {
    forall e :: e in l.holder <==> IsEdge(g, e) && e.source in l.openBlocks
  }

  /** Pending edges lead where their trace is going; absorbed ones to opened blocks. */
  ghost predicate HoldersMatch(g: Graph, d: Dag, l: Ledger)
    requires Accounts(g, l)
  {
    && (forall e :: e in l.holder && l.holder[e].Pending? ==>
          Waiting(d, l.holder[e].trace) && d.traces[l.holder[e].trace].destnode == Some(Target(g, e)))
    && (forall e :: e in l.holder && l.holder[e] == Absorbed ==> Target(g, e) in l.openBlocks)
  }

  /** A trace on its way: its lump is the number of edges it holds, one of them leaving its
      bottom block; a trace not yet started stands for a root. */
  ghost predicate TraceSound(g: Graph, roots: seq<BlockId>, root: BranchId, d: Dag, l: Ledger, t: TraceId)
    requires Waiting(d, t)
  {
    var r := d.traces[t];
    && r.destnode.Some? && r.destnode.value < |g.outofthis| && r.destnode.value !in l.openBlocks
    && (r.bottom.Some? ==>
          && r.edgelump == |PendingSet(l.holder, t)| > 0
          && exists e :: e in PendingSet(l.holder, t) && e.source == r.bottom.value)
    && (r.bottom == None ==>
          r.top == root && 0 <= r.pathout < |roots| && r.destnode == Some(roots[r.pathout]) && r.edgelump == 1)
  }

  ghost predicate TracesSound(g: Graph, roots: seq<BlockId>, root: BranchId, d: Dag, l: Ledger) {
    forall t :: Waiting(d, t) ==> TraceSound(g, roots, root, d, l, t)
  }

  /** Visit counts are the numbers of cut edges. */
  ghost predicate VisitsCount(g: Graph, l: Ledger, visits: seq<int>) {
    && |visits| == |g.outofthis|
    && forall b :: 0 <= b < |visits| ==> visits[b] == |CutSet(g, l.holder, b)|
  }

  /** An opened block is a root or has all its in-edges settled. */
  ghost predicate OpenedSound(g: Graph, rank: seq<nat>, roots: seq<BlockId>, l: Ledger)
    requires |rank| == |g.outofthis| && forall i :: 0 <= i < |roots| ==> roots[i] < |rank|
  {
    && (forall v :: v in l.openBlocks ==> v < |rank| && forall i :: 0 <= i < |roots| ==> rank[roots[i]] <= rank[v])
    && (forall e :: IsEdge(g, e) && Target(g, e) in l.openBlocks && Target(g, e) !in roots ==>
          e in l.holder && !l.holder[e].Pending?)
  }

  ghost predicate LedgerInv(g: Graph, rank: seq<nat>, roots: seq<BlockId>, root: BranchId, d: Dag, l: Ledger,
                            visits: seq<int>) {
    && Setting(g, rank, roots)
    && Accounts(g, l) && HoldersMatch(g, d, l)
    && TracesSound(g, roots, root, d, l)
    && VisitsCount(g, l, visits)
    && OpenedSound(g, rank, roots, l)
  }

  // ----- Opening a block

  /** A block reached by an edge from an opened block is no root. */
  lemma ReachedIsNoRoot(g: Graph, rank: seq<nat>, roots: seq<BlockId>, l: Ledger, e: Edge)
    requires Setting(g, rank, roots) && Accounts(g, l) && OpenedSound(g, rank, roots, l) && e in l.holder
    ensures Target(g, e) < |rank| && Target(g, e) !in roots
    ensures forall i :: 0 <= i < |roots| ==> rank[roots[i]] < rank[Target(g, e)]
  {
    assert OutPaired(g, e.source, e.slot);
    assert e.source in l.openBlocks;
  }

  /** The in-edges of a block that may be opened are held by that trace or already cut. */
  lemma OpenTakesAll(g: Graph, rank: seq<nat>, roots: seq<BlockId>, root: BranchId, d: Dag, l: Ledger,
                     visits: seq<int>, finish: Option<BlockId>, t: TraceId)
    requires LedgerInv(g, rank, roots, root, d, l, visits) && Waiting(d, t) && d.traces[t].bottom.Some?
    requires d.traces[t].top in d.branches && CanOpen(g, d, finish, visits, t)
    ensures InDag(g, d.traces[t].destnode.value)
         == PendingSet(l.holder, t) + CutSet(g, l.holder, d.traces[t].destnode.value)
  {
    assert TraceSound(g, roots, root, d, l, t);
    var b := d.traces[t].destnode.value;
    var p, c := PendingSet(l.holder, t), CutSet(g, l.holder, b);
    CountIsSize(g, b, |g.intothis[b]|);
    forall e | e in p + c ensures e in InDag(g, b) {
      InDagIs(g, b, e);
    }
    assert p !! c;
    SubsetFills(p, c, InDag(g, b));
  }

  lemma SubsetFills(p: set<Edge>, c: set<Edge>, all: set<Edge>)
    requires p !! c && p + c <= all && |all| <= |p| + |c|
    ensures all == p + c
  {
    assert |p + c| == |p| + |c|;
    assert |all - (p + c)| == |all| - |p + c|;
  }

  /** No other trace is going to the block being opened. */
  lemma OpenIsExclusive(g: Graph, rank: seq<nat>, roots: seq<BlockId>, root: BranchId, d: Dag, l: Ledger,
                        visits: seq<int>, finish: Option<BlockId>, t: TraceId, x: TraceId)
    requires LedgerInv(g, rank, roots, root, d, l, visits) && TreeInv(d, l.live, root)
    requires Waiting(d, t) && d.traces[t].top in d.branches && CanOpen(g, d, finish, visits, t)
    requires Waiting(d, x) && x != t
    ensures d.traces[x].destnode != d.traces[t].destnode
  {
    hide CountIn, InLoopDag, VisitsCount;
    assert TraceSound(g, roots, root, d, l, t) && TraceSound(g, roots, root, d, l, x);
    if d.traces[x].bottom.Some? {
      var e :| e in PendingSet(l.holder, x) && e.source == d.traces[x].bottom.value;
      ReachedIsNoRoot(g, rank, roots, l, e);
      if d.traces[t].bottom.Some? {
        OpenTakesAll(g, rank, roots, root, d, l, visits, finish, t);
        InDagIs(g, d.traces[t].destnode.value, e);
      }
    } else if d.traces[t].bottom.Some? {
      var e :| e in PendingSet(l.holder, t) && e.source == d.traces[t].bottom.value;
      ReachedIsNoRoot(g, rank, roots, l, e);
    }
  }

  /** The edges trace `t` held are used up. */
  ghost function Settle(h: map<Edge, Holder>, t: TraceId): (h': map<Edge, Holder>)
    ensures h'.Keys == h.Keys
    ensures forall e :: e in h ==> h'[e] == if h[e] == Pending(t) then Absorbed else h[e]
  {
    map e | e in h :: if h[e] == Pending(t) then Absorbed else h[e]
  }

  /** Each loop-DAG out-edge of the newly opened block is pending on its own new trace. */
  ghost function AddPending(h: map<Edge, Holder>, b: BlockId, outs: seq<BlockEdge>, nt: TraceId): (h': map<Edge, Holder>)
    ensures forall e :: e in h' <==> e in h || (e.source == b && e.slot < |outs| && InLoopDag(outs[e.slot]))
    ensures forall e :: e in h && e.source != b ==> h'[e] == h[e]
    ensures forall e :: e in h' && e.source == b && e.slot < |outs| && InLoopDag(outs[e.slot]) ==>
      h'[e] == Pending(nt + CountIn(outs, e.slot))
  {
    h + (map e | e in (set s | 0 <= s < |outs| && InLoopDag(outs[s]) :: Edge(b, s)) :: Pending(nt + CountIn(outs, e.slot)))
  }

  ghost function OpenLedger(l: Ledger, t: TraceId, b: BlockId, outs: seq<BlockEdge>, nb: BranchId, nt: TraceId): Ledger {
    Ledger(l.live + {nb}, l.openBlocks + {b}, AddPending(Settle(l.holder, t), b, outs, nt))
  }

  /** Everything an opening starts from. */
  ghost predicate Opening(g: Graph, rank: seq<nat>, roots: seq<BlockId>, root: BranchId, d: Dag, l: Ledger,
                          visits: seq<int>, finish: Option<BlockId>, t: TraceId, b: BlockId, slots: seq<nat>) {
    && LedgerInv(g, rank, roots, root, d, l, visits) && TreeInv(d, l.live, root)
    && Waiting(d, t) && d.traces[t].top in d.branches && CanOpen(g, d, finish, visits, t)
    && d.traces[t].destnode == Some(b) && b < |g.outofthis|
    && AreDagSlots(g.outofthis[b], slots)
  }

  /** The out-edge that new trace `x` follows. */
  ghost function NewEdge(b: BlockId, slots: seq<nat>, nt: TraceId, x: TraceId): Edge
    requires nt <= x < nt + |slots|
  {
    Edge(b, slots[x - nt])
  }

  /** What becomes of each holder when `b` is opened. */
  ghost predicate HoldersOpened(g: Graph, h: map<Edge, Holder>, t: TraceId, b: BlockId, slots: seq<nat>, nt: TraceId,
                                h': map<Edge, Holder>) {
    && (forall e :: e in h' <==> e in h || (IsEdge(g, e) && e.source == b))
    && (forall e :: e in h ==> e.source != b && h'[e] == if h[e] == Pending(t) then Absorbed else h[e])
    && (forall e :: e in h' && e !in h ==> h'[e].Pending? && nt <= h'[e].trace < nt + |slots|
                                           && e == NewEdge(b, slots, nt, h'[e].trace))
    && (forall x :: nt <= x < nt + |slots| ==> NewEdge(b, slots, nt, x) in h' && NewEdge(b, slots, nt, x) !in h
                                               && h'[NewEdge(b, slots, nt, x)] == Pending(x))
  }

  lemma OpenHolders(g: Graph, h: map<Edge, Holder>, t: TraceId, b: BlockId, slots: seq<nat>, nt: TraceId)
    requires b < |g.outofthis| && AreDagSlots(g.outofthis[b], slots)
    requires forall e :: e in h ==> e.source != b
    ensures HoldersOpened(g, h, t, b, slots, nt, AddPending(Settle(h, t), b, g.outofthis[b], nt))
  {
    hide CountIn, InLoopDag, AddPending, Settle;
    var outs := g.outofthis[b];
    var h' := AddPending(Settle(h, t), b, outs, nt);
    forall e | e in h' && e !in h
      ensures h'[e].Pending? && nt <= h'[e].trace < nt + |slots| && e == NewEdge(b, slots, nt, h'[e].trace)
    {
      assert slots[CountIn(outs, e.slot)] == e.slot;
    }
    forall x | nt <= x < nt + |slots|
      ensures NewEdge(b, slots, nt, x) in h' && NewEdge(b, slots, nt, x) !in h && h'[NewEdge(b, slots, nt, x)] == Pending(x)
    {
      assert CountIn(outs, slots[x - nt]) == x - nt;
    }
  }

  lemma OpeningIsNew(g: Graph, rank: seq<nat>, roots: seq<BlockId>, root: BranchId, d: Dag, l: Ledger,
                     visits: seq<int>, finish: Option<BlockId>, t: TraceId, b: BlockId, slots: seq<nat>)
    requires Opening(g, rank, roots, root, d, l, visits, finish, t, b, slots)
    ensures b !in l.openBlocks && forall e :: e in l.holder ==> e.source != b
  {
    hide TreeInv, CanOpen;
    assert TraceSound(g, roots, root, d, l, t);
  }

  /** Destinations of the new traces, in path order. */
  ghost function Dests(g: Graph, b: BlockId, slots: seq<nat>): (dests: seq<BlockId>)
    requires b < |g.outofthis| && forall i :: 0 <= i < |slots| ==> slots[i] < |g.outofthis[b]|
    ensures |dests| == |slots| && forall i :: 0 <= i < |slots| ==> dests[i] == g.outofthis[b][slots[i]].point
  {
    seq(|slots|, i requires 0 <= i < |slots| => g.outofthis[b][slots[i]].point)
  }

  /** The new traces lead to blocks that are not open. */
  lemma NewTargetsUnopened(g: Graph, rank: seq<nat>, roots: seq<BlockId>, root: BranchId, d: Dag, l: Ledger,
                           visits: seq<int>, finish: Option<BlockId>, t: TraceId, b: BlockId, slots: seq<nat>, e: Edge)
    requires Opening(g, rank, roots, root, d, l, visits, finish, t, b, slots) && IsEdge(g, e) && e.source == b
    ensures Target(g, e) < |g.outofthis| && Target(g, e) !in l.openBlocks + {b}
  {
    hide TreeInv, CanOpen;
    OpeningIsNew(g, rank, roots, root, d, l, visits, finish, t, b, slots);
    OpeningRank(g, rank, roots, root, d, l, visits, finish, t, b, slots);
    assert OutPaired(g, e.source, e.slot);
    var v := Target(g, e);
    assert rank[b] < rank[v];
    assert v in l.openBlocks ==> v !in roots;
  }

  lemma OpeningRank(g: Graph, rank: seq<nat>, roots: seq<BlockId>, root: BranchId, d: Dag, l: Ledger,
                    visits: seq<int>, finish: Option<BlockId>, t: TraceId, b: BlockId, slots: seq<nat>)
    requires Opening(g, rank, roots, root, d, l, visits, finish, t, b, slots)
    ensures forall i :: 0 <= i < |roots| ==> rank[roots[i]] <= rank[b]
    ensures d.traces[t].bottom.Some? <==> b !in roots
  {
    hide TreeInv, CanOpen;
    assert TraceSound(g, roots, root, d, l, t);
    if d.traces[t].bottom.Some? {
      var e :| e in PendingSet(l.holder, t) && e.source == d.traces[t].bottom.value;
      ReachedIsNoRoot(g, rank, roots, l, e);
    }
  }

  /** What an opening does to the waiting traces. */
  ghost predicate WaitingOpened(g: Graph, d: Dag, t: TraceId, b: BlockId, slots: seq<nat>, nb: BranchId, nt: TraceId, d': Dag)
    requires b < |g.outofthis| && AreDagSlots(g.outofthis[b], slots)
  {
    && (forall x: TraceId :: Waiting(d', x) <==> (Waiting(d, x) && x != t) || nt <= x < nt + |slots|)
    && (forall x: TraceId :: Waiting(d, x) ==> x < nt)
    && (forall x: TraceId :: Waiting(d, x) && x != t ==> x in d'.traces && d'.traces[x] == d.traces[x])
    && (forall x: TraceId :: nt <= x < nt + |slots| ==>
          && x in d'.traces
          && d'.traces[x] == BlockTrace(true, false, nb, x - nt, Some(b), Some(g.outofthis[b][slots[x - nt]].point), 1, None))
  }

  lemma OpenWaiting(g: Graph, d: Dag, live: set<BranchId>, root: BranchId, t: TraceId, nb: BranchId, nt: TraceId,
                    b: BlockId, slots: seq<nat>, d': Dag)
    requires TreeInv(d, live, root) && FreshFrom(d, nb, nt) && Waiting(d, t) && d.traces[t].top in d.branches
    requires b < |g.outofthis| && AreDagSlots(g.outofthis[b], slots) && Opens(d, t, nb, nt, b, Dests(g, b, slots), d')
    ensures WaitingOpened(g, d, t, b, slots, nb, nt, d')
  {
    WithoutIs(d.active, t);
    var ids := NewIds(nt, |slots|);
    forall x: TraceId ensures Waiting(d', x) <==> (Waiting(d, x) && x != t) || nt <= x < nt + |slots| {
      if nt <= x < nt + |slots| { assert ids[x - nt] == x; }
    }
  }

  // The parts of the invariant after an opening.

  lemma OpenKeepsHolders(g: Graph, d: Dag, l: Ledger, t: TraceId, b: BlockId, slots: seq<nat>, nb: BranchId,
                         nt: TraceId, d': Dag, h': map<Edge, Holder>)
    requires Accounts(g, l) && HoldersMatch(g, d, l) && b !in l.openBlocks
    requires b < |g.outofthis| && AreDagSlots(g.outofthis[b], slots) && Waiting(d, t) && d.traces[t].destnode == Some(b)
    requires HoldersOpened(g, l.holder, t, b, slots, nt, h') && WaitingOpened(g, d, t, b, slots, nb, nt, d')
    ensures Accounts(g, Ledger(l.live + {nb}, l.openBlocks + {b}, h'))
    ensures HoldersMatch(g, d', Ledger(l.live + {nb}, l.openBlocks + {b}, h'))
  {
    forall e | e in h' && h'[e].Pending?
      ensures Waiting(d', h'[e].trace) && IsEdge(g, e) && d'.traces[h'[e].trace].destnode == Some(Target(g, e))
    {
      if e !in l.holder { assert e == NewEdge(b, slots, nt, h'[e].trace); }
    }
  }

  lemma OpenPending(g: Graph, l: Ledger, t: TraceId, b: BlockId, slots: seq<nat>, nt: TraceId, h': map<Edge, Holder>, x: TraceId)
    requires HoldersOpened(g, l.holder, t, b, slots, nt, h')
    requires forall e :: e in l.holder && l.holder[e].Pending? ==> l.holder[e].trace < nt
    ensures x < nt && x != t ==> PendingSet(h', x) == PendingSet(l.holder, x)
    ensures nt <= x < nt + |slots| ==> PendingSet(h', x) == {NewEdge(b, slots, nt, x)}
  {
  }

  lemma OpenKeepsTraces(g: Graph, rank: seq<nat>, roots: seq<BlockId>, root: BranchId, d: Dag, l: Ledger,
                        visits: seq<int>, finish: Option<BlockId>, t: TraceId, b: BlockId, slots: seq<nat>,
                        nb: BranchId, nt: TraceId, d': Dag, h': map<Edge, Holder>, x: TraceId)
    requires Opening(g, rank, roots, root, d, l, visits, finish, t, b, slots) && Waiting(d', x)
    requires HoldersOpened(g, l.holder, t, b, slots, nt, h') && WaitingOpened(g, d, t, b, slots, nb, nt, d')
    ensures TraceSound(g, roots, root, d', Ledger(l.live + {nb}, l.openBlocks + {b}, h'), x)
  {
    OpenPending(g, l, t, b, slots, nt, h', x);
    if x < nt {
      assert TraceSound(g, roots, root, d, l, x);
      OpenIsExclusive(g, rank, roots, root, d, l, visits, finish, t, x);
    } else {
      var e := NewEdge(b, slots, nt, x);
      assert e in PendingSet(h', x);
      NewTargetsUnopened(g, rank, roots, root, d, l, visits, finish, t, b, slots, e);
    }
  }

  lemma OpenKeepsCuts(g: Graph, l: Ledger, t: TraceId, b: BlockId, slots: seq<nat>, nt: TraceId, h': map<Edge, Holder>, v: BlockId)
    requires HoldersOpened(g, l.holder, t, b, slots, nt, h')
    ensures CutSet(g, h', v) == CutSet(g, l.holder, v)
  {
  }

  lemma OpenSettlesBlock(g: Graph, rank: seq<nat>, roots: seq<BlockId>, root: BranchId, d: Dag, l: Ledger,
                         visits: seq<int>, finish: Option<BlockId>, t: TraceId, b: BlockId, slots: seq<nat>,
                         nt: TraceId, h': map<Edge, Holder>, e: Edge)
    requires Opening(g, rank, roots, root, d, l, visits, finish, t, b, slots)
    requires HoldersOpened(g, l.holder, t, b, slots, nt, h') && b !in roots && IsEdge(g, e) && Target(g, e) == b
    ensures e in h' && !h'[e].Pending?
  {
    hide TreeInv, CanOpen, OpenedSound, TracesSound;
    OpeningRank(g, rank, roots, root, d, l, visits, finish, t, b, slots);
    OpenTakesAll(g, rank, roots, root, d, l, visits, finish, t);
    InDagIs(g, b, e);
  }

  lemma OpenKeepsOpened(g: Graph, rank: seq<nat>, roots: seq<BlockId>, root: BranchId, d: Dag, l: Ledger,
                        visits: seq<int>, finish: Option<BlockId>, t: TraceId, b: BlockId, slots: seq<nat>,
                        nb: BranchId, nt: TraceId, h': map<Edge, Holder>)
    requires Opening(g, rank, roots, root, d, l, visits, finish, t, b, slots)
    requires HoldersOpened(g, l.holder, t, b, slots, nt, h')
    ensures OpenedSound(g, rank, roots, Ledger(l.live + {nb}, l.openBlocks + {b}, h'))
  {
    hide TreeInv, CanOpen, TracesSound, HoldersMatch, VisitsCount, CountIn, InLoopDag;
    OpeningRank(g, rank, roots, root, d, l, visits, finish, t, b, slots);
    forall e | IsEdge(g, e) && Target(g, e) in l.openBlocks + {b} && Target(g, e) !in roots
      ensures e in h' && !h'[e].Pending?
    {
      if Target(g, e) == b {
        OpenSettlesBlock(g, rank, roots, root, d, l, visits, finish, t, b, slots, nt, h', e);
      } else {
        assert e in l.holder && !l.holder[e].Pending?;
      }
    }
  }

  /** Opening a block, with or without out-edges, keeps the accounts. */
  lemma OpenKeepsLedger(g: Graph, rank: seq<nat>, roots: seq<BlockId>, root: BranchId, d: Dag, l: Ledger,
                        visits: seq<int>, finish: Option<BlockId>, t: TraceId, b: BlockId, slots: seq<nat>,
                        nb: BranchId, nt: TraceId, d': Dag, h': map<Edge, Holder>)
    requires Opening(g, rank, roots, root, d, l, visits, finish, t, b, slots)
    requires HoldersOpened(g, l.holder, t, b, slots, nt, h') && WaitingOpened(g, d, t, b, slots, nb, nt, d')
    ensures LedgerInv(g, rank, roots, root, d', Ledger(l.live + {nb}, l.openBlocks + {b}, h'), visits)
    ensures b !in l.openBlocks
  {
    hide TreeInv, CanOpen, TraceSound, OpenedSound, HoldersOpened, WaitingOpened;
    OpeningIsNew(g, rank, roots, root, d, l, visits, finish, t, b, slots);
    OpenKeepsHolders(g, d, l, t, b, slots, nb, nt, d', h');
    forall x: TraceId | Waiting(d', x)
      ensures TraceSound(g, roots, root, d', Ledger(l.live + {nb}, l.openBlocks + {b}, h'), x)
    {
      OpenKeepsTraces(g, rank, roots, root, d, l, visits, finish, t, b, slots, nb, nt, d', h', x);
    }
    forall v | 0 <= v < |visits| ensures visits[v] == |CutSet(g, h', v)| {
      OpenKeepsCuts(g, l, t, b, slots, nt, h', v);
    }
    OpenKeepsOpened(g, rank, roots, root, d, l, visits, finish, t, b, slots, nb, nt, h');
  }

  /** The accounts do not depend on which branches are live. */
  lemma LiveIsSeparate(g: Graph, rank: seq<nat>, roots: seq<BlockId>, root: BranchId, d: Dag, l: Ledger,
                       visits: seq<int>, live: set<BranchId>)
    requires LedgerInv(g, rank, roots, root, d, l, visits)
    ensures LedgerInv(g, rank, roots, root, d, l.(live := live), visits)
  {
    var l' := l.(live := live);
    hide OpenedSound;
    forall t: TraceId | Waiting(d, t) ensures TraceSound(g, roots, root, d, l', t) {
      assert TraceSound(g, roots, root, d, l, t);
    }
    assert OpenedSound(g, rank, roots, l') by { OpenedIsSeparate(g, rank, roots, l, live); }
  }

  lemma OpenedIsSeparate(g: Graph, rank: seq<nat>, roots: seq<BlockId>, l: Ledger, live: set<BranchId>)
    requires |rank| == |g.outofthis| && forall i :: 0 <= i < |roots| ==> roots[i] < |rank|
    requires OpenedSound(g, rank, roots, l)
    ensures OpenedSound(g, rank, roots, l.(live := live))
  {
  }

  // ----- Retiring a branch

  /** Total lump of the first `k` paths, terminal ones not counted. */
  ghost function SumLump(d: Dag, paths: seq<TraceId>, k: nat): int
    requires k <= |paths| && forall i :: 0 <= i < |paths| ==> paths[i] in d.traces
  {
    if k == 0 then 0
    else SumLump(d, paths, k - 1) + if d.traces[paths[k - 1]].terminal then 0 else d.traces[paths[k - 1]].edgelump
  }

  ghost function PendingUnion(h: map<Edge, Holder>, paths: seq<TraceId>): set<Edge> {
    set e | e in h && h[e].Pending? && h[e].trace in paths
  }

  lemma {:induction false} SumIsUnion(h: map<Edge, Holder>, d: Dag, paths: seq<TraceId>, k: nat)
    requires k <= |paths| && NoRepeats(paths) && forall i :: 0 <= i < |paths| ==> paths[i] in d.traces
    requires forall i :: 0 <= i < |paths| ==>
      |PendingSet(h, paths[i])| == if d.traces[paths[i]].terminal then 0 else d.traces[paths[i]].edgelump
    ensures |PendingUnion(h, paths[..k])| == SumLump(d, paths, k)
  {
    if k == 0 {
      assert PendingUnion(h, paths[..0]) == {};
    } else {
      SumIsUnion(h, d, paths, k - 1);
      var before, last := PendingUnion(h, paths[..k - 1]), PendingSet(h, paths[k - 1]);
      assert paths[..k] == paths[..k - 1] + [paths[k - 1]];
      assert PendingUnion(h, paths[..k]) == before + last;
      assert before !! last;
    }
  }

  /** The edges of the retired paths pass to the parent trace. */
  ghost function HandOver(h: map<Edge, Holder>, paths: seq<TraceId>, pt: TraceId): (h': map<Edge, Holder>)
    ensures h'.Keys == h.Keys
    ensures forall e :: e in h ==> h'[e] == if h[e].Pending? && h[e].trace in paths then Pending(pt) else h[e]
  {
    map e | e in h :: if h[e].Pending? && h[e].trace in paths then Pending(pt) else h[e]
  }

  ghost predicate WaitingRetired(d: Dag, paths: seq<TraceId>, pt: TraceId, rec: BlockTrace, d': Dag) {
    && (forall x: TraceId :: Waiting(d', x) <==> (Waiting(d, x) && x !in paths) || (x == pt && !rec.terminal))
    && (forall x: TraceId :: Waiting(d, x) && x !in paths ==> x in d'.traces && d'.traces[x] == d.traces[x])
    && pt in d'.traces && d'.traces[pt] == rec
  }

  lemma RetireWaiting(d: Dag, live: set<BranchId>, root: BranchId, b: BranchId, rec: BlockTrace, d': Dag)
    requires TreeInv(d, live, root) && b in live && b != root && AgreesWithParent(d, live, b)
    requires Reactivates(d.traces[ParentTrace(d, live, b)], rec) && Retires(d, live, b, rec, d')
    ensures WaitingRetired(d, d.branches[b].paths, ParentTrace(d, live, b), rec, d')
  {
    var pt, paths := ParentTrace(d, live, b), d.branches[b].paths;
    ParentTraceLives(d, live, root, b);
    WithoutAllIs(d.active, paths, |paths|);
    assert paths[..|paths|] == paths;
  }

  /** The parent trace after its branch retires: ended if every path ended, otherwise on
      its way to the common exit with all the lumped edges. */
  ghost predicate RetiredRecord(d: Dag, paths: seq<TraceId>, exit: Option<BlockId>, r: BlockTrace, rec: BlockTrace)
    requires forall i :: 0 <= i < |paths| ==> paths[i] in d.traces
  {
    if forall i :: 0 <= i < |paths| ==> d.traces[paths[i]].terminal
    then rec == Ended(r).(active := true, derivedbp := None)
    else exists f :: (
      && FirstOpen(d, paths, f)
      && rec == r.(active := true, derivedbp := None, bottom := d.traces[paths[f]].bottom,
                   destnode := exit, edgelump := SumLump(d, paths, |paths|)))
  }

  /** `f` is the first path that has not ended. */
  ghost predicate FirstOpen(d: Dag, paths: seq<TraceId>, f: int)
    requires forall i :: 0 <= i < |paths| ==> paths[i] in d.traces
  {
    0 <= f < |paths| && !d.traces[paths[f]].terminal && forall i :: 0 <= i < f ==> d.traces[paths[i]].terminal
  }

  ghost predicate Retiring(g: Graph, rank: seq<nat>, roots: seq<BlockId>, root: BranchId, d: Dag, l: Ledger,
                           visits: seq<int>, paths: seq<TraceId>, exit: Option<BlockId>, pt: TraceId) {
    && LedgerInv(g, rank, roots, root, d, l, visits)
    && NoRepeats(paths) && pt in d.traces && !d.traces[pt].terminal && pt !in d.active
    && (forall i :: 0 <= i < |paths| ==> paths[i] in d.traces && paths[i] in d.active && d.traces[paths[i]].top != root)
    && CommonExit(d, paths, exit)
  }

  lemma RetireSum(g: Graph, rank: seq<nat>, roots: seq<BlockId>, root: BranchId, d: Dag, l: Ledger,
                  visits: seq<int>, paths: seq<TraceId>, exit: Option<BlockId>, pt: TraceId)
    requires Retiring(g, rank, roots, root, d, l, visits, paths, exit, pt)
    ensures |PendingUnion(l.holder, paths)| == SumLump(d, paths, |paths|)
  {
    hide OpenedSound, VisitsCount, Setting;
    forall i | 0 <= i < |paths|
      ensures |PendingSet(l.holder, paths[i])| == if d.traces[paths[i]].terminal then 0 else d.traces[paths[i]].edgelump
    {
      if d.traces[paths[i]].terminal {
        assert PendingSet(l.holder, paths[i]) == {};
      } else {
        assert TraceSound(g, roots, root, d, l, paths[i]);
      }
    }
    SumIsUnion(l.holder, d, paths, |paths|);
    assert paths[..|paths|] == paths;
  }

  lemma RetirePending(h: map<Edge, Holder>, paths: seq<TraceId>, pt: TraceId, x: TraceId)
    requires forall e :: e in h ==> h[e] != Pending(pt)
    ensures x != pt && x !in paths ==> PendingSet(HandOver(h, paths, pt), x) == PendingSet(h, x)
    ensures PendingSet(HandOver(h, paths, pt), pt) == PendingUnion(h, paths)
  {
  }

  lemma RetireKeepsTraces(g: Graph, rank: seq<nat>, roots: seq<BlockId>, root: BranchId, d: Dag, l: Ledger,
                          visits: seq<int>, paths: seq<TraceId>, exit: Option<BlockId>, pt: TraceId, rec: BlockTrace,
                          d': Dag, x: TraceId)
    requires Retiring(g, rank, roots, root, d, l, visits, paths, exit, pt)
    requires RetiredRecord(d, paths, exit, d.traces[pt], rec) && WaitingRetired(d, paths, pt, rec, d')
    requires Waiting(d', x)
    ensures TraceSound(g, roots, root, d', l.(holder := HandOver(l.holder, paths, pt)), x)
  {
    if x == pt {
      RetireKeepsTarget(g, rank, roots, root, d, l, visits, paths, exit, pt, rec, d');
    } else {
      hide OpenedSound, VisitsCount, Setting, RetiredRecord;
      RetirePending(l.holder, paths, pt, x);
      assert TraceSound(g, roots, root, d, l, x);
    }
  }

  /** The parent trace waits for the common exit on behalf of the retired paths. */
  lemma RetireKeepsTarget(g: Graph, rank: seq<nat>, roots: seq<BlockId>, root: BranchId, d: Dag, l: Ledger,
                          visits: seq<int>, paths: seq<TraceId>, exit: Option<BlockId>, pt: TraceId, rec: BlockTrace, d': Dag)
    requires Retiring(g, rank, roots, root, d, l, visits, paths, exit, pt)
    requires RetiredRecord(d, paths, exit, d.traces[pt], rec) && WaitingRetired(d, paths, pt, rec, d')
    requires Waiting(d', pt)
    ensures TraceSound(g, roots, root, d', l.(holder := HandOver(l.holder, paths, pt)), pt)
  {
    hide OpenedSound, VisitsCount, Setting, Accounts, CutSet, SumLump, HandOver;
    RetirePending(l.holder, paths, pt, pt);
    RetireSum(g, rank, roots, root, d, l, visits, paths, exit, pt);
    var f :| FirstOpen(d, paths, f)
       && rec == d.traces[pt].(active := true, derivedbp := None, bottom := d.traces[paths[f]].bottom,
                               destnode := exit, edgelump := SumLump(d, paths, |paths|));
    assert TraceSound(g, roots, root, d, l, paths[f]);
    var e :| e in PendingSet(l.holder, paths[f]) && e.source == d.traces[paths[f]].bottom.value;
    assert e in PendingUnion(l.holder, paths);
  }

  lemma RetireKeepsLedger(g: Graph, rank: seq<nat>, roots: seq<BlockId>, root: BranchId, d: Dag, l: Ledger,
                          visits: seq<int>, paths: seq<TraceId>, exit: Option<BlockId>, pt: TraceId, rec: BlockTrace, d': Dag)
    requires Retiring(g, rank, roots, root, d, l, visits, paths, exit, pt)
    requires RetiredRecord(d, paths, exit, d.traces[pt], rec) && WaitingRetired(d, paths, pt, rec, d')
    ensures LedgerInv(g, rank, roots, root, d', l.(holder := HandOver(l.holder, paths, pt)), visits)
  {
    hide TraceSound, OpenedSound, HoldersMatch, RetiredRecord, WaitingRetired, CommonExit;
    var l' := l.(holder := HandOver(l.holder, paths, pt));
    HandOverKeepsOpened(g, rank, roots, l, paths, pt);
    forall x: TraceId | Waiting(d', x) ensures TraceSound(g, roots, root, d', l', x) {
      RetireKeepsTraces(g, rank, roots, root, d, l, visits, paths, exit, pt, rec, d', x);
    }
    forall v | 0 <= v < |visits| ensures visits[v] == |CutSet(g, l'.holder, v)| {
      assert CutSet(g, l'.holder, v) == CutSet(g, l.holder, v);
    }
    RetireKeepsMatch(g, rank, roots, root, d, l, visits, paths, exit, pt, rec, d');
  }

  lemma HandOverKeepsOpened(g: Graph, rank: seq<nat>, roots: seq<BlockId>, l: Ledger, paths: seq<TraceId>, pt: TraceId)
    requires |rank| == |g.outofthis| && forall i :: 0 <= i < |roots| ==> roots[i] < |rank|
    requires OpenedSound(g, rank, roots, l)
    ensures OpenedSound(g, rank, roots, l.(holder := HandOver(l.holder, paths, pt)))
  {
  }

  lemma RetireKeepsMatch(g: Graph, rank: seq<nat>, roots: seq<BlockId>, root: BranchId, d: Dag, l: Ledger,
                         visits: seq<int>, paths: seq<TraceId>, exit: Option<BlockId>, pt: TraceId, rec: BlockTrace, d': Dag)
    requires Retiring(g, rank, roots, root, d, l, visits, paths, exit, pt)
    requires RetiredRecord(d, paths, exit, d.traces[pt], rec) && WaitingRetired(d, paths, pt, rec, d')
    ensures Accounts(g, l.(holder := HandOver(l.holder, paths, pt)))
    ensures HoldersMatch(g, d', l.(holder := HandOver(l.holder, paths, pt)))
  {
    hide OpenedSound, VisitsCount, Setting, TracesSound, SumLump, CutSet, FirstOpen, HandOver;
    var h' := HandOver(l.holder, paths, pt);
    forall e | e in h' && h'[e].Pending?
      ensures Waiting(d', h'[e].trace) && d'.traces[h'[e].trace].destnode == Some(Target(g, e))
    {
      if l.holder[e].trace in paths {
        var i :| 0 <= i < |paths| && paths[i] == l.holder[e].trace;
        assert !d.traces[paths[i]].terminal;
        assert d.traces[paths[i]].destnode == exit;
      }
    }
  }

  // ----- Cutting a trace

  ghost function CutOver(h: map<Edge, Holder>, t: TraceId): (h': map<Edge, Holder>)
    ensures h'.Keys == h.Keys
    ensures forall e :: e in h ==> h'[e] == if h[e] == Pending(t) then Cut else h[e]
  {
    map e | e in h :: if h[e] == Pending(t) then Cut else h[e]
  }

  /** Only `t` stops waiting; path numbers may move within a branch below the root. */
  ghost predicate WaitingRemoved(d: Dag, root: BranchId, t: TraceId, d': Dag) {
    && (forall x: TraceId :: Waiting(d', x) <==> Waiting(d, x) && x != t)
    && (forall x: TraceId :: Waiting(d, x) && x != t ==>
          && x in d'.traces
          && (d'.traces[x] == d.traces[x]
              || (d.traces[x].top != root && d'.traces[x] == d.traces[x].(pathout := d.traces[x].pathout - 1))))
  }

  lemma DropWaiting(d: Dag, live: set<BranchId>, root: BranchId, t: TraceId, d': Dag)
    requires TreeInv(d, live, root) && t in d.active && !d.traces[t].terminal && d.traces[t].top != root && Drops(d, t, d')
    ensures WaitingRemoved(d, root, t, d')
  {
    WithoutIs(d.active, t);
    forall x: TraceId | Waiting(d, x) && x != t
      ensures && x in d'.traces
              && (d'.traces[x] == d.traces[x]
                  || (d.traces[x].top != root && d'.traces[x] == d.traces[x].(pathout := d.traces[x].pathout - 1)))
    {
      EarlierNotLater(d, live, root, d.traces[t].top, d.traces[t].pathout, x);
    }
  }

  /** The block a cut trace was going to gets its lump as visits. */
  function Visited(visits: seq<int>, b: BlockId, lump: int): seq<int>
    requires b < |visits|
  {
    visits[b := visits[b] + lump]
  }

  lemma CutGrows(g: Graph, h: map<Edge, Holder>, t: TraceId, b: BlockId, v: BlockId)
    requires forall e :: e in PendingSet(h, t) ==> IsEdge(g, e) && Target(g, e) == b
    ensures |CutSet(g, CutOver(h, t), v)| == |CutSet(g, h, v)| + if v == b then |PendingSet(h, t)| else 0
  {
    var h' := CutOver(h, t);
    if v == b {
      assert CutSet(g, h', b) == CutSet(g, h, b) + PendingSet(h, t);
      assert CutSet(g, h, b) !! PendingSet(h, t);
    } else {
      assert CutSet(g, h', v) == CutSet(g, h, v);
    }
  }

  lemma CutSizes(g: Graph, d: Dag, l: Ledger, visits: seq<int>, t: TraceId, b: BlockId, v: BlockId)
    requires Accounts(g, l) && HoldersMatch(g, d, l) && VisitsCount(g, l, visits) && b < |visits| && v < |visits|
    requires Waiting(d, t) && d.traces[t].destnode == Some(b) && d.traces[t].edgelump == |PendingSet(l.holder, t)|
    ensures Visited(visits, b, d.traces[t].edgelump)[v] == |CutSet(g, CutOver(l.holder, t), v)|
  {
    hide CutSet, CutOver;
    CutGrows(g, l.holder, t, b, v);
  }

  lemma CutKeepsTraces(g: Graph, rank: seq<nat>, roots: seq<BlockId>, root: BranchId, d: Dag, l: Ledger,
                       visits: seq<int>, t: TraceId, d': Dag, x: TraceId)
    requires LedgerInv(g, rank, roots, root, d, l, visits) && WaitingRemoved(d, root, t, d') && Waiting(d', x)
    ensures TraceSound(g, roots, root, d', l.(holder := CutOver(l.holder, t)), x)
  {
    hide OpenedSound, VisitsCount, Setting, HoldersMatch;
    assert TraceSound(g, roots, root, d, l, x);
    assert PendingSet(CutOver(l.holder, t), x) == PendingSet(l.holder, x);
  }

  lemma CutKeepsOpened(g: Graph, rank: seq<nat>, roots: seq<BlockId>, l: Ledger, t: TraceId)
    requires |rank| == |g.outofthis| && forall i :: 0 <= i < |roots| ==> roots[i] < |rank|
    requires OpenedSound(g, rank, roots, l)
    ensures OpenedSound(g, rank, roots, l.(holder := CutOver(l.holder, t)))
  {
  }

  lemma CutKeepsMatch(g: Graph, d: Dag, l: Ledger, root: BranchId, t: TraceId, d': Dag)
    requires Accounts(g, l) && HoldersMatch(g, d, l) && WaitingRemoved(d, root, t, d')
    ensures Accounts(g, l.(holder := CutOver(l.holder, t)))
    ensures HoldersMatch(g, d', l.(holder := CutOver(l.holder, t)))
  {
  }

  lemma CutKeepsLedger(g: Graph, rank: seq<nat>, roots: seq<BlockId>, root: BranchId, d: Dag, l: Ledger,
                       visits: seq<int>, t: TraceId, d': Dag)
    requires LedgerInv(g, rank, roots, root, d, l, visits) && Waiting(d, t) && d.traces[t].bottom.Some?
    requires WaitingRemoved(d, root, t, d')
    ensures d.traces[t].destnode.Some? && d.traces[t].destnode.value < |visits|
    ensures LedgerInv(g, rank, roots, root, d', l.(holder := CutOver(l.holder, t)),
                      Visited(visits, d.traces[t].destnode.value, d.traces[t].edgelump))
    ensures Flows(g, d.traces[t].bottom.value, d.traces[t].destnode.value) && d.traces[t].bottom.value in l.openBlocks
  {
    hide WaitingRemoved, HoldersMatch, OpenedSound;
    assert TraceSound(g, roots, root, d, l, t);
    var b := d.traces[t].destnode.value;
    CutIsFlow(g, d, l, t);
    hide TraceSound;
    CutKeepsMatch(g, d, l, root, t, d');
    CutKeepsOpened(g, rank, roots, l, t);
    forall x: TraceId | Waiting(d', x) ensures TraceSound(g, roots, root, d', l.(holder := CutOver(l.holder, t)), x) {
      CutKeepsTraces(g, rank, roots, root, d, l, visits, t, d', x);
    }
    forall v | 0 <= v < |visits|
      ensures Visited(visits, b, d.traces[t].edgelump)[v] == |CutSet(g, CutOver(l.holder, t), v)|
    {
      CutSizes(g, d, l, visits, t, b, v);
    }
  }

  lemma CutIsFlow(g: Graph, d: Dag, l: Ledger, t: TraceId)
    requires Accounts(g, l) && HoldersMatch(g, d, l) && Waiting(d, t)
    requires d.traces[t].bottom.Some? && d.traces[t].destnode.Some?
    requires exists e :: e in PendingSet(l.holder, t) && e.source == d.traces[t].bottom.value
    ensures Flows(g, d.traces[t].bottom.value, d.traces[t].destnode.value) && d.traces[t].bottom.value in l.openBlocks
  {
    var e :| e in PendingSet(l.holder, t) && e.source == d.traces[t].bottom.value;
    assert IsEdge(g, e) && Target(g, e) == d.traces[t].destnode.value;
  }

  // ----- Progress

  ghost function LiveSet(d: Dag, live: set<BranchId>): set<TraceId> {
    set t | t in d.traces && LiveTrace(d, live, t)
  }

  ghost function UnendedSet(d: Dag, live: set<BranchId>): set<TraceId> {
    set t | t in d.traces && LiveTrace(d, live, t) && !d.traces[t].terminal
  }

  /** Traces in the tree, those not ended counted twice. */
  ghost function Size(d: Dag, live: set<BranchId>): nat {
    |LiveSet(d, live)| + |UnendedSet(d, live)|
  }

  lemma ProperSubsetSize(a: set<TraceId>, b: set<TraceId>, x: TraceId)
    requires a <= b && x in b && x !in a
    ensures |a| < |b|
  {
    assert |b - a| == |b| - |a|;
    assert x in b - a;
  }

  lemma SubsetSize(a: set<TraceId>, b: set<TraceId>)
    requires a <= b
    ensures |a| <= |b|
  {
    assert |b - a| == |b| - |a|;
  }

  lemma EndShrinks(d: Dag, live: set<BranchId>, root: BranchId, t: TraceId)
    requires TreeInv(d, live, root) && Waiting(d, t)
    ensures Size(d.(traces := d.traces[t := Ended(d.traces[t])]), live) < Size(d, live)
  {
    var d' := d.(traces := d.traces[t := Ended(d.traces[t])]);
    EndKeepsTree(d, live, root, t);
    hide TreeInv;
    assert LiveSet(d', live) == LiveSet(d, live);
    ProperSubsetSize(UnendedSet(d', live), UnendedSet(d, live), t);
  }

  lemma DropShrinks(d: Dag, live: set<BranchId>, root: BranchId, t: TraceId, d': Dag)
    requires TreeInv(d, live, root) && LiveTrace(d, live, t) && Drops(d, t, d')
    ensures Size(d', live) < Size(d, live)
  {
    forall x: TraceId ensures LiveTrace(d', live, x) <==> LiveTrace(d, live, x) && x != t {
      DropLive(d, live, root, t, d', x);
    }
    forall x | x in UnendedSet(d', live) ensures x in UnendedSet(d, live) {
      DropLive(d, live, root, t, d', x);
    }
    hide TreeInv, Drops;
    ProperSubsetSize(LiveSet(d', live), LiveSet(d, live), t);
    SubsetSize(UnendedSet(d', live), UnendedSet(d, live));
  }

  lemma RetireShrinks(d: Dag, live: set<BranchId>, root: BranchId, b: BranchId, rec: BlockTrace, d': Dag)
    requires TreeInv(d, live, root) && b in live && b != root && AgreesWithParent(d, live, b)
    requires Reactivates(d.traces[ParentTrace(d, live, b)], rec) && Retires(d, live, b, rec, d')
    ensures Size(d', live - {b}) < Size(d, live)
  {
    var live' := live - {b};
    forall x: TraceId ensures LiveTrace(d', live', x) <==> LiveTrace(d, live, x) && d.traces[x].top != b {
      RetireLive(d, live, root, b, rec, d', x);
    }
    ParentTraceLives(d, live, root, b);
    LivePath(d, live, root, b, 0);
    hide TreeInv;
    ProperSubsetSize(LiveSet(d', live'), LiveSet(d, live), d.branches[b].paths[0]);
    SubsetSize(UnendedSet(d', live'), UnendedSet(d, live));
  }

  // ----- A candidate always exists

  /** A trace that may be cut: not ended, and not a root still to be started. */
  ghost predicate IsCandidate(d: Dag, t: TraceId)
    requires t in d.traces && d.traces[t].top in d.branches
  {
    !d.traces[t].terminal && !(d.branches[d.traces[t].top].top == None && d.traces[t].bottom == None)
  }

  /** The scan can neither retire nor open at this trace. */
  ghost predicate Stuck(g: Graph, d: Dag, finish: Option<BlockId>, visits: seq<int>, t: TraceId)
    requires t in d.traces && d.traces[t].top in d.branches && |visits| == |g.intothis|
    requires forall i :: 0 <= i < |d.branches[d.traces[t].top].paths| ==> d.branches[d.traces[t].top].paths[i] in d.traces
  {
    !CanRetire(d, t) && !CanOpen(g, d, finish, visits, t)
  }

  /** When every active trace has been missed, some active trace may be cut. */
  lemma CandidateExists(g: Graph, d: Dag, live: set<BranchId>, root: BranchId, finish: Option<BlockId>, visits: seq<int>)
    returns (t: TraceId)
    requires TreeInv(d, live, root) && d.active != [] && |visits| == |g.intothis|
    requires forall x :: x in d.active ==> Stuck(g, d, finish, visits, x)
    ensures t in d.active && IsCandidate(d, t)
  {
    if x :| x in d.active && !d.traces[x].terminal {
      t := x;
      DepthZero(d, live, root, d.traces[x].top);
    } else {
      var x := TerminalRetires(d, live, root);
      t := x;
    }
  }

  /** A stuck trace has siblings, so cutting it leaves its branch a path. */
  lemma StuckHasSiblings(g: Graph, d: Dag, live: set<BranchId>, root: BranchId, finish: Option<BlockId>,
                         visits: seq<int>, t: TraceId)
    requires TreeInv(d, live, root) && t in d.active && |visits| == |g.intothis|
    requires Stuck(g, d, finish, visits, t) && d.traces[t].top != root
    ensures |d.branches[d.traces[t].top].paths| > 1
  {
    var b := d.traces[t].top;
    DepthZero(d, live, root, b);
    var paths := d.branches[b].paths;
    if |paths| == 1 {
      assert paths[0] == t;
      assert CommonExit(d, paths, if d.traces[t].terminal then None else d.traces[t].destnode);
    }
  }

  // ----- Every root gets opened

  /** A root is open or its trace still waits to start. */
  ghost predicate RootsStarted(roots: seq<BlockId>, d: Dag, l: Ledger) {
    forall i :: 0 <= i < |roots| ==> roots[i] in l.openBlocks || StillToStart(d, roots[i])
  }

  ghost predicate StillToStart(d: Dag, b: BlockId) {
    exists x :: Waiting(d, x) && d.traces[x].bottom == None && d.traces[x].destnode == Some(b)
  }

  lemma OpenKeepsRoots(g: Graph, roots: seq<BlockId>, d: Dag, l: Ledger, t: TraceId, b: BlockId, slots: seq<nat>,
                       nb: BranchId, nt: TraceId, d': Dag, l': Ledger)
    requires b < |g.outofthis| && AreDagSlots(g.outofthis[b], slots) && Waiting(d, t) && d.traces[t].destnode == Some(b)
    requires WaitingOpened(g, d, t, b, slots, nb, nt, d') && l'.openBlocks == l.openBlocks + {b}
    requires RootsStarted(roots, d, l)
    ensures RootsStarted(roots, d', l')
  {
    forall i | 0 <= i < |roots| && roots[i] !in l'.openBlocks ensures StillToStart(d', roots[i]) {
      var x :| Waiting(d, x) && d.traces[x].bottom == None && d.traces[x].destnode == Some(roots[i]);
      assert Waiting(d', x);
    }
  }

  lemma RetireKeepsRoots(g: Graph, rank: seq<nat>, roots: seq<BlockId>, root: BranchId, d: Dag, l: Ledger, visits: seq<int>,
                         paths: seq<TraceId>, exit: Option<BlockId>, pt: TraceId, rec: BlockTrace, d': Dag, l': Ledger)
    requires Retiring(g, rank, roots, root, d, l, visits, paths, exit, pt)
    requires WaitingRetired(d, paths, pt, rec, d') && l'.openBlocks == l.openBlocks && RootsStarted(roots, d, l)
    ensures RootsStarted(roots, d', l')
  {
    forall i | 0 <= i < |roots| && roots[i] !in l'.openBlocks ensures StillToStart(d', roots[i]) {
      var x :| Waiting(d, x) && d.traces[x].bottom == None && d.traces[x].destnode == Some(roots[i]);
      assert TraceSound(g, roots, root, d, l, x);
      assert x !in paths;
      assert Waiting(d', x);
    }
  }

  lemma CutKeepsRoots(roots: seq<BlockId>, root: BranchId, d: Dag, l: Ledger, t: TraceId, d': Dag, l': Ledger)
    requires WaitingRemoved(d, root, t, d') && t in d.traces && d.traces[t].bottom.Some?
    requires l'.openBlocks == l.openBlocks && RootsStarted(roots, d, l)
    ensures RootsStarted(roots, d', l')
  {
    forall i | 0 <= i < |roots| && roots[i] !in l'.openBlocks ensures StillToStart(d', roots[i]) {
      var x :| Waiting(d, x) && d.traces[x].bottom == None && d.traces[x].destnode == Some(roots[i]);
      assert Waiting(d', x);
    }
  }

  // ----- The end of a run

  /** The roots are open; every loop-DAG edge leaving an open block is either cut or leads to an open
      block; and every loop-DAG edge into an open block other than the roots leaves an open block. */
  ghost predicate Finished(g: Graph, roots: seq<BlockId>, l: Ledger) {
    && (forall i :: 0 <= i < |roots| ==> roots[i] in l.openBlocks)
    && (forall e :: e in l.holder <==> IsEdge(g, e) && e.source in l.openBlocks)
    && (forall e :: e in l.holder ==> IsEdge(g, e) && (l.holder[e] == Cut || (l.holder[e] == Absorbed && Target(g, e) in l.openBlocks)))
    && (forall e :: IsEdge(g, e) && Target(g, e) in l.openBlocks && Target(g, e) !in roots ==> e in l.holder)
  }

  /** What is cut stays cut. */
  ghost predicate CutsStay(l: Ledger, l': Ledger) {
    forall e :: e in l.holder && l.holder[e] == Cut ==> e in l'.holder && l'.holder[e] == Cut
  }

  /** An edge from `u` to `v` is cut. */
  ghost predicate IsCut(g: Graph, l: Ledger, u: BlockId, v: BlockId) {
    exists e :: e in l.holder && l.holder[e] == Cut && IsEdge(g, e) && e.source == u && Target(g, e) == v
  }

  lemma CutStays(g: Graph, l: Ledger, l': Ledger, u: BlockId, v: BlockId)
    requires CutsStay(l, l') && IsCut(g, l, u, v)
    ensures IsCut(g, l', u, v)
  {
    var e :| e in l.holder && l.holder[e] == Cut && IsEdge(g, e) && e.source == u && Target(g, e) == v;
    assert l'.holder[e] == Cut;
  }

  /** Opening a block leaves every cut edge alone: its own edges were not accounted for. */
  lemma OpenLeavesCuts(g: Graph, l: Ledger, t: TraceId, b: BlockId, outs: seq<BlockEdge>, nt: TraceId, l': Ledger)
    requires Accounts(g, l) && b !in l.openBlocks && l'.holder == AddPending(Settle(l.holder, t), b, outs, nt)
    ensures CutsStay(l, l')
  {
    forall e | e in l.holder && l.holder[e] == Cut ensures e in l'.holder && l'.holder[e] == Cut {
      assert e.source in l.openBlocks;
      assert e in Settle(l.holder, t);
    }
  }

  /** A cut trace leaves an edge from its bottom to its destination cut. */
  lemma CutIsCut(g: Graph, rank: seq<nat>, roots: seq<BlockId>, root: BranchId, d: Dag, l: Ledger, visits: seq<int>, t: TraceId)
    requires LedgerInv(g, rank, roots, root, d, l, visits) && Waiting(d, t) && d.traces[t].bottom.Some? && d.traces[t].destnode.Some?
    ensures IsCut(g, l.(holder := CutOver(l.holder, t)), d.traces[t].bottom.value, d.traces[t].destnode.value)
    ensures CutsStay(l, l.(holder := CutOver(l.holder, t)))
  {
    assert TraceSound(g, roots, root, d, l, t);
    var e :| e in PendingSet(l.holder, t) && e.source == d.traces[t].bottom.value;
    assert CutOver(l.holder, t)[e] == Cut;
  }

  lemma LedgerVisits(g: Graph, rank: seq<nat>, roots: seq<BlockId>, root: BranchId, d: Dag, l: Ledger, visits: seq<int>)
    requires LedgerInv(g, rank, roots, root, d, l, visits)
    ensures VisitsCount(g, l, visits) && Accounts(g, l)
  {
  }

  // ----- What was reached

  /** A walk from a root along loop-DAG edges, none of whose later blocks is in `stops`. */
  ghost predicate UncutWalk(g: Graph, roots: seq<BlockId>, stops: set<BlockId>, path: seq<BlockId>) {
    && |path| > 0 && path[0] in roots
    && forall k :: 0 < k < |path| ==> Flows(g, path[k - 1], path[k]) && path[k] !in stops
  }

  /** Every block on a walk that enters no target of a cut edge is open. */
  lemma {:induction false} UncutIsOpen(g: Graph, roots: seq<BlockId>, l: Ledger, stops: set<BlockId>, path: seq<BlockId>)
    requires Finished(g, roots, l) && UncutWalk(g, roots, stops, path)
    requires forall e :: e in l.holder && l.holder[e] == Cut ==> IsEdge(g, e) && Target(g, e) in stops
    ensures path[|path| - 1] in l.openBlocks
    decreases |path|
  {
    var m := |path| - 1;
    if m > 0 {
      assert UncutWalk(g, roots, stops, path[..m]) by {
        forall k | 0 < k < m ensures Flows(g, path[..m][k - 1], path[..m][k]) && path[..m][k] !in stops {
          assert Flows(g, path[k - 1], path[k]);
        }
      }
      UncutIsOpen(g, roots, l, stops, path[..m]);
      assert Flows(g, path[m - 1], path[m]);
      var e :| IsEdge(g, e) && e.source == path[m - 1] && Target(g, e) == path[m];
      assert e in l.holder;
    }
  }

  lemma NothingWaits(g: Graph, rank: seq<nat>, roots: seq<BlockId>, root: BranchId, d: Dag, l: Ledger, visits: seq<int>)
    requires LedgerInv(g, rank, roots, root, d, l, visits) && RootsStarted(roots, d, l)
    requires forall x :: x in d.active ==> x in d.traces && d.traces[x].terminal
    ensures Finished(g, roots, l)
  {
    forall i | 0 <= i < |roots| ensures roots[i] in l.openBlocks {
      assert !StillToStart(d, roots[i]);
    }
  }

  lemma OpenBounded(g: Graph, rank: seq<nat>, roots: seq<BlockId>, root: BranchId, d: Dag, l: Ledger, visits: seq<int>)
    requires LedgerInv(g, rank, roots, root, d, l, visits)
    ensures |l.openBlocks| <= |g.outofthis|
  {
    BelowSize(l.openBlocks, |g.outofthis|);
  }

  lemma {:induction false} BelowSize(s: set<BlockId>, n: nat)
    requires forall x :: x in s ==> x < n
    ensures |s| <= n
  {
    if n > 0 {
      BelowSize(s - {n - 1}, n - 1);
    } else {
      assert s == {};
    }
  }
}
