/** Runs of the trace: snapshots joined by legal moves. */
module TraceRun {
  import opened FlowGraph
  import opened LoopDag
  import opened TraceTree
  import opened TraceLedger
  import opened BadEdges

  /** An edge proposed as a goto, by its end blocks. */
  datatype FloatingEdge = FloatingEdge(top: BlockId, bottom: BlockId)

  /** What stays the same during a run. */
  datatype Scene = Scene(g: Graph, index: seq<int>, finish: Option<BlockId>, root: BranchId)

  datatype Snap = Snap(d: Dag, l: Ledger, visits: seq<int>, edges: seq<FloatingEdge>)

  /** A block is opened, a branch retired, the root branch retired, or an edge cut, each at a trace. */
  datatype Move = Open(t: TraceId) | Retire(t: TraceId) | Finish(t: TraceId) | CutAt(t: TraceId)

  /** `Stuck`, for any trace identifier. */
  ghost predicate StuckAt(g: Graph, d: Dag, finish: Option<BlockId>, visits: seq<int>, t: TraceId) {
    Tested(g, d, visits, t) && Stuck(g, d, finish, visits, t)
  }

  /** The tests of the scan can be made at the trace. */
  ghost predicate Tested(g: Graph, d: Dag, visits: seq<int>, t: TraceId) {
    && t in d.traces && d.traces[t].top in d.branches && |visits| == |g.intothis|
    && (forall i :: 0 <= i < |d.branches[d.traces[t].top].paths| ==> d.branches[d.traces[t].top].paths[i] in d.traces)
  }

  /** Nothing can be opened or retired. */
  ghost predicate AllStuck(sc: Scene, s: Snap) {
    forall x :: x in s.d.active ==> StuckAt(sc.g, s.d, sc.finish, s.visits, x)
  }

  // ----- The moves

  /** The destination of the trace is opened: all its in-edges are held here or cut. */
  ghost predicate OpenMove(sc: Scene, s: Snap, t: TraceId, s': Snap) {
    && Tested(sc.g, s.d, s.visits, t) && CanOpen(sc.g, s.d, sc.finish, s.visits, t)
    && s.d.traces[t].destnode.Some? && s.d.traces[t].destnode.value < |sc.g.outofthis|
    && s'.visits == s.visits && s'.edges == s.edges
    && exists nb: BranchId, nt: TraceId :: OpensTo(sc.g, s, t, s.d.traces[t].destnode.value, nb, nt, s')
  }

  ghost predicate OpensTo(g: Graph, s: Snap, t: TraceId, b: BlockId, nb: BranchId, nt: TraceId, s': Snap)
    requires t in s.d.traces && s.d.traces[t].top in s.d.branches && b < |g.outofthis|
  {
    var outs := g.outofthis[b];
    var slots := DagSlots(outs, |outs|);
    && FreshFrom(s.d, nb, nt)
    && if slots == [] then
         && s'.d == s.d.(traces := s.d.traces[t := Ended(s.d.traces[t])])
         && s'.l == Ledger(s.l.live, s.l.openBlocks + {b}, AddPending(Settle(s.l.holder, t), b, outs, nt))
       else
         Opens(s.d, t, nb, nt, b, Dests(g, b, slots), s'.d) && s'.l == OpenLedger(s.l, t, b, outs, nb, nt)
  }

  /** The branch of the trace is folded into the trace it was derived from. */
  ghost predicate RetireMove(sc: Scene, s: Snap, t: TraceId, s': Snap) {
    && Tested(sc.g, s.d, s.visits, t) && CanRetire(s.d, t) && s.d.traces[t].top != sc.root
    && AgreesWithParent(s.d, s.l.live, s.d.traces[t].top)
    && s'.visits == s.visits && s'.edges == s.edges
    && exists exit: Option<BlockId>, rec: BlockTrace :: RetiresTo(s, s.d.traces[t].top, exit, rec, s')
  }

  ghost predicate RetiresTo(s: Snap, b: BranchId, exit: Option<BlockId>, rec: BlockTrace, s': Snap)
    requires AgreesWithParent(s.d, s.l.live, b)
    requires forall i :: 0 <= i < |s.d.branches[b].paths| ==> s.d.branches[b].paths[i] in s.d.traces
  {
    var paths, pt := s.d.branches[b].paths, ParentTrace(s.d, s.l.live, b);
    && CommonExit(s.d, paths, exit) && RetiredRecord(s.d, paths, exit, s.d.traces[pt], rec) && Retires(s.d, s.l.live, b, rec, s'.d)
    && s'.l == Ledger(s.l.live - {b}, s.l.openBlocks, HandOver(s.l.holder, paths, pt))
  }

  /** All traces of the root branch have ended. */
  ghost predicate FinishMove(sc: Scene, s: Snap, t: TraceId, s': Snap) {
    && Tested(sc.g, s.d, s.visits, t) && CanRetire(s.d, t) && s.d.traces[t].top == sc.root
    && s'.d.active == [] && s'.d.branches == s.d.branches && s'.l == s.l && s'.visits == s.visits && s'.edges == s.edges
  }

  ghost function GotoOf(d: Dag, t: TraceId): FloatingEdge
    requires t in d.traces && d.traces[t].bottom.Some? && d.traces[t].destnode.Some?
  {
    FloatingEdge(d.traces[t].bottom.value, d.traces[t].destnode.value)
  }

  /** Every trace is stuck: the edge of the best scored one becomes a goto. */
  ghost predicate CutMove(sc: Scene, s: Snap, t: TraceId, s': Snap) {
    && AllStuck(sc, s)
    && t in s.d.active && Tested(sc.g, s.d, s.visits, t) && IsBestTrace(sc.g, s.d, s.l.live, sc.root, sc.index, t)
    && s.d.traces[t].bottom.Some? && s.d.traces[t].destnode.Some? && s.d.traces[t].destnode.value < |s.visits|
    && s'.edges == s.edges + [GotoOf(s.d, t)]
    && s'.visits == Visited(s.visits, s.d.traces[t].destnode.value, s.d.traces[t].edgelump)
    && s'.l == s.l.(holder := CutOver(s.l.holder, t))
    && CutsTo(s.d, t, s'.d)
  }

  /** A trace on its first edge is dropped from its branch, any other ends. */
  ghost predicate CutsTo(d: Dag, t: TraceId, d': Dag)
    requires t in d.traces && d.traces[t].top in d.branches
  {
    if d.traces[t].bottom != d.branches[d.traces[t].top].top then d' == d.(traces := d.traces[t := Ended(d.traces[t])])
    else 0 <= d.traces[t].pathout < |d.branches[d.traces[t].top].paths| && Drops(d, t, d')
  }

  ghost predicate Legal(sc: Scene, s: Snap, m: Move, s': Snap) {
    m.t in s.d.active &&
    match m
    case Open(t) => OpenMove(sc, s, t, s')
    case Retire(t) => RetireMove(sc, s, t, s')
    case Finish(t) => FinishMove(sc, s, t, s')
    case CutAt(t) => CutMove(sc, s, t, s')
  }

  /** The active list read as a ring. */
  ghost function Around(s: seq<TraceId>, k: nat): TraceId
    requires k < 2 * |s|
  {
    if k < |s| then s[k] else s[k - |s|]
  }

  // ----- Whose turn it is

  /** From position `start` on, the trace is the first in the ring at which something can be done. */
  ghost predicate InTurn(sc: Scene, s: Snap, start: nat, t: TraceId) {
    start < |s.d.active| && exists p: nat :: start <= p < start + |s.d.active| && IsFirst(sc, s, start, p, t)
  }

  ghost predicate IsFirst(sc: Scene, s: Snap, start: nat, p: nat, t: TraceId)
    requires start < |s.d.active| && start <= p < start + |s.d.active|
  {
    && Around(s.d.active, p) == t
    && forall k {:trigger Around(s.d.active, k)} :: start <= k < p ==>
         StuckAt(sc.g, s.d, sc.finish, s.visits, Around(s.d.active, k))
  }

  /** The first trace of the branch that was derived from `t`, or `t` itself without one. */
  ghost function Successor(d: Dag, t: TraceId): TraceId {
    if t in d.traces && d.traces[t].derivedbp.Some? && d.traces[t].derivedbp.value in d.branches &&
       d.branches[d.traces[t].derivedbp.value].paths != []
    then d.branches[d.traces[t].derivedbp.value].paths[0]
    else t
  }

  ghost predicate StandsAt(d: Dag, start: nat, t: TraceId) {
    start < |d.active| && d.active[start] == t
  }

  /** Where the scan goes on: at the first trace of an opened block, or the trace that ended there; at
      the trace a branch was folded into; after a cut, at the front. */
  ghost predicate ResumesAfter(s: Snap, m: Move, s': Snap, start': nat) {
    match m
    case Open(t) => StandsAt(s'.d, start', Successor(s'.d, t))
    case Retire(t) =>
      && t in s.d.traces && AgreesWithParent(s.d, s.l.live, s.d.traces[t].top)
      && StandsAt(s'.d, start', ParentTrace(s.d, s.l.live, s.d.traces[t].top))
    case Finish(_) => true
    case CutAt(_) => start' == 0
  }

  /** The scan takes the traces in turn, and at each tries to retire before it opens. */
  ghost predicate Turn(sc: Scene, s: Snap, start: nat, m: Move, s': Snap, start': nat) {
    && (m.CutAt? || InTurn(sc, s, start, m.t)) && ResumesAfter(s, m, s', start')
    && (m.Open? && Tested(sc.g, s.d, s.visits, m.t) ==> !CanRetire(s.d, m.t))
  }

  lemma NotBefore(sc: Scene, s: Snap, start: nat, p: nat, t: TraceId, q: nat, t': TraceId)
    requires start < |s.d.active| && start <= p < start + |s.d.active| && start <= q < start + |s.d.active|
    requires IsFirst(sc, s, start, p, t) && IsFirst(sc, s, start, q, t') && !StuckAt(sc.g, s.d, sc.finish, s.visits, t)
    ensures q <= p
  {
    assert Around(s.d.active, p) == t;
  }

  /** There is no choice: at most one trace can be moved next, and in at most one way. */
  lemma TurnIsOnly(sc: Scene, s: Snap, start: nat, m: Move, s1: Snap, start1: nat, m': Move, s2: Snap, start2: nat)
    requires Legal(sc, s, m, s1) && Turn(sc, s, start, m, s1, start1)
    requires Legal(sc, s, m', s2) && Turn(sc, s, start, m', s2, start2)
    ensures if m.CutAt? then m'.CutAt? else m' == m
  {
    CutIffStuck(sc, s, m, s1);
    CutIffStuck(sc, s, m', s2);
    if !m.CutAt? {
      NotStuckThere(sc, s, m, s1);
      NotStuckThere(sc, s, m', s2);
      var p: nat :| start <= p < start + |s.d.active| && IsFirst(sc, s, start, p, m.t);
      var q: nat :| start <= q < start + |s.d.active| && IsFirst(sc, s, start, q, m'.t);
      NotBefore(sc, s, start, p, m.t, q, m'.t);
      NotBefore(sc, s, start, q, m'.t, p, m.t);
    }
  }

  lemma NotStuckThere(sc: Scene, s: Snap, m: Move, s': Snap)
    requires Legal(sc, s, m, s') && !m.CutAt?
    ensures !StuckAt(sc.g, s.d, sc.finish, s.visits, m.t)
  {
  }

  /** Every move of a run is made in turn; `starts` says where each scan starts. */
  ghost predicate InOrder(sc: Scene, history: seq<Snap>, moves: seq<Move>, starts: seq<nat>) {
    && |history| == |moves| + 1 == |starts| && starts[0] == 0
    && forall i :: 0 <= i < |moves| ==> Turn(sc, history[i], starts[i], moves[i], history[i + 1], starts[i + 1])
  }

  lemma OrderExtends(sc: Scene, history: seq<Snap>, moves: seq<Move>, starts: seq<nat>, m: Move, s: Snap, start: nat)
    requires InOrder(sc, history, moves, starts)
    requires Turn(sc, history[|history| - 1], starts[|starts| - 1], m, s, start)
    ensures InOrder(sc, history + [s], moves + [m], starts + [start])
  {
    hide Turn;
    var history', moves', starts' := history + [s], moves + [m], starts + [start];
    forall i | 0 <= i < |moves'| ensures Turn(sc, history'[i], starts'[i], moves'[i], history'[i + 1], starts'[i + 1]) {
      if i < |moves| { assert Turn(sc, history[i], starts[i], moves[i], history[i + 1], starts[i + 1]); }
    }
  }

  lemma OpenIsMove(sc: Scene, s: Snap, t: TraceId, nb: BranchId, nt: TraceId, s': Snap)
    requires Tested(sc.g, s.d, s.visits, t) && CanOpen(sc.g, s.d, sc.finish, s.visits, t)
    requires s.d.traces[t].destnode.Some? && s.d.traces[t].destnode.value < |sc.g.outofthis|
    requires s'.visits == s.visits && s'.edges == s.edges && OpensTo(sc.g, s, t, s.d.traces[t].destnode.value, nb, nt, s')
    ensures OpenMove(sc, s, t, s')
  {
  }

  lemma RetireIsMove(sc: Scene, s: Snap, t: TraceId, exit: Option<BlockId>, rec: BlockTrace, s': Snap)
    requires Tested(sc.g, s.d, s.visits, t) && CanRetire(s.d, t) && s.d.traces[t].top != sc.root
    requires AgreesWithParent(s.d, s.l.live, s.d.traces[t].top) && RetiresTo(s, s.d.traces[t].top, exit, rec, s')
    requires s'.visits == s.visits && s'.edges == s.edges
    ensures RetireMove(sc, s, t, s')
  {
  }

  // ----- Runs

  ghost predicate Run(sc: Scene, history: seq<Snap>, moves: seq<Move>) {
    |history| == |moves| + 1 && forall i :: 0 <= i < |moves| ==> Legal(sc, history[i], moves[i], history[i + 1])
  }

  lemma RunStarts(sc: Scene, s: Snap)
    ensures Run(sc, [s], [])
  {
  }

  lemma RunExtends(sc: Scene, history: seq<Snap>, moves: seq<Move>, m: Move, s: Snap)
    requires Run(sc, history, moves) && Legal(sc, history[|history| - 1], m, s)
    ensures Run(sc, history + [s], moves + [m])
  {
    hide Legal;
    var history', moves' := history + [s], moves + [m];
    forall i | 0 <= i < |moves'| ensures Legal(sc, history'[i], moves'[i], history'[i + 1]) {
      if i < |moves| { assert Legal(sc, history[i], moves[i], history[i + 1]); }
    }
  }

  /** The gotos of the cuts, in order. */
  ghost function Gotos(sc: Scene, history: seq<Snap>, moves: seq<Move>): seq<FloatingEdge>
    requires Run(sc, history, moves)
    decreases |moves|
  {
    if moves == [] then []
    else
      var k := |moves| - 1;
      assert Legal(sc, history[k], moves[k], history[k + 1]);
      assert Run(sc, history[..k + 1], moves[..k]) by { RunFront(sc, history, moves); }
      Gotos(sc, history[..k + 1], moves[..k]) + if moves[k].CutAt? then [GotoOf(history[k].d, moves[k].t)] else []
  }

  lemma RunFront(sc: Scene, history: seq<Snap>, moves: seq<Move>)
    requires Run(sc, history, moves) && moves != []
    ensures Run(sc, history[..|moves|], moves[..|moves| - 1])
  {
    hide Legal;
    var k := |moves| - 1;
    forall i | 0 <= i < k ensures Legal(sc, history[..k + 1][i], moves[..k][i], history[..k + 1][i + 1]) {
      assert Legal(sc, history[i], moves[i], history[i + 1]);
    }
  }

  /** The gotos proposed in a run are those of its cuts, in order. */
  lemma {:induction false} EdgesAreGotos(sc: Scene, history: seq<Snap>, moves: seq<Move>)
    requires Run(sc, history, moves)
    ensures history[|moves|].edges == history[0].edges + Gotos(sc, history, moves)
    decreases |moves|
  {
    if moves != [] {
      var k := |moves| - 1;
      RunFront(sc, history, moves);
      EdgesAreGotos(sc, history[..k + 1], moves[..k]);
      assert Legal(sc, history[k], moves[k], history[k + 1]);
    }
  }

  /** A step of a run proposes a goto if and only if every active trace is stuck there. */
  lemma CutIffStuck(sc: Scene, s: Snap, m: Move, s': Snap)
    requires Legal(sc, s, m, s')
    ensures m.CutAt? <==> AllStuck(sc, s)
    ensures m.CutAt? <==> s'.edges != s.edges
  {
  }

  /** A run proposes no goto if and only if it never gets stuck. */
  lemma NoGotoIffNeverStuck(sc: Scene, history: seq<Snap>, moves: seq<Move>)
    requires Run(sc, history, moves)
    ensures history[|moves|].edges == history[0].edges <==> forall i :: 0 <= i < |moves| ==> !AllStuck(sc, history[i])
  {
    hide Legal, AllStuck, Gotos;
    EdgesAreGotos(sc, history, moves);
    CutsCount(sc, history, moves);
    forall i | 0 <= i < |moves| ensures moves[i].CutAt? <==> AllStuck(sc, history[i]) {
      CutIffStuck(sc, history[i], moves[i], history[i + 1]);
    }
  }

  lemma {:induction false} CutsCount(sc: Scene, history: seq<Snap>, moves: seq<Move>)
    requires Run(sc, history, moves)
    ensures Gotos(sc, history, moves) == [] <==> forall i :: 0 <= i < |moves| ==> !moves[i].CutAt?
    decreases |moves|
  {
    if moves != [] {
      var k := |moves| - 1;
      RunFront(sc, history, moves);
      CutsCount(sc, history[..k + 1], moves[..k]);
      assert forall i :: 0 <= i < k ==> moves[..k][i] == moves[i];
    }
  }
}
