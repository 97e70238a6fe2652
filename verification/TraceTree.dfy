/** The branch tree of a trace: branch points, the traces leaving them, and the active list. */
module TraceTree {
  import opened FlowGraph
  import opened LoopDag

  type BranchId = nat
  type TraceId = nat

  datatype BranchPoint = BranchPoint(parent: Option<BranchId>, pathout: int, top: Option<BlockId>,
                                     paths: seq<TraceId>, depth: nat)

  datatype BlockTrace = BlockTrace(active: bool, terminal: bool, top: BranchId, pathout: int,
                                   bottom: Option<BlockId>, destnode: Option<BlockId>, edgelump: int,
                                   derivedbp: Option<BranchId>)

  /** The arenas and the active list. */
  datatype Dag = Dag(branches: map<BranchId, BranchPoint>, traces: map<TraceId, BlockTrace>, active: seq<TraceId>)

  // ----- Shape of the tree

  /** `t` sits in its slot of a live branch. `live` holds the branches not yet retired. */
  ghost predicate LiveTrace(d: Dag, live: set<BranchId>, t: TraceId) {
    && t in d.traces
    && d.traces[t].top in live && d.traces[t].top in d.branches
    && 0 <= d.traces[t].pathout < |d.branches[d.traces[t].top].paths|
    && d.branches[d.traces[t].top].paths[d.traces[t].pathout] == t
  }

  /** Path i of a live branch has pathout i. */
  ghost predicate PathsIndexed(d: Dag, live: set<BranchId>) {
    forall b, i :: b in live && b in d.branches && 0 <= i < |d.branches[b].paths| ==>
      && d.branches[b].paths[i] in d.traces
      && d.traces[d.branches[b].paths[i]].top == b
      && d.traces[d.branches[b].paths[i]].pathout == i
  }

  /** A live branch other than the root agrees with the parent slot it was derived from. */
  ghost predicate AgreesWithParent(d: Dag, live: set<BranchId>, b: BranchId) {
    && b in d.branches && d.branches[b].parent.Some? && d.branches[b].top.Some?
    && d.branches[b].paths != []
    && var p := d.branches[b].parent.value;
       && p in live && p in d.branches
       && d.branches[b].depth == d.branches[p].depth + 1
       && 0 <= d.branches[b].pathout < |d.branches[p].paths|
       && d.branches[p].paths[d.branches[b].pathout] in d.traces
       && d.traces[d.branches[p].paths[d.branches[b].pathout]].derivedbp == Some(b)
  }

  /** An opened trace names the branch derived from it. */
  ghost predicate AgreesWithDerived(d: Dag, live: set<BranchId>, root: BranchId, t: TraceId)
    requires t in d.traces
  {
    d.traces[t].derivedbp.Some? ==>
      && !d.traces[t].terminal
      && d.traces[t].derivedbp.value in live && d.traces[t].derivedbp.value != root
      && d.traces[t].derivedbp.value in d.branches
      && d.branches[d.traces[t].derivedbp.value].parent == Some(d.traces[t].top)
      && d.branches[d.traces[t].derivedbp.value].pathout == d.traces[t].pathout
  }

  ghost predicate RootBranch(d: Dag, root: BranchId) {
    root in d.branches && d.branches[root].parent == None && d.branches[root].top == None && d.branches[root].depth == 0
  }

  ghost predicate TreeInv(d: Dag, live: set<BranchId>, root: BranchId) {
    && root in live && RootBranch(d, root)
    && (forall b :: b in live ==> b in d.branches)
    && PathsIndexed(d, live)
    && (forall b :: b in live && b != root ==> AgreesWithParent(d, live, b))
    && (forall t :: LiveTrace(d, live, t) ==> AgreesWithDerived(d, live, root, t))
    && (forall t :: LiveTrace(d, live, t) ==> (d.traces[t].active <==> d.traces[t].derivedbp == None))
    && NoRepeats(d.active)
    && (forall t :: t in d.active <==> LiveTrace(d, live, t) && d.traces[t].active)
  }

  // ----- Tests made by the scan

  /** All paths of the branch are active and terminal. */
  ghost predicate AllTerminal(d: Dag, paths: seq<TraceId>)
    requires forall i :: 0 <= i < |paths| ==> paths[i] in d.traces
  {
    forall i :: 0 <= i < |paths| ==> d.traces[paths[i]].active && d.traces[paths[i]].terminal
  }

  /** All paths are active and those not terminal lead to one block. */
  ghost predicate CommonExit(d: Dag, paths: seq<TraceId>, exit: Option<BlockId>)
    requires forall i :: 0 <= i < |paths| ==> paths[i] in d.traces
  {
    && (forall i :: 0 <= i < |paths| ==> d.traces[paths[i]].active)
    && (forall i :: 0 <= i < |paths| && !d.traces[paths[i]].terminal ==> d.traces[paths[i]].destnode == exit)
    && (exit.Some? ==> exists i :: 0 <= i < |paths| && !d.traces[paths[i]].terminal && d.traces[paths[i]].destnode == exit)
  }

  ghost predicate CanRetire(d: Dag, t: TraceId)
    requires t in d.traces && d.traces[t].top in d.branches
    requires forall i :: 0 <= i < |d.branches[d.traces[t].top].paths| ==> d.branches[d.traces[t].top].paths[i] in d.traces
  {
    && d.traces[t].pathout == 0
    && var bp := d.branches[d.traces[t].top];
       if bp.depth == 0 then AllTerminal(d, bp.paths) else exists exit :: CommonExit(d, bp.paths, exit)
  }

  /** Enough of the destination's in-edges are lumped here or already cut. */
  ghost predicate CanOpen(g: Graph, d: Dag, finish: Option<BlockId>, visits: seq<int>, t: TraceId)
    requires t in d.traces && d.traces[t].top in d.branches
    requires |visits| == |g.intothis|
  {
    && !d.traces[t].terminal
    && var r := d.traces[t];
       || (d.branches[r.top].depth == 0 && r.bottom == None)
       || (&& r.destnode.Some? && r.destnode.value < |g.intothis|
           && (r.destnode != finish || d.branches[r.top].depth == 0)
           && CountIn(g.intothis[r.destnode.value], |g.intothis[r.destnode.value]|)
                <= r.edgelump + visits[r.destnode.value])
  }

  // ----- Basic facts

  lemma LivePath(d: Dag, live: set<BranchId>, root: BranchId, b: BranchId, i: nat)
    requires TreeInv(d, live, root) && b in live && i < |d.branches[b].paths|
    ensures LiveTrace(d, live, d.branches[b].paths[i])
    ensures d.traces[d.branches[b].paths[i]].top == b && d.traces[d.branches[b].paths[i]].pathout == i
  {
  }

  /** Only the root is at depth 0. */
  lemma DepthZero(d: Dag, live: set<BranchId>, root: BranchId, b: BranchId)
    requires TreeInv(d, live, root) && b in live
    ensures b in d.branches && (d.branches[b].depth == 0 <==> b == root)
    ensures d.branches[b].top == None <==> b == root
  {
    if b != root { assert AgreesWithParent(d, live, b); }
  }

  lemma DerivedIsDeeper(d: Dag, live: set<BranchId>, root: BranchId, t: TraceId)
    requires TreeInv(d, live, root) && LiveTrace(d, live, t)
    ensures d.traces[t].derivedbp.Some? ==>
              && d.traces[t].derivedbp.value in live && d.traces[t].derivedbp.value in d.branches
              && d.branches[d.traces[t].derivedbp.value].depth == d.branches[d.traces[t].top].depth + 1
  {
    assert AgreesWithDerived(d, live, root, t);
    if d.traces[t].derivedbp.Some? { assert AgreesWithParent(d, live, d.traces[t].derivedbp.value); }
  }

  /** A live branch no other live branch is deeper than. */
  lemma Deepest(d: Dag, live: set<BranchId>, some: set<BranchId>) returns (b: BranchId)
    requires some != {} && some <= live && forall x :: x in live ==> x in d.branches
    ensures b in some && forall x :: x in some ==> d.branches[x].depth <= d.branches[b].depth
    decreases some
  {
    b :| b in some;
    if some != {b} {
      var c := Deepest(d, live, some - {b});
      if d.branches[b].depth < d.branches[c].depth { b := c; }
    }
  }

  /** If every active trace is terminal, some active trace's branch can retire. */
  lemma TerminalRetires(d: Dag, live: set<BranchId>, root: BranchId) returns (t: TraceId)
    requires TreeInv(d, live, root) && d.active != []
    requires forall x :: x in d.active ==> d.traces[x].terminal
    ensures t in d.active && CanRetire(d, t)
  {
    var b := Deepest(d, live, live);
    var paths := d.branches[b].paths;
    forall i | 0 <= i < |paths| ensures paths[i] in d.active && d.traces[paths[i]].terminal {
      LivePath(d, live, root, b, i);
      DerivedIsDeeper(d, live, root, paths[i]);
    }
    if b == root {
      var a := d.active[0];
      assert a in d.active && LiveTrace(d, live, a);
      DepthZero(d, live, root, d.traces[a].top);
      assert paths != [];
    } else {
      assert AgreesWithParent(d, live, b);
      DepthZero(d, live, root, b);
    }
    t := paths[0];
    LivePath(d, live, root, b, 0);
    if b != root { assert CommonExit(d, paths, None); }
  }

  // ----- List edits

  /** The list with one node unlinked. */
  function Without(s: seq<TraceId>, t: TraceId): seq<TraceId> {
    if s == [] then [] else if s[0] == t then s[1..] else [s[0]] + Without(s[1..], t)
  }

  lemma {:induction false} WithoutIs(s: seq<TraceId>, t: TraceId)
    requires NoRepeats(s)
    ensures NoRepeats(Without(s, t))
    ensures forall x :: x in Without(s, t) <==> x in s && x != t
    ensures |Without(s, t)| == if t in s then |s| - 1 else |s|
  {
    if s != [] {
      var tail := s[1..];
      assert s == [s[0]] + tail && NoRepeats(tail);
      assert s[0] !in tail;
      if s[0] != t {
        WithoutIs(tail, t);
        ConsDistinct(s[0], Without(tail, t));
      }
    }
  }

  /** The others stay in order. */
  lemma {:induction false} WithoutAt(s: seq<TraceId>, i: nat)
    requires NoRepeats(s) && i < |s|
    ensures Without(s, s[i]) == s[..i] + s[i + 1..]
  {
    if i > 0 {
      WithoutAt(s[1..], i - 1);
      assert s[..i] + s[i + 1..] == [s[0]] + (s[1..][..i - 1] + s[1..][i..]);
    }
  }

  lemma ConsDistinct(x: TraceId, s: seq<TraceId>)
    requires NoRepeats(s) && x !in s
    ensures NoRepeats([x] + s)
  {
  }

  /** Two lists with nothing in common, one after the other. */
  lemma AppendDistinct(a: seq<TraceId>, b: seq<TraceId>)
    requires NoRepeats(a) && NoRepeats(b) && forall x :: x in a ==> x !in b
    ensures NoRepeats(a + b)
  {
    forall i, j | 0 <= i < j < |a + b| ensures (a + b)[i] != (a + b)[j] {
      if i < |a| <= j { assert a[i] in a && b[j - |a|] in b; }
    }
  }

  /** `k` consecutive arena slots. */
  ghost function NewIds(first: TraceId, k: nat): (ids: seq<TraceId>)
    ensures |ids| == k && forall i :: 0 <= i < k ==> ids[i] == first + i
  {
    seq(k, i requires 0 <= i < k => first + i)
  }

  /** Nothing refers to arena slots from `nb` and `nt` on. */
  ghost predicate FreshFrom(d: Dag, nb: BranchId, nt: TraceId) {
    && (forall b :: b in d.branches ==> b < nb)
    && (forall t :: t in d.traces ==> t < nt && d.traces[t].top < nb)
  }

  // ----- Opening a branch

  /** The trace `t` is replaced on the active list by one trace per loop-DAG out-edge of its
      destination. */
  ghost predicate Opens(d: Dag, t: TraceId, nb: BranchId, nt: TraceId, block: BlockId, dests: seq<BlockId>, d': Dag)
    requires t in d.traces && d.traces[t].top in d.branches
  {
    var r, k := d.traces[t], |dests|;
    && d'.branches == d.branches[nb := BranchPoint(Some(r.top), r.pathout, Some(block), NewIds(nt, k),
                                                   d.branches[r.top].depth + 1)]
    && (forall x :: x in d'.traces <==> x in d.traces || nt <= x < nt + k)
    && (forall x :: x in d.traces && x != t ==> d'.traces[x] == d.traces[x])
    && d'.traces[t] == r.(active := false, derivedbp := Some(nb))
    && (forall x :: nt <= x < nt + k ==>
          d'.traces[x] == BlockTrace(true, false, nb, x - nt, Some(block), Some(dests[x - nt]), 1, None))
    && d'.active == Without(d.active, t) + NewIds(nt, k)
  }

  /** Liveness of traces after an opening. */
  lemma OpenLive(d: Dag, live: set<BranchId>, root: BranchId, t: TraceId, nb: BranchId, nt: TraceId,
                 block: BlockId, dests: seq<BlockId>, d': Dag, x: TraceId)
    requires TreeInv(d, live, root) && LiveTrace(d, live, t) && FreshFrom(d, nb, nt)
    requires Opens(d, t, nb, nt, block, dests, d')
    ensures LiveTrace(d', live + {nb}, x) <==> LiveTrace(d, live, x) || nt <= x < nt + |dests|
  {
    if x in d.traces { assert d.traces[x].top != nb; }
  }

  lemma OpenKeepsTree(d: Dag, live: set<BranchId>, root: BranchId, t: TraceId, nb: BranchId, nt: TraceId,
                      block: BlockId, dests: seq<BlockId>, d': Dag)
    requires TreeInv(d, live, root) && FreshFrom(d, nb, nt)
    requires t in d.active && !d.traces[t].terminal && Opens(d, t, nb, nt, block, dests, d') && dests != []
    ensures TreeInv(d', live + {nb}, root)
    ensures FreshFrom(d', nb + 1, nt + |dests|)
  {
    var live' := live + {nb};
    forall x: TraceId ensures LiveTrace(d', live', x) <==> LiveTrace(d, live, x) || nt <= x < nt + |dests| {
      OpenLive(d, live, root, t, nb, nt, block, dests, d', x);
    }
    OpenKeepsPaths(d, live, root, t, nb, nt, block, dests, d');
    OpenKeepsAgreement(d, live, root, t, nb, nt, block, dests, d');
    OpenKeepsActive(d, live, root, t, nb, nt, block, dests, d');
  }

  lemma OpenKeepsActive(d: Dag, live: set<BranchId>, root: BranchId, t: TraceId, nb: BranchId, nt: TraceId,
                        block: BlockId, dests: seq<BlockId>, d': Dag)
    requires TreeInv(d, live, root) && FreshFrom(d, nb, nt)
    requires t in d.active && !d.traces[t].terminal && Opens(d, t, nb, nt, block, dests, d') && dests != []
    requires forall x: TraceId :: LiveTrace(d', live + {nb}, x) <==> LiveTrace(d, live, x) || nt <= x < nt + |dests|
    ensures NoRepeats(d'.active)
    ensures forall x: TraceId :: LiveTrace(d', live + {nb}, x) ==> (d'.traces[x].active <==> d'.traces[x].derivedbp == None)
    ensures forall x: TraceId :: x in d'.active <==> LiveTrace(d', live + {nb}, x) && d'.traces[x].active
  {
    hide PathsIndexed, AgreesWithParent, AgreesWithDerived, RootBranch;
    WithoutIs(d.active, t);
    forall x | nt <= x < nt + |dests| ensures x in NewIds(nt, |dests|) {
      assert NewIds(nt, |dests|)[x - nt] == x;
    }
    forall x | x in Without(d.active, t) ensures x !in NewIds(nt, |dests|) {
      assert LiveTrace(d, live, x);
    }
    AppendDistinct(Without(d.active, t), NewIds(nt, |dests|));
  }

  lemma OpenKeepsPaths(d: Dag, live: set<BranchId>, root: BranchId, t: TraceId, nb: BranchId, nt: TraceId,
                       block: BlockId, dests: seq<BlockId>, d': Dag)
    requires TreeInv(d, live, root) && LiveTrace(d, live, t) && FreshFrom(d, nb, nt)
    requires Opens(d, t, nb, nt, block, dests, d')
    ensures PathsIndexed(d', live + {nb})
  {
    forall b, i | b in live + {nb} && b in d'.branches && 0 <= i < |d'.branches[b].paths|
      ensures && d'.branches[b].paths[i] in d'.traces
              && d'.traces[d'.branches[b].paths[i]].top == b
              && d'.traces[d'.branches[b].paths[i]].pathout == i
    {
      if b == nb { assert d'.branches[b].paths[i] == nt + i; } else { assert d.branches[b].paths[i] in d.traces; }
    }
  }

  lemma OpenKeepsAgreement(d: Dag, live: set<BranchId>, root: BranchId, t: TraceId, nb: BranchId, nt: TraceId,
                           block: BlockId, dests: seq<BlockId>, d': Dag)
    requires TreeInv(d, live, root) && FreshFrom(d, nb, nt) && LiveTrace(d, live, t) && !d.traces[t].terminal
    requires d.traces[t].derivedbp == None && Opens(d, t, nb, nt, block, dests, d') && dests != []
    ensures forall b :: b in live + {nb} && b != root ==> AgreesWithParent(d', live + {nb}, b)
    ensures forall x :: LiveTrace(d', live + {nb}, x) ==> AgreesWithDerived(d', live + {nb}, root, x)
  {
    forall b | b in live + {nb} && b != root ensures AgreesWithParent(d', live + {nb}, b) {
      if b != nb {
        assert AgreesWithParent(d, live, b);
        assert d.branches[d.branches[b].parent.value].paths[d.branches[b].pathout] != t;
      }
    }
    forall x: TraceId | LiveTrace(d', live + {nb}, x) ensures AgreesWithDerived(d', live + {nb}, root, x) {
      OpenLive(d, live, root, t, nb, nt, block, dests, d', x);
      if x in d.traces { assert AgreesWithDerived(d, live, root, x); }
    }
  }

  // ----- A trace that ends

  function Ended(r: BlockTrace): (r': BlockTrace)
    ensures r' == BlockTrace(r.active, true, r.top, r.pathout, None, None, 0, r.derivedbp)
  {
    r.(terminal := true, bottom := None, destnode := None, edgelump := 0)
  }

  lemma EndKeepsTree(d: Dag, live: set<BranchId>, root: BranchId, t: TraceId)
    requires TreeInv(d, live, root) && t in d.active
    ensures TreeInv(d.(traces := d.traces[t := Ended(d.traces[t])]), live, root)
    ensures forall x :: LiveTrace(d.(traces := d.traces[t := Ended(d.traces[t])]), live, x) <==> LiveTrace(d, live, x)
  {
    var d' := d.(traces := d.traces[t := Ended(d.traces[t])]);
    forall x: TraceId ensures LiveTrace(d', live, x) <==> LiveTrace(d, live, x) {
    }
    forall b | b in live && b != root ensures AgreesWithParent(d', live, b) {
      assert AgreesWithParent(d, live, b);
    }
    forall x: TraceId | LiveTrace(d', live, x) ensures AgreesWithDerived(d', live, root, x) {
      assert AgreesWithDerived(d, live, root, x);
    }
  }

  // ----- Retiring a branch

  /** The slot of the parent that branch `b` was derived from. */
  ghost function ParentTrace(d: Dag, live: set<BranchId>, b: BranchId): TraceId
    requires AgreesWithParent(d, live, b)
  {
    d.branches[d.branches[b].parent.value].paths[d.branches[b].pathout]
  }

  ghost function WithoutAll(s: seq<TraceId>, paths: seq<TraceId>, k: nat): seq<TraceId>
    requires k <= |paths|
  {
    if k == 0 then s else Without(WithoutAll(s, paths, k - 1), paths[k - 1])
  }

  lemma {:induction false} WithoutAllIs(s: seq<TraceId>, paths: seq<TraceId>, k: nat)
    requires NoRepeats(s) && k <= |paths|
    ensures NoRepeats(WithoutAll(s, paths, k))
    ensures forall x :: x in WithoutAll(s, paths, k) <==> x in s && x !in paths[..k]
  {
    if k > 0 {
      WithoutAllIs(s, paths, k - 1);
      WithoutIs(WithoutAll(s, paths, k - 1), paths[k - 1]);
      assert paths[..k] == paths[..k - 1] + [paths[k - 1]];
    }
  }

  /** The paths of `b` leave the active list; the parent trace comes back as `rec`. */
  ghost predicate Retires(d: Dag, live: set<BranchId>, b: BranchId, rec: BlockTrace, d': Dag)
    requires AgreesWithParent(d, live, b)
  {
    var pt, paths := ParentTrace(d, live, b), d.branches[b].paths;
    && d'.branches == d.branches
    && d'.traces.Keys == d.traces.Keys
    && (forall x :: x in d.traces && x != pt && x !in paths ==> d'.traces[x] == d.traces[x])
    && (forall x :: x in d.traces && x != pt && x in paths ==> d'.traces[x] == d.traces[x].(active := false))
    && d'.traces[pt] == rec
    && d'.active == WithoutAll(d.active, paths, |paths|) + [pt]
  }

  /** `rec` is the parent trace, active again and no longer opened. */
  ghost predicate Reactivates(r: BlockTrace, rec: BlockTrace) {
    rec.active && rec.derivedbp == None && rec.top == r.top && rec.pathout == r.pathout
  }

  lemma RetireLive(d: Dag, live: set<BranchId>, root: BranchId, b: BranchId, rec: BlockTrace, d': Dag, x: TraceId)
    requires TreeInv(d, live, root) && b in live && b != root && AgreesWithParent(d, live, b)
    requires Reactivates(d.traces[ParentTrace(d, live, b)], rec) && Retires(d, live, b, rec, d')
    ensures LiveTrace(d', live - {b}, x) <==> LiveTrace(d, live, x) && d.traces[x].top != b
  {
    if x in d.traces {
      assert d'.traces[x].top == d.traces[x].top && d'.traces[x].pathout == d.traces[x].pathout;
    }
  }

  /** A branch all of whose paths are active has no live branch below it. */
  lemma NoChildren(d: Dag, live: set<BranchId>, root: BranchId, b: BranchId, c: BranchId)
    requires TreeInv(d, live, root) && b in live && c in live && c != root
    requires forall i :: 0 <= i < |d.branches[b].paths| ==> d.branches[b].paths[i] in d.active
    ensures d.branches[c].parent != Some(b)
  {
    assert AgreesWithParent(d, live, c);
  }

  lemma ParentTraceLives(d: Dag, live: set<BranchId>, root: BranchId, b: BranchId)
    requires TreeInv(d, live, root) && b in live && b != root && AgreesWithParent(d, live, b)
    ensures LiveTrace(d, live, ParentTrace(d, live, b))
    ensures d.traces[ParentTrace(d, live, b)].derivedbp == Some(b) && d.traces[ParentTrace(d, live, b)].top != b
    ensures ParentTrace(d, live, b) !in d.active && ParentTrace(d, live, b) !in d.branches[b].paths
    ensures !d.traces[ParentTrace(d, live, b)].terminal
  {
    var pt := ParentTrace(d, live, b);
    LivePath(d, live, root, d.branches[b].parent.value, d.branches[b].pathout);
    assert AgreesWithDerived(d, live, root, pt);
  }

  lemma RetireKeepsTree(d: Dag, live: set<BranchId>, root: BranchId, b: BranchId, rec: BlockTrace, d': Dag)
    requires TreeInv(d, live, root) && b in live && b != root && AgreesWithParent(d, live, b)
    requires forall i :: 0 <= i < |d.branches[b].paths| ==> d.branches[b].paths[i] in d.active
    requires Reactivates(d.traces[ParentTrace(d, live, b)], rec) && Retires(d, live, b, rec, d')
    ensures TreeInv(d', live - {b}, root)
  {
    RetireKeepsAgreement(d, live, root, b, rec, d');
    RetireKeepsPaths(d, live, root, b, rec, d');
    RetireKeepsActive(d, live, root, b, rec, d');
    hide AgreesWithDerived, PathsIndexed, LiveTrace, NoRepeats;
  }

  /** The active list is again that of the live active traces. */
  lemma RetireKeepsActive(d: Dag, live: set<BranchId>, root: BranchId, b: BranchId, rec: BlockTrace, d': Dag)
    requires TreeInv(d, live, root) && b in live && b != root && AgreesWithParent(d, live, b)
    requires forall i :: 0 <= i < |d.branches[b].paths| ==> d.branches[b].paths[i] in d.active
    requires Reactivates(d.traces[ParentTrace(d, live, b)], rec) && Retires(d, live, b, rec, d')
    ensures NoRepeats(d'.active) && forall t :: t in d'.active <==> LiveTrace(d', live - {b}, t) && d'.traces[t].active
    ensures forall t :: LiveTrace(d', live - {b}, t) ==> (d'.traces[t].active <==> d'.traces[t].derivedbp == None)
  {
    var live', pt, paths := live - {b}, ParentTrace(d, live, b), d.branches[b].paths;
    ParentTraceLives(d, live, root, b);
    forall x: TraceId ensures LiveTrace(d', live', x) <==> LiveTrace(d, live, x) && d.traces[x].top != b {
      RetireLive(d, live, root, b, rec, d', x);
    }
    forall x: TraceId ensures x in paths <==> LiveTrace(d, live, x) && d.traces[x].top == b {
      if x in paths {
        var i :| 0 <= i < |paths| && paths[i] == x;
        LivePath(d, live, root, b, i);
      }
    }
    hide AgreesWithDerived, PathsIndexed;
    WithoutAllIs(d.active, paths, |paths|);
    assert paths[..|paths|] == paths;
  }

  lemma RetireKeepsPaths(d: Dag, live: set<BranchId>, root: BranchId, b: BranchId, rec: BlockTrace, d': Dag)
    requires TreeInv(d, live, root) && b in live && b != root && AgreesWithParent(d, live, b)
    requires Reactivates(d.traces[ParentTrace(d, live, b)], rec) && Retires(d, live, b, rec, d')
    ensures PathsIndexed(d', live - {b})
  {
    forall c, i | c in live - {b} && c in d'.branches && 0 <= i < |d'.branches[c].paths|
      ensures && d'.branches[c].paths[i] in d'.traces
              && d'.traces[d'.branches[c].paths[i]].top == c
              && d'.traces[d'.branches[c].paths[i]].pathout == i
    {
      assert d.branches[c].paths[i] in d.traces;
    }
  }

  lemma RetireKeepsParent(d: Dag, live: set<BranchId>, root: BranchId, b: BranchId, rec: BlockTrace, d': Dag, c: BranchId)
    requires TreeInv(d, live, root) && b in live && b != root && AgreesWithParent(d, live, b)
    requires Reactivates(d.traces[ParentTrace(d, live, b)], rec) && Retires(d, live, b, rec, d')
    requires forall i :: 0 <= i < |d.branches[b].paths| ==> d.branches[b].paths[i] in d.active
    requires c in live && c != b && c != root
    ensures AgreesWithParent(d', live - {b}, c)
  {
    assert AgreesWithParent(d, live, c);
    NoChildren(d, live, root, b, c);
    assert ParentTrace(d, live, c) != ParentTrace(d, live, b);
  }

  lemma RetireKeepsAgreement(d: Dag, live: set<BranchId>, root: BranchId, b: BranchId, rec: BlockTrace, d': Dag)
    requires TreeInv(d, live, root) && b in live && b != root && AgreesWithParent(d, live, b)
    requires forall i :: 0 <= i < |d.branches[b].paths| ==> d.branches[b].paths[i] in d.active
    requires Reactivates(d.traces[ParentTrace(d, live, b)], rec) && Retires(d, live, b, rec, d')
    ensures forall c :: c in live - {b} && c != root ==> AgreesWithParent(d', live - {b}, c)
    ensures forall x :: LiveTrace(d', live - {b}, x) ==> AgreesWithDerived(d', live - {b}, root, x)
  {
    var live' := live - {b};
    forall c | c in live' && c != root ensures AgreesWithParent(d', live', c) {
      RetireKeepsParent(d, live, root, b, rec, d', c);
    }
    forall x: TraceId | LiveTrace(d', live', x) ensures AgreesWithDerived(d', live', root, x) {
      RetireLive(d, live, root, b, rec, d', x);
      assert AgreesWithDerived(d, live, root, x);
    }
  }

  // ----- Dropping a path

  /** The trace leaves its branch; the paths after it move down one slot, and so do the
      branches derived from them. */
  ghost predicate Drops(d: Dag, t: TraceId, d': Dag)
    requires t in d.traces && d.traces[t].top in d.branches
    requires 0 <= d.traces[t].pathout < |d.branches[d.traces[t].top].paths|
  {
    var b, po := d.traces[t].top, d.traces[t].pathout;
    var paths := d.branches[b].paths;
    && (forall x :: x in d'.traces <==> x in d.traces && x != t)
    && (forall x :: x in d'.traces ==>
          d'.traces[x] == if x in paths[po + 1..] then d.traces[x].(pathout := d.traces[x].pathout - 1) else d.traces[x])
    && d'.branches.Keys == d.branches.Keys
    && (forall c :: c in d.branches ==>
          d'.branches[c] == if c == b then d.branches[b].(paths := DropSlot(paths, po))
                            else if DerivedAfter(d, paths[po + 1..], c) then d.branches[c].(pathout := d.branches[c].pathout - 1)
                            else d.branches[c])
    && d'.active == Without(d.active, t)
  }

  ghost predicate DerivedAfter(d: Dag, later: seq<TraceId>, c: BranchId) {
    exists i :: 0 <= i < |later| && later[i] in d.traces && d.traces[later[i]].derivedbp == Some(c)
  }

  ghost function DropSlot(paths: seq<TraceId>, po: nat): (r: seq<TraceId>)
    requires po < |paths|
    ensures |r| == |paths| - 1
    ensures forall j :: 0 <= j < |r| ==> r[j] == paths[if j < po then j else j + 1]
  {
    paths[..po] + paths[po + 1..]
  }

  lemma DropLive(d: Dag, live: set<BranchId>, root: BranchId, t: TraceId, d': Dag, x: TraceId)
    requires TreeInv(d, live, root) && LiveTrace(d, live, t) && Drops(d, t, d')
    ensures LiveTrace(d', live, x) <==> LiveTrace(d, live, x) && x != t
    ensures LiveTrace(d', live, x) ==>
              && d'.traces[x].top == d.traces[x].top
              && (d'.traces[x] == d.traces[x] || d'.traces[x] == d.traces[x].(pathout := d.traces[x].pathout - 1))
  {
    var b, po := d.traces[t].top, d.traces[t].pathout;
    if x in d'.traces {
      EarlierNotLater(d, live, root, b, po, x);
      if d.traces[x].top == b {
        if LiveTrace(d, live, x) { DropLiveOn(d, live, root, t, d', x); }
        if LiveTrace(d', live, x) { DropLiveBack(d, live, root, t, d', x); }
      }
    }
  }

  lemma DropLiveOn(d: Dag, live: set<BranchId>, root: BranchId, t: TraceId, d': Dag, x: TraceId)
    requires TreeInv(d, live, root) && LiveTrace(d, live, t) && Drops(d, t, d')
    requires LiveTrace(d, live, x) && x != t && d.traces[x].top == d.traces[t].top
    ensures LiveTrace(d', live, x)
  {
    hide TreeInv;
    var b, po, i := d.traces[t].top, d.traces[t].pathout, d.traces[x].pathout;
    EarlierNotLater(d, live, root, b, po, x);
    assert d'.branches[b].paths == DropSlot(d.branches[b].paths, po);
  }

  lemma DropLiveBack(d: Dag, live: set<BranchId>, root: BranchId, t: TraceId, d': Dag, x: TraceId)
    requires TreeInv(d, live, root) && LiveTrace(d, live, t) && Drops(d, t, d')
    requires LiveTrace(d', live, x) && d'.traces[x].top == d.traces[t].top
    ensures LiveTrace(d, live, x)
  {
    hide TreeInv;
    var b, po, i := d.traces[t].top, d.traces[t].pathout, d'.traces[x].pathout;
    EarlierNotLater(d, live, root, b, po, x);
    assert d'.branches[b].paths == DropSlot(d.branches[b].paths, po);
    var was := if i < po then i else i + 1;
    assert d.branches[b].paths[was] == x;
    LivePath(d, live, root, b, was);
  }

  lemma EarlierNotLater(d: Dag, live: set<BranchId>, root: BranchId, b: BranchId, po: nat, x: TraceId)
    requires TreeInv(d, live, root) && b in live && po < |d.branches[b].paths|
    ensures x in d.branches[b].paths[po + 1..] <==> LiveTrace(d, live, x) && d.traces[x].top == b && d.traces[x].pathout > po
  {
    var later := d.branches[b].paths[po + 1..];
    if x in later {
      var k :| 0 <= k < |later| && later[k] == x;
      LivePath(d, live, root, b, po + 1 + k);
    }
    if LiveTrace(d, live, x) && d.traces[x].top == b && d.traces[x].pathout > po {
      assert later[d.traces[x].pathout - po - 1] == x;
    }
  }

  /** Which live branches move down: those hanging off the later paths. */
  lemma DerivedAfterIs(d: Dag, live: set<BranchId>, root: BranchId, b: BranchId, po: nat, c: BranchId)
    requires TreeInv(d, live, root) && b in live && po < |d.branches[b].paths| && c in live && c != root
    ensures DerivedAfter(d, d.branches[b].paths[po + 1..], c) <==>
              d.branches[c].parent == Some(b) && d.branches[c].pathout > po
  {
    var later := d.branches[b].paths[po + 1..];
    assert AgreesWithParent(d, live, c);
    if DerivedAfter(d, later, c) {
      var i :| 0 <= i < |later| && later[i] in d.traces && d.traces[later[i]].derivedbp == Some(c);
      LivePath(d, live, root, b, po + 1 + i);
      assert AgreesWithDerived(d, live, root, later[i]);
    }
    if d.branches[c].parent == Some(b) && d.branches[c].pathout > po {
      assert later[d.branches[c].pathout - po - 1] == ParentTrace(d, live, c);
    }
  }

  lemma DropKeepsPaths(d: Dag, live: set<BranchId>, root: BranchId, t: TraceId, d': Dag)
    requires TreeInv(d, live, root) && LiveTrace(d, live, t) && Drops(d, t, d')
    ensures PathsIndexed(d', live)
  {
    hide TreeInv, AgreesWithParent, AgreesWithDerived;
    var b, po := d.traces[t].top, d.traces[t].pathout;
    var paths := d.branches[b].paths;
    assert d'.branches[b].paths == DropSlot(paths, po);
    forall c, i | c in live && c in d'.branches && 0 <= i < |d'.branches[c].paths|
      ensures && d'.branches[c].paths[i] in d'.traces
              && d'.traces[d'.branches[c].paths[i]].top == c
              && d'.traces[d'.branches[c].paths[i]].pathout == i
    {
      var was := if c == b && i >= po then i + 1 else i;
      var x := d.branches[c].paths[was];
      assert d'.branches[c].paths[i] == x;
      LivePath(d, live, root, c, was);
      EarlierNotLater(d, live, root, b, po, x);
    }
  }

  lemma DropKeepsParents(d: Dag, live: set<BranchId>, root: BranchId, t: TraceId, d': Dag, c: BranchId)
    requires TreeInv(d, live, root) && LiveTrace(d, live, t) && Drops(d, t, d')
    requires d.traces[t].derivedbp == None && |d.branches[d.traces[t].top].paths| > 1 && c in live && c != root
    ensures AgreesWithParent(d', live, c)
  {
    hide TreeInv, DerivedAfter;
    var b, po := d.traces[t].top, d.traces[t].pathout;
    ParentAgrees(d, live, root, c);
    var p, ct := d.branches[c].parent.value, ParentTrace(d, live, c);
    ParentTraceLives(d, live, root, c);
    DerivedAfterIs(d, live, root, b, po, c);
    EarlierNotLater(d, live, root, b, po, ct);
    assert ct != t && ct in d'.traces && d'.traces[ct].derivedbp == Some(c);
    if c == b { DerivedNotBelow(d, live, root, b, po); }
    assert d'.branches[p].paths[d'.branches[c].pathout] == ct by {
      if p == b { assert d.branches[c].pathout != po; }
    }
    assert d'.branches[c].paths != [] && d'.branches[c].depth == d'.branches[p].depth + 1;
  }

  lemma ParentAgrees(d: Dag, live: set<BranchId>, root: BranchId, c: BranchId)
    requires TreeInv(d, live, root) && c in live && c != root
    ensures AgreesWithParent(d, live, c)
  {
  }

  /** A branch is not derived from one of its own paths. */
  lemma DerivedNotBelow(d: Dag, live: set<BranchId>, root: BranchId, b: BranchId, po: nat)
    requires TreeInv(d, live, root) && b in live && b != root && po < |d.branches[b].paths|
    ensures d.branches[b].parent != Some(b) && !DerivedAfter(d, d.branches[b].paths[po + 1..], b)
  {
    assert AgreesWithParent(d, live, b);
    DerivedAfterIs(d, live, root, b, po, b);
  }

  lemma DropKeepsDerived(d: Dag, live: set<BranchId>, root: BranchId, t: TraceId, d': Dag, x: TraceId)
    requires TreeInv(d, live, root) && LiveTrace(d, live, t) && Drops(d, t, d')
    requires LiveTrace(d, live, x) && x != t
    ensures x in d'.traces && AgreesWithDerived(d', live, root, x)
  {
    var b, po := d.traces[t].top, d.traces[t].pathout;
    assert AgreesWithDerived(d, live, root, x);
    EarlierNotLater(d, live, root, b, po, x);
    if d.traces[x].derivedbp.Some? {
      var c := d.traces[x].derivedbp.value;
      DerivedAfterIs(d, live, root, b, po, c);
      DerivedNotBelowTrace(d, live, root, x);
      if c == b { DerivedNotBelow(d, live, root, b, po); }
    }
  }

  lemma DerivedNotBelowTrace(d: Dag, live: set<BranchId>, root: BranchId, x: TraceId)
    requires TreeInv(d, live, root) && LiveTrace(d, live, x)
    ensures d.traces[x].derivedbp != Some(d.traces[x].top)
  {
    DerivedIsDeeper(d, live, root, x);
  }

  lemma DropKeepsTree(d: Dag, live: set<BranchId>, root: BranchId, t: TraceId, d': Dag)
    requires TreeInv(d, live, root) && t in d.active && Drops(d, t, d')
    requires |d.branches[d.traces[t].top].paths| > 1
    ensures TreeInv(d', live, root)
  {
    forall x: TraceId ensures LiveTrace(d', live, x) <==> LiveTrace(d, live, x) && x != t {
      DropLive(d, live, root, t, d', x);
    }
    DropKeepsPaths(d, live, root, t, d');
    forall c | c in live && c != root ensures AgreesWithParent(d', live, c) {
      DropKeepsParents(d, live, root, t, d', c);
    }
    forall x: TraceId | LiveTrace(d', live, x)
      ensures AgreesWithDerived(d', live, root, x) && (d'.traces[x].active <==> d'.traces[x].derivedbp == None)
    {
      DropLive(d, live, root, t, d', x);
      DropKeepsDerived(d, live, root, t, d', x);
    }
    WithoutIs(d.active, t);
    DropKeepsRoot(d, live, root, t, d');
  }

  lemma DropKeepsRoot(d: Dag, live: set<BranchId>, root: BranchId, t: TraceId, d': Dag)
    requires TreeInv(d, live, root) && LiveTrace(d, live, t) && Drops(d, t, d')
    ensures RootBranch(d', root)
  {
  }
}
