/** The reads of a varnode, its own and those of the implied varnodes computed from it. */
module CoverUses {
  import opened FlowGraph
  import opened CoverBlocks

  /** The operations that read each varnode, and which varnodes are implied. */
  datatype Uses = Uses(descend: seq<seq<OpId>>, implied: set<VarnodeId>)

  /** The implied varnode an operation computes. */
  function Implied(f: Flow, u: Uses, op: OpId): (r: Option<VarnodeId>)
    requires op < |f.ops|
    ensures forall w: VarnodeId :: Writes(f, u, op, w) <==> r == Some(w)
  {
    var out := f.ops[op].out;
    if out.Some? && out.value in u.implied then out else None
  }

  /** The operation writes `w`, which is implied. */
  ghost predicate Writes(f: Flow, u: Uses, op: OpId, w: VarnodeId) {
    op < |f.ops| && f.ops[op].out == Some(w) && w in u.implied
  }

  /** Implied varnodes are computed without a cycle. */
  ghost predicate UsesOk(f: Flow, u: Uses, rank: seq<nat>) {
    && |rank| == |u.descend|
    && (forall v, k :: 0 <= v < |u.descend| && 0 <= k < |u.descend[v]| ==> u.descend[v][k] < |f.ops|)
    && (forall v, k :: 0 <= v < |u.descend| && 0 <= k < |u.descend[v]| ==>
          forall w: VarnodeId :: Writes(f, u, u.descend[v][k], w) ==> w < |u.descend| && rank[w] < rank[v])
  }

  /** A read of `v` computes the implied varnode `w`. */
  ghost predicate Feeds(f: Flow, u: Uses, v: VarnodeId, w: VarnodeId) {
    v < |u.descend| && exists k :: 0 <= k < |u.descend[v]| && Writes(f, u, u.descend[v][k], w)
  }

  ghost predicate Chain(f: Flow, u: Uses, p: seq<VarnodeId>) {
    |p| > 0 && forall i :: 0 <= i < |p| - 1 ==> Feeds(f, u, p[i], p[i + 1])
  }

  /** `v` is the varnode, or an implied varnode computed from it. */
  ghost predicate Carries(f: Flow, u: Uses, vn: VarnodeId, v: VarnodeId) {
    exists p :: Chain(f, u, p) && p[0] == vn && p[|p| - 1] == v
  }

  /** The operation reads the varnode, directly or through implied varnodes. */
  ghost predicate ReadsIt(f: Flow, u: Uses, vn: VarnodeId, op: OpId) {
    exists v: VarnodeId :: v < |u.descend| && op in u.descend[v] && Carries(f, u, vn, v)
  }

  ghost function Reads(f: Flow, u: Uses, vn: VarnodeId): (r: set<OpId>) {
    set op | 0 <= op < |f.ops| && ReadsIt(f, u, vn, op)
  }

  lemma CarriesSelf(f: Flow, u: Uses, vn: VarnodeId)
    ensures Carries(f, u, vn, vn)
  {
    assert Chain(f, u, [vn]) && [vn][0] == vn;
  }

  lemma CarriesFurther(f: Flow, u: Uses, vn: VarnodeId, v: VarnodeId, w: VarnodeId)
    requires Carries(f, u, vn, v) && Feeds(f, u, v, w)
    ensures Carries(f, u, vn, w)
  {
    var p :| Chain(f, u, p) && p[0] == vn && p[|p| - 1] == v;
    var q := p + [w];
    forall i | 0 <= i < |q| - 1 ensures Feeds(f, u, q[i], q[i + 1]) {
      if i < |p| - 1 { assert Feeds(f, u, p[i], p[i + 1]); }
    }
    assert Chain(f, u, q) && q[0] == vn && q[|q| - 1] == w;
  }

  /** The work list has all that the varnode feeds. */
  ghost predicate Followed(f: Flow, u: Uses, path: seq<VarnodeId>, v: VarnodeId) {
    forall w: VarnodeId :: Feeds(f, u, v, w) ==> w in path
  }

  lemma {:induction false} ChainIsListed(f: Flow, u: Uses, path: seq<VarnodeId>, p: seq<VarnodeId>)
    requires Chain(f, u, p) && p[0] in path && forall v :: v in path ==> Followed(f, u, path, v)
    ensures p[|p| - 1] in path
    decreases |p|
  {
    if |p| > 1 {
      var q := p[..|p| - 1];
      forall i | 0 <= i < |q| - 1 ensures Feeds(f, u, q[i], q[i + 1]) { assert Feeds(f, u, p[i], p[i + 1]); }
      ChainIsListed(f, u, path, q);
      assert Feeds(f, u, p[|p| - 2], p[|p| - 2 + 1]);
      assert Followed(f, u, path, p[|p| - 2]);
    }
  }

  // ----- The work list runs out

  ghost function Weight(f: Flow, u: Uses, rank: seq<nat>, v: VarnodeId): (r: nat)
    requires UsesOk(f, u, rank) && v < |u.descend|
    ensures r > 0
    decreases rank[v], |u.descend[v]| + 1
  {
    1 + UsesWeight(f, u, rank, v, |u.descend[v]|)
  }

  /** The weight of what the first `k` reads compute. */
  ghost function UsesWeight(f: Flow, u: Uses, rank: seq<nat>, v: VarnodeId, k: nat): nat
    requires UsesOk(f, u, rank) && v < |u.descend| && k <= |u.descend[v]|
    decreases rank[v], k
  {
    if k == 0 then 0 else
      var next := Implied(f, u, u.descend[v][k - 1]);
      assert next.Some? ==> Writes(f, u, u.descend[v][k - 1], next.value);
      UsesWeight(f, u, rank, v, k - 1) + if next.Some? then Weight(f, u, rank, next.value) else 0
  }

  ghost predicate Listed(u: Uses, path: seq<VarnodeId>) {
    forall i :: 0 <= i < |path| ==> path[i] < |u.descend|
  }

  ghost function Pending(f: Flow, u: Uses, rank: seq<nat>, path: seq<VarnodeId>): nat
    requires UsesOk(f, u, rank) && Listed(u, path)
  {
    if path == [] then 0 else Pending(f, u, rank, path[..|path| - 1]) + Weight(f, u, rank, path[|path| - 1])
  }

  lemma PendingAppend(f: Flow, u: Uses, rank: seq<nat>, path: seq<VarnodeId>, v: VarnodeId)
    requires UsesOk(f, u, rank) && Listed(u, path) && v < |u.descend|
    ensures Listed(u, path + [v]) && Pending(f, u, rank, path + [v]) == Pending(f, u, rank, path) + Weight(f, u, rank, v)
  {
    assert (path + [v])[..|path|] == path;
  }

  lemma {:induction false} PendingSplit(f: Flow, u: Uses, rank: seq<nat>, path: seq<VarnodeId>)
    requires UsesOk(f, u, rank) && Listed(u, path) && path != []
    ensures Listed(u, path[1..]) && Pending(f, u, rank, path) == Weight(f, u, rank, path[0]) + Pending(f, u, rank, path[1..])
    decreases |path|
  {
    if |path| > 1 {
      var front := path[..|path| - 1];
      PendingSplit(f, u, rank, front);
      assert path[1..][..|path| - 2] == front[1..];
    }
  }

  lemma {:induction false} PendingConcat(f: Flow, u: Uses, rank: seq<nat>, path: seq<VarnodeId>, more: seq<VarnodeId>)
    requires UsesOk(f, u, rank) && Listed(u, path) && Listed(u, more)
    ensures Listed(u, path + more) && Pending(f, u, rank, path + more) == Pending(f, u, rank, path) + Pending(f, u, rank, more)
    decreases |more|
  {
    if more == [] {
      assert path + more == path;
    } else {
      var front := more[..|more| - 1];
      PendingConcat(f, u, rank, path, front);
      assert (path + more)[..|path + more| - 1] == path + front;
    }
  }

  /** Processing the first pending varnode leaves less to do. */
  lemma PendingStep(f: Flow, u: Uses, rank: seq<nat>, path: seq<VarnodeId>, pos: nat, more: seq<VarnodeId>)
    requires UsesOk(f, u, rank) && Listed(u, path) && pos < |path| && Listed(u, more)
    requires Pending(f, u, rank, more) < Weight(f, u, rank, path[pos])
    ensures Listed(u, (path + more)[pos + 1..]) && Listed(u, path[pos..])
    ensures Pending(f, u, rank, (path + more)[pos + 1..]) < Pending(f, u, rank, path[pos..])
  {
    hide UsesOk;
    PendingSplit(f, u, rank, path[pos..]);
    assert path[pos..][1..] == path[pos + 1..];
    PendingConcat(f, u, rank, path[pos + 1..], more);
    assert (path + more)[pos + 1..] == path[pos + 1..] + more;
  }

  ghost predicate CarriesAll(f: Flow, u: Uses, vn: VarnodeId, path: seq<VarnodeId>) {
    forall i :: 0 <= i < |path| ==> Carries(f, u, vn, path[i])
  }

  /** The implied varnode the read computes, if any, is on the list. */
  ghost predicate NextListed(f: Flow, u: Uses, path: seq<VarnodeId>, op: OpId) {
    op < |f.ops| && (Implied(f, u, op).Some? ==> Implied(f, u, op).value in path)
  }

  lemma NextIsCarried(f: Flow, u: Uses, rank: seq<nat>, vn: VarnodeId, v: VarnodeId, k: nat)
    requires UsesOk(f, u, rank) && v < |u.descend| && k < |u.descend[v]| && Carries(f, u, vn, v)
    ensures u.descend[v][k] < |f.ops|
    ensures var next := Implied(f, u, u.descend[v][k]); next.Some? ==> next.value < |u.descend| && Carries(f, u, vn, next.value)
  {
    var next := Implied(f, u, u.descend[v][k]);
    if next.Some? {
      assert Writes(f, u, u.descend[v][k], next.value);
      CarriesFurther(f, u, vn, v, next.value);
    }
  }

  lemma NextsAreFollowed(f: Flow, u: Uses, path: seq<VarnodeId>, v: VarnodeId)
    requires v < |u.descend| && forall k :: 0 <= k < |u.descend[v]| ==> NextListed(f, u, path, u.descend[v][k])
    ensures Followed(f, u, path, v)
  {
  }

  lemma FollowedStays(f: Flow, u: Uses, path: seq<VarnodeId>, more: seq<VarnodeId>, v: VarnodeId)
    requires Followed(f, u, path, v)
    ensures Followed(f, u, path + more, v)
  {
  }

  lemma MoreIsFollowed(f: Flow, u: Uses, path: seq<VarnodeId>, more: seq<VarnodeId>, v: VarnodeId)
    requires Followed(f, u, more, v)
    ensures Followed(f, u, path + more, v)
  {
  }

  /** A finished work list has every varnode that is read in place of the given one. */
  lemma AllAreListed(f: Flow, u: Uses, path: seq<VarnodeId>, vn: VarnodeId, v: VarnodeId)
    requires vn in path && Carries(f, u, vn, v)
    requires forall i :: 0 <= i < |path| ==> Followed(f, u, path, path[i])
    ensures v in path
  {
    var p :| Chain(f, u, p) && p[0] == vn && p[|p| - 1] == v;
    ChainIsListed(f, u, path, p);
  }
}
