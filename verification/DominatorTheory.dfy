/** Dominators over block positions, and what one in-order pass of the iterative
    solver keeps. Block 0 is the entry; `preds[i]` lists the positions of the
    sources of block i's in-edges; `dom[i]` is the current candidate (-1: none). */
module DominatorTheory {

  type Preds = seq<seq<nat>>

  /** Every non-entry block has an in-edge from an earlier block: what listing in reverse
      post-order gives when the entry reaches every block. */
  ghost predicate Ordered(preds: Preds) {
    && |preds| > 0
    && (forall i, k :: 0 <= i < |preds| && 0 <= k < |preds[i]| ==> preds[i][k] < |preds|)
    && (forall i :: 0 < i < |preds| ==> HasEarlier(preds[i], i))
  }

  ghost predicate HasEarlier(ps: seq<nat>, i: nat) {
    exists k :: 0 <= k < |ps| && ps[k] < i
  }

  // ----- What dominance means

  /** A walk from the entry along flow edges. */
  ghost predicate IsPath(preds: Preds, path: seq<nat>) {
    && |path| > 0
    && path[0] == 0
    && (forall k :: 0 <= k < |path| ==> path[k] < |preds|)
    && (forall k :: 0 < k < |path| ==> path[k - 1] in preds[path[k]])
  }

  ghost predicate Dominates(preds: Preds, d: nat, i: nat) {
    forall path :: IsPath(preds, path) && path[|path| - 1] == i ==> d in path
  }

  /** `d` is the closest strict dominator of `i`. */
  ghost predicate IsImmediateDominator(preds: Preds, d: nat, i: nat) {
    && d != i
    && Dominates(preds, d, i)
    && forall e :: e != i && Dominates(preds, e, i) ==> Dominates(preds, e, d)
  }

  lemma {:induction false} EveryBlockHasPath(preds: Preds, i: nat) returns (path: seq<nat>)
    requires Ordered(preds) && i < |preds|
    ensures IsPath(preds, path) && path[|path| - 1] == i
    ensures forall x :: x in path ==> x <= i
    decreases i
  {
    if i == 0 {
      path := [0];
    } else {
      var k :| 0 <= k < |preds[i]| && preds[i][k] < i;
      var p := EveryBlockHasPath(preds, preds[i][k]);
      path := p + [i];
    }
  }

  /** A strict dominator dominates every predecessor. */
  lemma DominatesPredecessor(preds: Preds, d: nat, i: nat, p: nat)
    requires Ordered(preds) && i < |preds| && p in preds[i] && d != i && Dominates(preds, d, i)
    ensures Dominates(preds, d, p)
  {
    forall path | IsPath(preds, path) && path[|path| - 1] == p
      ensures d in path
    {
      var q := path + [i];
      assert IsPath(preds, q);
      assert d in q;
    }
  }

  // ----- Candidate trees

  ghost predicate IsTree(dom: seq<int>) {
    && |dom| > 0 && dom[0] == 0
    && forall k :: 0 < k < |dom| ==> dom[k] == -1 || (0 <= dom[k] < k && dom[dom[k]] >= 0)
  }

  lemma TreeStep(dom: seq<int>, i: nat)
    requires IsTree(dom) && 0 < i < |dom|
    ensures dom[i] == -1 || (0 <= dom[i] < i && dom[dom[i]] >= 0)
  {
    assert 0 < i < |dom| ==> dom[i] == -1 || (0 <= dom[i] < i && dom[dom[i]] >= 0);
  }

  /** `i` and everything reached from it by following candidates. */
  ghost function Chain(dom: seq<int>, i: nat): set<nat> {
    if 0 < i < |dom| && 0 <= dom[i] < i then {i} + Chain(dom, dom[i]) else {i}
  }

  lemma {:induction false} ChainBound(dom: seq<int>, i: nat)
    ensures i in Chain(dom, i)
    ensures forall x :: x in Chain(dom, i) ==> x <= i
  {
    if 0 < i < |dom| && 0 <= dom[i] < i { ChainBound(dom, dom[i]); }
  }

  lemma {:induction false} ChainHasEntry(dom: seq<int>, i: nat)
    requires IsTree(dom) && i < |dom| && dom[i] >= 0
    ensures 0 in Chain(dom, i)
    ensures forall x :: x in Chain(dom, i) ==> x < |dom| && dom[x] >= 0
    decreases i
  {
    if i > 0 {
      TreeStep(dom, i);
      ChainHasEntry(dom, dom[i]);
    }
  }

  lemma {:induction false} ChainNested(dom: seq<int>, x: nat, i: nat)
    requires x in Chain(dom, i)
    ensures Chain(dom, x) <= Chain(dom, i)
  {
    if x != i { ChainNested(dom, x, dom[i]); }
  }

  /** A chain is linear. */
  lemma {:induction false} ChainLinear(dom: seq<int>, x: nat, y: nat, i: nat)
    requires x in Chain(dom, i) && y in Chain(dom, i) && x <= y
    ensures x in Chain(dom, y)
  {
    ChainBound(dom, i);
    if y != i && x != i { ChainLinear(dom, x, y, dom[i]); }
  }

  /** Re-pointing `u` changes only chains through `u`, above `u`. */
  lemma {:induction false} ChainUpdate(dom: seq<int>, u: nat, c: nat, i: nat)
    requires 0 < u < |dom| && c < u
    ensures u !in Chain(dom, i) ==> Chain(dom[u := c], i) == Chain(dom, i)
    ensures u in Chain(dom, i) ==>
              forall x :: x in Chain(dom[u := c], i) <==> (x in Chain(dom, i) && x >= u) || x in Chain(dom, c)
  {
    var dom' := dom[u := c];
    ChainBound(dom, i);
    ChainBound(dom, c);
    if i == u {
      ChainUpdate(dom, u, c, c);
      assert Chain(dom', u) == {u} + Chain(dom', c);
    } else if 0 < i < |dom| && 0 <= dom[i] < i {
      ChainUpdate(dom, u, c, dom[i]);
      ChainBound(dom, dom[i]);
    }
  }

  lemma ChainUpdateBelow(dom: seq<int>, u: nat, c: nat, i: nat)
    requires 0 < u < |dom| && c < u && i < u
    ensures Chain(dom[u := c], i) == Chain(dom, i)
  {
    ChainBound(dom, i);
    ChainUpdate(dom, u, c, i);
  }

  /** Moving a candidate up its own chain only shrinks chains. */
  lemma ChainShrinks(dom: seq<int>, u: nat, c: nat, i: nat)
    requires IsTree(dom) && 0 < u < |dom| && dom[u] >= 0 && c < u && c in Chain(dom, dom[u])
    ensures Chain(dom[u := c], i) <= Chain(dom, i)
  {
    ChainUpdate(dom, u, c, i);
    if u in Chain(dom, i) {
      ChainNested(dom, u, i);
      assert Chain(dom, u) == {u} + Chain(dom, dom[u]);
      ChainNested(dom, c, dom[u]);
    }
  }

  /** An unset block lies on no set block's chain. */
  lemma UnsetOffChains(dom: seq<int>, u: nat, c: nat, i: nat)
    requires IsTree(dom) && 0 < u < |dom| && dom[u] < 0 && c < u && i < |dom| && dom[i] >= 0
    ensures Chain(dom[u := c], i) == Chain(dom, i)
  {
    ChainHasEntry(dom, i);
    ChainUpdate(dom, u, c, i);
  }

  // ----- The pass invariant

  /** `x` lies on the chain of every in-edge source that has a candidate. */
  ghost predicate Common(dom: seq<int>, ps: seq<nat>, x: nat) {
    forall k :: 0 <= k < |ps| && ps[k] < |dom| && dom[ps[k]] >= 0 ==> x in Chain(dom, ps[k])
  }

  /** No dominator is ever lost. */
  ghost predicate KeepsDominators(preds: Preds, dom: seq<int>)
    requires |dom| == |preds|
  {
    forall i, d: nat :: 0 <= i < |dom| && dom[i] >= 0 && Dominates(preds, d, i) ==> d in Chain(dom, i)
  }

  /** A dominator above a candidate dominates the candidate too. */
  ghost predicate PassesThrough(preds: Preds, dom: seq<int>)
    requires |dom| == |preds|
  {
    forall i, d: nat :: 0 < i < |dom| && 0 <= dom[i] && d < dom[i] && Dominates(preds, d, i) ==>
      Dominates(preds, d, dom[i])
  }

  /** Whatever the current sources share is no later than the candidate. */
  ghost predicate Capped(preds: Preds, dom: seq<int>)
    requires |dom| == |preds|
  {
    forall i, x: nat :: 0 < i < |dom| && dom[i] >= 0 && Common(dom, preds[i], x) ==> x <= dom[i]
  }

  /** What of the chain of `p` is no later than `q` is on the chain of `q`. */
  ghost predicate Below(dom: seq<int>, p: nat, q: nat) {
    forall x :: x in Chain(dom, p) && x <= q ==> x in Chain(dom, q)
  }

  /** Candidate `q` of a block against an earlier source `p`, before position `pos` of a
      pass: on the chain of `p`, or `p` moved past it in this pass. */
  ghost predicate Aligned(dom: seq<int>, p: nat, q: nat, pending: bool, pos: nat) {
    Below(dom, p, q) && (q in Chain(dom, p) || (pending && q < pos))
  }

  ghost predicate AllAligned(preds: Preds, dom: seq<int>, pos: nat)
    requires |dom| == |preds|
  {
    forall i, p :: 0 < i < |dom| && dom[i] >= 0 && p in preds[i] && p < i ==>
      Aligned(dom, p, dom[i], i >= pos, pos)
  }

  ghost predicate SetBefore(dom: seq<int>, pos: nat) {
    forall k :: 0 <= k < pos && k < |dom| ==> dom[k] >= 0
  }

  /** Only children of the entry get a candidate before their earlier blocks do. */
  ghost predicate SetInOrder(dom: seq<int>) {
    forall k :: 0 <= k < |dom| && dom[k] > 0 ==> SetBefore(dom, k)
  }

  ghost predicate PassInvariant(preds: Preds, dom: seq<int>, pos: nat) {
    && Ordered(preds) && |dom| == |preds| && 1 <= pos <= |dom|
    && IsTree(dom)
    && SetBefore(dom, pos)
    && SetInOrder(dom)
    && KeepsDominators(preds, dom)
    && PassesThrough(preds, dom)
    && Capped(preds, dom)
    && AllAligned(preds, dom, pos)
  }

  /** `c` is the meet of the chains of the sources that have a candidate. */
  ghost predicate IsMeet(preds: Preds, dom: seq<int>, i: nat, c: nat)
    requires i < |preds|
  {
    && c < |dom| && dom[c] >= 0
    && forall x :: x in Chain(dom, c) <==> Common(dom, preds[i], x)
  }

  lemma MeetIsEarlier(preds: Preds, dom: seq<int>, i: nat, c: nat)
    requires Ordered(preds) && |dom| == |preds| && 0 < i < |dom| && SetBefore(dom, i)
    requires IsMeet(preds, dom, i, c)
    ensures c < i
    ensures forall k :: 0 <= k < |preds[i]| && dom[preds[i][k]] >= 0 ==> c in Chain(dom, preds[i][k])
  {
    ChainBound(dom, c);
    var k :| 0 <= k < |preds[i]| && preds[i][k] < i;
    assert dom[preds[i][k]] >= 0;
    ChainBound(dom, preds[i][k]);
  }

  /** The heart of the termination argument: recomputing a set candidate moves it up
      its own chain. */
  lemma MeetMovesUp(preds: Preds, dom: seq<int>, i: nat, c: nat)
    requires PassInvariant(preds, dom, i) && 0 < i < |dom| && dom[i] >= 0
    requires IsMeet(preds, dom, i, c)
    ensures c in Chain(dom, dom[i]) && c <= dom[i]
  {
    ChainBound(dom, c);
    MeetIsEarlier(preds, dom, i, c);
    assert Common(dom, preds[i], c);
    var k :| 0 <= k < |preds[i]| && preds[i][k] < i;
    var p := preds[i][k];
    assert p in preds[i];
    assert Aligned(dom, p, dom[i], true, i);
    assert c in Chain(dom, p);
  }


  // ----- One update keeps the invariant

  lemma TreeUpdate(dom: seq<int>, i: nat, c: nat)
    requires IsTree(dom) && 0 < i < |dom| && c < i && dom[c] >= 0
    ensures IsTree(dom[i := c])
  {
    var dom' := dom[i := c];
    forall k | 0 < k < |dom'|
      ensures dom'[k] == -1 || (0 <= dom'[k] < k && dom'[dom'[k]] >= 0)
    {
      if k != i { TreeStep(dom, k); }
    }
  }

  lemma {:induction false} DominatorsAlongChain(preds: Preds, dom: seq<int>, d: nat, i: nat, j: nat)
    requires IsTree(dom) && |dom| == |preds| && PassesThrough(preds, dom)
    requires j < |dom| && i in Chain(dom, j) && d < i && Dominates(preds, d, j)
    ensures Dominates(preds, d, i)
    decreases j
  {
    if i != j {
      ChainBound(dom, dom[j]);
      DominatorsAlongChain(preds, dom, d, i, dom[j]);
    }
  }

  lemma DominatorsAreShared(preds: Preds, dom: seq<int>, i: nat, c: nat, d: nat)
    requires Ordered(preds) && |dom| == |preds| && KeepsDominators(preds, dom)
    requires 0 < i < |dom| && IsMeet(preds, dom, i, c) && d != i && Dominates(preds, d, i)
    ensures d in Chain(dom, c)
  {
    forall k | 0 <= k < |preds[i]| && dom[preds[i][k]] >= 0
      ensures d in Chain(dom, preds[i][k])
    {
      DominatesPredecessor(preds, d, i, preds[i][k]);
    }
    assert Common(dom, preds[i], d);
  }

  lemma UpdateKeepsDominators(preds: Preds, dom: seq<int>, i: nat, c: nat)
    requires PassInvariant(preds, dom, i) && 0 < i < |dom| && IsMeet(preds, dom, i, c) && c < i
    ensures KeepsDominators(preds, dom[i := c])
  {
    var dom' := dom[i := c];
    forall j, d: nat | 0 <= j < |dom| && dom'[j] >= 0 && Dominates(preds, d, j)
      ensures d in Chain(dom', j)
    {
      ChainUpdate(dom, i, c, j);
      ChainBound(dom, i);
      if j == i {
        if d != i { DominatorsAreShared(preds, dom, i, c, d); }
      } else {
        assert d in Chain(dom, j);
        if i in Chain(dom, j) && d < i {
          DominatorsAlongChain(preds, dom, d, i, j);
          DominatorsAreShared(preds, dom, i, c, d);
        }
      }
    }
  }

  lemma UpdatePassesThrough(preds: Preds, dom: seq<int>, i: nat, c: nat)
    requires PassInvariant(preds, dom, i) && 0 < i < |dom| && IsMeet(preds, dom, i, c) && c < i
    ensures PassesThrough(preds, dom[i := c])
  {
    var dom' := dom[i := c];
    MeetIsEarlier(preds, dom, i, c);
    var k :| 0 <= k < |preds[i]| && preds[i][k] < i;
    var p := preds[i][k];
    forall j, d: nat | 0 < j < |dom| && 0 <= dom'[j] && d < dom'[j] && Dominates(preds, d, j)
      ensures Dominates(preds, d, dom'[j])
    {
      if j == i {
        DominatesPredecessor(preds, d, i, p);
        DominatorsAlongChain(preds, dom, d, c, p);
      }
    }
  }

  /** Chains of set blocks never grow under an update. */
  lemma UpdateShrinks(preds: Preds, dom: seq<int>, i: nat, c: nat, j: nat)
    requires PassInvariant(preds, dom, i) && 0 < i < |dom| && IsMeet(preds, dom, i, c) && c < i
    requires j < |dom| && dom[j] >= 0
    ensures Chain(dom[i := c], j) <= Chain(dom, j)
  {
    if dom[i] >= 0 {
      MeetMovesUp(preds, dom, i, c);
      ChainShrinks(dom, i, c, j);
    } else {
      UnsetOffChains(dom, i, c, j);
    }
  }

  lemma CommonShrinks(preds: Preds, dom: seq<int>, i: nat, c: nat, j: nat, x: nat)
    requires PassInvariant(preds, dom, i) && 0 < i < |dom| && IsMeet(preds, dom, i, c) && c < i
    requires 0 < j < |dom| && Common(dom[i := c], preds[j], x)
    ensures Common(dom, preds[j], x)
  {
    forall k | 0 <= k < |preds[j]| && preds[j][k] < |dom| && dom[preds[j][k]] >= 0
      ensures x in Chain(dom, preds[j][k])
    {
      UpdateShrinks(preds, dom, i, c, preds[j][k]);
    }
  }

  lemma UpdateCapped(preds: Preds, dom: seq<int>, i: nat, c: nat)
    requires PassInvariant(preds, dom, i) && 0 < i < |dom| && IsMeet(preds, dom, i, c) && c < i
    ensures Capped(preds, dom[i := c])
  {
    var dom' := dom[i := c];
    forall j, x: nat | 0 < j < |dom| && dom'[j] >= 0 && Common(dom', preds[j], x)
      ensures x <= dom'[j]
    {
      CommonShrinks(preds, dom, i, c, j, x);
      if j == i { ChainBound(dom, c); }
    }
  }

  /** An earlier source of an already set block keeps its alignment. */
  lemma UpdateAlignedOther(preds: Preds, dom: seq<int>, i: nat, c: nat, j: nat, p: nat)
    requires PassInvariant(preds, dom, i) && 0 < i < |dom| && IsMeet(preds, dom, i, c) && c < i
    requires 0 < j < |dom| && j != i && dom[j] >= 0 && p in preds[j] && p < j
    ensures Aligned(dom[i := c], p, dom[j], j >= i + 1, i + 1)
  {
    var dom', q := dom[i := c], dom[j];
    assert Aligned(dom, p, q, j >= i, i);
    ChainBound(dom, p);
    ChainBound(dom, q);
    ChainUpdate(dom, i, c, p);
    ChainUpdate(dom, i, c, q);
    if j < i || i !in Chain(dom, q) {
      // the chain of q is untouched
      if i in Chain(dom, p) { UpdateAlignedBypass(preds, dom, i, c, j, p); }
    } else {
      // q is at or after i, so it is still on the chain of p
      assert i <= q && q in Chain(dom, p);
      ChainNested(dom, q, p);
      assert q in Chain(dom', p);
      forall x | x in Chain(dom', p) && x <= q ensures x in Chain(dom', q) {
        if x !in Chain(dom, c) { assert x in Chain(dom, p) && x >= i; }
      }
    }
  }

  lemma UpdateAlignedBypass(preds: Preds, dom: seq<int>, i: nat, c: nat, j: nat, p: nat)
    requires PassInvariant(preds, dom, i) && 0 < i < |dom| && IsMeet(preds, dom, i, c) && c < i
    requires i < j < |dom| && dom[j] >= 0 && p in preds[j] && p < j
    requires i !in Chain(dom, dom[j]) && i in Chain(dom, p)
    ensures Aligned(dom[i := c], p, dom[j], true, i + 1)
  {
    var dom', q := dom[i := c], dom[j];
    assert Aligned(dom, p, q, true, i);
    ChainBound(dom, q);
    assert q < i;
    ChainUpdate(dom, i, c, q);
    forall x | x in Chain(dom', p) && x <= q
      ensures x in Chain(dom', q)
    {
      ChainUpdate(dom, i, c, p);
      ChainBound(dom, c);
      if dom[i] >= 0 {
        MeetMovesUp(preds, dom, i, c);
        ChainShrinks(dom, i, c, p);
      } else {
        assert q > 0 ==> SetBefore(dom, j);
        assert q == 0;
      }
    }
  }

  lemma UpdateAligned(preds: Preds, dom: seq<int>, i: nat, c: nat)
    requires PassInvariant(preds, dom, i) && 0 < i < |dom| && IsMeet(preds, dom, i, c) && c < i
    ensures AllAligned(preds, dom[i := c], i + 1)
  {
    var dom' := dom[i := c];
    forall j, p | 0 < j < |dom| && dom'[j] >= 0 && p in preds[j] && p < j
      ensures Aligned(dom', p, dom'[j], j >= i + 1, i + 1)
    {
      if j == i {
        MeetIsEarlier(preds, dom, i, c);
        ChainUpdateBelow(dom, i, c, p);
        ChainUpdateBelow(dom, i, c, c);
        forall x | x in Chain(dom, p) && x <= c ensures x in Chain(dom, c) {
          ChainLinear(dom, x, c, p);
        }
      } else {
        UpdateAlignedOther(preds, dom, i, c, j, p);
      }
    }
  }

  /** Writing the meet at position `i` of a pass moves the invariant on. */
  lemma UpdateKeepsInvariant(preds: Preds, dom: seq<int>, i: nat, c: nat)
    requires PassInvariant(preds, dom, i) && 0 < i < |dom| && IsMeet(preds, dom, i, c)
    ensures c < i
    ensures PassInvariant(preds, dom[i := c], i + 1)
  {
    MeetIsEarlier(preds, dom, i, c);
    TreeUpdate(dom, i, c);
    UpdateKeepsDominators(preds, dom, i, c);
    UpdatePassesThrough(preds, dom, i, c);
    UpdateCapped(preds, dom, i, c);
    UpdateAligned(preds, dom, i, c);
  }

  /** A block whose candidate is the entry may be skipped. */
  lemma SkipKeepsInvariant(preds: Preds, dom: seq<int>, i: nat)
    requires PassInvariant(preds, dom, i) && 0 < i < |dom| && dom[i] == 0
    ensures PassInvariant(preds, dom, i + 1)
  {
    forall j, p | 0 < j < |dom| && dom[j] >= 0 && p in preds[j] && p < j
      ensures Aligned(dom, p, dom[j], j >= i + 1, i + 1)
    {
      assert Aligned(dom, p, dom[j], j >= i, i);
      if j == i { ChainHasEntry(dom, p); }
    }
  }

  /** The end of one pass is the start of the next. */
  lemma PassRestarts(preds: Preds, dom: seq<int>)
    requires PassInvariant(preds, dom, |dom|)
    ensures PassInvariant(preds, dom, 1)
  {
    forall j, p | 0 < j < |dom| && dom[j] >= 0 && p in preds[j] && p < j
      ensures Aligned(dom, p, dom[j], j >= 1, 1)
    {
      assert Aligned(dom, p, dom[j], j >= |dom|, |dom|);
    }
  }

  // ----- Progress

  /** Total of all candidates, counting an unset one as the number of blocks. */
  ghost function Weight(dom: seq<int>, k: nat): nat
    requires k <= |dom|
  {
    if k == 0 then 0
    else Weight(dom, k - 1) + (if 0 <= dom[k - 1] < |dom| then dom[k - 1] else |dom|)
  }

  lemma {:induction false} WeightDrops(dom: seq<int>, i: nat, c: nat, k: nat)
    requires i < |dom| && k <= |dom| && c < |dom|
    requires dom[i] < 0 || c < dom[i]
    ensures Weight(dom[i := c], k) <= Weight(dom, k)
    ensures i < k ==> Weight(dom[i := c], k) < Weight(dom, k)
  {
    if k > 0 { WeightDrops(dom, i, c, k - 1); }
  }

  /** A recomputed candidate that differs from the old one lowers the weight. */
  lemma ChangeIsProgress(preds: Preds, dom: seq<int>, i: nat, c: nat)
    requires PassInvariant(preds, dom, i) && 0 < i < |dom| && IsMeet(preds, dom, i, c) && c != dom[i]
    ensures Weight(dom[i := c], |dom|) < Weight(dom, |dom|)
  {
    if dom[i] >= 0 { MeetMovesUp(preds, dom, i, c); }
    WeightDrops(dom, i, c, |dom|);
  }

  // ----- At the fixed point

  ghost predicate IsSolution(preds: Preds, dom: seq<int>, pos: nat)
    requires |dom| == |preds|
  {
    forall i, k :: 0 < i < pos && i < |dom| && 0 <= k < |preds[i]| && preds[i][k] < |dom| && dom[preds[i][k]] >= 0 ==>
      dom[i] >= 0 && dom[i] in Chain(dom, preds[i][k])
  }

  lemma {:induction false} ChainOnPath(preds: Preds, dom: seq<int>, path: seq<nat>, d: nat)
    requires PassInvariant(preds, dom, |dom|) && IsSolution(preds, dom, |dom|)
    requires IsPath(preds, path) && d in Chain(dom, path[|path| - 1])
    ensures d in path
    decreases |path|
  {
    var i := path[|path| - 1];
    if d != i {
      assert i > 0;
      assert |path| > 1;
      var p := path[|path| - 2];
      assert p in preds[i];
      var k :| 0 <= k < |preds[i]| && preds[i][k] == p;
      var front := path[..|path| - 1];
      assert IsPath(preds, front);
      ChainNested(dom, dom[i], p);
      ChainOnPath(preds, dom, front, d);
    }
  }

  lemma ChainIsDominators(preds: Preds, dom: seq<int>, d: nat, i: nat)
    requires PassInvariant(preds, dom, |dom|) && IsSolution(preds, dom, |dom|) && i < |dom|
    ensures d in Chain(dom, i) <==> Dominates(preds, d, i)
  {
    if d in Chain(dom, i) {
      forall path | IsPath(preds, path) && path[|path| - 1] == i ensures d in path {
        ChainOnPath(preds, dom, path, d);
      }
    }
  }

  /** A fixed point is exact. */
  lemma SolutionIsExact(preds: Preds, dom: seq<int>, i: nat)
    requires PassInvariant(preds, dom, |dom|) && IsSolution(preds, dom, |dom|) && 0 < i < |dom|
    ensures dom[i] >= 0 && IsImmediateDominator(preds, dom[i], i)
  {
    assert SetBefore(dom, |dom|);
    TreeStep(dom, i);
    ChainBound(dom, dom[i]);
    ChainIsDominators(preds, dom, dom[i], i);
    forall e: nat | e != i && Dominates(preds, e, i) ensures Dominates(preds, e, dom[i]) {
      ChainIsDominators(preds, dom, e, i);
      ChainIsDominators(preds, dom, e, dom[i]);
    }
  }

  // ----- The starting candidates

  /** Either nothing but the entry is set, or exactly the blocks the entry flows to. */
  lemma StartKeepsInvariant(preds: Preds, dom: seq<int>)
    requires Ordered(preds) && |dom| == |preds| && dom[0] == 0
    requires forall k :: 0 < k < |dom| ==> dom[k] == -1 || (dom[k] == 0 && 0 in preds[k])
    ensures PassInvariant(preds, dom, 1)
  {
    assert Chain(dom, 0) == {0};
    forall i, d: nat | 0 <= i < |dom| && dom[i] >= 0 && Dominates(preds, d, i)
      ensures d in Chain(dom, i)
    {
      var path := if i == 0 then [0] else [0, i];
      assert IsPath(preds, path);
    }
    forall i, x: nat | 0 < i < |dom| && dom[i] >= 0 && Common(dom, preds[i], x)
      ensures x <= dom[i]
    {
      var k :| 0 <= k < |preds[i]| && preds[i][k] == 0;
    }
    forall i, p | 0 < i < |dom| && dom[i] >= 0 && p in preds[i] && p < i
      ensures Aligned(dom, p, dom[i], i >= 1, 1)
    {
    }
  }
}
