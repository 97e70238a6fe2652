/** The iterative dominator solver over the block arena. */
module Dominators {
  import opened FlowGraph
  import opened DominatorTheory

  /** Positions in the list of the sources `ins` of some block's in-edges. */
  ghost function PositionsOf(index: map<BlockId, int>, ins: seq<BlockId>): (p: seq<nat>)
    requires forall k :: 0 <= k < |ins| ==> ins[k] in index && index[ins[k]] >= 0
    ensures |p| == |ins|
    ensures forall k :: 0 <= k < |p| ==> p[k] == index[ins[k]]
  {
    if ins == [] then [] else [index[ins[0]]] + PositionsOf(index, ins[1..])
  }

  /** In-edge sources of the first `n` listed blocks, by position. */
  ghost function PredsOf(list: seq<BlockId>, index: map<BlockId, int>, into: map<BlockId, seq<BlockId>>, n: nat): (p: Preds)
    requires n <= |list| && forall i :: 0 <= i < n ==> list[i] in into
    requires forall i, k :: 0 <= i < n && 0 <= k < |into[list[i]]| ==>
               into[list[i]][k] in index && index[into[list[i]][k]] >= 0
    ensures |p| == n
    ensures forall i :: 0 <= i < n ==> p[i] == PositionsOf(index, into[list[i]])
  {
    if n == 0 then [] else PredsOf(list, index, into, n - 1) + [PositionsOf(index, into[list[n - 1]])]
  }

  /** The graph's list holds distinct blocks, each indexed by its position; edges stay
      inside the list and appear at both ends. */
  ghost predicate WellShaped(list: seq<BlockId>, intothis: map<BlockId, seq<BlockId>>,
                             outofthis: map<BlockId, seq<BlockId>>, index: map<BlockId, int>) {
    && intothis.Keys == outofthis.Keys == index.Keys
    && (forall i :: 0 <= i < |list| ==> list[i] in index && index[list[i]] == i)
    && (forall i, k :: 0 <= i < |list| && 0 <= k < |intothis[list[i]]| ==> intothis[list[i]][k] in list)
    && (forall i, k :: 0 <= i < |list| && 0 <= k < |outofthis[list[i]]| ==>
          outofthis[list[i]][k] in list && list[i] in intothis[outofthis[list[i]][k]])
  }

  /** Blocks are allocated below `nextId`. */
  ghost predicate AllBelow(index: map<BlockId, int>, nextId: BlockId) {
    forall b :: b in index ==> b < nextId
  }

  ghost function ListPreds(list: seq<BlockId>, intothis: map<BlockId, seq<BlockId>>,
                           outofthis: map<BlockId, seq<BlockId>>, index: map<BlockId, int>): (p: Preds)
    requires WellShaped(list, intothis, outofthis, index)
    ensures |p| == |list|
  {
    PredsOf(list, index, intothis, |list|)
  }

  lemma ShapeGrows(list: seq<BlockId>, intothis: map<BlockId, seq<BlockId>>, outofthis: map<BlockId, seq<BlockId>>,
                   index: map<BlockId, int>, nextId: BlockId)
    requires WellShaped(list, intothis, outofthis, index) && AllBelow(index, nextId)
    ensures nextId !in index && nextId !in intothis && nextId !in outofthis && nextId !in list
    ensures forall i :: 0 <= i < |list| ==> list[i] in index && list[i] != nextId
    ensures intothis.Keys == outofthis.Keys == index.Keys
    ensures WellShaped(list, intothis, outofthis, index) && AllBelow(index, nextId + 1)
  {
  }

  lemma ShapeIsDistinct(list: seq<BlockId>, intothis: map<BlockId, seq<BlockId>>, outofthis: map<BlockId, seq<BlockId>>,
                        index: map<BlockId, int>)
    requires WellShaped(list, intothis, outofthis, index)
    ensures forall i, j :: 0 <= i < j < |list| ==> list[i] != list[j]
    ensures forall i :: 0 <= i < |list| ==>
      list[i] in index && index[list[i]] == i && list[i] in intothis && list[i] in outofthis
    ensures forall i, k :: 0 <= i < |list| && 0 <= k < |outofthis[list[i]]| ==> outofthis[list[i]][k] in list
    ensures |list| > 0 && intothis[list[0]] == [] ==> list[0] !in outofthis[list[0]]
  {
  }

  /** The candidates in `immedDom` are those of `dom`; the entry and the positions in `tops`, which
      hang off the entry, hold `rootnode`. */
  ghost predicate Holds(list: seq<BlockId>, immedDom: map<BlockId, Option<BlockId>>, dom: seq<int>, rootnode: BlockId,
                        tops: set<nat>) {
    && |dom| == |list| > 0
    && rootnode in immedDom && immedDom[rootnode].Some?
    && list[0] in immedDom && immedDom[list[0]] == Some(rootnode)
    && (forall i :: 0 < i < |list| ==> list[i] in immedDom)
    && (forall i :: 0 < i < |dom| ==> -1 <= dom[i] < |list|)
    && (forall i :: i in tops && 0 < i < |dom| ==> dom[i] == 0)
    && (forall i {:trigger immedDom[list[i]]} :: 0 < i < |list| ==>
          immedDom[list[i]] == if i in tops then Some(rootnode) else if dom[i] < 0 then None else Some(list[dom[i]]))
  }

  /** `postorder` starts with the list in reverse order. */
  ghost predicate IsReverse(list: seq<BlockId>, index: map<BlockId, int>, postorder: seq<BlockId>) {
    && |list| <= |postorder|
    && forall f :: 0 <= f < |list| ==>
         && postorder[f] == list[|list| - 1 - f]
         && postorder[f] in index && index[postorder[f]] == |list| - 1 - f
  }

  /** What the solver relies on while it runs: the list in reverse order, then possibly a
      virtual root, which carries index 0 like the first listed block. */
  ghost predicate ReadyFor(list: seq<BlockId>, index: map<BlockId, int>, intothis: map<BlockId, seq<BlockId>>,
                           preds: Preds, postorder: seq<BlockId>, rootnode: BlockId, tops: set<nat>) {
    && 0 < |list| == |preds|
    && (|postorder| == |list| || (|postorder| == |list| + 1 && rootnode !in list))
    && rootnode == postorder[|postorder| - 1]
    && rootnode in index && index[rootnode] == 0
    && IsReverse(list, index, postorder)
    && (forall i :: 0 < i < |list| && i !in tops ==> list[i] in intothis && |intothis[list[i]]| == |preds[i]|)
    && (forall i, k :: 0 < i < |list| && i !in tops && 0 <= k < |preds[i]| ==>
          preds[i][k] < |list| && intothis[list[i]][k] == list[preds[i][k]])
  }

  /** The first `n` blocks, last first. */
  ghost function Backwards(list: seq<BlockId>, n: nat): (r: seq<BlockId>)
    requires n <= |list|
    ensures |r| == n && forall f :: 0 <= f < n ==> r[f] == list[n - 1 - f]
  {
    seq(n, f requires 0 <= f < n => list[n - 1 - f])
  }

  lemma BackwardsStarts(list: seq<BlockId>)
    ensures Backwards(list, 0) == []
  {
  }

  lemma BackwardsNext(list: seq<BlockId>, n: nat)
    requires n < |list|
    ensures Backwards(list, n + 1) == [list[n]] + Backwards(list, n)
  {
  }

  lemma BackwardsReverses(list: seq<BlockId>, index: map<BlockId, int>)
    requires forall i :: 0 <= i < |list| ==> list[i] in index && index[list[i]] == i
    ensures IsReverse(list, index, Backwards(list, |list|))
  {
  }

  lemma ReverseEnds(list: seq<BlockId>, index: map<BlockId, int>, order: seq<BlockId>)
    requires |list| > 0 && IsReverse(list, index, order) && |order| == |list|
    ensures order[|order| - 1] == list[0]
  {
  }

  lemma ReadySize(list: seq<BlockId>, index: map<BlockId, int>, intothis: map<BlockId, seq<BlockId>>,
                  preds: Preds, order: seq<BlockId>, root: BlockId)
    requires ReadyFor(list, index, intothis, preds, order, root, {})
    ensures |preds| == |list|
  {
  }

  // ----- Several roots

  /** Positions, past the first, of the roots under a virtual root. */
  ghost function TopsOf(list: seq<BlockId>, roots: seq<BlockId>): set<nat> {
    set i: nat | 0 < i < |list| && list[i] in roots
  }

  /** An edge from the entry to every position in `tops`. */
  ghost function Joined(preds: Preds, tops: set<nat>): (r: Preds)
    ensures |r| == |preds|
    ensures forall i :: 0 <= i < |preds| ==> r[i] == if i in tops then preds[i] + [0] else preds[i]
  {
    seq(|preds|, i requires 0 <= i < |preds| => if i in tops then preds[i] + [0] else preds[i])
  }

  lemma JoinedNone(preds: Preds)
    ensures Joined(preds, {}) == preds
  {
  }

  /** In-edges with one from `root` added to every block of `roots`. */
  ghost function Grown(into: map<BlockId, seq<BlockId>>, roots: seq<BlockId>, root: BlockId): (r: map<BlockId, seq<BlockId>>)
    ensures r.Keys == into.Keys
    ensures forall b :: b in into ==> r[b] == if b in roots then into[b] + [root] else into[b]
  {
    map b | b in into :: if b in roots then into[b] + [root] else into[b]
  }

  lemma GrownNone(into: map<BlockId, seq<BlockId>>, root: BlockId)
    ensures Grown(into, [], root) == into
  {
  }

  /** One more root, or one fewer. */
  lemma GrownOne(into: map<BlockId, seq<BlockId>>, roots: seq<BlockId>, k: nat, root: BlockId)
    requires NoRepeats(roots) && k < |roots| && roots[k] in into
    ensures var before, after := Grown(into, roots[..k], root), Grown(into, roots[..k + 1], root);
            && before[roots[k]] == into[roots[k]] && after[roots[k]] == into[roots[k]] + [root]
            && after == before[roots[k] := into[roots[k]] + [root]] && before == after[roots[k] := into[roots[k]]]
  {
    assert roots[..k + 1] == roots[..k] + [roots[k]];
    assert roots[k] !in roots[..k];
  }

  lemma ListsOne(outof: map<BlockId, seq<BlockId>>, roots: seq<BlockId>, k: nat, root: BlockId)
    requires k < |roots|
    ensures var before := outof[root := roots[..k]];
            before[root := before[root] + [roots[k]]] == outof[root := roots[..k + 1]]
  {
    assert roots[..k + 1] == roots[..k] + [roots[k]];
  }

  lemma MapRestored<T>(m: map<BlockId, T>, k: BlockId, v: T)
    requires k !in m
    ensures m[k := v] - {k} == m
  {
  }

  lemma ReadyWithVirtualRoot(list: seq<BlockId>, index: map<BlockId, int>, intothis: map<BlockId, seq<BlockId>>,
                             preds: Preds, order: seq<BlockId>, root: BlockId, roots: seq<BlockId>)
    requires |list| > 0 && ReadyFor(list, index, intothis, preds, order, list[0], {}) && |order| == |list|
    requires root !in index && root !in intothis && list[0] in roots
    ensures ReadyFor(list, index[root := 0], Grown(intothis[root := []], roots, root),
                     Joined(preds, TopsOf(list, roots)), order + [root], root, TopsOf(list, roots))
  {
    forall i | 0 <= i < |list| ensures list[i] in index && list[i] != root {
      assert order[|list| - 1 - i] == list[i];
    }
  }

  /** Following a candidate from a finger reaches the finger of its candidate. */
  ghost predicate Climbs(postorder: seq<BlockId>, index: map<BlockId, int>, immedDom: map<BlockId, Option<BlockId>>,
                         dom: seq<int>) {
    && |dom| <= |postorder|
    && forall f :: 0 <= f < |dom| && dom[|dom| - 1 - f] >= 0 ==> ClimbsAt(postorder, index, immedDom, dom, f)
  }

  ghost predicate ClimbsAt(postorder: seq<BlockId>, index: map<BlockId, int>, immedDom: map<BlockId, Option<BlockId>>, dom: seq<int>,
                           f: nat) {
    && f < |postorder| && f < |dom| && postorder[f] in immedDom && immedDom[postorder[f]].Some?
    && immedDom[postorder[f]].value in index && index[immedDom[postorder[f]].value] == dom[|dom| - 1 - f]
  }

  lemma FingersFit(list: seq<BlockId>, index: map<BlockId, int>, intothis: map<BlockId, seq<BlockId>>, preds: Preds,
                   postorder: seq<BlockId>, rootnode: BlockId, tops: set<nat>, immedDom: map<BlockId, Option<BlockId>>, dom: seq<int>)
    requires ReadyFor(list, index, intothis, preds, postorder, rootnode, tops) && Holds(list, immedDom, dom, rootnode, tops)
    ensures |dom| <= |postorder|
  {
  }

  lemma FingerClimbs(list: seq<BlockId>, index: map<BlockId, int>, intothis: map<BlockId, seq<BlockId>>, preds: Preds,
                     postorder: seq<BlockId>, rootnode: BlockId, tops: set<nat>, immedDom: map<BlockId, Option<BlockId>>,
                     dom: seq<int>, f: nat)
    requires ReadyFor(list, index, intothis, preds, postorder, rootnode, tops) && Holds(list, immedDom, dom, rootnode, tops)
    requires IsTree(dom) && f < |dom| && dom[|dom| - 1 - f] >= 0
    ensures ClimbsAt(postorder, index, immedDom, dom, f)
  {
    var i := |dom| - 1 - f;
    assert postorder[f] == list[i];
    if i > 0 {
      TreeStep(dom, i);
      assert postorder[|list| - 1 - dom[i]] == list[dom[i]];
    }
  }

  lemma ChainStep(dom: seq<int>, i: nat, j: nat)
    requires IsTree(dom) && j < i < |dom| && dom[i] >= 0
    ensures dom[i] < i && dom[dom[i]] >= 0
    ensures Chain(dom, dom[i]) * Chain(dom, j) == Chain(dom, i) * Chain(dom, j)
  {
    TreeStep(dom, i);
    ChainBound(dom, j);
  }

  /** The part of the block arena that the solver reads and writes. Edge lists hold the
      block at the other end of each edge. */
  class BlockArena {
    var list: seq<BlockId>
    var intothis: map<BlockId, seq<BlockId>>
    var outofthis: map<BlockId, seq<BlockId>>
    var index: map<BlockId, int>
    var immedDom: map<BlockId, Option<BlockId>>
    var nextId: BlockId

    ghost predicate Valid()
      reads this
    {
      WellShaped(list, intothis, outofthis, index) && AllBelow(index, nextId) && immedDom.Keys == index.Keys
    }

    /** In-edge sources by position in the list. */
    ghost function Preds(): (p: Preds)
      requires Valid()
      reads this
      ensures |p| == |list|
    {
      ListPreds(list, intothis, outofthis, index)
    }

    /** One finger climbs while it is below the other. */
    method Climb(from: int, limit: int, postorder: seq<BlockId>, ghost dom: seq<int>) returns (finger: int)
      requires IsTree(dom) && |dom| == |list| && Climbs(postorder, index, immedDom, dom)
      requires 0 <= from < |dom| && 0 <= limit < |dom| && dom[|dom| - 1 - from] >= 0
      ensures from <= finger < |dom| && limit <= finger && dom[|dom| - 1 - finger] >= 0
      ensures from < limit ==> from < finger
      ensures from >= limit ==> finger == from
      ensures Chain(dom, |dom| - 1 - finger) * Chain(dom, |dom| - 1 - limit)
           == Chain(dom, |dom| - 1 - from) * Chain(dom, |dom| - 1 - limit)
    {
      finger := from;
      var numnodes := |list| - 1;
      while finger < limit
        invariant from <= finger <= numnodes && dom[numnodes - finger] >= 0
        invariant from >= limit ==> finger == from
        invariant Chain(dom, numnodes - finger) * Chain(dom, numnodes - limit)
               == Chain(dom, numnodes - from) * Chain(dom, numnodes - limit)
        decreases numnodes - finger
      {
        ChainStep(dom, numnodes - finger, numnodes - limit);
        assert ClimbsAt(postorder, index, immedDom, dom, finger);
        finger := numnodes - index[immedDom[postorder[finger]].value];
      }
    }

    /** Two fingers climb the candidate tree in turn until they meet. */
    method Intersect(postorder: seq<BlockId>, rho: BlockId, newIdom: BlockId, ghost dom: seq<int>)
      returns (finger: int)
      requires IsTree(dom) && |dom| == |list| && Climbs(postorder, index, immedDom, dom)
      requires rho in index && 0 <= index[rho] < |dom| && dom[index[rho]] >= 0
      requires newIdom in index && 0 <= index[newIdom] < |dom| && dom[index[newIdom]] >= 0
      ensures 0 <= finger < |dom| && dom[|dom| - 1 - finger] >= 0
      ensures Chain(dom, |dom| - 1 - finger) == Chain(dom, index[rho]) * Chain(dom, index[newIdom])
    {
      var numnodes := |list| - 1;
      var finger1 := numnodes - index[rho];
      var finger2 := numnodes - index[newIdom];
      while finger1 != finger2
        invariant 0 <= finger1 <= numnodes && 0 <= finger2 <= numnodes
        invariant dom[numnodes - finger1] >= 0 && dom[numnodes - finger2] >= 0
        invariant Chain(dom, numnodes - finger1) * Chain(dom, numnodes - finger2)
               == Chain(dom, index[rho]) * Chain(dom, index[newIdom])
        decreases 2 * numnodes - finger1 - finger2
      {
        finger1 := Climb(finger1, finger2, postorder, dom);
        ghost var c1, c2 := Chain(dom, numnodes - finger1), Chain(dom, numnodes - finger2);
        assert c1 * c2 == c2 * c1;
        finger2 := Climb(finger2, finger1, postorder, dom);
        c2 := Chain(dom, numnodes - finger2);
        assert c1 * c2 == c2 * c1;
      }
      finger := finger1;
    }

    ghost predicate Reverses(postorder: seq<BlockId>)
      reads this
    {
      IsReverse(list, index, postorder)
    }

    ghost predicate Ready(preds: Preds, postorder: seq<BlockId>, rootnode: BlockId, tops: set<nat>)
      reads this
    {
      ReadyFor(list, index, intothis, preds, postorder, rootnode, tops)
    }

    lemma ReadyClimbs(preds: Preds, postorder: seq<BlockId>, rootnode: BlockId, dom: seq<int>, tops: set<nat>)
      requires Ready(preds, postorder, rootnode, tops) && Holds(list, immedDom, dom, rootnode, tops) && IsTree(dom)
      ensures Climbs(postorder, index, immedDom, dom)
    {
      hide ReadyFor, Holds, IsTree, IsReverse;
      forall f | 0 <= f < |dom| && dom[|dom| - 1 - f] >= 0 ensures ClimbsAt(postorder, index, immedDom, dom, f) {
        FingerClimbs(list, index, intothis, preds, postorder, rootnode, tops, immedDom, dom, f);
      }
      assert |dom| <= |postorder| by { FingersFit(list, index, intothis, preds, postorder, rootnode, tops, immedDom, dom); }
    }

    /** The sources of one block's in-edges, seen by position. */
    ghost predicate SourcesAre(cur: BlockId, ps: seq<nat>, dom: seq<int>)
      reads this
    {
      && |dom| == |list|
      && cur in intothis && |intothis[cur]| == |ps|
      && forall k :: 0 <= k < |ps| ==>
           && ps[k] < |list|
           && intothis[cur][k] == list[ps[k]]
           && intothis[cur][k] in index && index[intothis[cur][k]] == ps[k]
           && intothis[cur][k] in immedDom && (immedDom[intothis[cur][k]].Some? <==> dom[ps[k]] >= 0)
    }

    lemma ReadySources(preds: Preds, postorder: seq<BlockId>, rootnode: BlockId, dom: seq<int>, tops: set<nat>, i: nat)
      requires Ready(preds, postorder, rootnode, tops) && Holds(list, immedDom, dom, rootnode, tops) && IsTree(dom)
      requires 0 < i < |list| && i !in tops
      ensures SourcesAre(list[i], preds[i], dom)
    {
      forall k | 0 <= k < |preds[i]|
        ensures && preds[i][k] < |list|
                && intothis[list[i]][k] == list[preds[i][k]]
                && intothis[list[i]][k] in index && index[intothis[list[i]][k]] == preds[i][k]
                && intothis[list[i]][k] in immedDom
                && (immedDom[intothis[list[i]][k]].Some? <==> dom[preds[i][k]] >= 0)
      {
        var p := preds[i][k];
        assert intothis[list[i]][k] == list[p];
        assert postorder[|list| - 1 - p] == list[p];
      }
    }

    /** The first in-edge source that has a candidate; `stale` is the value left over from
        the previous block. */
    method FirstSource(cur: BlockId, stale: Option<BlockId>, ghost ps: seq<nat>, ghost dom: seq<int>)
      returns (newIdom: Option<BlockId>, slot: nat)
      requires SourcesAre(cur, ps, dom)
      requires exists k :: 0 <= k < |ps| && dom[ps[k]] >= 0
      ensures slot < |ps| && dom[ps[slot]] >= 0 && newIdom == Some(intothis[cur][slot])
      ensures forall k :: 0 <= k < slot ==> dom[ps[k]] < 0
    {
      newIdom := stale;
      slot := 0;
      while slot < |intothis[cur]|
        invariant slot <= |ps|
        invariant forall k :: 0 <= k < slot ==> dom[ps[k]] < 0
      {
        newIdom := Some(intothis[cur][slot]);
        if immedDom[newIdom.value].Some? { break; }
        slot := slot + 1;
      }
    }

    /** The candidate one block's in-edges now call for. */
    method Recompute(cur: BlockId, stale: Option<BlockId>, postorder: seq<BlockId>,
                     ghost ps: seq<nat>, ghost dom: seq<int>) returns (newIdom: Option<BlockId>)
      requires IsTree(dom) && Climbs(postorder, index, immedDom, dom)
      requires SourcesAre(cur, ps, dom)
      requires exists k :: 0 <= k < |ps| && dom[ps[k]] >= 0
      requires Reverses(postorder)
      ensures newIdom.Some? && newIdom.value in index
      ensures 0 <= index[newIdom.value] < |dom| && dom[index[newIdom.value]] >= 0
      ensures newIdom.value == list[index[newIdom.value]]
      ensures forall x :: x in Chain(dom, index[newIdom.value]) <==> Common(dom, ps, x)
    {
      hide Chain, IsTree, Climbs;
      var slot;
      newIdom, slot := FirstSource(cur, stale, ps, dom);
      slot := slot + 1;
      CommonFirst(dom, ps, slot);
      while slot < |intothis[cur]|
        invariant 0 < slot <= |ps|
        invariant newIdom.Some? && newIdom.value in index
        invariant 0 <= index[newIdom.value] < |dom| && dom[index[newIdom.value]] >= 0
        invariant newIdom.value == list[index[newIdom.value]]
        invariant forall x :: x in Chain(dom, index[newIdom.value]) <==> Common(dom, ps[..slot], x)
      {
        CommonExtends(dom, ps, slot);
        var rho := intothis[cur][slot];
        if immedDom[rho].Some? {
          var finger := Intersect(postorder, rho, newIdom.value, dom);
          newIdom := Some(postorder[finger]);
        }
        slot := slot + 1;
      }
      assert ps[..slot] == ps;
    }

    /** One step of a pass: block `postorder[position]` gets the meet of its sources. */
    method Visit(position: nat, stale: Option<BlockId>, postorder: seq<BlockId>, rootnode: BlockId,
                 ghost preds: Preds, ghost dom: seq<int>, ghost tops: set<nat>)
      returns (newIdom: Option<BlockId>, changed: bool, ghost dom': seq<int>)
      requires Ready(preds, postorder, rootnode, tops) && Holds(list, immedDom, dom, rootnode, tops)
      requires position < |list| && position + 1 < |postorder|
      requires PassInvariant(preds, dom, PassPosition(|list|, position))
      modifies this`immedDom
      ensures Ready(preds, postorder, rootnode, tops) && Holds(list, immedDom, dom', rootnode, tops)
      ensures PassInvariant(preds, dom', |list| - position)
      ensures changed ==> Weight(dom', |dom'|) < Weight(dom, |dom|)
      ensures !changed ==> dom' == dom && (position < |list| - 1 ==> Settled(preds, dom, |list| - 1 - position))
      ensures immedDom.Keys == old(immedDom.Keys)
      ensures forall b :: b in immedDom && b !in list ==> immedDom[b] == old(immedDom)[b]
    {
      hide PassInvariant, Holds, ReadyFor, IsMeet, Settled, IsReverse;
      newIdom := stale;
      changed := false;
      dom' := dom;
      ghost var i := |list| - 1 - position;
      var cur := postorder[position];
      AtPosition(preds, postorder, rootnode, dom, tops, position);
      if immedDom[cur] == Some(rootnode) {
        if i > 0 {
          RootIsEntry(preds, postorder, rootnode, dom, tops, i);
          SkipKeepsInvariant(preds, dom, i);
          EntrySettles(preds, dom, i);
        }
        return;
      }
      newIdom := Candidate(position, stale, postorder, rootnode, preds, dom, tops);
      ghost var c := index[newIdom.value];
      UpdateKeepsInvariant(preds, dom, i, c);
      Progress(preds, dom, i, c);
      dom' := dom[i := c];
      if immedDom[cur] != newIdom {
        immedDom := immedDom[cur := newIdom];
        changed := true;
        HoldsUpdate(postorder, old(immedDom), dom, rootnode, tops, i, c);
      } else {
        SameCandidate(postorder, rootnode, dom, tops, i, c);
      }
    }

    /** The block a pass has reached. */
    lemma AtPosition(preds: Preds, postorder: seq<BlockId>, rootnode: BlockId, dom: seq<int>, tops: set<nat>, position: nat)
      requires Ready(preds, postorder, rootnode, tops) && Holds(list, immedDom, dom, rootnode, tops)
      requires position < |list| && position + 1 < |postorder|
      ensures var i := |list| - 1 - position;
              && postorder[position] == list[i] && list[i] in immedDom && |dom| == |list| == |preds|
              && (i == 0 ==> immedDom[list[i]] == Some(rootnode)) && (i in tops && i > 0 ==> immedDom[list[i]] == Some(rootnode))
              && rootnode == postorder[|postorder| - 1] && (|postorder| == |list| || rootnode !in list) && Reverses(postorder)
    {
    }

    lemma EntrySettles(preds: Preds, dom: seq<int>, i: nat)
      requires i < |preds| == |dom| && dom[i] == 0
      ensures Settled(preds, dom, i)
    {
    }

    /** The meet for the block at one position of a pass. */
    method Candidate(position: nat, stale: Option<BlockId>, postorder: seq<BlockId>, rootnode: BlockId,
                     ghost preds: Preds, ghost dom: seq<int>, ghost tops: set<nat>) returns (newIdom: Option<BlockId>)
      requires Ready(preds, postorder, rootnode, tops) && Holds(list, immedDom, dom, rootnode, tops)
      requires position < |list| - 1 && PassInvariant(preds, dom, |list| - 1 - position) && |list| - 1 - position !in tops
      ensures newIdom.Some? && newIdom.value in index && 0 <= index[newIdom.value] < |list|
      ensures newIdom.value == list[index[newIdom.value]]
      ensures IsMeet(preds, dom, |list| - 1 - position, index[newIdom.value])
    {
      ghost var i := |list| - 1 - position;
      AtPosition(preds, postorder, rootnode, dom, tops, position);
      InvariantParts(preds, dom, i);
      hide PassInvariant, Holds, ReadyFor, Climbs, SourcesAre, IsTree, Ordered;
      ReadyClimbs(preds, postorder, rootnode, dom, tops);
      ReadySources(preds, postorder, rootnode, dom, tops, i);
      EarlierIsSet(preds, dom, i);
      newIdom := Recompute(postorder[position], stale, postorder, preds[i], dom);
    }

    lemma HoldsUpdate(postorder: seq<BlockId>, doms: map<BlockId, Option<BlockId>>, dom: seq<int>, rootnode: BlockId,
                      tops: set<nat>, i: nat, c: nat)
      requires Holds(list, doms, dom, rootnode, tops) && 0 < i < |list| && c < |list| && Reverses(postorder)
      requires rootnode == postorder[|postorder| - 1]
      requires (|postorder| == |list| || rootnode !in list) && i !in tops
      ensures Holds(list, doms[list[i] := Some(list[c])], dom[i := c], rootnode, tops)
      ensures dom[i] == c <==> doms[list[i]] == Some(list[c])
    {
      forall a | 0 <= a < |list| && a != i ensures list[a] != list[i] {
        assert postorder[|list| - 1 - a] == list[a];
        assert postorder[|list| - 1 - i] == list[i];
      }
      assert postorder[|list| - 1 - c] == list[c];
      if dom[i] >= 0 { assert postorder[|list| - 1 - dom[i]] == list[dom[i]]; }
    }

    /** One pass over the list, in reverse post-order. */
    method Pass(stale: Option<BlockId>, postorder: seq<BlockId>, rootnode: BlockId,
                ghost preds: Preds, ghost start: seq<int>, ghost tops: set<nat>)
      returns (newIdom: Option<BlockId>, changed: bool, ghost dom: seq<int>)
      requires Ready(preds, postorder, rootnode, tops) && Holds(list, immedDom, start, rootnode, tops)
      requires PassInvariant(preds, start, 1)
      modifies this`immedDom
      ensures Ready(preds, postorder, rootnode, tops) && Holds(list, immedDom, dom, rootnode, tops)
      ensures PassInvariant(preds, dom, |list|)
      ensures changed ==> Weight(dom, |dom|) < Weight(start, |start|)
      ensures !changed ==> dom == start && AllSettled(preds, dom, |list|)
      ensures immedDom.Keys == old(immedDom.Keys)
      ensures forall b :: b in immedDom && b !in list ==> immedDom[b] == old(immedDom)[b]
    {
      hide PassInvariant, Holds, Settled;
      newIdom := stale;
      dom := start;
      changed := false;
      var position := |postorder| - 2;
      while position >= 0
        invariant -1 <= position <= |postorder| - 2
        invariant Ready(preds, postorder, rootnode, tops) && Holds(list, immedDom, dom, rootnode, tops)
        invariant PassInvariant(preds, dom, PassPosition(|list|, position))
        invariant changed ==> Weight(dom, |dom|) < Weight(start, |start|)
        invariant !changed ==> dom == start && AllSettled(preds, dom, |list| - 1 - position)
        invariant immedDom.Keys == old(immedDom.Keys)
        invariant forall b :: b in immedDom && b !in list ==> immedDom[b] == old(immedDom)[b]
      {
        var wrote;
        newIdom, wrote, dom := Visit(position, newIdom, postorder, rootnode, preds, dom, tops);
        if wrote { changed := true; }
        position := position - 1;
      }
    }

    /** Passes over the list until one leaves every candidate alone. */
    method Solve(postorder: seq<BlockId>, rootnode: BlockId, ghost preds: Preds, ghost start: seq<int>, ghost tops: set<nat>)
      returns (ghost dom: seq<int>)
      requires Ready(preds, postorder, rootnode, tops) && Holds(list, immedDom, start, rootnode, tops)
      requires PassInvariant(preds, start, 1)
      modifies this`immedDom
      ensures |dom| == |list| && Holds(list, immedDom, dom, rootnode, tops)
      ensures PassInvariant(preds, dom, |list|) && AllSettled(preds, dom, |list|)
      ensures immedDom.Keys == old(immedDom.Keys)
      ensures forall b :: b in immedDom && b !in list ==> immedDom[b] == old(immedDom)[b]
    {
      hide PassInvariant, Settled, AllSettled;
      dom := start;
      var changed := true;
      var newIdom: Option<BlockId> := None;
      while changed
        invariant Ready(preds, postorder, rootnode, tops) && Holds(list, immedDom, dom, rootnode, tops)
        invariant PassInvariant(preds, dom, 1)
        invariant !changed ==> PassInvariant(preds, dom, |list|) && AllSettled(preds, dom, |list|)
        invariant immedDom.Keys == old(immedDom.Keys)
        invariant forall b :: b in immedDom && b !in list ==> immedDom[b] == old(immedDom)[b]
        decreases Weight(dom, |dom|), changed
      {
        newIdom, changed, dom := Pass(newIdom, postorder, rootnode, preds, dom, tops);
        PassRestarts(preds, dom);
      }
    }

    /** Every listed block loses its dominator; the list is laid out in reverse. */
    method ResetDominators() returns (postorder: seq<BlockId>)
      requires Valid()
      modifies this`immedDom
      ensures Valid() && Reverses(postorder) && |postorder| == |list|
      ensures forall i :: 0 <= i < |list| ==> immedDom[list[i]] == None
      ensures forall b :: b in immedDom && b !in list ==> immedDom[b] == old(immedDom)[b]
    {
      hide WellShaped, IsReverse, AllBelow, Backwards;
      ShapeIsDistinct(list, intothis, outofthis, index);
      BackwardsStarts(list);
      postorder := [];
      var slot := 0;
      while slot < |list|
        invariant 0 <= slot <= |list| && postorder == Backwards(list, slot) && immedDom.Keys == old(immedDom.Keys)
        invariant forall i :: 0 <= i < slot ==> immedDom[list[i]] == None
        invariant forall b :: b in immedDom && b !in list ==> immedDom[b] == old(immedDom)[b]
      {
        var child := list[slot];
        BackwardsNext(list, slot);
        immedDom := immedDom[child := None];
        postorder := [child] + postorder;
        slot := slot + 1;
      }
      BackwardsReverses(list, index);
    }

    /** The source block dominates itself and the blocks it flows to. */
    method SeedDominators(source: BlockId)
      requires source in outofthis && source in immedDom && |list| > 0
      requires forall k :: 0 <= k < |outofthis[source]| ==> outofthis[source][k] in immedDom
      modifies this`immedDom
      ensures immedDom.Keys == old(immedDom.Keys)
      ensures forall b :: b in immedDom ==>
        immedDom[b] == if b == source || b in outofthis[source] then Some(source) else old(immedDom)[b]
    {
      immedDom := immedDom[source := Some(source)];
      var slot := 0;
      while slot < |outofthis[source]|
        invariant 0 <= slot <= |outofthis[source]| && immedDom.Keys == old(immedDom.Keys)
        invariant forall b :: b in immedDom ==>
          immedDom[b] == if b == source || b in outofthis[source][..slot] then Some(source) else old(immedDom)[b]
      {
        assert outofthis[source][..slot + 1] == outofthis[source][..slot] + [outofthis[source][slot]];
        immedDom := immedDom[outofthis[source][slot] := Some(source)];
        slot := slot + 1;
      }
      assert outofthis[source][..slot] == outofthis[source];
    }

    /** A fresh block with an edge to every root; like every new block it has index 0. */
    method CreateVirtualRoot(roots: seq<BlockId>) returns (root: BlockId)
      requires NoRepeats(roots) && nextId !in intothis && nextId !in outofthis && forall k :: 0 <= k < |roots| ==> roots[k] in intothis
      modifies this`intothis, this`outofthis, this`index, this`immedDom, this`nextId
      ensures root == old(nextId) && nextId == root + 1
      ensures intothis == Grown(old(intothis)[root := []], roots, root) && outofthis == old(outofthis)[root := roots]
      ensures index == old(index)[root := 0] && immedDom == old(immedDom)[root := None]
    {
      root := nextId;
      nextId := nextId + 1;
      index := index[root := 0];
      immedDom := immedDom[root := None];
      intothis := intothis[root := []];
      outofthis := outofthis[root := []];
      hide Grown;
      AddRootEdges(root, roots);
      assert old(outofthis)[root := []][root := roots] == old(outofthis)[root := roots];
    }

    /** An edge from `root` to each of the roots, in order. */
    method AddRootEdges(root: BlockId, roots: seq<BlockId>)
      requires NoRepeats(roots) && root in outofthis && outofthis[root] == [] && forall k :: 0 <= k < |roots| ==> roots[k] in intothis
      modifies this`intothis, this`outofthis
      ensures intothis == Grown(old(intothis), roots, root) && outofthis == old(outofthis)[root := roots]
    {
      ghost var into := intothis;
      hide Grown;
      GrownNone(into, root);
      var k := 0;
      assert roots[..0] == [] && outofthis == outofthis[root := []];
      while k < |roots|
        invariant 0 <= k <= |roots| && intothis == Grown(into, roots[..k], root)
        invariant root in outofthis && outofthis == old(outofthis)[root := roots[..k]]
      {
        GrownOne(into, roots, k, root);
        ListsOne(old(outofthis), roots, k, root);
        intothis := intothis[roots[k] := intothis[roots[k]] + [root]];
        outofthis := outofthis[root := outofthis[root] + [roots[k]]];
        k := k + 1;
      }
      assert roots[..k] == roots;
    }

    /** Listed blocks dominated by the virtual root alone have no dominator. */
    method ForgetRoot(root: BlockId)
      requires forall i :: 0 <= i < |list| ==> list[i] in immedDom
      modifies this`immedDom
      ensures immedDom.Keys == old(immedDom.Keys)
      ensures forall b :: b in immedDom ==>
        immedDom[b] == if b in list && old(immedDom)[b] == Some(root) then None else old(immedDom)[b]
    {
      var slot := 0;
      while slot < |list|
        invariant 0 <= slot <= |list| && immedDom.Keys == old(immedDom.Keys)
        invariant forall b :: b in immedDom ==>
          immedDom[b] == if b in list[..slot] && old(immedDom)[b] == Some(root) then None else old(immedDom)[b]
      {
        assert list[..slot + 1] == list[..slot] + [list[slot]];
        if immedDom[list[slot]] == Some(root) { immedDom := immedDom[list[slot] := None]; }
        slot := slot + 1;
      }
      assert list[..slot] == list;
    }

    /** The virtual root goes away again, with its edges, last first. */
    method DropVirtualRoot(root: BlockId, roots: seq<BlockId>, ghost into: map<BlockId, seq<BlockId>>)
      requires NoRepeats(roots) && root in into && forall k :: 0 <= k < |roots| ==> roots[k] in into && roots[k] != root
      requires intothis == Grown(into, roots, root) && root in outofthis && outofthis[root] == roots
      requires root in immedDom && root in index
      modifies this`intothis, this`outofthis, this`index, this`immedDom
      ensures intothis == into - {root} && outofthis == old(outofthis) - {root} && index == old(index) - {root}
      ensures immedDom == old(immedDom) - {root}
    {
      hide Grown;
      RemoveRootEdges(root, roots, into);
      GrownNone(into, root);
      assert old(outofthis)[root := []] - {root} == old(outofthis) - {root};
      intothis, outofthis, index, immedDom := intothis - {root}, outofthis - {root}, index - {root}, immedDom - {root};
    }

    /** The edges of `root` go, last first. */
    method RemoveRootEdges(root: BlockId, roots: seq<BlockId>, ghost into: map<BlockId, seq<BlockId>>)
      requires NoRepeats(roots) && forall k :: 0 <= k < |roots| ==> roots[k] in into
      requires intothis == Grown(into, roots, root) && root in outofthis && outofthis[root] == roots
      modifies this`intothis, this`outofthis
      ensures intothis == Grown(into, [], root) && outofthis == old(outofthis)[root := []]
    {
      hide Grown;
      assert roots[..|roots|] == roots && outofthis == outofthis[root := roots];
      ghost var n := |roots|;
      while outofthis[root] != []
        invariant 0 <= n <= |roots| && outofthis == old(outofthis)[root := roots[..n]] && intothis == Grown(into, roots[..n], root)
        decreases n
      {
        var last := |outofthis[root]| - 1;
        var target := outofthis[root][last];
        assert last == n - 1 && target == roots[last] && roots[..n][..last] == roots[..last];
        GrownOne(into, roots, last, root);
        assert (into[target] + [root])[..|into[target]|] == into[target];
        intothis := intothis[target := intothis[target][..|intothis[target]| - 1]];
        outofthis := outofthis[root := outofthis[root][..last]];
        n := last;
      }
      assert roots[..n] == [];
    }

    /** The solver run when nothing flows into the entry. */
    method SolveFromEntry(postorder: seq<BlockId>, ghost preds: Preds) returns (ghost dom: seq<int>)
      requires Valid() && list != [] && Reverses(postorder) && |postorder| == |list|
      requires preds == Preds() && Ordered(preds) && intothis[list[0]] == []
      requires forall i :: 0 <= i < |list| ==> immedDom[list[i]] == None
      modifies this`immedDom
      ensures Valid()
      ensures PassInvariant(preds, dom, |list|) && AllSettled(preds, dom, |list|)
      ensures Stored(list, immedDom, dom, {})
      ensures immedDom.Keys == old(immedDom.Keys)
      ensures forall b :: b in immedDom && b !in list ==> immedDom[b] == old(immedDom)[b]
    {
      hide PassInvariant, AllSettled, WellShaped, ReadyFor, Ordered, PredsOf, Stored, Holds;
      ShapeIsDistinct(list, intothis, outofthis, index);
      var source := postorder[|postorder| - 1];
      assert source == list[0];
      SeedDominators(source);
      ghost var start := StartDom(list, outofthis[source]);
      SeedsAreSources(preds, start, outofthis[source]);
      StartKeepsInvariant(preds, start);
      ValidIsReady(preds, postorder, source);
      SeedsHold(list, outofthis[source], source, old(immedDom), immedDom, {});
      dom := Solve(postorder, source, preds, start, {});
      InvariantIsTotal(preds, dom, |list|);
      HoldsIsStored(list, immedDom, dom, source, immedDom[source := None], {});
      immedDom := immedDom[source := None];
    }

    /** A virtual root above the roots, which starts as their dominator. */
    method SeedVirtualRoot(roots: seq<BlockId>) returns (root: BlockId)
      requires NoRepeats(roots) && nextId !in intothis && nextId !in outofthis && list != []
      requires forall k :: 0 <= k < |roots| ==> roots[k] in intothis && roots[k] in immedDom
      modifies this`immedDom, this`intothis, this`outofthis, this`index, this`nextId
      ensures root == old(nextId) && nextId == root + 1
      ensures intothis == Grown(old(intothis)[root := []], roots, root) && outofthis == old(outofthis)[root := roots]
      ensures index == old(index)[root := 0] && immedDom.Keys == old(immedDom)[root := None].Keys
      ensures forall b :: b in immedDom ==>
        immedDom[b] == if b == root || b in roots then Some(root) else old(immedDom)[root := None][b]
    {
      hide NoRepeats, Grown;
      root := CreateVirtualRoot(roots);
      SeedDominators(root);
    }

    /** The solver run under a virtual root placed above the roots. */
    method SolveUnderVirtualRoot(order: seq<BlockId>, roots: seq<BlockId>, ghost preds: Preds) returns (root: BlockId, ghost dom: seq<int>)
      requires list != [] && |order| == |list| && ReadyFor(list, index, intothis, preds, order, list[0], {})
      requires Ordered(Joined(preds, TopsOf(list, roots))) && NoRepeats(roots) && list[0] in roots
      requires forall k :: 0 <= k < |roots| ==> roots[k] in list && roots[k] in intothis
      requires nextId !in index && nextId !in intothis && nextId !in outofthis && nextId !in immedDom && nextId !in list
      requires forall i, j :: 0 <= i < j < |list| ==> list[i] != list[j]
      requires forall i :: 0 <= i < |list| ==> list[i] in immedDom && immedDom[list[i]] == None
      modifies this`immedDom, this`intothis, this`outofthis, this`index, this`nextId
      ensures root == old(nextId) && nextId == root + 1
      ensures intothis == Grown(old(intothis)[root := []], roots, root)
      ensures outofthis == old(outofthis)[root := roots] && index == old(index)[root := 0]
      ensures immedDom.Keys == old(immedDom.Keys) + {root}
      ensures var tops := TopsOf(list, roots);
              && |dom| == |list| && PassInvariant(Joined(preds, tops), dom, |list|) && AllSettled(Joined(preds, tops), dom, |list|)
              && Holds(list, immedDom, dom, root, tops)
      ensures forall b :: b in old(immedDom) && b !in list ==> immedDom[b] == old(immedDom)[b]
    {
      hide PassInvariant, AllSettled, ReadyFor, Holds, StartDom, Joined, Grown, NoRepeats, TopsOf, Ordered;
      ReadySize(list, index, intothis, preds, order, list[0]);
      ReadyWithVirtualRoot(list, index, intothis, preds, order, nextId, roots);
      ghost var tops := TopsOf(list, roots);
      root := SeedVirtualRoot(roots);
      var postorder := order + [root];
      ghost var start := StartDom(list, outofthis[root]);
      StartJoined(list, preds, roots);
      StartKeepsInvariant(Joined(preds, tops), start);
      SeedsHold(list, outofthis[root], root, old(immedDom)[root := None], immedDom, tops);
      dom := Solve(postorder, root, Joined(preds, tops), start, tops);
    }

    /** The solver run through a virtual root: the entry has in-edges, or there are several roots. */
    method SolveFromVirtualRoot(order: seq<BlockId>, roots: seq<BlockId>, ghost preds: Preds) returns (ghost dom: seq<int>)
      requires Valid() && list != [] && Reverses(order) && |order| == |list|
      requires preds == Preds() && Ordered(Joined(preds, TopsOf(list, roots))) && NoRepeats(roots) && list[0] in roots
      requires forall k :: 0 <= k < |roots| ==> roots[k] in list
      requires forall i :: 0 <= i < |list| ==> immedDom[list[i]] == None
      modifies this`immedDom, this`intothis, this`outofthis, this`index, this`nextId
      ensures intothis == old(intothis) && outofthis == old(outofthis) && index == old(index)
      ensures nextId == old(nextId) + 1 && immedDom.Keys == old(immedDom.Keys)
      ensures var tops := TopsOf(list, roots);
              && PassInvariant(Joined(preds, tops), dom, |list|) && AllSettled(Joined(preds, tops), dom, |list|)
              && Stored(list, immedDom, dom, tops)
      ensures forall b :: b in immedDom && b !in list ==> immedDom[b] == old(immedDom)[b]
    {
      hide PassInvariant, AllSettled, WellShaped, Ordered, ListPreds, Stored, Holds, IsReverse, ReadyFor, Joined, TopsOf, Grown, AllBelow;
      ValidIsReady(preds, order, list[0]);
      ShapeIsDistinct(list, intothis, outofthis, index);
      ShapeGrows(list, intothis, outofthis, index, nextId);
      RootsHaveEdges(list, intothis, outofthis, index, roots);
      ghost var tops := TopsOf(list, roots);
      var root;
      root, dom := SolveUnderVirtualRoot(order, roots, preds);
      InvariantIsTotal(Joined(preds, tops), dom, |list|);
      FinishVirtualRoot(root, roots, dom, tops, old(intothis), old(outofthis), old(index));
    }

    /** The final dominators stay once the virtual root is gone. */
    method FinishVirtualRoot(root: BlockId, roots: seq<BlockId>, ghost dom: seq<int>, ghost tops: set<nat>,
                             ghost into: map<BlockId, seq<BlockId>>, ghost outof: map<BlockId, seq<BlockId>>, ghost idx: map<BlockId, int>)
      requires root !in into && root !in outof && root !in idx && root !in list && root in immedDom
      requires intothis == Grown(into[root := []], roots, root) && outofthis == outof[root := roots] && index == idx[root := 0]
      requires NoRepeats(roots) && forall k :: 0 <= k < |roots| ==> roots[k] in into
      requires Holds(list, immedDom, dom, root, tops) && forall i :: 0 < i < |list| ==> 0 <= dom[i]
      requires forall i :: 0 <= i < |list| ==> list[i] in immedDom
      modifies this`intothis, this`outofthis, this`index, this`immedDom
      ensures intothis == into && outofthis == outof && index == idx && immedDom.Keys == old(immedDom.Keys) - {root}
      ensures Stored(list, immedDom, dom, tops)
      ensures forall b :: b in immedDom && b !in list ==> immedDom[b] == old(immedDom)[b]
    {
      hide Holds, Stored, Grown;
      ForgetRoot(root);
      ForgottenIsStored(list, old(immedDom), dom, root, immedDom, tops);
      ghost var kept := immedDom;
      DropVirtualRoot(root, roots, into[root := []]);
      MapRestored(into, root, []);
      MapRestored(outof, root, roots);
      MapRestored(idx, root, 0);
      StoredStays(list, dom, tops, kept, root, immedDom);
    }

    lemma ValidIsReady(preds: Preds, postorder: seq<BlockId>, rootnode: BlockId)
      requires Valid() && list != [] && preds == Preds() && Reverses(postorder) && |postorder| == |list|
      requires rootnode == list[0]
      ensures Ready(preds, postorder, rootnode, {})
    {
      forall i, k | 0 < i < |list| && 0 <= k < |preds[i]|
        ensures preds[i][k] < |list| && intothis[list[i]][k] == list[preds[i][k]]
      {
        assert preds[i] == PositionsOf(index, intothis[list[i]]);
        assert intothis[list[i]][k] in list;
      }
    }

    lemma SeedsAreSources(preds: Preds, start: seq<int>, outs: seq<BlockId>)
      requires Valid() && list != [] && preds == Preds() && outs == outofthis[list[0]]
      requires start == StartDom(list, outs)
      ensures forall k :: 0 < k < |start| ==> start[k] == -1 || (start[k] == 0 && 0 in preds[k])
    {
      forall k | 0 < k < |start| && list[k] in outs ensures 0 in preds[k] {
        var e :| 0 <= e < |outs| && outs[e] == list[k];
        assert list[0] in intothis[list[k]];
        var s :| 0 <= s < |intothis[list[k]]| && intothis[list[k]][s] == list[0];
        assert preds[k] == PositionsOf(index, intothis[list[k]]);
        assert preds[k][s] == 0;
      }
    }

    /** Several roots are distinct listed blocks, the first listed block among them. */
    ghost predicate RootsListed(rootlist: seq<BlockId>)
      reads this
    {
      |rootlist| > 1 ==> NoRepeats(rootlist) && (forall k :: 0 <= k < |rootlist| ==> rootlist[k] in list) && list != [] && list[0] in rootlist
    }

    /** Positions of the roots other than the entry, when there are several. */
    ghost function Tops(rootlist: seq<BlockId>): set<nat>
      reads this
    {
      if |rootlist| > 1 then TopsOf(list, rootlist) else {}
    }

    /** The solver stores, for every block that is no root, its closest strict dominator over all walks
        from the entry, where an edge from the entry to every other root is added; roots are left
        without one. It fails exactly when the only root is not the first listed block and that
        block has in-edges. */
    method CalcForwardDominator(rootlist: seq<BlockId>) returns (ok: bool)
      requires Valid() && RootsListed(rootlist)
      requires list != [] ==> Ordered(Joined(Preds(), Tops(rootlist)))
      modifies this
      ensures list == old(list) && intothis == old(intothis) && outofthis == old(outofthis) && index == old(index)
      ensures Valid()
      ensures !ok <==> list != [] && |rootlist| <= 1 && intothis[list[0]] != [] && rootlist != [list[0]]
      ensures ok ==> forall i :: 0 <= i < |list| && (i == 0 || i in Tops(rootlist)) ==> immedDom[list[i]] == None
      ensures ok ==> forall i :: 0 < i < |list| && i !in Tops(rootlist) ==>
        && immedDom[list[i]].Some? && immedDom[list[i]].value in list
        && IsImmediateDominator(Joined(Preds(), Tops(rootlist)), index[immedDom[list[i]].value], i)
      ensures forall b :: b in immedDom && b !in list ==> immedDom[b] == old(immedDom)[b]
    {
      hide PassInvariant, AllSettled, IsImmediateDominator, WellShaped, Ordered, ListPreds, IsReverse, Stored, Joined, TopsOf;
      if list == [] { return true; }
      ghost var preds, tops := Preds(), Tops(rootlist);
      JoinedNone(preds);
      var postorder := ResetDominators();
      ghost var dom;
      ok, dom := DispatchSolver(postorder, rootlist, preds);
      if ok {
        StoredIsExact(list, intothis, outofthis, index, immedDom, Joined(preds, tops), dom, tops);
      }
    }

    /** With or without a virtual root, depending on the roots and the entry's in-edges. */
    method DispatchSolver(postorder: seq<BlockId>, rootlist: seq<BlockId>, ghost preds: Preds)
      returns (ok: bool, ghost dom: seq<int>)
      requires Valid() && list != [] && Reverses(postorder) && |postorder| == |list| && RootsListed(rootlist)
      requires preds == Preds() && Ordered(Joined(preds, Tops(rootlist)))
      requires forall i :: 0 <= i < |list| ==> immedDom[list[i]] == None
      modifies this`immedDom, this`intothis, this`outofthis, this`index, this`nextId
      ensures intothis == old(intothis) && outofthis == old(outofthis) && index == old(index)
      ensures Valid()
      ensures !ok <==> |rootlist| <= 1 && intothis[list[0]] != [] && rootlist != [list[0]]
      ensures ok ==> var joined := Joined(preds, Tops(rootlist));
              PassInvariant(joined, dom, |list|) && AllSettled(joined, dom, |list|) && Stored(list, immedDom, dom, Tops(rootlist))
      ensures forall b :: b in immedDom && b !in list ==> immedDom[b] == old(immedDom)[b]
    {
      hide PassInvariant, AllSettled, WellShaped, Ordered, ListPreds, IsReverse, Stored, Joined;
      JoinedNone(preds);
      ShapeGrows(list, intothis, outofthis, index, nextId);
      ok, dom := true, [];
      if |rootlist| > 1 {
        dom := SolveFromVirtualRoot(postorder, rootlist, preds);
        return;
      }
      var source := postorder[|postorder| - 1];
      assert source == list[0] by { ReverseEnds(list, index, postorder); }
      if |intothis[source]| == 0 {
        dom := SolveFromEntry(postorder, preds);
      } else if |rootlist| != 1 || rootlist[0] != source {
        ok := false;
      } else {
        NoTops(list, index, rootlist);
        dom := SolveFromVirtualRoot(postorder, rootlist, preds);
      }
    }

    lemma RootIsEntry(preds: Preds, postorder: seq<BlockId>, rootnode: BlockId, dom: seq<int>, tops: set<nat>, i: nat)
      requires Ready(preds, postorder, rootnode, tops) && Holds(list, immedDom, dom, rootnode, tops)
      requires 0 < i < |list| && immedDom[list[i]] == Some(rootnode)
      ensures dom[i] == 0
    {
      if i !in tops {
        assert list[dom[i]] == rootnode;
        assert postorder[|list| - 1 - dom[i]] == list[dom[i]];
      }
    }

    lemma SameCandidate(postorder: seq<BlockId>, rootnode: BlockId, dom: seq<int>, tops: set<nat>, i: nat, c: nat)
      requires Holds(list, immedDom, dom, rootnode, tops) && Reverses(postorder)
      requires 0 < i < |list| && c < |list| && i !in tops && immedDom[list[i]] == Some(list[c])
      ensures dom[i] == c && dom[i := c] == dom
    {
      assert list[dom[i]] == list[c];
      assert postorder[|list| - 1 - dom[i]] == list[dom[i]];
      assert postorder[|list| - 1 - c] == list[c];
    }
  }

  /** The stored dominators are the final candidates; the entry and the other roots have none. */
  ghost predicate Stored(list: seq<BlockId>, immedDom: map<BlockId, Option<BlockId>>, dom: seq<int>, tops: set<nat>) {
    && |dom| == |list| > 0
    && list[0] in immedDom && immedDom[list[0]] == None
    && forall i :: 0 < i < |list| ==>
         0 <= dom[i] < |list| && list[i] in immedDom && immedDom[list[i]] == if i in tops then None else Some(list[dom[i]])
  }

  lemma SeedsHold(list: seq<BlockId>, outs: seq<BlockId>, source: BlockId,
                  before: map<BlockId, Option<BlockId>>, after: map<BlockId, Option<BlockId>>, tops: set<nat>)
    requires |list| > 0 && source in after && before.Keys == after.Keys
    requires forall i :: 0 <= i < |list| ==> list[i] in after && before[list[i]] == None
    requires forall i, j :: 0 <= i < j < |list| ==> list[i] != list[j]
    requires (source == list[0] && tops == {}) || (source !in list && list[0] in outs && tops == TopsOf(list, outs))
    requires forall b :: b in after ==> after[b] == if b == source || b in outs then Some(source) else before[b]
    ensures Holds(list, after, StartDom(list, outs), source, tops)
  {
  }

  lemma HoldsIsStored(list: seq<BlockId>, before: map<BlockId, Option<BlockId>>, dom: seq<int>, rootnode: BlockId,
                      after: map<BlockId, Option<BlockId>>, tops: set<nat>)
    requires Holds(list, before, dom, rootnode, tops) && rootnode == list[0] && tops == {}
    requires forall i :: 0 < i < |list| ==> 0 <= dom[i]
    requires after == before[rootnode := None] && forall i, j :: 0 <= i < j < |list| ==> list[i] != list[j]
    ensures Stored(list, after, dom, tops)
  {
  }

  /** What is left when the virtual root is forgotten. */
  lemma ForgottenIsStored(list: seq<BlockId>, before: map<BlockId, Option<BlockId>>, dom: seq<int>, rootnode: BlockId,
                          after: map<BlockId, Option<BlockId>>, tops: set<nat>)
    requires Holds(list, before, dom, rootnode, tops) && rootnode !in list && after.Keys == before.Keys
    requires forall i :: 0 < i < |list| ==> 0 <= dom[i]
    requires forall b :: b in after ==> after[b] == if b in list && before[b] == Some(rootnode) then None else before[b]
    ensures Stored(list, after, dom, tops)
  {
    forall i | 0 < i < |list| && i !in tops ensures after[list[i]] == Some(list[dom[i]]) {
      assert before[list[i]] == Some(list[dom[i]]) && list[dom[i]] in list;
    }
  }

  lemma StoredStays(list: seq<BlockId>, dom: seq<int>, tops: set<nat>, before: map<BlockId, Option<BlockId>>, root: BlockId,
                    after: map<BlockId, Option<BlockId>>)
    requires Stored(list, before, dom, tops) && root !in list && after == before - {root}
    ensures Stored(list, after, dom, tops)
  {
    forall i | 0 <= i < |list| ensures list[i] != root { assert list[i] in list; }
  }

  lemma NoTops(list: seq<BlockId>, index: map<BlockId, int>, roots: seq<BlockId>)
    requires list != [] && roots == [list[0]] && forall i :: 0 <= i < |list| ==> list[i] in index && index[list[i]] == i
    ensures TopsOf(list, roots) == {}
  {
  }

  lemma RootsHaveEdges(list: seq<BlockId>, intothis: map<BlockId, seq<BlockId>>, outofthis: map<BlockId, seq<BlockId>>,
                       index: map<BlockId, int>, roots: seq<BlockId>)
    requires WellShaped(list, intothis, outofthis, index) && forall k :: 0 <= k < |roots| ==> roots[k] in list
    ensures forall k :: 0 <= k < |roots| ==> roots[k] in intothis && roots[k] in index
  {
  }

  lemma InvariantIsTotal(preds: Preds, dom: seq<int>, n: nat)
    requires PassInvariant(preds, dom, n) && n == |dom|
    ensures |dom| == |preds| && forall i :: 0 < i < |dom| ==> 0 <= dom[i] < i
  {
    forall i | 0 < i < |dom| ensures 0 <= dom[i] < i {
      assert dom[i] >= 0;
      TreeStep(dom, i);
    }
  }

  lemma SettledIsExact(preds: Preds, dom: seq<int>, i: nat)
    requires PassInvariant(preds, dom, |dom|) && AllSettled(preds, dom, |dom|) && 0 < i < |dom|
    ensures dom[i] >= 0 && IsImmediateDominator(preds, dom[i], i)
  {
    forall j, k | 0 < j < |dom| && 0 <= k < |preds[j]| && preds[j][k] < |dom| && dom[preds[j][k]] >= 0
      ensures dom[j] >= 0 && dom[j] in Chain(dom, preds[j][k])
    {
      assert Settled(preds, dom, j);
      if dom[j] == 0 { ChainHasEntry(dom, preds[j][k]); }
    }
    SolutionIsExact(preds, dom, i);
  }

  lemma StoredIsExact(list: seq<BlockId>, intothis: map<BlockId, seq<BlockId>>, outofthis: map<BlockId, seq<BlockId>>,
                      index: map<BlockId, int>, immedDom: map<BlockId, Option<BlockId>>,
                      preds: Preds, dom: seq<int>, tops: set<nat>)
    requires WellShaped(list, intothis, outofthis, index) && Stored(list, immedDom, dom, tops)
    requires PassInvariant(preds, dom, |list|) && AllSettled(preds, dom, |list|)
    ensures immedDom[list[0]] == None && forall i :: i in tops && 0 < i < |list| ==> immedDom[list[i]] == None
    ensures forall i :: 0 < i < |list| && i !in tops ==>
      && immedDom[list[i]].Some? && immedDom[list[i]].value in list
      && IsImmediateDominator(preds, index[immedDom[list[i]].value], i)
  {
    hide PassInvariant, AllSettled, IsImmediateDominator;
    forall i | 0 < i < |list| && i !in tops
      ensures && immedDom[list[i]].Some? && immedDom[list[i]].value in list
              && IsImmediateDominator(preds, index[immedDom[list[i]].value], i)
    {
      SettledIsExact(preds, dom, i);
      assert index[list[dom[i]]] == dom[i];
    }
  }

  /** Candidates before the first pass: the entry's successors hang off the entry. */
  ghost function StartDom(list: seq<BlockId>, outs: seq<BlockId>): (dom: seq<int>)
    ensures |dom| == |list|
    ensures forall k :: 0 <= k < |list| ==> dom[k] == if k == 0 || list[k] in outs then 0 else -1
  {
    seq(|list|, k requires 0 <= k < |list| => if k == 0 || list[k] in outs then 0 else -1)
  }

  lemma StartJoined(list: seq<BlockId>, preds: Preds, roots: seq<BlockId>)
    requires |preds| == |list| > 0
    ensures var start, joined := StartDom(list, roots), Joined(preds, TopsOf(list, roots));
            start[0] == 0 && forall k :: 0 < k < |start| ==> start[k] == -1 || (start[k] == 0 && 0 in joined[k])
  {
    var joined := Joined(preds, TopsOf(list, roots));
    forall k | 0 < k < |list| && list[k] in roots ensures 0 in joined[k] { assert joined[k][|preds[k]|] == 0; }
  }

  /** Position in the list of the block a pass is about to visit; the first is skipped. */
  ghost function PassPosition(n: nat, position: int): int {
    if position == n - 1 then 1 else n - 1 - position
  }

  /** Every source's chain goes through the block's candidate. */
  ghost predicate Settled(preds: Preds, dom: seq<int>, i: nat) {
    && i < |preds| == |dom| && dom[i] >= 0
    && (dom[i] == 0 || forall k :: 0 <= k < |preds[i]| && preds[i][k] < |dom| && dom[preds[i][k]] >= 0 ==>
          dom[i] in Chain(dom, preds[i][k]))
  }

  ghost predicate AllSettled(preds: Preds, dom: seq<int>, pos: nat) {
    forall i :: 0 < i < pos ==> Settled(preds, dom, i)
  }

  lemma MeetSettles(preds: Preds, dom: seq<int>, i: nat)
    requires i < |preds| == |dom| && dom[i] >= 0 && IsMeet(preds, dom, i, dom[i])
    ensures Settled(preds, dom, i)
  {
    ChainBound(dom, dom[i]);
    assert Common(dom, preds[i], dom[i]);
  }

  lemma EarlierIsSet(preds: Preds, dom: seq<int>, i: nat)
    requires Ordered(preds) && |dom| == |preds| && SetBefore(dom, i) && 0 < i < |dom|
    ensures exists k :: 0 <= k < |preds[i]| && dom[preds[i][k]] >= 0
  {
    assert HasEarlier(preds[i], i);
    var k :| 0 <= k < |preds[i]| && preds[i][k] < i;
    assert dom[preds[i][k]] >= 0;
  }

  lemma InvariantParts(preds: Preds, dom: seq<int>, i: nat)
    requires PassInvariant(preds, dom, i)
    ensures IsTree(dom) && Ordered(preds) && |dom| == |preds| && SetBefore(dom, i)
  {
  }

  lemma Progress(preds: Preds, dom: seq<int>, i: nat, c: nat)
    requires PassInvariant(preds, dom, i) && 0 < i < |dom| && IsMeet(preds, dom, i, c)
    ensures dom[i] == c ==> Settled(preds, dom, i)
    ensures dom[i] != c ==> Weight(dom[i := c], |dom|) < Weight(dom, |dom|)
  {
    if dom[i] == c { MeetSettles(preds, dom, i); } else { ChangeIsProgress(preds, dom, i, c); }
  }

  lemma CommonFirst(dom: seq<int>, ps: seq<nat>, slot: nat)
    requires 0 < slot <= |ps| && ps[slot - 1] < |dom| && dom[ps[slot - 1]] >= 0
    requires forall k :: 0 <= k < slot - 1 ==> ps[k] < |dom| && dom[ps[k]] < 0
    ensures forall x :: x in Chain(dom, ps[slot - 1]) <==> Common(dom, ps[..slot], x)
  {
    forall x: nat ensures x in Chain(dom, ps[slot - 1]) <==> Common(dom, ps[..slot], x) {
      assert ps[..slot][slot - 1] == ps[slot - 1];
    }
  }

  lemma CommonExtends(dom: seq<int>, ps: seq<nat>, slot: nat)
    requires slot < |ps| && ps[slot] < |dom|
    ensures forall x :: Common(dom, ps[..slot + 1], x) <==>
              Common(dom, ps[..slot], x) && (dom[ps[slot]] >= 0 ==> x in Chain(dom, ps[slot]))
  {
    var longer, shorter := ps[..slot + 1], ps[..slot];
    assert longer[slot] == ps[slot];
    assert forall k :: 0 <= k < slot ==> longer[k] == shorter[k];
  }
}
