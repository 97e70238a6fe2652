/** When the list of roots a search leaves is that of its trees. */
module RootLists {
  import opened FlowGraph
  import opened SpanningTheory
  import opened SpanningSearch
  import opened SpanningRoots

  /** Every set that follows edges and has `a` has `b`: some walk leads there. */
  ghost predicate Leads(w: World, a: BlockId, b: BlockId) {
    forall reached :: a in reached && FollowsEdges(w, reached) ==> b in reached
  }

  ghost predicate LedFrom(w: World, roots: set<BlockId>, b: BlockId) {
    exists r :: r in roots && Leads(w, r, b)
  }

  ghost function From(w: World, roots: set<BlockId>): set<BlockId> {
    set b | b in w.blocks && LedFrom(w, roots, b)
  }

  lemma LeadsOn(w: World, a: BlockId, b: BlockId, c: BlockId)
    requires Leads(w, a, b) && Leads(w, b, c)
    ensures Leads(w, a, c)
  {
  }

  lemma FromFollows(w: World, roots: set<BlockId>)
    requires Closed(w)
    ensures FollowsEdges(w, From(w, roots))
  {
    forall b, k | b in From(w, roots) && b in w.blocks && b < |w.outs| && 0 <= k < |w.outs[b]|
      ensures w.outs[b][k] in From(w, roots)
    {
      var r :| r in roots && Leads(w, r, b);
      assert Leads(w, b, w.outs[b][k]);
      LeadsOn(w, r, b, w.outs[b][k]);
    }
  }

  /** Roots reach everything when each block is led to from one of them. */
  lemma ReachesMeans(w: World, roots: set<BlockId>)
    requires Closed(w) && roots <= w.blocks
    ensures Reaches(w, roots) <==> forall b :: b in w.blocks ==> LedFrom(w, roots, b)
  {
    if Reaches(w, roots) {
      FromFollows(w, roots);
      forall r | r in roots ensures r in From(w, roots) { assert Leads(w, r, r); }
      forall b | b in w.blocks ensures LedFrom(w, roots, b) { assert b in From(w, roots); }
    }
    if forall b :: b in w.blocks ==> LedFrom(w, roots, b) {
      forall reached | roots <= reached && FollowsEdges(w, reached) ensures w.blocks <= reached {
        forall b | b in w.blocks ensures b in reached {
          assert LedFrom(w, roots, b);
          var r :| r in roots && Leads(w, r, b);
        }
      }
    }
  }

  /** Some block leads to `h` that `h` does not lead to. */
  ghost predicate EnteredFromOutside(w: World, h: BlockId) {
    exists b :: b in w.blocks && Leads(w, b, h) && !Leads(w, h, b)
  }

  lemma NotNeededIsEntered(w: World, h: BlockId, others: set<BlockId>)
    requires Closed(w) && h in w.blocks && others <= w.blocks && Reaches(w, others) && forall x :: x in others ==> !Leads(w, h, x)
    ensures EnteredFromOutside(w, h)
  {
    hide Reaches, Leads, Closed;
    ReachesMeans(w, others);
    assert LedFrom(w, others, h);
    var r :| r in others && Leads(w, r, h);
  }

  lemma LedWithout(w: World, h: BlockId, others: set<BlockId>, r: BlockId, c: BlockId)
    requires r in others && Leads(w, r, h) && LedFrom(w, others + {h}, c)
    ensures LedFrom(w, others, c)
  {
    hide Leads;
    var q :| q in others + {h} && Leads(w, q, c);
    if q == h { LeadsOn(w, r, h, c); }
  }

  lemma LedToEntry(w: World, h: BlockId, others: set<BlockId>, b: BlockId) returns (r: BlockId)
    requires LedFrom(w, others + {h}, b) && Leads(w, b, h) && !Leads(w, h, b)
    ensures r in others && Leads(w, r, h)
  {
    hide Leads;
    r :| r in others + {h} && Leads(w, r, b);
    LeadsOn(w, r, b, h);
  }

  lemma EnteredIsNotNeeded(w: World, h: BlockId, others: set<BlockId>)
    requires Closed(w) && h in w.blocks && others <= w.blocks && Reaches(w, others + {h}) && EnteredFromOutside(w, h)
    ensures Reaches(w, others)
  {
    hide Reaches, Leads, Closed, LedFrom;
    ReachesMeans(w, others);
    ReachesMeans(w, others + {h});
    var b :| b in w.blocks && Leads(w, b, h) && !Leads(w, h, b);
    var r := LedToEntry(w, h, others, b);
    forall c | c in w.blocks ensures LedFrom(w, others, c) {
      LedWithout(w, h, others, r, c);
    }
  }

  /** With others that `h` does not lead to: they reach everything without it exactly when some block
      leads to it and not back. */
  lemma NotNeededIff(w: World, h: BlockId, others: set<BlockId>)
    requires Closed(w) && h in w.blocks && others <= w.blocks && Reaches(w, others + {h})
    requires forall x :: x in others ==> !Leads(w, h, x)
    ensures Reaches(w, others) <==> EnteredFromOutside(w, h)
  {
    hide Reaches, Leads, Closed, EnteredFromOutside;
    if Reaches(w, others) { NotNeededIsEntered(w, h, others); }
    if EnteredFromOutside(w, h) { EnteredIsNotNeeded(w, h, others); }
  }

  /** A block without in-edges is needed. */
  lemma SourceIsNeeded(w: World, h: BlockId, others: set<BlockId>)
    requires Closed(w) && h in w.blocks && h !in others && others <= w.blocks && Sourceless(w, h)
    ensures !Reaches(w, others)
  {
    var rest := w.blocks - {h};
    assert FollowsEdges(w, rest) by {
      forall b, k | b in rest && b in w.blocks && b < |w.outs| && 0 <= k < |w.outs[b]| ensures w.outs[b][k] in rest {
        assert w.outs[b][k] in w.blocks;
      }
    }
    assert others <= rest;
  }

  /** What is not visited when the stack is empty is not led to from what is. */
  lemma UnvisitedNotLed(w: World, n: nat, s: Search, a: BlockId, b: BlockId)
    requires Closed(w) && SearchInv(w, n, s) && s.t.stack == [] && a in Visited(s) && b !in Visited(s)
    ensures !Leads(w, a, b)
  {
    VisitedFollows(w, n, s);
  }

  // ----- Tails of the list

  ghost predicate IsTail(a: seq<BlockId>, b: seq<BlockId>) {
    |b| <= |a| && b == a[|a| - |b|..]
  }

  lemma TailTrans(a: seq<BlockId>, b: seq<BlockId>, c: seq<BlockId>)
    requires IsTail(a, b) && IsTail(b, c)
    ensures IsTail(a, c)
  {
  }

  lemma TailSelf(a: seq<BlockId>)
    ensures IsTail(a, a)
  {
  }

  /** One root fewer after the used ones. */
  lemma TailDrops(start: seq<BlockId>, roots: seq<BlockId>, k: nat, roots': seq<BlockId>)
    requires k < |roots| && IsTail(start, roots[k..]) && roots' == roots[..k] + roots[k + 1..]
    ensures IsTail(start, roots'[k..]) && roots'[..k] == roots[..k]
  {
    assert roots'[k..] == roots[k..][1..];
  }

  ghost function SetOf(roots: seq<BlockId>): set<BlockId> {
    set r | r in roots
  }

  /** All but the last. */
  ghost function Front(roots: seq<BlockId>): set<BlockId> {
    set i | 0 <= i < |roots| - 1 :: roots[i]
  }

  /** The root at the end of the list. */
  ghost predicate EndsWith(roots: seq<BlockId>, b: BlockId) {
    roots != [] && roots[|roots| - 1] == b
  }

  ghost predicate TreesAlone(roots: seq<BlockId>, s: Search) {
    forall r :: r in roots ==> r in TreeRoots(s)
  }

  /** No later tree is led to from the first one. */
  ghost predicate FirstApart(w: World, trees: seq<BlockId>) {
    forall i :: 0 < i < |trees| ==> !Leads(w, trees[0], trees[i])
  }

  // ----- A pass over the listed roots

  /** What a pass makes of the roots it was given. */
  ghost predicate Grown(w: World, s: Search, given: seq<BlockId>, roots: seq<BlockId>, extra: bool) {
    && (TreesAlone(roots, s) <==> !Reaches(w, Front(given))) && FirstApart(w, TreeRoots(s))
    && (if extra then roots == TreeRoots(s) else forall r :: r in TreeRoots(s) ==> r in given)
    && (Sources(w, given) && extra ==> given <= roots)
    && roots != [] && (EndsWith(TreeRoots(s), roots[|roots| - 1]) <==> TreesAlone(roots, s))
    && (!extra ==> given != [] && EndsWith(roots, given[|given| - 1]))
  }

  /** During a pass: trees were started at the first roots, and the rest is what is left of those given. */
  ghost predicate Growing(w: World, s: Search, given: seq<BlockId>, roots: seq<BlockId>, used: nat, extra: bool) {
    && used <= |roots| && roots[..used] == TreeRoots(s) && NoRepeats(roots) && NoRepeats(given) && given != []
    && IsTail(given, roots[used..]) && FirstApart(w, TreeRoots(s))
    && (used == |roots| ==> !Reaches(w, Front(given)))
    && (if extra then used == |roots| else (forall r :: r in TreeRoots(s) ==> r in given) && EndsWith(roots, given[|given| - 1]))
    && (used == 0 ==> !extra)
  }

  /** A tree is about to be started at `b`, the last of the used roots. */
  ghost predicate Chosen(w: World, s: Search, given: seq<BlockId>, roots: seq<BlockId>, used: nat, b: BlockId, extra: bool) {
    && used <= |roots| && roots[..used] == TreeRoots(s) + [b] && NoRepeats(roots) && NoRepeats(given) && given != []
    && IsTail(given, roots[used..]) && FirstApart(w, TreeRoots(s) + [b])
    && (used == |roots| ==> !Reaches(w, Front(given)))
    && (if extra then used == |roots|
        else b in given && (forall r :: r in TreeRoots(s) ==> r in given) && EndsWith(roots, given[|given| - 1]))
  }

  lemma GrowingStarts(w: World, s: Search, roots: seq<BlockId>)
    requires TreeRoots(s) == [] && roots != [] && NoRepeats(roots)
    ensures Growing(w, s, roots, roots, 0, false)
  {
  }

  lemma GrowingGoesOn(w: World, s: Search, s': Search, given: seq<BlockId>, roots: seq<BlockId>, used: nat, b: BlockId, extra: bool)
    requires Chosen(w, s, given, roots, used, b, extra) && TreeRoots(s') == TreeRoots(s) + [b]
    ensures Growing(w, s', given, roots, used, extra)
  {
    hide Reaches, Leads, TreeRoots, IsTail;
  }

  /** A root that was not used stays after those that were. */
  lemma EndIsUsed(s: Search, roots: seq<BlockId>, used: nat)
    requires used <= |roots| && roots != [] && NoRepeats(roots) && roots[..used] == TreeRoots(s)
    ensures EndsWith(TreeRoots(s), roots[|roots| - 1]) <==> TreesAlone(roots, s)
  {
    hide TreeRoots;
    var last := roots[|roots| - 1];
    if used == |roots| {
      assert roots == roots[..used];
    } else {
      assert last !in roots[..used] && last in roots;
    }
  }

  lemma LastOfTail(given: seq<BlockId>, rest: seq<BlockId>)
    requires IsTail(given, rest) && rest != []
    ensures rest[|rest| - 1] == given[|given| - 1]
  {
  }

  lemma TailNext(given: seq<BlockId>, roots: seq<BlockId>, used: nat)
    requires used < |roots| && IsTail(given, roots[used..])
    ensures IsTail(given, roots[used + 1..]) && given != [] && EndsWith(roots, given[|given| - 1]) && roots[used] in given
    ensures roots[|roots| - 1] == given[|given| - 1]
  {
    var rest := roots[used..];
    LastOfTail(given, rest);
    assert rest[0] == roots[used] && rest[1..] == roots[used + 1..] && rest[0] in given;
  }

  /** The end of a pass: a root that was not used is left exactly when those before the last one reach everything. */
  lemma GrowingEnds(w: World, n: nat, s: Search, given: seq<BlockId>, roots: seq<BlockId>, used: nat, extra: bool)
    requires Growing(w, s, given, roots, used, extra) && SearchInv(w, n, s) && |s.order| == |w.blocks|
    requires Sources(w, given) && extra ==> given <= roots
    ensures Grown(w, s, given, roots, extra)
  {
    hide SearchInv, Reaches, Leads, Sources, TreeRoots;
    EndIsUsed(s, roots, used);
    if used == |roots| {
      assert roots == roots[..used];
    } else {
      var rest, last := roots[used..], given[|given| - 1];
      LastOfTail(given, rest);
      assert last == roots[|roots| - 1];
      assert last !in roots[..used] && last in roots;
      forall r | r in TreeRoots(s) ensures r in Front(given) {
        var i :| 0 <= i < |given| && given[i] == r;
        assert i < |given| - 1;
      }
      CompleteReaches(w, n, s, Front(given));
    }
  }

  // ----- The whole search

  /** Distinct blocks without in-edges. */
  ghost predicate AreSources(w: World, roots: seq<BlockId>) {
    && roots != [] && NoRepeats(roots) && (forall r :: r in roots ==> r in w.blocks)
    && forall i :: 0 <= i < |roots| ==> Sourceless(w, roots[i])
  }

  /** The roots it starts from, of which `h` comes last: blocks without in-edges, or one block when there
      are none. */
  ghost predicate StartRoots(w: World, roots: seq<BlockId>, h: BlockId, sources: bool) {
    && EndsWith(roots, h) && NoRepeats(roots) && (forall r :: r in roots ==> r in w.blocks)
    && if sources then AreSources(w, roots) else roots == [h]
  }

  lemma SwapCollected(w: World, roots: seq<BlockId>)
    requires AreSources(w, roots) && Sources(w, roots)
    ensures var last := |roots| - 1;
            var swapped := roots[0 := roots[last]][last := roots[0]];
            StartRoots(w, swapped, roots[0], true) && Sources(w, swapped)
  {
    hide Sourceless;
    var last := |roots| - 1;
    SwapNoRepeats(roots, 0, last);
    SwapSources(w, roots, 0, last);
    SwapSame(roots, 0, last, roots[0 := roots[last]][last := roots[0]]);
    var swapped := roots[0 := roots[last]][last := roots[0]];
    assert forall r :: r in swapped ==> r in SetOf(swapped);
  }

  lemma OneCollected(w: World, h: BlockId)
    requires h in w.blocks
    ensures StartRoots(w, [h], h, false) && Sources(w, [h])
  {
  }

  lemma FrontIs(roots: seq<BlockId>)
    requires NoRepeats(roots) && roots != []
    ensures Front(roots) == SetOf(roots) - {roots[|roots| - 1]}
  {
    forall r | r in roots && r != roots[|roots| - 1] ensures r in Front(roots) {
      var i :| 0 <= i < |roots| && roots[i] == r;
    }
  }

  lemma ReachesMore(w: World, a: set<BlockId>, b: set<BlockId>)
    requires Reaches(w, a) && a <= b
    ensures Reaches(w, b)
  {
  }

  /** One pass sufficed: the list is that of the trees. */
  lemma OnePassExact(w: World, s: Search, roots: seq<BlockId>, h: BlockId, sources: bool, left: seq<BlockId>)
    requires Closed(w) && StartRoots(w, roots, h, sources) && Grown(w, s, roots, left, false) && Reaches(w, SetOf(left))
    ensures TreesAlone(left, s) && (!sources ==> !EnteredFromOutside(w, h)) && EndsWith(left, h)
  {
    hide TreeRoots, Leads;
    FrontIs(roots);
    if sources {
      hide Reaches;
      SourceIsNeeded(w, roots[|roots| - 1], Front(roots));
    } else {
      assert FollowsEdges(w, {}) && roots[0] in w.blocks;
      assert !Reaches(w, Front(roots));
      hide Reaches;
      ReachesMore(w, SetOf(left), {h});
      ReachesMeans(w, {h});
      forall b | b in w.blocks ensures Leads(w, h, b) { assert LedFrom(w, {h}, b); }
    }
  }

  /** The last root and the one at `k` change places. */
  ghost function Rearranged(roots: seq<BlockId>, k: int): seq<BlockId> {
    if 0 <= k < |roots| then roots[|roots| - 1 := roots[k]][k := roots[|roots| - 1]] else roots
  }

  /** Two passes: the last of the roots collected first is left over exactly when some block leads to
      it and not back. */
  lemma TwoPassesExact(w: World, s1: Search, roots: seq<BlockId>, h: BlockId, sources: bool, left: seq<BlockId>, s2: Search,
                       again: seq<BlockId>, left2: seq<BlockId>)
    requires Closed(w) && StartRoots(w, roots, h, sources) && Sources(w, roots) && Grown(w, s1, roots, left, true)
    requires NoRepeats(left) && (forall r :: r in left ==> r in w.blocks) && Reaches(w, SetOf(left)) && |left| > |roots|
    requires again == Rearranged(left, |roots| - 1)
    requires Grown(w, s2, again, left2, false)
    ensures TreesAlone(left2, s2) <==> sources || !EnteredFromOutside(w, h)
    ensures EndsWith(left2, h)
  {
    hide TreeRoots, Leads, Closed, Reaches, Sourceless, Sources, EnteredFromOutside;
    var last := left[|roots| - 1];
    assert last == roots[|roots| - 1];
    SwapNoRepeats(left, |left| - 1, |roots| - 1);
    SwapSame(left, |left| - 1, |roots| - 1, again);
    FrontIs(again);
    var others := SetOf(left) - {last};
    assert Front(again) == others;
    if sources {
      SourceIsNeeded(w, last, others);
    } else {
      assert SetOf(left) == others + {h};
      forall x | x in others ensures !Leads(w, h, x) {
        var i :| 0 <= i < |left| && left[i] == x;
        assert left[0] == h && i > 0;
      }
      NotNeededIff(w, h, others);
    }
  }

  lemma SwapSame(roots: seq<BlockId>, i: nat, j: nat, swapped: seq<BlockId>)
    requires i < |roots| && j < |roots| && swapped == roots[i := roots[j]][j := roots[i]]
    ensures SetOf(swapped) == SetOf(roots)
  {
    forall r | r in roots ensures r in swapped {
      var k :| 0 <= k < |roots| && roots[k] == r;
      assert swapped[if k == i then j else if k == j then i else k] == r;
    }
  }
}
