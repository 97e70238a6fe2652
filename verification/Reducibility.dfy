/** Why labelling irreducible edges leaves a reducible graph. Heads are processed from the last
    visited to the first; each collects the body of its loop, which no edge left unlabelled
    enters except from the head. Blocks are named by their visit positions. */
module Reducibility {
  import opened FlowGraph
  import opened DominatorTheory
  import opened SpanningTheory
  import opened SpanningSearch
  import opened SpanningFacts

  /** `rep[i]` is the position a block is collapsed into; `body[h]` what the loop of a
      processed head h consists of, the head aside. */
  datatype Loops = Loops(rep: seq<nat>, body: seq<set<nat>>)

  ghost predicate RepsInv(s: Search, l: Loops, p: int) {
    && |l.rep| == |l.body| == |s.order| == |s.t.par|
    && forall i :: 0 <= i < |l.rep| ==> RepOf(s, l, p, i)
  }

  ghost predicate RepOf(s: Search, l: Loops, p: int, i: nat)
    requires i < |l.rep| == |l.body|
  {
    l.rep[i] in Chain(s.t.par, i) && (l.rep[i] == i || (p < l.rep[i] < |l.body| && i in l.body[l.rep[i]]))
  }

  /** A body lies strictly below its head. */
  ghost predicate BodiesBelow(s: Search, l: Loops, p: int) {
    forall h :: 0 <= h < |l.body| && p < h ==> BodyBelow(s, h, l.body[h])
  }

  ghost predicate BodyBelow(s: Search, h: nat, body: set<nat>) {
    forall x :: x in body ==> x < |s.order| && x != h && h in Chain(s.t.par, x)
  }

  /** An edge not labelled irreducible that ends in a body starts in it or at the head. */
  ghost predicate BodyClosed(w: World, s: Search, irr: set<Edge>, h: nat, body: set<nat>)
    requires Sized(w, s)
  {
    forall i: nat, k: nat :: IsScan(w, s, i, k) && Edge(s.order[i], k) !in irr && Dest(w, s, i, k) in body ==> i in body || i == h
  }

  ghost predicate IsScan(w: World, s: Search, i: nat, k: nat) {
    && Sized(w, s) && i < |s.order| && k < |s.kinds[i]| && s.order[i] < |w.outs| && k < |w.outs[s.order[i]]|
  }

  ghost predicate BodiesClosed(w: World, s: Search, irr: set<Edge>, l: Loops, p: int)
    requires Sized(w, s)
  {
    forall h :: 0 <= h < |l.body| && p < h ==> BodyClosed(w, s, irr, h, l.body[h])
  }

  /** A body holds the sources of the head's back edges. */
  ghost predicate BodyHolds(w: World, s: Search, h: nat, body: set<nat>)
    requires Sized(w, s)
  {
    forall i: nat, k: nat :: IsScan(w, s, i, k) && s.kinds[i][k] == Back && Dest(w, s, i, k) == h && i != h ==> i in body
  }

  ghost predicate BodiesHold(w: World, s: Search, l: Loops, p: int)
    requires Sized(w, s)
  {
    forall h :: 0 <= h < |l.body| && p < h ==> BodyHolds(w, s, h, l.body[h])
  }

  /** Heads after position `p` are processed. */
  ghost predicate LoopsInv(w: World, s: Search, irr: set<Edge>, l: Loops, p: int) {
    && Sized(w, s) && RepsInv(s, l, p) && BodiesBelow(s, l, p) && BodiesClosed(w, s, irr, l, p) && BodiesHold(w, s, l, p)
  }

  ghost function NoLoops(n: nat): Loops {
    Loops(seq(n, i => i), seq(n, i => {}))
  }

  lemma NoLoopsInv(w: World, n: nat, s: Search)
    requires SearchInv(w, n, s)
    ensures LoopsInv(w, s, {}, NoLoops(|s.order|), |s.order| - 1)
  {
    var l, p := NoLoops(|s.order|), |s.order| - 1;
    forall i | 0 <= i < |l.rep| ensures RepOf(s, l, p, i) { ChainBound(s.t.par, i); }
  }

  // ----- Processing one head

  /** Below the current head, the block a block is collapsed into is below the head too. */
  lemma RepInside(s: Search, l: Loops, p: nat, i: nat)
    requires RepsInv(s, l, p) && i < |l.rep| && p in Chain(s.t.par, i)
    ensures l.rep[i] < |l.rep| && p <= l.rep[i] && p in Chain(s.t.par, l.rep[i]) && (l.rep[i] == p <==> i == p)
  {
    assert RepOf(s, l, p, i);
    ChainBound(s.t.par, i);
    ChainLinear(s.t.par, p, l.rep[i], i);
  }

  /** The source of a tree or back edge into a block strictly below the head is below the head. */
  lemma SourceInside(w: World, n: nat, s: Search, p: nat, i: nat, k: nat)
    requires SearchInv(w, n, s) && IsScan(w, s, i, k) && (s.kinds[i][k] == Tree || s.kinds[i][k] == Back)
    requires var m := Dest(w, s, i, k); m > p && p in Chain(s.t.par, m)
    ensures p in Chain(s.t.par, i)
  {
    hide VisitsMatch, Entered, PostMatches, DfsInv;
    assert ScanMatches(w, s, i, k);
    var m := Dest(w, s, i, k);
    if s.kinds[i][k] == Back { ChainNested(s.t.par, m, i); }
  }

  /** A walk along scanned edges. */
  ghost predicate Route(w: World, s: Search, path: seq<nat>) {
    |path| > 0 && forall q :: 0 < q < |path| ==> WalkStep(w, s, {}, path[q - 1], path[q])
  }

  /** A back edge leads from `i` to `p`. */
  ghost predicate BackTo(w: World, s: Search, i: nat, p: nat) {
    exists k: nat :: IsScan(w, s, i, k) && s.kinds[i][k] == Back && Dest(w, s, i, k) == p
  }

  /** Some walk from `m` to the source of a back edge of `p` avoids `p`. */
  ghost predicate LeadsBack(w: World, s: Search, p: nat, m: nat) {
    exists path :: Route(w, s, path) && path[0] == m && p !in path && BackTo(w, s, path[|path| - 1], p)
  }

  /** What the queue of one head has collected: blocks strictly below the head that lead back to it. */
  ghost predicate Collected(w: World, s: Search, p: nat, reach: set<nat>) {
    forall m :: m in reach ==> p < m < |s.order| && p in Chain(s.t.par, m) && LeadsBack(w, s, p, m)
  }

  /** Some walk from a tree root to the source of a back edge avoids the edge's target. */
  ghost predicate Bypassed(w: World, s: Search) {
    exists path, h :: Walk(w, s, {}, path) && h !in path && BackTo(w, s, path[|path| - 1], h)
  }

  ghost predicate HoldsSources(w: World, s: Search, l: Loops, p: nat, reach: set<nat>)
    requires Sized(w, s) && |l.rep| == |s.order|
  {
    forall i: nat, k: nat :: IsScan(w, s, i, k) && s.kinds[i][k] == Back && Dest(w, s, i, k) == p && i != p ==> l.rep[i] in reach
  }

  /** Every edge into a drained block is labelled, or starts in what was collected or at the head. */
  ghost predicate Drained(w: World, s: Search, irr: set<Edge>, l: Loops, p: nat, reach: set<nat>)
    requires Sized(w, s) && |l.rep| == |s.order|
  {
    forall i: nat, k: nat :: IsScan(w, s, i, k) && Edge(s.order[i], k) !in irr && Dest(w, s, i, k) in reach ==>
      l.rep[i] == p || l.rep[i] in reach
  }

  ghost function BodyOf(l: Loops, reach: set<nat>): set<nat> {
    reach + set m, x | m in reach && m < |l.body| && x in l.body[m] :: x
  }

  /** The collected blocks are collapsed into the head. */
  ghost function Collapse(l: Loops, p: nat, reach: set<nat>): Loops
    requires p < |l.body|
  {
    Loops(seq(|l.rep|, i requires 0 <= i < |l.rep| => if i in reach then p else l.rep[i]), l.body[p := BodyOf(l, reach)])
  }

  lemma CollapseReps(w: World, s: Search, irr: set<Edge>, l: Loops, p: nat, reach: set<nat>)
    requires LoopsInv(w, s, irr, l, p) && p < |s.order| && Collected(w, s, p, reach)
    ensures RepsInv(s, Collapse(l, p, reach), p - 1)
  {
    hide BodiesBelow, BodiesClosed, BodiesHold;
    var l', p' := Collapse(l, p, reach), p - 1;
    forall i | 0 <= i < |l'.rep| ensures RepOf(s, l', p', i) {
      assert RepOf(s, l, p, i);
    }
  }

  lemma CollapseBelow(w: World, s: Search, irr: set<Edge>, l: Loops, p: nat, reach: set<nat>)
    requires LoopsInv(w, s, irr, l, p) && p < |s.order| && Collected(w, s, p, reach)
    ensures BodiesBelow(s, Collapse(l, p, reach), p - 1)
  {
    hide RepsInv, BodiesClosed, BodiesHold;
    assert |l.body| == |s.order| by { ByReps(s, l, p); }
    forall x | x in BodyOf(l, reach) ensures x < |s.order| && x != p && p in Chain(s.t.par, x) {
      if x !in reach {
        var m :| m in reach && m < |l.body| && x in l.body[m];
        assert BodyBelow(s, m, l.body[m]);
        ChainNested(s.t.par, m, x);
        ChainBound(s.t.par, x);
      }
    }
    assert BodyBelow(s, p, BodyOf(l, reach));
    hide BodyBelow, BodyOf;
  }

  lemma ByReps(s: Search, l: Loops, p: int)
    requires RepsInv(s, l, p)
    ensures |l.rep| == |l.body| == |s.order|
  {
  }

  lemma CollapseClosed(w: World, s: Search, irr: set<Edge>, l: Loops, p: nat, reach: set<nat>)
    requires LoopsInv(w, s, irr, l, p) && p < |s.order| && Collected(w, s, p, reach) && Drained(w, s, irr, l, p, reach)
    ensures BodyClosed(w, s, irr, p, BodyOf(l, reach))
  {
    hide BodiesBelow, BodiesHold;
    forall i: nat, k: nat | IsScan(w, s, i, k) && Edge(s.order[i], k) !in irr && Dest(w, s, i, k) in BodyOf(l, reach)
      ensures i in BodyOf(l, reach) || i == p
    {
      var x := Dest(w, s, i, k);
      if x in reach {
        assert RepOf(s, l, p, i);
      } else {
        var m :| m in reach && m < |l.body| && x in l.body[m];
        assert BodyClosed(w, s, irr, m, l.body[m]);
      }
    }
  }

  lemma CollapseHolds(w: World, s: Search, irr: set<Edge>, l: Loops, p: nat, reach: set<nat>)
    requires LoopsInv(w, s, irr, l, p) && p < |s.order| && HoldsSources(w, s, l, p, reach)
    requires Collected(w, s, p, reach)
    ensures BodyHolds(w, s, p, BodyOf(l, reach))
  {
    hide BodiesBelow, BodiesClosed, BodiesHold;
    forall i: nat, k: nat | IsScan(w, s, i, k) && s.kinds[i][k] == Back && Dest(w, s, i, k) == p && i != p
      ensures i in BodyOf(l, reach)
    {
      assert RepOf(s, l, p, i);
    }
  }

  /** Processing a head: its queue drained, the collected blocks collapse into it. */
  lemma HeadDone(w: World, s: Search, irr: set<Edge>, l: Loops, p: nat, reach: set<nat>)
    requires LoopsInv(w, s, irr, l, p) && p < |s.order| && Collected(w, s, p, reach)
    requires HoldsSources(w, s, l, p, reach) && Drained(w, s, irr, l, p, reach)
    ensures LoopsInv(w, s, irr, Collapse(l, p, reach), p - 1)
  {
    CollapseReps(w, s, irr, l, p, reach);
    CollapseBelow(w, s, irr, l, p, reach);
    CollapseClosed(w, s, irr, l, p, reach);
    CollapseHolds(w, s, irr, l, p, reach);
    hide RepsInv, BodiesBelow, BodyClosed, BodyHolds, BodyOf;
  }

  /** More labels only help. */
  lemma MoreLabels(w: World, s: Search, irr: set<Edge>, e: Edge, l: Loops, p: int)
    requires LoopsInv(w, s, irr, l, p)
    ensures LoopsInv(w, s, irr + {e}, l, p)
  {
    hide RepsInv, BodiesBelow, BodiesHold;
    forall h | 0 <= h < |l.body| && p < h ensures BodyClosed(w, s, irr + {e}, h, l.body[h]) {
      assert BodyClosed(w, s, irr, h, l.body[h]);
    }
  }

  // ----- The result

  /** A walk from a tree root along edges not labelled irreducible. */
  ghost predicate Walk(w: World, s: Search, irr: set<Edge>, path: seq<nat>) {
    && |path| > 0 && |s.t.par| == |s.order| && path[0] < |s.t.par| && s.t.par[path[0]] < 0
    && forall q :: 0 < q < |path| ==> WalkStep(w, s, irr, path[q - 1], path[q])
  }

  ghost predicate WalkStep(w: World, s: Search, irr: set<Edge>, i: nat, j: nat) {
    exists k :: IsScan(w, s, i, k) && Edge(s.order[i], k) !in irr && Dest(w, s, i, k) == j
  }

  lemma EnteredFromHead(w: World, s: Search, irr: set<Edge>, body: set<nat>, i: nat, j: nat, h: nat)
    requires Sized(w, s) && BodyClosed(w, s, irr, h, body) && WalkStep(w, s, irr, i, j) && j in body
    ensures i in body || i == h
  {
  }

  /** A walk into a body passes the head. */
  lemma {:induction false} WalkPassesHead(w: World, s: Search, irr: set<Edge>, l: Loops, path: seq<nat>, q: nat, h: nat)
    requires LoopsInv(w, s, irr, l, -1) && Walk(w, s, irr, path) && q < |path| && h < |l.body| && path[q] in l.body[h]
    ensures h in path
  {
    hide RepsInv, BodiesHold, BodyClosed;
    assert BodyBelow(s, h, l.body[h]);
    assert q > 0;
    assert WalkStep(w, s, irr, path[q - 1], path[q]);
    assert BodyClosed(w, s, irr, h, l.body[h]);
    EnteredFromHead(w, s, irr, l.body[h], path[q - 1], path[q], h);
    if path[q - 1] in l.body[h] {
      WalkPassesHead(w, s, irr, l, path, q - 1, h);
    }
  }

  /** Reducibility: without the labelled edges, every walk to the source of a back edge passes
      the edge's target. */
  lemma BackEdgeTargetDominates(w: World, n: nat, s: Search, irr: set<Edge>, l: Loops, path: seq<nat>, i: nat, k: nat)
    requires SearchInv(w, n, s) && LoopsInv(w, s, irr, l, -1) && Walk(w, s, irr, path)
    requires IsScan(w, s, i, k) && s.kinds[i][k] == Back && path[|path| - 1] == i
    ensures Dest(w, s, i, k) in path
  {
    hide VisitsMatch, Entered, PostMatches, DfsInv, RepsInv, BodiesBelow, BodiesClosed, Walk;
    assert ScanMatches(w, s, i, k);
    var h := Dest(w, s, i, k);
    assert |path| > 0 by { WalkNonEmpty(w, s, irr, path); }
    assert |l.body| == |s.order| by { ByReps(s, l, -1); }
    if i != h {
      assert BodyHolds(w, s, h, l.body[h]);
      WalkPassesHead(w, s, irr, l, path, |path| - 1, h);
    }
  }

  lemma WalkNonEmpty(w: World, s: Search, irr: set<Edge>, path: seq<nat>)
    requires Walk(w, s, irr, path)
    ensures |path| > 0
  {
  }

  // ----- Walks that avoid a head

  lemma RouteAppend(w: World, s: Search, a: seq<nat>, b: seq<nat>)
    requires Route(w, s, a) && Route(w, s, b) && WalkStep(w, s, {}, a[|a| - 1], b[0])
    ensures Route(w, s, a + b)
  {
    var path := a + b;
    forall q | 0 < q < |path| ensures WalkStep(w, s, {}, path[q - 1], path[q]) {
      if q < |a| {
        assert WalkStep(w, s, {}, a[q - 1], a[q]);
      } else if q > |a| {
        assert WalkStep(w, s, {}, b[q - |a| - 1], b[q - |a|]);
      }
    }
  }

  /** The edge by which a block was entered. */
  lemma ParentStep(w: World, n: nat, s: Search, x: nat)
    requires SearchInv(w, n, s) && x < |s.order| && s.t.par[x] >= 0
    ensures s.t.par[x] < x && WalkStep(w, s, {}, s.t.par[x], x)
  {
    hide StackTiles, OpenAbove, OpenAncestors, IntervalsExact, PostMatches;
    var p, k := s.t.par[x], s.via[x];
    assert EnteredBy(w, s, p, k, x);
    assert IsScan(w, s, p, k) && Dest(w, s, p, k) == x;
  }

  /** The tree leads from an ancestor down to a block, through descendants of the ancestor. */
  lemma {:induction false} TreeRoute(w: World, n: nat, s: Search, a: nat, x: nat) returns (path: seq<nat>)
    requires SearchInv(w, n, s) && x < |s.order| && a in Chain(s.t.par, x)
    ensures Route(w, s, path) && path[0] == a && path[|path| - 1] == x
    ensures forall y :: y in path ==> a in Chain(s.t.par, y) && y in Chain(s.t.par, x)
    decreases x
  {
    hide SearchInv;
    ChainBound(s.t.par, x);
    if a == x {
      path := [x];
    } else {
      ParentHere(w, n, s, a, x);
      ParentStep(w, n, s, x);
      var before := TreeRoute(w, n, s, a, s.t.par[x]);
      RouteAppend(w, s, before, [x]);
      path := before + [x];
    }
  }

  lemma ParentHere(w: World, n: nat, s: Search, a: nat, x: nat)
    requires SearchInv(w, n, s) && x < |s.order| && a in Chain(s.t.par, x) && a != x
    ensures |s.t.par| == |s.order| && 0 <= s.t.par[x] < x && a in Chain(s.t.par, s.t.par[x])
    ensures Chain(s.t.par, x) == {x} + Chain(s.t.par, s.t.par[x])
  {
    hide VisitsMatch, ScansMatch, Entered, PostMatches, StackTiles, IntervalsExact, OpenAbove, OpenAncestors;
  }

  /** The tree leads from some root to every block, through its ancestors. */
  lemma {:induction false} RootRoute(w: World, n: nat, s: Search, x: nat) returns (path: seq<nat>)
    requires SearchInv(w, n, s) && x < |s.order|
    ensures Walk(w, s, {}, path) && path[|path| - 1] == x && forall y :: y in path ==> y in Chain(s.t.par, x)
    decreases x
  {
    hide VisitsMatch, ScansMatch, Entered, PostMatches, StackTiles, IntervalsExact, OpenAbove, OpenAncestors;
    ChainBound(s.t.par, x);
    if s.t.par[x] < 0 {
      path := [x];
    } else {
      ParentStep(w, n, s, x);
      var before := RootRoute(w, n, s, s.t.par[x]);
      path := before + [x];
      forall q | 0 < q < |path| ensures WalkStep(w, s, {}, path[q - 1], path[q]) {
        if q < |before| { assert WalkStep(w, s, {}, before[q - 1], before[q]); }
      }
    }
  }

  /** The copy of a block below the head leads to the block, past the head. */
  lemma CopyLeads(w: World, n: nat, s: Search, l: Loops, p: nat, i: nat) returns (path: seq<nat>)
    requires SearchInv(w, n, s) && RepsInv(s, l, p) && i < |s.order| && l.rep[i] > p
    ensures Route(w, s, path) && path[0] == l.rep[i] && path[|path| - 1] == i && p !in path
  {
    assert RepOf(s, l, p, i);
    path := TreeRoute(w, n, s, l.rep[i], i);
    forall y | y in path ensures y != p { ChainBound(s.t.par, y); }
  }

  /** The copy of a back edge's source leads back. */
  lemma SourceLeads(w: World, n: nat, s: Search, l: Loops, p: nat, i: nat, k: nat)
    requires SearchInv(w, n, s) && RepsInv(s, l, p) && IsScan(w, s, i, k) && s.kinds[i][k] == Back && Dest(w, s, i, k) == p
    requires i < |l.rep| && l.rep[i] > p
    ensures LeadsBack(w, s, p, l.rep[i])
  {
    hide SearchInv, RepsInv;
    var path := CopyLeads(w, n, s, l, p, i);
    assert BackTo(w, s, i, p);
  }

  /** So does the copy of the source of any edge to a block that leads back. */
  lemma EdgeLeads(w: World, n: nat, s: Search, l: Loops, p: nat, i: nat, k: nat)
    requires SearchInv(w, n, s) && RepsInv(s, l, p) && IsScan(w, s, i, k) && i < |l.rep| && l.rep[i] > p
    requires Dest(w, s, i, k) >= 0 && LeadsBack(w, s, p, Dest(w, s, i, k))
    ensures LeadsBack(w, s, p, l.rep[i])
  {
    hide SearchInv, RepsInv;
    var m := Dest(w, s, i, k);
    var rest :| Route(w, s, rest) && rest[0] == m && p !in rest && BackTo(w, s, rest[|rest| - 1], p);
    var path := CopyLeads(w, n, s, l, p, i);
    assert WalkStep(w, s, {}, i, m);
    RouteAppend(w, s, path, rest);
    var whole := path + rest;
    assert whole[|whole| - 1] == rest[|rest| - 1];
  }

  /** An edge to a block that leads back, from a block that is not below the head, bypasses the head. */
  lemma EdgeBypasses(w: World, n: nat, s: Search, p: nat, i: nat, k: nat)
    requires SearchInv(w, n, s) && IsScan(w, s, i, k) && p !in Chain(s.t.par, i)
    requires Dest(w, s, i, k) >= 0 && LeadsBack(w, s, p, Dest(w, s, i, k))
    ensures Bypassed(w, s)
  {
    hide SearchInv, WalkStep, Chain;
    var m := Dest(w, s, i, k);
    var rest :| Route(w, s, rest) && rest[0] == m && p !in rest && BackTo(w, s, rest[|rest| - 1], p);
    var path := RootRoute(w, n, s, i);
    ScanIsStep(w, n, s, i, k);
    WalkThenRoute(w, s, path, rest);
    var whole := path + rest;
    assert whole[|whole| - 1] == rest[|rest| - 1] && p !in whole;
  }

  lemma ScanIsStep(w: World, n: nat, s: Search, i: nat, k: nat)
    requires SearchInv(w, n, s) && IsScan(w, s, i, k) && Dest(w, s, i, k) >= 0
    ensures WalkStep(w, s, {}, i, Dest(w, s, i, k))
  {
  }

  lemma WalkThenRoute(w: World, s: Search, path: seq<nat>, rest: seq<nat>)
    requires Walk(w, s, {}, path) && Route(w, s, rest) && WalkStep(w, s, {}, path[|path| - 1], rest[0])
    ensures Walk(w, s, {}, path + rest)
  {
    hide WalkStep;
    var whole := path + rest;
    forall q | 0 < q < |whole| ensures WalkStep(w, s, {}, whole[q - 1], whole[q]) {
      if q < |path| {
        assert WalkStep(w, s, {}, path[q - 1], path[q]);
      } else if q > |path| {
        assert WalkStep(w, s, {}, rest[q - |path| - 1], rest[q - |path|]);
      }
    }
  }
}
