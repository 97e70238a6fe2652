/** The depth-first search over blocks: what has been visited, how far each visited block's
    out-edges are scanned, how they were classified, and the reverse post-order so far. */
module SpanningSearch {
  import opened FlowGraph
  import opened DominatorTheory
  import opened SpanningTheory

  datatype Kind = Tree | Forward | Cross | Back

  /** The blocks of one graph and, for every block of the arena, the targets of its out-edges. */
  datatype World = World(outs: seq<seq<BlockId>>, blocks: set<BlockId>)

  ghost predicate Closed(w: World) {
    forall b :: b in w.blocks ==> b < |w.outs| && forall k :: 0 <= k < |w.outs[b]| ==> w.outs[b][k] in w.blocks
  }

  /** `order` lists the visited blocks; `visit` gives a block's position in it (-1: not visited).
      By position: the tree `t`, the slot `via` of the parent's edge it was entered by, the
      kinds of the out-edges scanned so far, and the reverse post-order `index` (-1: open).
      `rpost` lists the closed positions, last closed first. */
  datatype Search = Search(visit: seq<int>, order: seq<BlockId>, t: Dfs, via: seq<nat>, kinds: seq<seq<Kind>>,
                           index: seq<int>, rpost: seq<nat>)

  ghost predicate Sized(w: World, s: Search) {
    && |s.visit| == |w.outs|
    && |s.order| == |s.t.par| == |s.t.nd| == |s.kinds| == |s.index| == |s.via|
  }

  ghost predicate VisitsMatch(w: World, s: Search)
    requires Sized(w, s)
  {
    && (forall i :: 0 <= i < |s.order| ==> s.order[i] in w.blocks && s.order[i] < |s.visit| && s.visit[s.order[i]] == i)
    && (forall b :: b in w.blocks && b < |s.visit| && s.visit[b] != -1 ==>
          0 <= s.visit[b] < |s.order| && s.order[s.visit[b]] == b)
  }

  /** Position of the target of an out-edge of a visited block; -1 when not visited. */
  ghost function Dest(w: World, s: Search, i: nat, k: nat): int
    requires Sized(w, s) && i < |s.order| && s.order[i] < |w.outs| && k < |w.outs[s.order[i]]|
  {
    var b := w.outs[s.order[i]][k];
    if b < |s.visit| then s.visit[b] else -1
  }

  /** What each kind means. */
  ghost predicate Means(s: Search, i: nat, k: nat, j: int, kind: Kind)
    requires |s.t.par| == |s.via|
  {
    && 0 <= j < |s.t.par|
    && (kind == Tree <==> s.t.par[j] == i && s.via[j] == k)
    && (kind == Tree || kind == Forward ==> i < j && i in Chain(s.t.par, j))
    && (kind == Back ==> j in Chain(s.t.par, i))
    && (kind == Cross ==> j < i && j !in Chain(s.t.par, i))
  }

  /** A non-back edge leads to what closes before its source. */
  ghost predicate Descends(s: Search, i: nat, j: int)
    requires i < |s.index|
  {
    && 0 <= j < |s.index|
    && (if s.index[i] >= 0 then s.index[j] > s.index[i] else s.index[j] >= 0 || i < j)
  }

  ghost predicate ScansMatch(w: World, s: Search)
    requires Sized(w, s)
  {
    && (forall i :: 0 <= i < |s.order| ==> s.order[i] < |w.outs| && |s.kinds[i]| <= |w.outs[s.order[i]]|)
    && (forall i :: 0 <= i < |s.order| && i !in s.t.stack ==> |s.kinds[i]| == |w.outs[s.order[i]]|)
    && (forall i, k :: 0 <= i < |s.order| && 0 <= k < |s.kinds[i]| ==> ScanMatches(w, s, i, k))
  }

  ghost predicate ScanMatches(w: World, s: Search, i: nat, k: nat)
    requires Sized(w, s) && i < |s.order| && s.order[i] < |w.outs| && k < |s.kinds[i]| <= |w.outs[s.order[i]]|
  {
    && Means(s, i, k, Dest(w, s, i, k), s.kinds[i][k])
    && (s.kinds[i][k] != Back ==> Descends(s, i, Dest(w, s, i, k)))
  }

  /** Every entered block was entered by a scanned edge of its parent. */
  ghost predicate Entered(w: World, s: Search)
    requires Sized(w, s)
  {
    forall j :: 0 <= j < |s.order| && s.t.par[j] >= 0 ==> EnteredBy(w, s, s.t.par[j], s.via[j], j)
  }

  ghost predicate EnteredBy(w: World, s: Search, i: nat, k: nat, j: nat)
    requires Sized(w, s) && j < |s.order|
  {
    && i < |s.order| && k < |s.kinds[i]| && s.order[i] < |w.outs| && k < |w.outs[s.order[i]]|
    && w.outs[s.order[i]][k] == s.order[j]
  }

  ghost predicate PostMatches(n: nat, s: Search) {
    FillsEnd(n, s.index, s.rpost, s.t.stack)
  }

  /** Closed positions fill the end of the reverse post-order of `n` blocks. */
  ghost predicate FillsEnd(n: nat, index: seq<int>, rpost: seq<nat>, stack: seq<nat>) {
    && |rpost| <= n
    && (forall i :: 0 <= i < |index| ==> (index[i] == -1 <==> i in stack))
    && (forall i :: 0 <= i < |index| && index[i] != -1 ==>
          n - |rpost| <= index[i] < n && rpost[index[i] - (n - |rpost|)] == i)
    && (forall k :: 0 <= k < |rpost| ==> rpost[k] < |index| && index[rpost[k]] == n - |rpost| + k)
    && |rpost| + |stack| == |index|
  }

  /** No tree was started after the one with root `i`. */
  ghost predicate IsLastRoot(par: seq<int>, i: nat) {
    i < |par| && par[i] < 0 && forall j :: i < j < |par| ==> par[j] >= 0
  }

  /** The outermost open position is the root of the last tree; when none is open, that root was closed last. */
  ghost predicate LastTree(s: Search) {
    && (s.t.stack != [] ==> IsLastRoot(s.t.par, s.t.stack[0]))
    && (s.t.stack == [] && s.rpost != [] ==> IsLastRoot(s.t.par, s.rpost[0]))
  }

  ghost predicate SearchInv(w: World, n: nat, s: Search) {
    && Sized(w, s) && DfsInv(s.t) && VisitsMatch(w, s) && ScansMatch(w, s) && Entered(w, s) && PostMatches(n, s) && LastTree(s)
  }

  /** The innermost open position. */
  ghost function Cur(s: Search): nat
    requires s.t.stack != []
  {
    s.t.stack[|s.t.stack| - 1]
  }

  // ----- Entering a block

  function Put<T>(q: seq<T>, i: nat, x: T): seq<T> {
    if i < |q| then q[i := x] else q
  }

  ghost function Visit(s: Search, b: BlockId, slot: nat): Search {
    Search(Put(s.visit, b, |s.order|), s.order + [b], Enter(s.t), s.via + [slot], s.kinds + [[]], s.index + [-1], s.rpost)
  }

  /** The next out-edge of position `i` is classified. */
  ghost function Scan(s: Search, i: nat, kind: Kind): Search {
    if i < |s.kinds| then s.(kinds := s.kinds[i := s.kinds[i] + [kind]]) else s
  }

  /** The next out-edge of the innermost open block leads to a block not yet visited. */
  ghost function Descend(s: Search, b: BlockId): Search
  {
    if s.t.stack == [] || Cur(s) >= |s.kinds| then s
    else Scan(Visit(s, b, |s.kinds[Cur(s)]|), Cur(s), Tree)
  }

  ghost predicate CanClose(n: nat, s: Search) {
    && s.t.stack != [] && (forall k :: 0 <= k < |s.t.stack| ==> s.t.stack[k] < |s.t.nd|)
    && Cur(s) < |s.index| && |s.rpost| < n
  }

  ghost function Close(n: nat, s: Search): Search
  {
    if !CanClose(n, s) then s
    else s.(t := Leave(s.t), index := s.index[Cur(s) := n - |s.rpost| - 1], rpost := [Cur(s)] + s.rpost)
  }

  lemma RootKeeps(w: World, n: nat, s: Search, b: BlockId)
    requires Closed(w) && SearchInv(w, n, s) && s.t.stack == [] && b in w.blocks && s.visit[b] == -1
    ensures SearchInv(w, n, Visit(s, b, 0))
  {
    EnterKeeps(s.t);
    VisitKeepsVisits(w, n, s, b, 0);
    VisitKeepsScans(w, n, s, b, 0);
    VisitKeepsPost(w, n, s, b, 0);
    VisitKeepsLast(s, b, 0);
    hide DfsInv, VisitsMatch, ScansMatch, PostMatches, LastTree;
    RootKeepsEntered(w, n, s, b);
  }

  lemma VisitKeepsLast(s: Search, b: BlockId, slot: nat)
    requires LastTree(s)
    ensures LastTree(Visit(s, b, slot))
  {
  }

  lemma VisitKeepsVisits(w: World, n: nat, s: Search, b: BlockId, slot: nat)
    requires Closed(w) && SearchInv(w, n, s) && b in w.blocks && s.visit[b] == -1
    ensures Sized(w, Visit(s, b, slot)) && VisitsMatch(w, Visit(s, b, slot))
  {
    hide DfsInv, ScansMatch, PostMatches, Entered;
  }

  lemma VisitKeepsPost(w: World, n: nat, s: Search, b: BlockId, slot: nat)
    requires Closed(w) && SearchInv(w, n, s) && b in w.blocks && s.visit[b] == -1
    ensures PostMatches(n, Visit(s, b, slot))
  {
    hide DfsInv, ScansMatch, VisitsMatch, Entered;
    var s' := Visit(s, b, slot);
    assert s'.t.stack[|s.t.stack|] == |s.t.par|;
  }

  /** Scanned edges keep their meaning: nothing they speak of changes. */
  lemma VisitKeepsScans(w: World, n: nat, s: Search, b: BlockId, slot: nat)
    requires Closed(w) && SearchInv(w, n, s) && b in w.blocks && s.visit[b] == -1
    ensures Sized(w, Visit(s, b, slot)) && ScansMatch(w, Visit(s, b, slot))
  {
    var s' := Visit(s, b, slot);
    assert s'.t.stack[|s.t.stack|] == |s.t.par|;
    forall i, k | 0 <= i < |s'.order| && 0 <= k < |s'.kinds[i]| ensures ScanMatches(w, s', i, k) {
      assert i < |s.order| && s'.kinds[i] == s.kinds[i];
      VisitKeepsScan(w, n, s, b, slot, i, k);
    }
  }

  lemma VisitKeepsScan(w: World, n: nat, s: Search, b: BlockId, slot: nat, i: nat, k: nat)
    requires Closed(w) && SearchInv(w, n, s) && b in w.blocks && s.visit[b] == -1
    requires i < |s.order| && k < |s.kinds[i]|
    ensures Sized(w, Visit(s, b, slot)) && ScanMatches(w, Visit(s, b, slot), i, k)
  {
    var s' := Visit(s, b, slot);
    assert ScanMatches(w, s, i, k);
    var j := Dest(w, s, i, k);
    assert Dest(w, s', i, k) == j;
    ChainAppend(s.t.par, Top(s.t), i);
    ChainAppend(s.t.par, Top(s.t), j);
  }

  lemma RootKeepsEntered(w: World, n: nat, s: Search, b: BlockId)
    requires SearchInv(w, n, s) && b < |s.visit| && s.t.stack == []
    ensures Sized(w, Visit(s, b, 0)) && Entered(w, Visit(s, b, 0))
  {
    hide DfsInv, VisitsMatch, ScansMatch, PostMatches;
    var s' := Visit(s, b, 0);
    forall j | 0 <= j < |s'.order| && s'.t.par[j] >= 0 ensures EnteredBy(w, s', s'.t.par[j], s'.via[j], j) {
      assert EnteredBy(w, s, s.t.par[j], s.via[j], j);
    }
  }

  // ----- Scanning an edge

  /** Position `i`, still open, has an out-edge left to scan. */
  ghost predicate Ready(w: World, s: Search, i: nat) {
    && Sized(w, s) && i < |s.order| && i in s.t.stack && s.order[i] < |w.outs| && |s.kinds[i]| < |w.outs[s.order[i]]|
  }

  lemma ScanKeepsScans(w: World, s: Search, i: nat, kind: Kind)
    requires Ready(w, s, i) && ScansMatch(w, s)
    requires Means(s, i, |s.kinds[i]|, Dest(w, s, i, |s.kinds[i]|), kind)
    requires kind != Back ==> Descends(s, i, Dest(w, s, i, |s.kinds[i]|))
    ensures ScansMatch(w, Scan(s, i, kind))
  {
    hide Means, Descends;
    var s' := Scan(s, i, kind);
    forall a, k | 0 <= a < |s'.order| && 0 <= k < |s'.kinds[a]| ensures ScanMatches(w, s', a, k) {
      assert Dest(w, s', a, k) == Dest(w, s, a, k);
      SameMeaning(s, s', a, k, Dest(w, s, a, k), s'.kinds[a][k]);
      if k < |s.kinds[a]| { assert ScanMatches(w, s, a, k); }
    }
  }

  lemma SameMeaning(s: Search, s': Search, i: nat, k: nat, j: int, kind: Kind)
    requires |s.t.par| == |s.via| == |s.index| && i < |s.index|
    requires s'.t.par == s.t.par && s'.via == s.via && s'.index == s.index
    ensures Means(s', i, k, j, kind) == Means(s, i, k, j, kind)
    ensures Descends(s', i, j) == Descends(s, i, j)
  {
  }

  /** The rule that classifies an edge to a block already visited. */
  ghost function Classify(s: Search, i: nat, j: nat): Kind
    requires i < |s.index| && j < |s.index|
  {
    if s.index[j] == -1 then Back else if i < j then Forward else Cross
  }

  lemma ClassifyMeans(w: World, n: nat, s: Search, k: nat, j: nat)
    requires SearchInv(w, n, s) && s.t.stack != [] && j < |s.index|
    requires s.t.par[j] == Cur(s) ==> s.via[j] != k
    ensures Means(s, Cur(s), k, j, Classify(s, Cur(s), j))
    ensures Classify(s, Cur(s), j) != Back ==> Descends(s, Cur(s), j)
  {
    hide LastTree, VisitsMatch, ScansMatch, Entered, IntervalsExact, Tiled;
    var i, top := Cur(s), |s.t.stack| - 1;
    assert s.t.stack[top] == i && i in s.t.stack;
    assert s.index[i] == -1;
    ChainBound(s.t.par, i);
    if s.index[j] == -1 {
      var m :| 0 <= m < |s.t.stack| && s.t.stack[m] == j;
      assert s.t.stack[m] <= i;
    } else if i < j {
      assert s.t.stack[top] in Chain(s.t.par, j);
    } else {
      assert j !in s.t.stack;
      assert j !in Chain(s.t.par, s.t.stack[top]);
    }
  }

  /** An edge to a visited block is classified by the rule. */
  lemma ScanKeeps(w: World, n: nat, s: Search)
    requires Closed(w) && SearchInv(w, n, s) && s.t.stack != [] && Ready(w, s, Cur(s))
    requires Dest(w, s, Cur(s), |s.kinds[Cur(s)]|) != -1
    ensures 0 <= Dest(w, s, Cur(s), |s.kinds[Cur(s)]|) < |s.index|
    ensures SearchInv(w, n, Scan(s, Cur(s), Classify(s, Cur(s), Dest(w, s, Cur(s), |s.kinds[Cur(s)]|))))
  {
    hide DfsInv, PostMatches, ScansMatch;
    var i, k := Cur(s), |s.kinds[Cur(s)]|;
    var j := Dest(w, s, i, k);
    assert w.outs[s.order[i]][k] in w.blocks;
    if s.t.par[j] == i { assert EnteredBy(w, s, s.t.par[j], s.via[j], j); }
    ClassifyMeans(w, n, s, k, j);
    ScanKeepsScans(w, s, i, Classify(s, i, j));
    ScanKeepsEntered(w, n, s, i, Classify(s, i, j));
    ScanKeepsPost(n, s, i, Classify(s, i, j));
  }

  lemma ScanKeepsPost(n: nat, s: Search, i: nat, kind: Kind)
    requires PostMatches(n, s) && i < |s.kinds|
    ensures PostMatches(n, Scan(s, i, kind))
  {
  }

  lemma ScanKeepsEntered(w: World, n: nat, s: Search, i: nat, kind: Kind)
    requires Sized(w, s) && Entered(w, s) && i < |s.kinds|
    ensures Entered(w, Scan(s, i, kind))
  {
    var s' := Scan(s, i, kind);
    forall j | 0 <= j < |s'.order| && s'.t.par[j] >= 0 ensures EnteredBy(w, s', s'.t.par[j], s'.via[j], j) {
      assert EnteredBy(w, s, s.t.par[j], s.via[j], j);
    }
  }

  /** A tree edge: its target is entered below the innermost open block. */
  lemma DescendKeeps(w: World, n: nat, s: Search)
    requires Closed(w) && SearchInv(w, n, s) && s.t.stack != [] && Ready(w, s, Cur(s))
    requires Dest(w, s, Cur(s), |s.kinds[Cur(s)]|) == -1
    ensures w.outs[s.order[Cur(s)]][|s.kinds[Cur(s)]|] in w.blocks
    ensures SearchInv(w, n, Descend(s, w.outs[s.order[Cur(s)]][|s.kinds[Cur(s)]|]))
  {
    var i, k := Cur(s), |s.kinds[Cur(s)]|;
    var b := w.outs[s.order[i]][k];
    assert s.order[i] in w.blocks && b in w.blocks;
    var s1 := Visit(s, b, k);
    EnterKeeps(s.t);
    VisitKeepsVisits(w, n, s, b, k);
    VisitKeepsScans(w, n, s, b, k);
    VisitKeepsPost(w, n, s, b, k);
    TreeMeans(w, n, s, b, k);
    assert Ready(w, s1, i) && Dest(w, s1, i, k) == |s.order|;
    VisitKeepsLast(s, b, k);
    hide DfsInv, PostMatches, ScansMatch, VisitsMatch, Entered, Means, Descends;
    ScanKeepsScans(w, s1, i, Tree);
    ScanKeepsPost(n, s1, i, Tree);
    DescendEntered(w, n, s);
    assert VisitsMatch(w, Scan(s1, i, Tree)) by { ScanKeepsVisits(w, s1, i, Tree); }
  }

  lemma ScanKeepsVisits(w: World, s: Search, i: nat, kind: Kind)
    requires Sized(w, s) && VisitsMatch(w, s) && i < |s.kinds|
    ensures VisitsMatch(w, Scan(s, i, kind))
  {
  }

  lemma TreeMeans(w: World, n: nat, s: Search, b: BlockId, k: nat)
    requires SearchInv(w, n, s) && s.t.stack != [] && b < |s.visit|
    ensures Sized(w, Visit(s, b, k)) && Cur(s) < |s.order|
    ensures Means(Visit(s, b, k), Cur(s), k, |s.order|, Tree)
    ensures Descends(Visit(s, b, k), Cur(s), |s.order|)
  {
    hide LastTree, VisitsMatch, ScansMatch, Entered, IntervalsExact, Tiled;
    assert Cur(s) == Top(s.t) && Cur(s) in s.t.stack;
    EnterDescends(s.t, Cur(s));
  }

  lemma DescendEntered(w: World, n: nat, s: Search)
    requires SearchInv(w, n, s) && s.t.stack != [] && Ready(w, s, Cur(s))
    requires w.outs[s.order[Cur(s)]][|s.kinds[Cur(s)]|] < |s.visit|
    ensures Sized(w, Descend(s, w.outs[s.order[Cur(s)]][|s.kinds[Cur(s)]|]))
    ensures Entered(w, Descend(s, w.outs[s.order[Cur(s)]][|s.kinds[Cur(s)]|]))
  {
    hide DfsInv, VisitsMatch, ScansMatch, PostMatches;
    var s' := Descend(s, w.outs[s.order[Cur(s)]][|s.kinds[Cur(s)]|]);
    forall j | 0 <= j < |s'.order| && s'.t.par[j] >= 0 ensures EnteredBy(w, s', s'.t.par[j], s'.via[j], j) {
      if j < |s.order| { assert EnteredBy(w, s, s.t.par[j], s.via[j], j); }
    }
  }

  // ----- Closing a block

  lemma CloseKeeps(w: World, n: nat, s: Search)
    requires Closed(w) && SearchInv(w, n, s) && s.t.stack != [] && |s.rpost| < n
    requires |s.kinds[Cur(s)]| == |w.outs[s.order[Cur(s)]]|
    ensures SearchInv(w, n, Close(n, s))
  {
    LeaveKeeps(s.t);
    ClosePost(w, n, s);
    CloseScans(w, n, s);
    hide DfsInv, PostMatches, ScansMatch;
    var s' := Close(n, s);
    forall j | 0 <= j < |s'.order| && s'.t.par[j] >= 0 ensures EnteredBy(w, s', s'.t.par[j], s'.via[j], j) {
      assert EnteredBy(w, s, s.t.par[j], s.via[j], j);
    }
  }

  lemma ClosePost(w: World, n: nat, s: Search)
    requires SearchInv(w, n, s) && s.t.stack != [] && |s.rpost| < n
    ensures PostMatches(n, Close(n, s))
  {
    hide LastTree, VisitsMatch, ScansMatch, Entered, IntervalsExact, Tiled, OpenAbove, OpenAncestors;
    var s' := Close(n, s);
    assert CanClose(n, s);
    assert s.t.stack == s'.t.stack + [Cur(s)];
    assert Cur(s) !in s'.t.stack;
    hide DfsInv, Sized, StackTiles, Ascending;
    EndExtends(n, s.index, s.rpost, s'.t.stack, Cur(s));
  }

  lemma EndExtends(n: nat, index: seq<int>, rpost: seq<nat>, rest: seq<nat>, i: nat)
    requires FillsEnd(n, index, rpost, rest + [i]) && i !in rest && |rpost| < n && i < |index|
    ensures FillsEnd(n, index[i := n - |rpost| - 1], [i] + rpost, rest)
  {
    assert i in rest + [i];
    forall j | 0 <= j < |index| && j != i ensures j in rest <==> j in rest + [i] { }
  }

  lemma CloseScans(w: World, n: nat, s: Search)
    requires Closed(w) && SearchInv(w, n, s) && s.t.stack != [] && |s.rpost| < n
    requires |s.kinds[Cur(s)]| == |w.outs[s.order[Cur(s)]]|
    ensures Sized(w, Close(n, s)) && ScansMatch(w, Close(n, s))
  {
    var s' := Close(n, s);
    assert s.t.stack == s'.t.stack + [Cur(s)];
    forall i, k | 0 <= i < |s'.order| && 0 <= k < |s'.kinds[i]| ensures ScanMatches(w, s', i, k) {
      CloseScan(w, n, s, i, k);
    }
  }

  /** What is closed stays closed, and the block closed now closes after everything it leads to. */
  lemma CloseScan(w: World, n: nat, s: Search, i: nat, k: nat)
    requires Closed(w) && SearchInv(w, n, s) && s.t.stack != [] && |s.rpost| < n
    requires i < |s.order| && k < |s.kinds[i]|
    ensures Sized(w, Close(n, s)) && ScanMatches(w, Close(n, s), i, k)
  {
    hide LastTree, VisitsMatch, Entered, IntervalsExact, Tiled, OpenAbove, OpenAncestors;
    var s', j := Close(n, s), Dest(w, s, i, k);
    assert ScanMatches(w, s, i, k) && Dest(w, s', i, k) == j;
    assert s.t.stack[|s.t.stack| - 1] == Cur(s);
    if s.index[j] == -1 { assert j in s.t.stack && j <= Cur(s); }
  }
}
