/** Which trace to cut when every trace is stuck: the scores of the candidates. */
module BadEdges {
  import opened FlowGraph
  import opened LoopDag
  import opened TraceTree
  import opened TraceLedger

  type Branches = map<BranchId, BranchPoint>

  // ----- Distance in the branch tree

  /** The branches in use form a tree, with its depths. */
  ghost predicate Rooted(br: Branches, live: set<BranchId>, root: BranchId) {
    && root in live && live <= br.Keys && br[root].parent == None && br[root].depth == 0
    && forall b :: b in live && b != root ==> HasParent(br, live, b)
  }

  ghost predicate HasParent(br: Branches, live: set<BranchId>, b: BranchId)
    requires b in br
  {
    && br[b].parent.Some? && br[b].parent.value in live && br[b].parent.value in br
    && br[b].depth == br[br[b].parent.value].depth + 1
  }

  lemma TreeIsRooted(d: Dag, live: set<BranchId>, root: BranchId)
    requires TreeInv(d, live, root)
    ensures Rooted(d.branches, live, root)
  {
    forall b | b in live && b != root ensures HasParent(d.branches, live, b) { assert AgreesWithParent(d, live, b); }
  }

  /** A branch and its ancestors. */
  ghost function Path(br: Branches, live: set<BranchId>, root: BranchId, b: BranchId): (p: set<BranchId>)
    requires Rooted(br, live, root) && b in live
    ensures b in p && root in p && p <= live && forall c :: c in p && c != b ==> br[c].depth < br[b].depth
    decreases br[b].depth
  {
    if b == root then {b} else assert HasParent(br, live, b); {b} + Path(br, live, root, br[b].parent.value)
  }

  /** How far apart two branches are: up to the nearest common ancestor and down again. */
  ghost function Gap(br: Branches, live: set<BranchId>, root: BranchId, a: BranchId, b: BranchId): int
    requires Rooted(br, live, root) && a in live && b in live
    decreases br[b].depth
  {
    if b in Path(br, live, root, a) then br[a].depth - br[b].depth
    else
      assert HasParent(br, live, b);
      Gap(br, live, root, a, br[b].parent.value) + 1
  }

  ghost function Detour(br: Branches, a: BranchId, b: BranchId, c: BranchId): int
    requires a in br && b in br && c in br
  {
    br[a].depth + br[b].depth - 2 * br[c].depth
  }

  /** The shortest way between the branches through a common ancestor. */
  ghost predicate IsShortest(br: Branches, live: set<BranchId>, root: BranchId, a: BranchId, b: BranchId, n: int)
    requires Rooted(br, live, root) && a in live && b in live
  {
    && (forall c :: c in Path(br, live, root, a) && c in Path(br, live, root, b) ==> n <= Detour(br, a, b, c))
    && exists c :: c in Path(br, live, root, a) && c in Path(br, live, root, b) && n == Detour(br, a, b, c)
  }

  lemma {:induction false} GapIsShortest(br: Branches, live: set<BranchId>, root: BranchId, a: BranchId, b: BranchId)
    requires Rooted(br, live, root) && a in live && b in live
    ensures IsShortest(br, live, root, a, b, Gap(br, live, root, a, b))
    decreases br[b].depth
  {
    var pa, pb := Path(br, live, root, a), Path(br, live, root, b);
    if b in pa {
      assert b in pb && Gap(br, live, root, a, b) == Detour(br, a, b, b);
    } else {
      assert HasParent(br, live, b);
      var p := br[b].parent.value;
      GapIsShortest(br, live, root, a, p);
      forall c | c in pa && c in pb ensures Gap(br, live, root, a, b) <= Detour(br, a, b, c) {
        assert c in Path(br, live, root, p);
        assert Gap(br, live, root, a, p) <= Detour(br, a, p, c);
      }
      var c :| c in pa && c in Path(br, live, root, p) && Gap(br, live, root, a, p) == Detour(br, a, p, c);
      assert c in pb && Gap(br, live, root, a, b) == Detour(br, a, b, c);
    }
  }

  lemma GapSymmetric(br: Branches, live: set<BranchId>, root: BranchId, a: BranchId, b: BranchId)
    requires Rooted(br, live, root) && a in live && b in live
    ensures Gap(br, live, root, a, b) == Gap(br, live, root, b, a) >= 0
  {
    GapIsShortest(br, live, root, a, b);
    GapIsShortest(br, live, root, b, a);
    var pa, pb := Path(br, live, root, a), Path(br, live, root, b);
    var c :| c in pa && c in pb && Gap(br, live, root, a, b) == Detour(br, a, b, c);
    var c' :| c' in pa && c' in pb && Gap(br, live, root, b, a) == Detour(br, b, a, c');
    assert Detour(br, b, a, c) == Detour(br, a, b, c) && Detour(br, a, b, c') == Detour(br, b, a, c');
    assert Gap(br, live, root, a, b) <= Detour(br, a, b, c') && Gap(br, live, root, b, a) <= Detour(br, b, a, c);
  }

  ghost function Toggled(marks: set<BranchId>, p: set<BranchId>): (r: set<BranchId>)
    ensures forall b :: b in r <==> (b in marks) != (b in p)
  {
    (marks - p) + (p - marks)
  }

  /** The marks of the branch and all its ancestors are turned over. */
  method MarkPath(br: Branches, bp: BranchId, marks: set<BranchId>, ghost live: set<BranchId>, ghost root: BranchId)
    returns (marks': set<BranchId>)
    requires Rooted(br, live, root) && bp in live
    ensures marks' == Toggled(marks, Path(br, live, root, bp))
  {
    marks' := marks;
    var cur := Some(bp);
    ghost var done: set<BranchId> := {};
    while cur.Some?
      invariant cur.Some? ==> cur.value in live && Path(br, live, root, bp) == done + Path(br, live, root, cur.value)
                              && done !! Path(br, live, root, cur.value)
      invariant cur.None? ==> Path(br, live, root, bp) == done
      invariant marks' == Toggled(marks, done)
      decreases if cur.Some? then br[cur.value].depth + 1 else 0
    {
      var branch := cur.value;
      assert branch != root ==> HasParent(br, live, branch);
      marks' := if branch in marks' then marks' - {branch} else marks' + {branch};
      done := done + {branch};
      cur := br[branch].parent;
    }
  }

  /** With one branch's path marked: how far the other is from it. */
  method BranchDistance(br: Branches, marks: set<BranchId>, bp: BranchId, op2: BranchId, ghost live: set<BranchId>, ghost root: BranchId)
    returns (dist: int)
    requires Rooted(br, live, root) && bp in live && op2 in live && marks == Path(br, live, root, bp)
    ensures dist == Gap(br, live, root, bp, op2)
  {
    var depth, op2depth := br[bp].depth, br[op2].depth;
    var cur := Some(op2);
    while cur.Some?
      invariant cur.Some? && cur.value in live
      invariant Gap(br, live, root, bp, op2) == Gap(br, live, root, bp, cur.value) + (op2depth - br[cur.value].depth)
      decreases if cur.Some? then br[cur.value].depth + 1 else 0
    {
      var branch := cur.value;
      if branch in marks {
        return (depth - br[branch].depth) + (op2depth - br[branch].depth);
      }
      assert HasParent(br, live, branch);
      cur := br[branch].parent;
    }
    assert false;
    return depth + op2depth + 1;
  }

  // ----- Conflicts at an exit

  datatype BadEdgeScore = BadEdgeScore(exitproto: BlockId, trace: TraceId, distance: int, terminal: int, siblingedge: int)

  /** Siblings and distance, found so far. */
  datatype Tally = Tally(siblings: int, distance: int)

  ghost function Recorded(s: BadEdgeScore): Tally {
    Tally(s.siblingedge, s.distance)
  }

  function Noted(s: BadEdgeScore, sibling: bool, dist: int): BadEdgeScore {
    s.(siblingedge := if sibling then s.siblingedge + 1 else s.siblingedge,
       distance := if s.distance == -1 || s.distance > dist then dist else s.distance)
  }

  /** The branch tree, and the branch point of every listed trace. */
  ghost predicate InTree(d: Dag, live: set<BranchId>, root: BranchId, scores: seq<BadEdgeScore>) {
    && Rooted(d.branches, live, root)
    && forall i :: 0 <= i < |scores| ==> scores[i].trace in d.traces && d.traces[scores[i].trace].top in live
  }

  ghost function TopOf(d: Dag, live: set<BranchId>, root: BranchId, scores: seq<BadEdgeScore>, i: nat): (b: BranchId)
    requires InTree(d, live, root, scores) && i < |scores|
    ensures b in live && b in d.branches
  {
    d.traces[scores[i].trace].top
  }

  /** What the first `m` entries say about entry `i`: only those with the same exit matter. */
  ghost function Seen(d: Dag, live: set<BranchId>, root: BranchId, scores: seq<BadEdgeScore>, i: nat, m: nat): Tally
    requires InTree(d, live, root, scores) && i < |scores| && m <= |scores|
  {
    if m == 0 then Tally(0, -1)
    else
      var before := Seen(d, live, root, scores, i, m - 1);
      if m - 1 == i || scores[m - 1].exitproto != scores[i].exitproto then before
      else
        var top, other := TopOf(d, live, root, scores, i), TopOf(d, live, root, scores, m - 1);
        var gap := Gap(d.branches, live, root, top, other);
        Tally(if top == other then before.siblings + 1 else before.siblings,
              if before.distance == -1 || before.distance > gap then gap else before.distance)
  }

  /** Only the counters differ. */
  ghost predicate SameEntries(scores: seq<BadEdgeScore>, scores': seq<BadEdgeScore>) {
    && |scores'| == |scores|
    && forall i :: 0 <= i < |scores| ==> scores'[i].(siblingedge := 0, distance := -1) == scores[i].(siblingedge := 0, distance := -1)
  }

  lemma {:induction false} SameSeen(d: Dag, live: set<BranchId>, root: BranchId, scores: seq<BadEdgeScore>, scores': seq<BadEdgeScore>, i: nat, m: nat)
    requires InTree(d, live, root, scores) && SameEntries(scores, scores') && i < |scores| && m <= |scores|
    ensures InTree(d, live, root, scores') && Seen(d, live, root, scores', i, m) == Seen(d, live, root, scores, i, m)
  {
    assert forall k :: 0 <= k < |scores| ==> scores'[k].trace == scores[k].trace && scores'[k].exitproto == scores[k].exitproto;
    if m > 0 { SameSeen(d, live, root, scores, scores', i, m - 1); }
  }

  lemma {:induction false} NothingSeen(d: Dag, live: set<BranchId>, root: BranchId, scores: seq<BadEdgeScore>, i: nat, m: nat, n: nat)
    requires InTree(d, live, root, scores) && i < |scores| && m <= n <= |scores|
    requires forall j :: m <= j < n && j != i ==> scores[j].exitproto != scores[i].exitproto
    ensures Seen(d, live, root, scores, i, n) == Seen(d, live, root, scores, i, m)
    decreases n
  {
    if m < n { NothingSeen(d, live, root, scores, i, m, n - 1); }
  }

  /** One exit, from `start` to `end`. */
  ghost predicate OneExit(scores: seq<BadEdgeScore>, start: nat, end: nat) {
    start <= end <= |scores| && forall i, j :: start <= i < end && start <= j < end ==> scores[i].exitproto == scores[j].exitproto
  }

  /** How much of the group entry `i` has been compared with, when `s` is being compared with `k`. */
  ghost function Compared(s: nat, k: nat, end: nat, i: nat): nat {
    if i < s then end else if i == s then k else if i < k then s + 1 else s
  }

  ghost predicate Half(d: Dag, live: set<BranchId>, root: BranchId, list: seq<BadEdgeScore>, scores: seq<BadEdgeScore>,
                       start: nat, end: nat, s: nat, k: nat)
  {
    && InTree(d, live, root, list) && SameEntries(list, scores) && OneExit(list, start, end) && start <= s <= end && k <= end
    && (forall i :: 0 <= i < |list| && !(start <= i < end) ==> scores[i] == list[i])
    && forall i :: start <= i < end && Compared(s, k, end, i) <= |list| ==>
         Recorded(scores[i]) == Seen(d, live, root, list, i, Compared(s, k, end, i))
  }

  /** One more entry with the same exit. */
  lemma SeenNext(d: Dag, live: set<BranchId>, root: BranchId, list: seq<BadEdgeScore>, score: BadEdgeScore, i: nat, m: nat)
    requires InTree(d, live, root, list) && i < |list| && m < |list| && m != i && list[m].exitproto == list[i].exitproto
    requires Recorded(score) == Seen(d, live, root, list, i, m)
    ensures InTree(d, live, root, list) && Rooted(d.branches, live, root)
    ensures var top, other := TopOf(d, live, root, list, i), TopOf(d, live, root, list, m);
            Recorded(Noted(score, top == other, Gap(d.branches, live, root, top, other))) == Seen(d, live, root, list, i, m + 1)
  {
    hide Gap, Rooted;
  }

  /** One comparison, noted at both entries. */
  lemma CompareKeeps(d: Dag, live: set<BranchId>, root: BranchId, list: seq<BadEdgeScore>, scores: seq<BadEdgeScore>,
                     start: nat, end: nat, s: nat, k: nat)
    requires Half(d, live, root, list, scores, start, end, s, k) && start <= s < k < end
    ensures var top, other := TopOf(d, live, root, list, s), TopOf(d, live, root, list, k);
            var dist := Gap(d.branches, live, root, top, other);
            Half(d, live, root, list, scores[s := Noted(scores[s], top == other, dist)][k := Noted(scores[k], top == other, dist)],
                 start, end, s, k + 1)
  {
    hide Gap, Rooted, Seen;
    var top, other := TopOf(d, live, root, list, s), TopOf(d, live, root, list, k);
    var dist := Gap(d.branches, live, root, top, other);
    assert list[s].exitproto == list[k].exitproto;
    assert Compared(s, k, end, s) == k && Compared(s, k, end, k) == s;
    SeenNext(d, live, root, list, scores[s], s, k);
    SeenNext(d, live, root, list, scores[k], k, s);
    GapSymmetric(d.branches, live, root, top, other);
    var scores' := scores[s := Noted(scores[s], top == other, dist)][k := Noted(scores[k], top == other, dist)];
    forall i | start <= i < end ensures Recorded(scores'[i]) == Seen(d, live, root, list, i, Compared(s, k + 1, end, i)) {
      assert Recorded(scores[i]) == Seen(d, live, root, list, i, Compared(s, k, end, i));
    }
  }

  lemma SeenSelf(d: Dag, live: set<BranchId>, root: BranchId, list: seq<BadEdgeScore>, i: nat)
    requires InTree(d, live, root, list) && i < |list|
    ensures Seen(d, live, root, list, i, i + 1) == Seen(d, live, root, list, i, i)
  {
  }

  lemma FirstRow(d: Dag, live: set<BranchId>, root: BranchId, list: seq<BadEdgeScore>, start: nat, end: nat)
    requires InTree(d, live, root, list) && OneExit(list, start, end)
    requires forall i :: start <= i < end ==> Recorded(list[i]) == Seen(d, live, root, list, i, start)
    ensures Half(d, live, root, list, list, start, end, start, if start < end then start + 1 else end)
  {
    hide Seen, Rooted;
    if start < end { SeenSelf(d, live, root, list, start); }
  }

  lemma NextRow(d: Dag, live: set<BranchId>, root: BranchId, list: seq<BadEdgeScore>, scores: seq<BadEdgeScore>,
                start: nat, end: nat, s: nat)
    requires Half(d, live, root, list, scores, start, end, s, end) && s < end
    ensures Half(d, live, root, list, scores, start, end, s + 1, if s + 1 < end then s + 2 else end)
  {
    hide Seen, Rooted, Recorded;
    if s + 1 < end { SeenSelf(d, live, root, list, s + 1); }
    var k := if s + 1 < end then s + 2 else end;
    forall i | start <= i < end ensures Recorded(scores[i]) == Seen(d, live, root, list, i, Compared(s + 1, k, end, i)) {
      assert Recorded(scores[i]) == Seen(d, live, root, list, i, Compared(s, end, end, i));
    }
  }

  /** Every two entries with one exit are compared: each counts its siblings and finds its nearest rival. */
  method ProcessExitConflict(d: Dag, list: seq<BadEdgeScore>, start: nat, end: nat, marks: set<BranchId>,
                             ghost live: set<BranchId>, ghost root: BranchId)
    returns (scores: seq<BadEdgeScore>, marks': set<BranchId>)
    requires InTree(d, live, root, list) && OneExit(list, start, end) && marks == {}
    requires forall i :: start <= i < end ==> Recorded(list[i]) == Seen(d, live, root, list, i, start)
    ensures SameEntries(list, scores) && marks' == {}
    ensures forall i :: start <= i < end ==> Recorded(scores[i]) == Seen(d, live, root, list, i, end)
    ensures forall i :: 0 <= i < |list| && !(start <= i < end) ==> scores[i] == list[i]
  {
    hide Gap, Path, Rooted, Seen;
    scores, marks' := list, marks;
    FirstRow(d, live, root, list, start, end);
    var s := start;
    while s != end
      invariant start <= s <= end && marks' == {}
      invariant Half(d, live, root, list, scores, start, end, s, if s < end then s + 1 else end)
      decreases end - s
    {
      var iter := s + 1;
      var startbp := d.traces[scores[s].trace].top;
      if iter != end {
        marks' := MarkPath(d.branches, startbp, marks', live, root);
        assert marks' == Path(d.branches, live, root, startbp);
        while iter < end
          invariant s < iter <= end && marks' == Path(d.branches, live, root, startbp) && startbp == TopOf(d, live, root, list, s)
          invariant Half(d, live, root, list, scores, start, end, s, iter)
        {
          var iterbp := d.traces[scores[iter].trace].top;
          var dist := BranchDistance(d.branches, marks', startbp, iterbp, live, root);
          CompareKeeps(d, live, root, list, scores, start, end, s, iter);
          scores := scores[s := Noted(scores[s], startbp == iterbp, dist)];
          scores := scores[iter := Noted(scores[iter], startbp == iterbp, dist)];
          iter := iter + 1;
        }
        marks' := MarkPath(d.branches, startbp, marks', live, root);
        assert marks' == {};
      }
      NextRow(d, live, root, list, scores, start, end, s);
      s := s + 1;
    }
  }

  // ----- The order of the list

  datatype Key = Key(exit: int, top: int, pathout: int)

  predicate KeyLess(a: Key, b: Key) {
    if a.exit != b.exit then a.exit < b.exit else if a.top != b.top then a.top < b.top else a.pathout < b.pathout
  }

  function IndexOf(index: seq<int>, b: BlockId): (i: int)
    ensures b < |index| ==> i == index[b]
  {
    if b < |index| then index[b] else 0
  }

  predicate KnownTrace(d: Dag, t: TraceId) {
    t in d.traces && d.traces[t].top in d.branches
  }

  ghost predicate Known(d: Dag, scores: seq<BadEdgeScore>) {
    forall i :: 0 <= i < |scores| ==> KnownTrace(d, scores[i].trace)
  }

  function KeyOf(d: Dag, index: seq<int>, s: BadEdgeScore): Key
    requires KnownTrace(d, s.trace)
  {
    var top := d.branches[d.traces[s.trace].top].top;
    Key(IndexOf(index, s.exitproto), if top.Some? then IndexOf(index, top.value) else -1, d.traces[s.trace].pathout)
  }

  /** The index of the block a trace branches from, -1 for the virtual root. */
  ghost function BranchIndex(d: Dag, index: seq<int>, s: BadEdgeScore): int
    requires KnownTrace(d, s.trace)
  {
    match d.branches[d.traces[s.trace].top].top
    case Some(bl) => IndexOf(index, bl)
    case None => -1
  }

  /** The order of the list: `a` has no later exit; with the same exit it branches from no later block;
      with the same block its path is no later. */
  ghost predicate NotAfter(d: Dag, index: seq<int>, a: BadEdgeScore, b: BadEdgeScore)
    requires KnownTrace(d, a.trace) && KnownTrace(d, b.trace)
  {
    var exitA, exitB := IndexOf(index, a.exitproto), IndexOf(index, b.exitproto);
    var branchA, branchB := BranchIndex(d, index, a), BranchIndex(d, index, b);
    && exitA <= exitB
    && (exitA == exitB ==> branchA <= branchB)
    && (exitA == exitB && branchA == branchB ==> d.traces[a.trace].pathout <= d.traces[b.trace].pathout)
  }

  /** By index of the exit, then of the branch point, then by path. */
  predicate LessThan(d: Dag, index: seq<int>, a: BadEdgeScore, b: BadEdgeScore): (r: bool)
    requires KnownTrace(d, a.trace) && KnownTrace(d, b.trace)
    ensures r <==> !NotAfter(d, index, b, a)
  {
    KeyLess(KeyOf(d, index, a), KeyOf(d, index, b))
  }

  ghost predicate Sorted(d: Dag, index: seq<int>, scores: seq<BadEdgeScore>) {
    Known(d, scores) && forall i, j :: 0 <= i < j < |scores| ==> !LessThan(d, index, scores[j], scores[i])
  }

  /** The entry goes before the first that is not less. */
  function Inserted(d: Dag, index: seq<int>, s: BadEdgeScore, scores: seq<BadEdgeScore>): (r: seq<BadEdgeScore>)
    requires KnownTrace(d, s.trace) && Known(d, scores)
  {
    if scores == [] then [s]
    else if LessThan(d, index, scores[0], s) then [scores[0]] + Inserted(d, index, s, scores[1..])
    else [s] + scores
  }

  lemma {:induction false} InsertedElements(d: Dag, index: seq<int>, s: BadEdgeScore, scores: seq<BadEdgeScore>)
    requires KnownTrace(d, s.trace) && Known(d, scores)
    ensures multiset(Inserted(d, index, s, scores)) == multiset(scores) + multiset{s}
  {
    hide KnownTrace, LessThan;
    if scores != [] {
      var tail := scores[1..];
      assert scores == [scores[0]] + tail;
      InsertedElements(d, index, s, tail);
      var rest := Inserted(d, index, s, tail);
      assert multiset([scores[0]] + rest) == multiset{scores[0]} + multiset(rest);
      assert multiset([s] + scores) == multiset{s} + multiset(scores);
    }
  }

  lemma InsertedKnown(d: Dag, index: seq<int>, s: BadEdgeScore, scores: seq<BadEdgeScore>)
    requires KnownTrace(d, s.trace) && Known(d, scores)
    ensures forall i :: 0 <= i < |Inserted(d, index, s, scores)| ==>
      Inserted(d, index, s, scores)[i] == s || Inserted(d, index, s, scores)[i] in scores
    ensures Known(d, Inserted(d, index, s, scores))
  {
    hide KnownTrace, LessThan;
    var r := Inserted(d, index, s, scores);
    InsertedElements(d, index, s, scores);
    forall i | 0 <= i < |r| ensures r[i] == s || r[i] in scores {
      assert r[i] in multiset(r);
      assert r[i] in multiset(scores) + multiset{s};
    }
  }

  lemma LessTrans(d: Dag, index: seq<int>, a: BadEdgeScore, b: BadEdgeScore, c: BadEdgeScore)
    requires KnownTrace(d, a.trace) && KnownTrace(d, b.trace) && KnownTrace(d, c.trace)
    requires !LessThan(d, index, b, a) && !LessThan(d, index, c, b)
    ensures !LessThan(d, index, c, a)
  {
  }

  lemma LessAsym(d: Dag, index: seq<int>, a: BadEdgeScore, b: BadEdgeScore)
    requires KnownTrace(d, a.trace) && KnownTrace(d, b.trace) && LessThan(d, index, a, b)
    ensures !LessThan(d, index, b, a)
  {
  }

  lemma {:induction false} InsertedSorted(d: Dag, index: seq<int>, s: BadEdgeScore, scores: seq<BadEdgeScore>)
    requires KnownTrace(d, s.trace) && Sorted(d, index, scores)
    ensures Sorted(d, index, Inserted(d, index, s, scores))
  {
    hide KnownTrace, LessThan;
    if scores != [] {
      var tail := scores[1..];
      if LessThan(d, index, scores[0], s) {
        InsertedSorted(d, index, s, tail);
        InsertedKnown(d, index, s, tail);
        LessAsym(d, index, scores[0], s);
        var rest := Inserted(d, index, s, tail);
        forall j | 0 <= j < |rest| ensures !LessThan(d, index, rest[j], scores[0]) {
          if rest[j] != s {
            var k :| 0 <= k < |tail| && tail[k] == rest[j];
            assert scores[k + 1] == rest[j];
          }
        }
      } else {
        InsertedKnown(d, index, s, scores);
        forall j | 0 <= j < |scores| ensures !LessThan(d, index, scores[j], s) {
          if j > 0 { LessTrans(d, index, s, scores[0], scores[j]); }
        }
      }
    }
  }

  /** A stable sort. */
  function SortScores(d: Dag, index: seq<int>, scores: seq<BadEdgeScore>): (r: seq<BadEdgeScore>)
    requires Known(d, scores)
    ensures Sorted(d, index, r) && multiset(r) == multiset(scores)
  {
    if scores == [] then []
    else
      var rest := SortScores(d, index, scores[1..]);
      assert scores == [scores[0]] + scores[1..];
      InsertedElements(d, index, scores[0], rest);
      InsertedKnown(d, index, scores[0], rest);
      InsertedSorted(d, index, scores[0], rest);
      Inserted(d, index, scores[0], rest)
  }

  /** Entries with one exit stand together. */
  ghost predicate Grouped(scores: seq<BadEdgeScore>) {
    forall i, j, k :: 0 <= i <= j <= k < |scores| && scores[i].exitproto == scores[k].exitproto ==> scores[j].exitproto == scores[i].exitproto
  }

  /** Different exits have different indices. */
  ghost predicate ExitsApart(index: seq<int>, scores: seq<BadEdgeScore>) {
    forall i, j :: 0 <= i < |scores| && 0 <= j < |scores| && IndexOf(index, scores[i].exitproto) == IndexOf(index, scores[j].exitproto) ==>
      scores[i].exitproto == scores[j].exitproto
  }

  lemma SortedIsGrouped(d: Dag, index: seq<int>, scores: seq<BadEdgeScore>)
    requires Sorted(d, index, scores) && ExitsApart(index, scores)
    ensures Grouped(scores)
  {
    forall i, j, k | 0 <= i <= j <= k < |scores| && scores[i].exitproto == scores[k].exitproto
      ensures scores[j].exitproto == scores[i].exitproto
    {
      if i < j < k {
        assert !LessThan(d, index, scores[j], scores[i]) && !LessThan(d, index, scores[k], scores[j]);
      }
    }
  }

  // ----- All conflicts

  ghost predicate Fresh(scores: seq<BadEdgeScore>) {
    forall i :: 0 <= i < |scores| ==> Recorded(scores[i]) == Tally(0, -1)
  }

  /** A group that nothing outside shares its exit with: what it says about its entries is all there is. */
  lemma GroupSeesAll(d: Dag, live: set<BranchId>, root: BranchId, list: seq<BadEdgeScore>, start: nat, end: nat, i: nat)
    requires InTree(d, live, root, list) && Grouped(list) && OneExit(list, start, end) && start <= i < end
    requires start > 0 ==> list[start - 1].exitproto != list[start].exitproto
    requires end < |list| ==> list[end].exitproto != list[start].exitproto
    ensures Seen(d, live, root, list, i, start) == Tally(0, -1)
    ensures Seen(d, live, root, list, i, end) == Seen(d, live, root, list, i, |list|)
    ensures end == start + 1 ==> Seen(d, live, root, list, i, |list|) == Tally(0, -1)
  {
    assert list[i].exitproto == list[start].exitproto;
    assert forall j :: 0 <= j < start ==> list[j].exitproto != list[i].exitproto;
    assert forall j :: end <= j < |list| ==> list[j].exitproto != list[i].exitproto;
    NothingSeen(d, live, root, list, i, 0, start);
    NothingSeen(d, live, root, list, i, end, |list|);
    if end == start + 1 { NothingSeen(d, live, root, list, i, 0, |list|); }
  }

  /** The first entries are scored, the others untouched. */
  ghost predicate ScoredTo(d: Dag, live: set<BranchId>, root: BranchId, list: seq<BadEdgeScore>, scores: seq<BadEdgeScore>, n: nat) {
    && InTree(d, live, root, list) && SameEntries(list, scores) && n <= |list|
    && (forall i :: 0 <= i < n ==> Recorded(scores[i]) == Seen(d, live, root, list, i, |list|))
    && forall i :: n <= i < |list| ==> scores[i] == list[i]
  }

  /** A group is a stretch of one exit, bounded by others. */
  ghost predicate Group(list: seq<BadEdgeScore>, start: nat, end: nat) {
    && OneExit(list, start, end) && start < end
    && (start > 0 ==> list[start - 1].exitproto != list[start].exitproto)
    && (end < |list| ==> list[end].exitproto != list[start].exitproto)
  }

  method EndGroup(d: Dag, list: seq<BadEdgeScore>, current: seq<BadEdgeScore>, start: nat, end: nat, marks: set<BranchId>,
                  ghost live: set<BranchId>, ghost root: BranchId)
    returns (scores: seq<BadEdgeScore>, marks': set<BranchId>)
    requires ScoredTo(d, live, root, list, current, start) && Fresh(list) && Grouped(list) && Group(list, start, end) && marks == {}
    ensures ScoredTo(d, live, root, list, scores, end) && marks' == {}
  {
    hide Seen, Rooted, Grouped;
    forall i | start <= i < end
      ensures Seen(d, live, root, list, i, start) == Tally(0, -1)
      ensures Seen(d, live, root, list, i, end) == Seen(d, live, root, list, i, |list|)
      ensures end == start + 1 ==> Seen(d, live, root, list, i, |list|) == Tally(0, -1)
    {
      GroupSeesAll(d, live, root, list, start, end, i);
    }
    scores, marks' := current, marks;
    if end - start > 1 {
      forall i, m: nat | 0 <= i < |list| && m <= |list|
        ensures InTree(d, live, root, current) && Seen(d, live, root, current, i, m) == Seen(d, live, root, list, i, m)
      {
        SameSeen(d, live, root, list, current, i, m);
      }
      scores, marks' := ProcessExitConflict(d, current, start, end, marks, live, root);
    }
  }

  /** Every group of two or more entries with one exit is processed. */
  method ScoreConflicts(d: Dag, list: seq<BadEdgeScore>, ghost live: set<BranchId>, ghost root: BranchId)
    returns (scores: seq<BadEdgeScore>)
    requires InTree(d, live, root, list) && Fresh(list) && Grouped(list) && list != []
    ensures ScoredTo(d, live, root, list, scores, |list|)
  {
    hide Seen, Rooted, Grouped;
    scores := list;
    var marks := {};
    var iter, startiter := 1, 0;
    var curbl := scores[0].exitproto;
    while iter < |scores|
      invariant startiter < iter <= |list| && marks == {} && ScoredTo(d, live, root, list, scores, startiter)
      invariant OneExit(list, startiter, iter) && curbl == list[startiter].exitproto
      invariant startiter > 0 ==> list[startiter - 1].exitproto != list[startiter].exitproto
    {
      if curbl != scores[iter].exitproto {
        scores, marks := EndGroup(d, list, scores, startiter, iter, marks, live, root);
        curbl := scores[iter].exitproto;
        startiter := iter;
      }
      iter := iter + 1;
    }
    scores, marks := EndGroup(d, list, scores, startiter, iter, marks, live, root);
  }

  // ----- The choice

  ghost function Depth(d: Dag, s: BadEdgeScore): int
    requires KnownTrace(d, s.trace)
  {
    d.branches[d.traces[s.trace].top].depth
  }

  /** `a` has no more siblings; with as many, `b` leads to no dead end unless `a` does; then `b` has no
      greater distance, and then no greater depth. */
  ghost predicate AsGood(d: Dag, a: BadEdgeScore, b: BadEdgeScore)
    requires KnownTrace(d, a.trace) && KnownTrace(d, b.trace)
  {
    && a.siblingedge <= b.siblingedge
    && (a.siblingedge == b.siblingedge ==> b.terminal <= a.terminal)
    && (a.siblingedge == b.siblingedge && a.terminal == b.terminal ==> b.distance <= a.distance)
    && (SameRank(a, b) ==> Depth(d, b) <= Depth(d, a))
  }

  /** Nothing but the depth tells the two apart. */
  ghost predicate SameRank(a: BadEdgeScore, b: BadEdgeScore) {
    a.siblingedge == b.siblingedge && a.terminal == b.terminal && a.distance == b.distance
  }

  /** More siblings are worse; then no way on is better; then a greater distance; then a greater depth. */
  predicate CompareFinal(d: Dag, a: BadEdgeScore, b: BadEdgeScore): (r: bool)
    requires KnownTrace(d, a.trace) && KnownTrace(d, b.trace)
    ensures r <==> !AsGood(d, a, b)
  {
    if a.siblingedge != b.siblingedge then b.siblingedge < a.siblingedge
    else if a.terminal != b.terminal then a.terminal < b.terminal
    else if a.distance != b.distance then a.distance < b.distance
    else d.branches[d.traces[a.trace].top].depth < d.branches[d.traces[b.trace].top].depth
  }

  /** The first of the best entries. */
  method FirstBest(d: Dag, scores: seq<BadEdgeScore>) returns (maxiter: nat)
    requires Known(d, scores) && scores != []
    ensures maxiter < |scores|
    ensures forall p :: 0 <= p < |scores| ==> AsGood(d, scores[maxiter], scores[p])
    ensures forall p :: 0 <= p < maxiter ==> !AsGood(d, scores[p], scores[maxiter])
  {
    maxiter := 0;
    for position := 1 to |scores|
      invariant maxiter < position
      invariant forall p :: 0 <= p < position ==> AsGood(d, scores[maxiter], scores[p])
      invariant forall p :: 0 <= p < maxiter ==> !AsGood(d, scores[p], scores[maxiter])
    {
      if CompareFinal(d, scores[maxiter], scores[position]) {
        maxiter := position;
      }
    }
  }

  // ----- What a score means

  /** The other candidates that lead to the same block. */
  ghost function Rivals(d: Dag, t: TraceId): set<TraceId>
    requires t in d.traces
  {
    set x | x in d.active && KnownTrace(d, x) && IsCandidate(d, x) && x != t && d.traces[x].destnode == d.traces[t].destnode
  }

  ghost function Siblings(d: Dag, t: TraceId): set<TraceId>
    requires t in d.traces
  {
    set x | x in Rivals(d, t) && x in d.traces && d.traces[x].top == d.traces[t].top
  }

  ghost predicate AllLive(d: Dag, live: set<BranchId>, root: BranchId) {
    Rooted(d.branches, live, root) && forall x :: x in d.active ==> x in d.traces && d.traces[x].top in live
  }

  /** How far apart the branch points of two traces are. */
  ghost function Apart(d: Dag, live: set<BranchId>, root: BranchId, t: TraceId, x: TraceId): int
    requires AllLive(d, live, root) && t in d.active && x in d.active
  {
    Gap(d.branches, live, root, d.traces[t].top, d.traces[x].top)
  }

  /** The distance to the nearest rival, -1 without one. */
  ghost predicate IsNearest(d: Dag, live: set<BranchId>, root: BranchId, t: TraceId, n: int)
    requires AllLive(d, live, root) && t in d.active
  {
    if Rivals(d, t) == {} then n == -1
    else
      && (forall x :: x in Rivals(d, t) ==> n <= Apart(d, live, root, t, x))
      && (exists x :: x in Rivals(d, t) && n == Apart(d, live, root, t, x))
  }

  /** A block without out-edges. */
  ghost predicate DeadEnd(g: Graph, b: BlockId) {
    b < |g.outofthis| && g.outofthis[b] == []
  }

  function Terminal(g: Graph, exit: BlockId): (n: int)
    ensures n == if DeadEnd(g, exit) then 1 else 0
  {
    if exit < |g.outofthis| && |g.outofthis[exit]| == 0 then 1 else 0
  }

  /** The score of a candidate, said without the list it was computed from. */
  ghost predicate IsScore(g: Graph, d: Dag, live: set<BranchId>, root: BranchId, s: BadEdgeScore)
    requires AllLive(d, live, root)
  {
    && s.trace in d.active && d.traces[s.trace].destnode == Some(s.exitproto)
    && s.siblingedge == |Siblings(d, s.trace)| && IsNearest(d, live, root, s.trace, s.distance)
    && s.terminal == if DeadEnd(g, s.exitproto) then 1 else 0
  }

  /** The list holds every candidate once. */
  ghost predicate Lists(g: Graph, d: Dag, scores: seq<BadEdgeScore>) {
    && (forall i :: 0 <= i < |scores| ==> ListsOne(g, d, scores[i]))
    && (forall i, j :: 0 <= i < j < |scores| ==> scores[i].trace != scores[j].trace)
    && (forall x :: x in d.active && KnownTrace(d, x) && IsCandidate(d, x) ==> exists i :: 0 <= i < |scores| && scores[i].trace == x)
  }

  ghost predicate ListsOne(g: Graph, d: Dag, s: BadEdgeScore) {
    && s.trace in d.active && KnownTrace(d, s.trace) && IsCandidate(d, s.trace) && d.traces[s.trace].destnode == Some(s.exitproto)
    && s.terminal == Terminal(g, s.exitproto)
  }

  /** Entry `j` competes with entry `i`. */
  ghost predicate Competes(scores: seq<BadEdgeScore>, i: nat, j: nat) {
    i < |scores| && j < |scores| && j != i && scores[j].exitproto == scores[i].exitproto
  }

  ghost function SiblingsTo(d: Dag, scores: seq<BadEdgeScore>, i: nat, m: nat): set<TraceId>
    requires Known(d, scores) && i < |scores| && m <= |scores|
  {
    set j: nat | j < m && Competes(scores, i, j) && d.traces[scores[j].trace].top == d.traces[scores[i].trace].top :: scores[j].trace
  }

  lemma {:induction false} SeenSiblings(d: Dag, live: set<BranchId>, root: BranchId, scores: seq<BadEdgeScore>, i: nat, m: nat)
    requires InTree(d, live, root, scores) && Known(d, scores) && i < |scores| && m <= |scores|
    requires forall j, k :: 0 <= j < k < |scores| ==> scores[j].trace != scores[k].trace
    ensures Seen(d, live, root, scores, i, m).siblings == |SiblingsTo(d, scores, i, m)|
  {
    hide Gap, Rooted, KnownTrace;
    if m > 0 {
      SeenSiblings(d, live, root, scores, i, m - 1);
      SiblingsNext(d, scores, i, m - 1);
    }
  }

  lemma SiblingsNext(d: Dag, scores: seq<BadEdgeScore>, i: nat, m: nat)
    requires Known(d, scores) && i < |scores| && m < |scores|
    requires forall j, k :: 0 <= j < k < |scores| ==> scores[j].trace != scores[k].trace
    ensures |SiblingsTo(d, scores, i, m + 1)| == |SiblingsTo(d, scores, i, m)| +
      if Competes(scores, i, m) && d.traces[scores[m].trace].top == d.traces[scores[i].trace].top then 1 else 0
  {
    var before, after := SiblingsTo(d, scores, i, m), SiblingsTo(d, scores, i, m + 1);
    if Competes(scores, i, m) && d.traces[scores[m].trace].top == d.traces[scores[i].trace].top {
      assert after == before + {scores[m].trace} && scores[m].trace !in before;
    } else {
      assert after == before;
    }
  }

  /** The least distance to a competitor among the first `m` entries. */
  ghost predicate LeastTo(d: Dag, live: set<BranchId>, root: BranchId, scores: seq<BadEdgeScore>, i: nat, m: nat, n: int)
    requires InTree(d, live, root, scores) && i < |scores| && m <= |scores|
  {
    if forall j: nat :: j < m ==> !Competes(scores, i, j) then n == -1
    else
      && n >= 0
      && (forall j: nat :: j < m && Competes(scores, i, j) ==>
            n <= Gap(d.branches, live, root, TopOf(d, live, root, scores, i), TopOf(d, live, root, scores, j)))
      && (exists j: nat :: j < m && Competes(scores, i, j) &&
            n == Gap(d.branches, live, root, TopOf(d, live, root, scores, i), TopOf(d, live, root, scores, j)))
  }

  lemma LeastNext(d: Dag, live: set<BranchId>, root: BranchId, scores: seq<BadEdgeScore>, i: nat, m: nat, n: int)
    requires InTree(d, live, root, scores) && i < |scores| && 0 < m <= |scores| && LeastTo(d, live, root, scores, i, m - 1, n)
    requires Gap(d.branches, live, root, TopOf(d, live, root, scores, i), TopOf(d, live, root, scores, m - 1)) >= 0
    ensures var gap := Gap(d.branches, live, root, TopOf(d, live, root, scores, i), TopOf(d, live, root, scores, m - 1));
            LeastTo(d, live, root, scores, i, m, if !Competes(scores, i, m - 1) then n else if n == -1 || n > gap then gap else n)
  {
    hide Gap, Rooted, Competes, TopOf;
    if forall j: nat :: j < m - 1 ==> !Competes(scores, i, j) {
      assert Competes(scores, i, m - 1) ==> !(forall j: nat :: j < m ==> !Competes(scores, i, j));
    } else {
      var j: nat :| j < m - 1 && Competes(scores, i, j);
      assert !(forall j: nat :: j < m ==> !Competes(scores, i, j));
    }
  }

  lemma {:induction false} SeenDistance(d: Dag, live: set<BranchId>, root: BranchId, scores: seq<BadEdgeScore>, i: nat, m: nat)
    requires InTree(d, live, root, scores) && i < |scores| && m <= |scores|
    ensures LeastTo(d, live, root, scores, i, m, Seen(d, live, root, scores, i, m).distance)
  {
    hide Gap, Rooted;
    if m > 0 {
      SeenDistance(d, live, root, scores, i, m - 1);
      GapSymmetric(d.branches, live, root, TopOf(d, live, root, scores, i), TopOf(d, live, root, scores, m - 1));
      LeastNext(d, live, root, scores, i, m, Seen(d, live, root, scores, i, m - 1).distance);
    }
  }

  /** A finished score is that of its candidate. */
  lemma ScoredMeans(g: Graph, d: Dag, live: set<BranchId>, root: BranchId, list: seq<BadEdgeScore>, scores: seq<BadEdgeScore>, i: nat)
    requires ScoredTo(d, live, root, list, scores, |list|) && Lists(g, d, list) && Known(d, list) && i < |list| && AllLive(d, live, root)
    ensures IsScore(g, d, live, root, scores[i])
  {
    hide Seen, Gap, Rooted;
    var t := list[i].trace;
    SeenSiblings(d, live, root, list, i, |list|);
    SeenDistance(d, live, root, list, i, |list|);
    SiblingsAre(g, d, list, i);
    NearestIs(g, d, live, root, list, i, Seen(d, live, root, list, i, |list|).distance);
    assert scores[i].(siblingedge := 0, distance := -1) == list[i].(siblingedge := 0, distance := -1);
    assert ListsOne(g, d, list[i]);
    assert scores[i].trace == t && scores[i].exitproto == list[i].exitproto && scores[i].terminal == list[i].terminal;
  }

  lemma CompetesIsRival(g: Graph, d: Dag, list: seq<BadEdgeScore>, i: nat, j: nat)
    requires Lists(g, d, list) && i < |list| && j < |list|
    ensures Competes(list, i, j) <==> list[j].trace in Rivals(d, list[i].trace)
  {
    assert ListsOne(g, d, list[i]) && ListsOne(g, d, list[j]);
  }

  lemma RivalIsListed(g: Graph, d: Dag, list: seq<BadEdgeScore>, i: nat, x: TraceId) returns (j: nat)
    requires Lists(g, d, list) && i < |list| && ListsOne(g, d, list[i]) && x in Rivals(d, list[i].trace)
    ensures j < |list| && list[j].trace == x && Competes(list, i, j)
  {
    j :| 0 <= j < |list| && list[j].trace == x;
    CompetesIsRival(g, d, list, i, j);
  }

  lemma SiblingsAre(g: Graph, d: Dag, list: seq<BadEdgeScore>, i: nat)
    requires Lists(g, d, list) && Known(d, list) && i < |list|
    ensures SiblingsTo(d, list, i, |list|) == Siblings(d, list[i].trace)
  {
    var t := list[i].trace;
    assert ListsOne(g, d, list[i]);
    forall x | x in SiblingsTo(d, list, i, |list|) ensures x in Siblings(d, t) {
      var j: nat :| j < |list| && Competes(list, i, j) && list[j].trace == x && d.traces[list[j].trace].top == d.traces[t].top;
      CompetesIsRival(g, d, list, i, j);
    }
    forall x | x in Siblings(d, t) ensures x in SiblingsTo(d, list, i, |list|) {
      var j := RivalIsListed(g, d, list, i, x);
    }
  }

  lemma NearestIs(g: Graph, d: Dag, live: set<BranchId>, root: BranchId, list: seq<BadEdgeScore>, i: nat, n: int)
    requires InTree(d, live, root, list) && Lists(g, d, list) && i < |list| && AllLive(d, live, root)
    requires LeastTo(d, live, root, list, i, |list|, n)
    ensures list[i].trace in d.active && IsNearest(d, live, root, list[i].trace, n)
  {
    hide Gap, Rooted, Lists, Competes, Rivals;
    var t := list[i].trace;
    assert ListsOne(g, d, list[i]) by { ListedOne(g, d, list, i); }
    forall j: nat | j < |list| ensures Competes(list, i, j) <==> list[j].trace in Rivals(d, t) { CompetesIsRival(g, d, list, i, j); }
    forall x | x in Rivals(d, t) ensures exists j: nat :: j < |list| && list[j].trace == x && Competes(list, i, j) {
      var j := RivalIsListed(g, d, list, i, x);
    }
  }

  lemma ListedOne(g: Graph, d: Dag, list: seq<BadEdgeScore>, i: nat)
    requires Lists(g, d, list) && i < |list|
    ensures ListsOne(g, d, list[i])
  {
  }

  /** A score is determined by its trace. */
  lemma ScoresAgree(g: Graph, d: Dag, live: set<BranchId>, root: BranchId, s: BadEdgeScore, s': BadEdgeScore)
    requires AllLive(d, live, root) && IsScore(g, d, live, root, s) && IsScore(g, d, live, root, s') && s.trace == s'.trace
    ensures s == s'
  {
    hide Gap, Rooted;
    var t := s.trace;
    if Rivals(d, t) != {} {
      var x :| x in Rivals(d, t) && s.distance == Apart(d, live, root, t, x);
      var y :| y in Rivals(d, t) && s'.distance == Apart(d, live, root, t, y);
      assert s.distance <= Apart(d, live, root, t, y) && s'.distance <= Apart(d, live, root, t, x);
    }
  }

  ghost predicate Candidate(d: Dag, x: TraceId) {
    x in d.active && KnownTrace(d, x) && IsCandidate(d, x)
  }

  /** Every candidate has as many siblings or more. Of those with as many, none leads to a dead end
      unless the best does; of those, none is farther from its nearest rival; of those, none branches
      deeper; and of those, none comes earlier in the order of the list. */
  ghost predicate IsBest(g: Graph, d: Dag, live: set<BranchId>, root: BranchId, index: seq<int>, best: BadEdgeScore) {
    && AllLive(d, live, root) && IsScore(g, d, live, root, best) && Candidate(d, best.trace)
    && forall s :: IsScore(g, d, live, root, s) && Candidate(d, s.trace) ==>
         && AsGood(d, best, s)
         && (SameRank(best, s) && Depth(d, s) == Depth(d, best) ==> NotAfter(d, index, best, s))
  }

  ghost predicate IsBestTrace(g: Graph, d: Dag, live: set<BranchId>, root: BranchId, index: seq<int>, t: TraceId) {
    exists best: BadEdgeScore :: best.trace == t && IsBest(g, d, live, root, index, best)
  }

  lemma FirstBestIsBest(g: Graph, d: Dag, live: set<BranchId>, root: BranchId, index: seq<int>, list: seq<BadEdgeScore>,
                        scores: seq<BadEdgeScore>, k: nat)
    requires AllLive(d, live, root) && Lists(g, d, list) && Sorted(d, index, list) && ScoredTo(d, live, root, list, scores, |list|)
    requires k < |list| && Known(d, scores)
    requires forall p :: 0 <= p < |list| ==> AsGood(d, scores[k], scores[p])
    requires forall p :: 0 <= p < k ==> !AsGood(d, scores[p], scores[k])
    ensures IsBest(g, d, live, root, index, scores[k])
  {
    hide IsScore, AllLive, Seen;
    EntriesMatch(d, index, list, scores);
    ListedOne(g, d, list, k);
    ScoredMeans(g, d, live, root, list, scores, k);
    forall s | IsScore(g, d, live, root, s) && Candidate(d, s.trace)
      ensures AsGood(d, scores[k], s)
      ensures SameRank(scores[k], s) && Depth(d, s) == Depth(d, scores[k]) ==> NotAfter(d, index, scores[k], s)
    {
      var i :| 0 <= i < |list| && list[i].trace == s.trace;
      ScoredMeans(g, d, live, root, list, scores, i);
      ScoresAgree(g, d, live, root, s, scores[i]);
    }
  }

  /** Scoring keeps the order of the list. */
  lemma EntriesMatch(d: Dag, index: seq<int>, list: seq<BadEdgeScore>, scores: seq<BadEdgeScore>)
    requires Sorted(d, index, list) && SameEntries(list, scores) && Known(d, scores)
    ensures forall i :: 0 <= i < |list| ==> scores[i].trace == list[i].trace
    ensures Sorted(d, index, scores)
    ensures forall i :: 0 <= i < |scores| ==> !LessThan(d, index, scores[i], scores[i])
  {
    forall i | 0 <= i < |list| ensures scores[i].trace == list[i].trace && scores[i].exitproto == list[i].exitproto {
      assert scores[i].(siblingedge := 0, distance := -1) == list[i].(siblingedge := 0, distance := -1);
    }
    forall i, j | 0 <= i < j < |scores| ensures !LessThan(d, index, scores[j], scores[i]) {
      assert !LessThan(d, index, list[j], list[i]);
    }
  }

  ghost predicate SameExitIndex(index: seq<int>, a: Option<BlockId>, b: Option<BlockId>) {
    a.Some? && b.Some? && IndexOf(index, a.value) == IndexOf(index, b.value)
  }

  /** Candidates have an exit, and different exits have different indices. */
  ghost predicate ExitsIndexed(d: Dag, index: seq<int>) {
    && (forall x :: x in d.active ==> KnownTrace(d, x) && (IsCandidate(d, x) ==> d.traces[x].destnode.Some?))
    && forall x, y :: Candidate(d, x) && Candidate(d, y) && SameExitIndex(index, d.traces[x].destnode, d.traces[y].destnode) ==>
         d.traces[x].destnode == d.traces[y].destnode
  }

  /** The list holds the candidates among the first `n` active traces. */
  ghost predicate ListsTo(g: Graph, d: Dag, list: seq<BadEdgeScore>, n: nat) {
    && n <= |d.active| && Fresh(list)
    && (forall k :: 0 <= k < |list| ==> ListsOne(g, d, list[k]) && list[k].trace in d.active[..n])
    && (forall j, k :: 0 <= j < k < |list| ==> list[j].trace != list[k].trace)
    && (forall j :: 0 <= j < n && Candidate(d, d.active[j]) ==> exists k :: 0 <= k < |list| && list[k].trace == d.active[j])
  }

  lemma ListsNext(g: Graph, d: Dag, list: seq<BadEdgeScore>, n: nat, s: BadEdgeScore)
    requires ListsTo(g, d, list, n) && n < |d.active| && NoRepeats(d.active)
    requires ListsOne(g, d, s) && s.trace == d.active[n] && Recorded(s) == Tally(0, -1)
    ensures ListsTo(g, d, list + [s], n + 1)
  {
    hide ListsOne, Candidate;
    assert d.active[..n + 1] == d.active[..n] + [d.active[n]];
    forall j | 0 <= j < n + 1 && Candidate(d, d.active[j])
      ensures exists k :: 0 <= k < |list + [s]| && (list + [s])[k].trace == d.active[j]
    {
      if j < n {
        var k :| 0 <= k < |list| && list[k].trace == d.active[j];
        assert (list + [s])[k].trace == d.active[j];
      } else {
        assert (list + [s])[|list|].trace == d.active[j];
      }
    }
  }

  lemma ListsSkip(g: Graph, d: Dag, list: seq<BadEdgeScore>, n: nat)
    requires ListsTo(g, d, list, n) && n < |d.active| && !Candidate(d, d.active[n])
    ensures ListsTo(g, d, list, n + 1)
  {
    hide ListsOne;
    assert d.active[..n + 1] == d.active[..n] + [d.active[n]];
  }

  /** The list of candidates, in the order of the active list. */
  method ListCandidates(g: Graph, d: Dag, index: seq<int>) returns (list: seq<BadEdgeScore>)
    requires ExitsIndexed(d, index) && NoRepeats(d.active)
    ensures Lists(g, d, list) && Fresh(list)
  {
    hide ListsTo;
    list := [];
    assert ListsTo(g, d, list, 0) by { ListsNothing(g, d); }
    for i := 0 to |d.active|
      invariant ListsTo(g, d, list, i)
    {
      var trace := d.active[i];
      assert trace in d.active;
      var record := d.traces[trace];
      if record.terminal || (d.branches[record.top].top == None && record.bottom == None) {
        ListsSkip(g, d, list, i);
      } else {
        var exitproto := record.destnode.value;
        var score := BadEdgeScore(exitproto, trace, -1, Terminal(g, exitproto), 0);
        ListsNext(g, d, list, i, score);
        list := list + [score];
      }
    }
    ListsAll(g, d, list);
  }

  lemma ListsNothing(g: Graph, d: Dag)
    ensures ListsTo(g, d, [], 0)
  {
  }

  lemma ListsAll(g: Graph, d: Dag, list: seq<BadEdgeScore>)
    requires ListsTo(g, d, list, |d.active|)
    ensures Lists(g, d, list) && Fresh(list)
  {
  }

  lemma OnceThere(list: seq<BadEdgeScore>, x: BadEdgeScore)
    requires forall i, j :: 0 <= i < j < |list| ==> list[i].trace != list[j].trace
    ensures multiset(list)[x] <= 1
  {
    if x in list {
      var a :| 0 <= a < |list| && list[a] == x;
      assert list == list[..a] + [x] + list[a + 1..];
      assert x !in list[..a] && x !in list[a + 1..];
    }
  }

  lemma TwiceThere(list: seq<BadEdgeScore>, i: nat, j: nat)
    requires i < j < |list|
    ensures list[i] == list[j] ==> multiset(list)[list[i]] >= 2
  {
    assert list == list[..i] + [list[i]] + list[i + 1..j] + [list[j]] + list[j + 1..];
  }

  /** The sort keeps the list a list of all candidates. */
  lemma SortedLists(g: Graph, d: Dag, list: seq<BadEdgeScore>, list': seq<BadEdgeScore>)
    requires Lists(g, d, list) && Fresh(list) && multiset(list') == multiset(list)
    ensures Lists(g, d, list') && Fresh(list')
  {
    forall i | 0 <= i < |list'| ensures list'[i] in list {
      assert list'[i] in multiset(list');
    }
    forall x | x in d.active && KnownTrace(d, x) && IsCandidate(d, x) ensures exists i :: 0 <= i < |list'| && list'[i].trace == x {
      var j :| 0 <= j < |list| && list[j].trace == x;
      assert list[j] in multiset(list');
      assert list[j] in list';
    }
    forall i, j | 0 <= i < j < |list'| ensures list'[i].trace != list'[j].trace {
      TwiceThere(list', i, j);
      OnceThere(list, list'[i]);
      var a :| 0 <= a < |list| && list[a] == list'[i];
      var b :| 0 <= b < |list| && list[b] == list'[j];
      assert a != b;
    }
  }

  /** The candidate with the best score. */
  method Select(g: Graph, d: Dag, index: seq<int>, ghost live: set<BranchId>, ghost root: BranchId)
    returns (trace: TraceId)
    requires AllLive(d, live, root) && ExitsIndexed(d, index) && NoRepeats(d.active) && exists x :: Candidate(d, x)
    ensures IsBestTrace(g, d, live, root, index, trace)
  {
    hide AllLive, IsScore, AsGood, Seen, Rooted;
    var badedgelist := ListCandidates(g, d, index);
    assert Known(d, badedgelist);
    var list := SortScores(d, index, badedgelist);
    SortedLists(g, d, badedgelist, list);
    ReadyToScore(g, d, live, root, index, list);
    var scores := ScoreConflicts(d, list, live, root);
    EntriesKnown(d, list, scores);
    var maxiter := FirstBest(d, scores);
    FirstBestIsBest(g, d, live, root, index, list, scores, maxiter);
    return scores[maxiter].trace;
  }

  lemma ReadyToScore(g: Graph, d: Dag, live: set<BranchId>, root: BranchId, index: seq<int>, list: seq<BadEdgeScore>)
    requires AllLive(d, live, root) && ExitsIndexed(d, index) && Lists(g, d, list) && Sorted(d, index, list)
    requires exists x :: Candidate(d, x)
    ensures InTree(d, live, root, list) && Grouped(list) && list != []
  {
    hide Rooted, Sorted, LessThan, IsCandidate, Grouped;
    forall i | 0 <= i < |list| ensures ListsOne(g, d, list[i]) && Candidate(d, list[i].trace) { ListedOne(g, d, list, i); }
    assert ExitsApart(index, list);
    SortedIsGrouped(d, index, list);
  }

  lemma EntriesKnown(d: Dag, list: seq<BadEdgeScore>, scores: seq<BadEdgeScore>)
    requires Known(d, list) && SameEntries(list, scores)
    ensures Known(d, scores)
  {
    forall i | 0 <= i < |list| ensures scores[i].trace == list[i].trace {
      assert scores[i].(siblingedge := 0, distance := -1) == list[i].(siblingedge := 0, distance := -1);
    }
  }

  /** Blocks that loop-DAG edges lead to have different indices. */
  ghost predicate IndexedApart(g: Graph, index: seq<int>) {
    forall u, v, u', v' :: Flows(g, u, v) && Flows(g, u', v') && IndexOf(index, v) == IndexOf(index, v') ==> v == v'
  }

  /** In a run of the trace, candidates are ready to be scored. */
  lemma RunIsReady(g: Graph, rank: seq<nat>, roots: seq<BlockId>, root: BranchId, d: Dag, l: Ledger, visits: seq<int>, index: seq<int>)
    requires TreeInv(d, l.live, root) && LedgerInv(g, rank, roots, root, d, l, visits) && IndexedApart(g, index)
    ensures AllLive(d, l.live, root) && ExitsIndexed(d, index) && NoRepeats(d.active)
  {
    TreeIsRooted(d, l.live, root);
    forall x | x in d.active ensures LiveTrace(d, l.live, x) { }
    hide Rooted, IndexedApart;
    forall x | x in d.active && IsCandidate(d, x)
      ensures d.traces[x].destnode.Some? && exists u :: Flows(g, u, d.traces[x].destnode.value)
    {
      CandidateFlows(g, rank, roots, root, d, l, visits, x);
    }
    hide TreeInv, LedgerInv, IsCandidate, Flows;
    forall x, y | Candidate(d, x) && Candidate(d, y) && SameExitIndex(index, d.traces[x].destnode, d.traces[y].destnode)
      ensures d.traces[x].destnode == d.traces[y].destnode
    {
      var u :| Flows(g, u, d.traces[x].destnode.value);
      var u' :| Flows(g, u', d.traces[y].destnode.value);
      ApartHere(g, index, u, d.traces[x].destnode.value, u', d.traces[y].destnode.value);
    }
  }

  lemma ApartHere(g: Graph, index: seq<int>, u: BlockId, v: BlockId, u': BlockId, v': BlockId)
    requires IndexedApart(g, index) && Flows(g, u, v) && Flows(g, u', v') && IndexOf(index, v) == IndexOf(index, v')
    ensures v == v'
  {
  }

  /** A candidate waits to follow a loop-DAG edge. */
  lemma CandidateFlows(g: Graph, rank: seq<nat>, roots: seq<BlockId>, root: BranchId, d: Dag, l: Ledger, visits: seq<int>, x: TraceId)
    requires TreeInv(d, l.live, root) && LedgerInv(g, rank, roots, root, d, l, visits)
    requires x in d.active && x in d.traces && d.traces[x].top in d.branches && IsCandidate(d, x)
    ensures d.traces[x].destnode.Some? && d.traces[x].bottom.Some?
    ensures Flows(g, d.traces[x].bottom.value, d.traces[x].destnode.value)
  {
    assert LiveTrace(d, l.live, x);
    DepthZero(d, l.live, root, d.traces[x].top);
    assert Waiting(d, x) && TraceSound(g, roots, root, d, l, x);
    var e :| e in PendingSet(l.holder, x) && e.source == d.traces[x].bottom.value;
    assert IsEdge(g, e) && Target(g, e) == d.traces[x].destnode.value;
  }
}
