/** What the solver's answer means when there are several roots: dominance over walks from all of them. */
module RootDominance {
  import opened DominatorTheory
  import opened Dominators

  /** A walk from the entry or another root along flow edges. */
  ghost predicate RootWalk(preds: Preds, tops: set<nat>, path: seq<nat>) {
    && |path| > 0 && (path[0] == 0 || path[0] in tops)
    && (forall k :: 0 <= k < |path| ==> path[k] < |preds|)
    && (forall k :: 0 < k < |path| ==> path[k - 1] in preds[path[k]])
  }

  /** `d` lies on every walk from a root to `i`. */
  ghost predicate RootDominates(preds: Preds, tops: set<nat>, d: nat, i: nat) {
    forall path :: RootWalk(preds, tops, path) && path[|path| - 1] == i ==> d in path
  }

  /** `c` is the closest block, other than `i`, on every walk from a root to `i`. */
  ghost predicate ClosestCommon(preds: Preds, tops: set<nat>, c: nat, i: nat) {
    && c != i && RootDominates(preds, tops, c, i)
    && forall e :: e != i && RootDominates(preds, tops, e, i) ==> RootDominates(preds, tops, e, c)
  }

  ghost predicate TopsFit(preds: Preds, tops: set<nat>) {
    |preds| > 0 && forall t :: t in tops ==> 0 < t < |preds|
  }

  /** A walk over joined edges ends in a walk from a root. */
  lemma {:induction false} JoinedEndsInWalk(preds: Preds, tops: set<nat>, path: seq<nat>) returns (tail: seq<nat>)
    requires TopsFit(preds, tops) && IsPath(Joined(preds, tops), path)
    ensures RootWalk(preds, tops, tail) && tail[|tail| - 1] == path[|path| - 1] && forall x :: x in tail ==> x in path
    decreases |path|
  {
    var m := |path| - 1;
    if m == 0 {
      tail := path;
    } else {
      var before := path[..m];
      assert IsPath(Joined(preds, tops), before) by {
        forall k | 0 < k < m ensures before[k - 1] in Joined(preds, tops)[before[k]] { assert path[k - 1] in Joined(preds, tops)[path[k]]; }
      }
      assert path[m - 1] in Joined(preds, tops)[path[m]];
      if path[m - 1] in preds[path[m]] {
        var t := JoinedEndsInWalk(preds, tops, before);
        tail := t + [path[m]];
      } else {
        tail := [path[m]];
      }
    }
  }

  lemma WalkIsJoined(preds: Preds, tops: set<nat>, path: seq<nat>)
    requires TopsFit(preds, tops) && RootWalk(preds, tops, path)
    ensures IsPath(Joined(preds, tops), if path[0] == 0 then path else [0] + path)
  {
    if path[0] != 0 {
      var q := [0] + path;
      forall k | 0 < k < |q| ensures q[k - 1] in Joined(preds, tops)[q[k]] {
        if k == 1 {
          assert Joined(preds, tops)[q[1]] == preds[q[1]] + [0];
          assert (preds[q[1]] + [0])[|preds[q[1]]|] == 0;
        } else {
          assert path[k - 2] in preds[path[k - 1]];
        }
      }
    }
  }

  /** Joined to the roots, the entry dominates everything; other dominators are those over all roots. */
  lemma JoinedDominators(preds: Preds, tops: set<nat>, d: nat, i: nat)
    requires TopsFit(preds, tops)
    ensures Dominates(Joined(preds, tops), d, i) <==> d == 0 || RootDominates(preds, tops, d, i)
  {
    hide Dominates, RootDominates, Joined;
    if d == 0 || RootDominates(preds, tops, d, i) { RootsToJoined(preds, tops, d, i); }
    if Dominates(Joined(preds, tops), d, i) && d != 0 { JoinedToRoots(preds, tops, d, i); }
  }

  lemma RootsToJoined(preds: Preds, tops: set<nat>, d: nat, i: nat)
    requires TopsFit(preds, tops) && (d == 0 || RootDominates(preds, tops, d, i))
    ensures Dominates(Joined(preds, tops), d, i)
  {
    forall path | IsPath(Joined(preds, tops), path) && path[|path| - 1] == i ensures d in path {
      var tail := JoinedEndsInWalk(preds, tops, path);
      assert path[0] in path;
    }
  }

  lemma JoinedToRoots(preds: Preds, tops: set<nat>, d: nat, i: nat)
    requires TopsFit(preds, tops) && d != 0 && Dominates(Joined(preds, tops), d, i)
    ensures RootDominates(preds, tops, d, i)
  {
    hide Dominates;
    forall path | RootWalk(preds, tops, path) && path[|path| - 1] == i ensures d in path {
      WalkMeetsDominator(preds, tops, d, i, path);
    }
  }

  lemma WalkMeetsDominator(preds: Preds, tops: set<nat>, d: nat, i: nat, path: seq<nat>)
    requires TopsFit(preds, tops) && d != 0 && Dominates(Joined(preds, tops), d, i)
    requires RootWalk(preds, tops, path) && path[|path| - 1] == i
    ensures d in path
  {
    assert |path| > 0;
    hide IsPath, Joined, RootWalk, Dominates;
    WalkIsJoined(preds, tops, path);
    var q := if path[0] == 0 then path else [0] + path;
    assert q[|q| - 1] == i;
    OnThePath(Joined(preds, tops), d, i, q);
  }

  lemma OnThePath(preds: Preds, d: nat, i: nat, path: seq<nat>)
    requires Dominates(preds, d, i) && IsPath(preds, path) && path[|path| - 1] == i
    ensures d in path
  {
  }

  lemma {:induction false} LastAt(path: seq<nat>, x: nat) returns (k: nat)
    requires x in path
    ensures k < |path| && path[k] == x && x !in path[k + 1..]
    decreases |path|
  {
    var m := |path| - 1;
    if path[m] == x {
      k := m;
    } else {
      assert path == path[..m] + [path[m]];
      k := LastAt(path[..m], x);
      assert path[k + 1..] == path[..m][k + 1..] + [path[m]];
    }
  }

  /** A walk goes on along the rest of another. */
  lemma Spliced(preds: Preds, tops: set<nat>, a: seq<nat>, b: seq<nat>, k: nat)
    requires RootWalk(preds, tops, a) && RootWalk(preds, tops, b) && k < |b| && b[k] == a[|a| - 1]
    ensures RootWalk(preds, tops, a + b[k + 1..]) && (a + b[k + 1..])[|a + b[k + 1..]| - 1] == b[|b| - 1]
  {
    var q := a + b[k + 1..];
    forall j | 0 < j < |q| ensures q[j - 1] in preds[q[j]] {
      if j < |a| {
        assert a[j - 1] in preds[a[j]];
      } else {
        assert q[j] == b[k + 1 + j - |a|] && q[j - 1] == b[k + j - |a|];
        assert b[k + j - |a|] in preds[b[k + 1 + j - |a|]];
      }
    }
  }

  /** The part of a walk from its last visit of the entry on is a walk from a root. */
  lemma FromEntry(preds: Preds, tops: set<nat>, path: seq<nat>, k: nat)
    requires RootWalk(preds, tops, path) && k < |path| && path[k] == 0
    ensures RootWalk(preds, tops, path[k..]) && path[k..][|path[k..]| - 1] == path[|path| - 1]
  {
    var q := path[k..];
    forall j | 0 < j < |q| ensures q[j - 1] in preds[q[j]] { assert path[k + j - 1] in preds[path[k + j]]; }
  }

  /** When every walk to `i` passes the entry and every walk from the entry to `i` passes `c`, every
      walk to `c` passes the entry. */
  lemma EntryBeforeCommon(preds: Preds, tops: set<nat>, c: nat, i: nat, path: seq<nat>)
    requires TopsFit(preds, tops) && RootDominates(preds, tops, 0, i) && RootDominates(preds, tops, c, i) && c != 0
    requires RootWalk(preds, tops, path) && path[|path| - 1] == c
    requires exists w :: RootWalk(preds, tops, w) && w[|w| - 1] == i
    ensures 0 in path
  {
    var w :| RootWalk(preds, tops, w) && w[|w| - 1] == i;
    var z := LastAt(w, 0);
    FromEntry(preds, tops, w, z);
    var v := w[z..];
    var k := LastAt(v, c);
    Spliced(preds, tops, path, v, k);
    var rest, tail := v[k + 1..], w[z + 1..];
    assert 0 !in rest by {
      forall j | 0 <= j < |rest| ensures rest[j] in tail { assert tail[k + j] == rest[j]; }
    }
  }

  lemma SomeWalk(preds: Preds, tops: set<nat>, i: nat) returns (w: seq<nat>)
    requires TopsFit(preds, tops) && Ordered(Joined(preds, tops)) && i < |preds|
    ensures RootWalk(preds, tops, w) && w[|w| - 1] == i
  {
    var path := EveryBlockHasPath(Joined(preds, tops), i);
    w := JoinedEndsInWalk(preds, tops, path);
  }

  /** What is stored for a block that is no root is its closest common dominator exactly when it has
      one; when no block lies on every walk from the roots, the first listed block is stored all the
      same. */
  lemma StoredIsClosestIff(preds: Preds, tops: set<nat>, c: nat, i: nat)
    requires TopsFit(preds, tops) && Ordered(Joined(preds, tops)) && 0 < i < |preds|
    requires IsImmediateDominator(Joined(preds, tops), c, i)
    ensures ClosestCommon(preds, tops, c, i) <==> exists d :: d != i && RootDominates(preds, tops, d, i)
    ensures (forall d :: d != i ==> !RootDominates(preds, tops, d, i)) ==> c == 0
  {
    JoinedDominators(preds, tops, c, i);
    if d :| d != i && RootDominates(preds, tops, d, i) {
      JoinedDominators(preds, tops, d, i);
      if c == 0 { OnlyEntry(preds, tops, d, i); }
      forall e | e != i && RootDominates(preds, tops, e, i) ensures RootDominates(preds, tops, e, c) {
        CommonIsEarlier(preds, tops, c, i, e);
      }
    }
  }

  /** Only the entry dominates the entry. */
  lemma OnlyEntry(preds: Preds, tops: set<nat>, d: nat, i: nat)
    requires TopsFit(preds, tops) && IsImmediateDominator(Joined(preds, tops), 0, i) && d != i
    requires Dominates(Joined(preds, tops), d, i)
    ensures d == 0
  {
    assert Dominates(Joined(preds, tops), d, 0);
    assert IsPath(Joined(preds, tops), [0]);
  }

  lemma CommonIsEarlier(preds: Preds, tops: set<nat>, c: nat, i: nat, e: nat)
    requires TopsFit(preds, tops) && Ordered(Joined(preds, tops)) && 0 < i < |preds|
    requires IsImmediateDominator(Joined(preds, tops), c, i) && e != i && RootDominates(preds, tops, e, i)
    ensures RootDominates(preds, tops, e, c)
  {
    JoinedDominators(preds, tops, e, i);
    JoinedDominators(preds, tops, c, i);
    JoinedDominators(preds, tops, e, c);
    if c == 0 {
      OnlyEntry(preds, tops, e, i);
      assert forall path :: RootWalk(preds, tops, path) && path[|path| - 1] == 0 ==> 0 in path;
    } else if e == 0 {
      var w := SomeWalk(preds, tops, i);
      forall path | RootWalk(preds, tops, path) && path[|path| - 1] == c ensures 0 in path {
        EntryBeforeCommon(preds, tops, c, i, path);
      }
    }
  }

  /** Two roots that flow to one block. */
  ghost function TwoRoots(): Preds {
    [[], [], [0, 1]]
  }

  lemma TwoRootsJoined()
    ensures TopsFit(TwoRoots(), {1}) && Joined(TwoRoots(), {1}) == [[], [0], [0, 1]] && Ordered(Joined(TwoRoots(), {1}))
  {
    var joined := Joined(TwoRoots(), {1});
    assert TwoRoots()[1] + [0] == [0];
    assert joined[0] == [] && joined[1] == [0] && joined[2] == [0, 1];
    assert joined == [[], [0], [0, 1]];
    assert HasEarlier(joined[1], 1) by { assert joined[1][0] == 0; }
    assert HasEarlier(joined[2], 2) by { assert joined[2][0] == 0; }
  }

  /** Each root flows to the block on its own. */
  lemma TwoRootsWalk(r: nat)
    requires r == 0 || r == 1
    ensures RootWalk(TwoRoots(), {1}, [r, 2]) && [r, 2][|[r, 2]| - 1] == 2
  {
    assert TwoRoots()[2][r] == r;
  }

  lemma NothingInCommon(d: nat)
    requires d != 2
    ensures !RootDominates(TwoRoots(), {1}, d, 2)
  {
    hide RootWalk;
    TwoRootsWalk(0);
    TwoRootsWalk(1);
    var a, b: seq<nat> := [0, 2], [1, 2];
    assert d !in a || d !in b;
  }

  /** No block lies on every walk from the two roots, but the first root is stored. */
  lemma TwoRootsMistaken()
    ensures Ordered(Joined(TwoRoots(), {1})) && IsImmediateDominator(Joined(TwoRoots(), {1}), 0, 2)
    ensures forall d :: d != 2 ==> !RootDominates(TwoRoots(), {1}, d, 2)
  {
    TwoRootsJoined();
    hide RootDominates, TwoRoots, Joined, Dominates;
    forall d: nat | d != 2 ensures !RootDominates(TwoRoots(), {1}, d, 2) { NothingInCommon(d); }
    forall e: nat | e != 2 && Dominates(Joined(TwoRoots(), {1}), e, 2) ensures Dominates(Joined(TwoRoots(), {1}), e, 0) {
      JoinedDominators(TwoRoots(), {1}, e, 2);
      JoinedDominators(TwoRoots(), {1}, e, 0);
    }
    JoinedDominators(TwoRoots(), {1}, 0, 2);
  }
}
