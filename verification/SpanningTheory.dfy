/** Depth-first numbering by visit position: the tree it grows, the stack of blocks still
    open, and the intervals of descendants. */
module SpanningTheory {
  import opened DominatorTheory

  /** `par[i]` is the position of the tree parent of position i (-1 for a root), `nd[i]` its
      current descendant count, `stack` the positions still open, outermost first. */
  datatype Dfs = Dfs(par: seq<int>, nd: seq<nat>, stack: seq<nat>)

  ghost predicate Ascending(s: seq<nat>) {
    forall i, j :: 0 <= i < j < |s| ==> s[i] < s[j]
  }

  /** The open positions tile what was visited: each starts where its parent's counted
      descendants end. */
  ghost predicate StackTiles(t: Dfs) {
    && |t.par| == |t.nd| && Ascending(t.stack)
    && (forall k :: 0 <= k < |t.stack| ==> t.stack[k] < |t.nd|)
    && (forall k :: 0 <= k < |t.stack| ==> Tiled(t, k))
  }

  ghost predicate Tiled(t: Dfs, k: nat)
    requires k < |t.stack| && t.stack[k] < |t.nd|
  {
    t.stack[k] + t.nd[t.stack[k]] == if k == |t.stack| - 1 then |t.nd| else t.stack[k + 1]
  }

  /** Closed positions own exactly the interval of their descendants. */
  ghost predicate IntervalsExact(t: Dfs)
    requires |t.par| == |t.nd|
  {
    forall i, x :: 0 <= i < |t.nd| && i !in t.stack && 0 <= x < |t.par| ==>
      (i in Chain(t.par, x) <==> i <= x < i + t.nd[i])
  }

  /** Everything visited since an open position was entered descends from it. */
  ghost predicate OpenAbove(t: Dfs) {
    forall k, x :: 0 <= k < |t.stack| && t.stack[k] <= x < |t.par| ==> t.stack[k] in Chain(t.par, x)
  }

  /** The ancestors of an open position are open. */
  ghost predicate OpenAncestors(t: Dfs) {
    forall k, x :: 0 <= k < |t.stack| && x in Chain(t.par, t.stack[k]) ==> x in t.stack
  }

  ghost predicate DfsInv(t: Dfs) {
    && (forall i :: 0 <= i < |t.par| ==> -1 <= t.par[i] < i)
    && StackTiles(t) && IntervalsExact(t) && OpenAbove(t) && OpenAncestors(t)
    && (forall i :: 0 <= i < |t.nd| ==> t.nd[i] > 0 && i + t.nd[i] <= |t.nd|)
  }

  lemma {:induction false} ChainAppend(par: seq<int>, p: int, i: nat)
    requires i < |par|
    ensures Chain(par + [p], i) == Chain(par, i)
  {
    if 0 < i && 0 <= par[i] < i { ChainAppend(par, p, par[i]); }
  }

  ghost function Top(t: Dfs): int {
    if t.stack == [] then -1 else t.stack[|t.stack| - 1]
  }

  /** A new block is entered, below the innermost open one. */
  ghost function Enter(t: Dfs): Dfs
  {
    Dfs(t.par + [Top(t)], t.nd + [1], t.stack + [|t.par|])
  }

  lemma EnterChain(t: Dfs)
    requires DfsInv(t)
    ensures Chain(Enter(t).par, |t.par|) == {|t.par|} + (if t.stack == [] then {} else Chain(t.par, Top(t)))
  {
    var t', n := Enter(t), |t.par|;
    if t.stack != [] {
      assert Top(t) < n;
      ChainAppend(t.par, Top(t), Top(t));
    }
    if n == 0 { assert Chain(t'.par, 0) == {0}; }
  }

  /** The newly entered position descends from every open position and from no closed one. */
  lemma EnterDescends(t: Dfs, i: nat)
    requires DfsInv(t) && i < |t.par|
    ensures i in Chain(Enter(t).par, |t.par|) <==> i in t.stack
  {
    EnterChain(t);
    if i in t.stack {
      var k :| 0 <= k < |t.stack| && t.stack[k] == i;
      assert t.stack[k] <= Top(t) < |t.par|;
    }
    if t.stack != [] && i in Chain(t.par, Top(t)) {
      assert Top(t) == t.stack[|t.stack| - 1];
    }
  }

  lemma EnterKeeps(t: Dfs)
    requires DfsInv(t)
    ensures DfsInv(Enter(t))
  {
    EnterTiles(t);
    EnterIntervals(t);
    EnterOpen(t);
  }

  lemma EnterTiles(t: Dfs)
    requires DfsInv(t)
    ensures StackTiles(Enter(t))
  {
    hide IntervalsExact, OpenAbove, OpenAncestors;
    var t', m := Enter(t), |t.stack|;
    forall k | 0 <= k < |t'.stack|
      ensures Tiled(t', k)
    {
      if k < m {
        assert Tiled(t, k);
        assert t'.stack[k] == t.stack[k] && t'.nd[t.stack[k]] == t.nd[t.stack[k]];
      }
    }
  }

  lemma EnterIntervals(t: Dfs)
    requires DfsInv(t)
    ensures IntervalsExact(Enter(t))
  {
    var t', n := Enter(t), |t.par|;
    assert t'.stack[|t.stack|] == n;
    forall i, x | 0 <= i < |t'.nd| && i !in t'.stack && 0 <= x < |t'.par|
      ensures i in Chain(t'.par, x) <==> i <= x < i + t'.nd[i]
    {
      assert i != n;
      assert i !in t.stack;
      if x == n {
        EnterDescends(t, i);
      } else {
        ChainAppend(t.par, Top(t), x);
      }
    }
  }

  lemma EnterOpen(t: Dfs)
    requires DfsInv(t)
    ensures OpenAbove(Enter(t)) && OpenAncestors(Enter(t))
  {
    var t', n := Enter(t), |t.par|;
    forall k, x | 0 <= k < |t'.stack| && t'.stack[k] <= x < |t'.par| ensures t'.stack[k] in Chain(t'.par, x) {
      if x == n {
        EnterChain(t);
        if k < |t.stack| { EnterDescends(t, t.stack[k]); }
      } else {
        ChainAppend(t.par, Top(t), x);
      }
    }
    forall k, x | 0 <= k < |t'.stack| && x in Chain(t'.par, t'.stack[k]) ensures x in t'.stack {
      if k == |t.stack| {
        EnterChain(t);
        assert t'.stack[k] == n;
        if x != n {
          ChainBound(t'.par, n);
          EnterDescends(t, x);
        }
      } else {
        ChainAppend(t.par, Top(t), t.stack[k]);
      }
    }
  }

  /** The innermost open block is closed and its descendants counted for its parent. */
  ghost function Leave(t: Dfs): Dfs
    requires t.stack != [] && forall k :: 0 <= k < |t.stack| ==> t.stack[k] < |t.nd|
  {
    var rest := t.stack[..|t.stack| - 1];
    if rest == [] then t.(stack := rest)
    else
      var p := rest[|rest| - 1];
      t.(stack := rest, nd := t.nd[p := t.nd[p] + t.nd[Top(t)]])
  }

  lemma LeaveKeeps(t: Dfs)
    requires DfsInv(t) && t.stack != []
    ensures DfsInv(Leave(t))
  {
    LeaveTiles(t);
    LeaveIntervals(t);
    LeaveOpen(t);
  }

  /** Only the parent's count changes, and the parent stays open. */
  lemma LeaveCounts(t: Dfs, i: nat)
    requires DfsInv(t) && t.stack != [] && i < |t.nd| && i !in Leave(t).stack
    ensures Leave(t).nd[i] == t.nd[i] && |Leave(t).nd| == |t.nd|
    ensures i == Top(t) || i !in t.stack
  {
    hide IntervalsExact, OpenAbove, OpenAncestors, Tiled;
    var t', m := Leave(t), |t.stack|;
    assert t.stack == t'.stack + [t.stack[m - 1]];
    if m > 1 { assert t'.stack[m - 2] == t.stack[m - 2]; }
  }

  lemma LeaveIntervals(t: Dfs)
    requires DfsInv(t) && t.stack != []
    ensures |Leave(t).nd| == |t.nd| && IntervalsExact(Leave(t))
  {
    var t', m := Leave(t), |t.stack|;
    forall i, x | 0 <= i < |t'.nd| && i !in t'.stack && 0 <= x < |t'.par|
      ensures i in Chain(t'.par, x) <==> i <= x < i + t'.nd[i]
    {
      LeaveCounts(t, i);
      if i == Top(t) {
        assert t.stack[m - 1] == i && Tiled(t, m - 1);
        ChainBound(t.par, x);
      }
    }
  }

  lemma LeaveOpen(t: Dfs)
    requires DfsInv(t) && t.stack != []
    ensures OpenAbove(Leave(t)) && OpenAncestors(Leave(t))
  {
    hide IntervalsExact, Tiled;
    var t', m := Leave(t), |t.stack|;
    assert t.stack == t'.stack + [t.stack[m - 1]];
    forall k, x | 0 <= k < |t'.stack| && x in Chain(t'.par, t'.stack[k]) ensures x in t'.stack {
      assert t.stack[k] == t'.stack[k];
      ChainBound(t.par, t.stack[k]);
      assert t.stack[k] < t.stack[m - 1];
      assert x in Chain(t.par, t.stack[k]) && x in t.stack;
    }
    forall k, x | 0 <= k < |t'.stack| && t'.stack[k] <= x < |t'.par| ensures t'.stack[k] in Chain(t'.par, x) {
      assert t.stack[k] == t'.stack[k];
    }
  }

  lemma LeaveTiles(t: Dfs)
    requires DfsInv(t) && t.stack != []
    ensures StackTiles(Leave(t))
    ensures forall i :: 0 <= i < |t.nd| ==> Leave(t).nd[i] > 0 && i + Leave(t).nd[i] <= |t.nd|
  {
    hide IntervalsExact, OpenAbove, OpenAncestors;
    var t', m := Leave(t), |t.stack|;
    if m > 1 {
      var p, top := t.stack[m - 2], t.stack[m - 1];
      assert p < top;
      assert Tiled(t, m - 2) && Tiled(t, m - 1);
      forall k | 0 <= k < |t'.stack|
        ensures Tiled(t', k)
      {
        assert Tiled(t, k);
        if k < m - 2 { assert t.stack[k] < t.stack[m - 2]; }
      }
    }
  }
}
