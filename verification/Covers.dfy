/** The live range of a varnode, built from its definition and its reads. */
module Covers {
  import opened FlowGraph
  import opened CoverBlocks
  import opened CoverTheory
  import opened CoverLiveness
  import opened CoverUses

  ghost predicate DefOk(f: Flow, def: Option<OpId>, isInput: bool) {
    FlowOk(f) && (def.Some? ==> def.value < |f.ops|) && (isInput ==> |f.preds| > 0)
  }

  ghost function HomeOf(f: Flow, def: Option<OpId>, isInput: bool): Home
    requires DefOk(f, def, isInput)
  {
    if def.Some? then At(f.ops[def.value].block, Op(def.value)) else if isInput then At(0, Input) else Nowhere
  }

  /** A block that starts at its beginning is not the definition's: its predecessors are in scope with it. */
  lemma BeginNeedsPreds(f: Flow, c: Cover, s: Scope, b: nat)
    requires Within(f, c, s) && b in s.want && b < |f.preds|
    ensures Get(c, b).start == Begin ==> forall j :: 0 <= j < |f.preds[b]| ==> f.preds[b][j] in s.want
  {
  }

  /** When a read is not in the arc of its block and does not follow the start, or the block has no
      definition, it takes the value from every predecessor. */
  lemma UncoveredNeedsPreds(f: Flow, c: Cover, s: Scope, ref: OpId, vn: VarnodeId)
    requires Within(f, c, s) && ReadWithin(f, s, ref, vn)
    ensures ref in s.refs
    ensures var start := Get(c, f.ops[ref].block).start;
      !f.ops[ref].multiequal && (start == Begin || f.ops[ref].index < UIndex(f, start)) ==>
      forall j :: 0 <= j < |f.preds[f.ops[ref].block]| ==> f.preds[f.ops[ref].block][j] in s.want
  {
    var b := f.ops[ref].block;
    assert Get(c, b).start == if IsHome(s.home, b) then s.home.start else Begin;
    forall j | 0 <= j < |f.preds[b]| && !f.ops[ref].multiequal && Exposed(f, s.home, ref) ensures f.preds[b][j] in s.want {
      assert TakesFrom(f, s.home, ref, vn, f.preds[b][j]);
    }
  }

  /** Every read of a varnode is accounted for. */
  ghost predicate AllRead(f: Flow, c: Cover, u: Uses, v: VarnodeId, vn: VarnodeId) {
    v < |u.descend| && forall k :: 0 <= k < |u.descend[v]| ==> ReadDone(f, c, u.descend[v][k], vn)
  }

  lemma AllReadStays(f: Flow, c: Cover, c': Cover, u: Uses, v: VarnodeId, vn: VarnodeId)
    requires AllRead(f, c, u, v, vn) && Grows(f, c, c')
    ensures AllRead(f, c', u, v, vn)
  {
    hide ReadDone, Grows;
    forall k | 0 <= k < |u.descend[v]| ensures ReadDone(f, c', u.descend[v][k], vn) {
      DoneStays(f, c, c', u.descend[v][k], vn);
    }
  }

  /** The range has all reads and every exit from which a walk that avoids the definition leads to a
      read; each arc starts at the definition or the beginning of its block, and stops at the definition,
      at a read, or at the end of a block whose exit is live in that sense. */
  ghost predicate Exact(f: Flow, c: Cover, home: Home, refs: set<OpId>, vn: VarnodeId) {
    && ClosedBut(f, c, {}) && Started(f, c, home)
    && (forall ref :: ref in refs ==> ReadDone(f, c, ref, vn))
    && (forall b: nat :: LiveOut(f, home, refs, vn, b) ==> AtExit(f, Get(c, b)))
    && (forall b: nat :: AtExit(f, Get(c, b)) && !IsHome(home, b) ==> LiveOut(f, home, refs, vn, b))
    && (forall b: nat :: StopsWithin(f, LiveScope(f, home, refs, vn), b, Get(c, b)))
  }

  lemma FinishedIsExact(f: Flow, c: Cover, home: Home, u: Uses, path: seq<VarnodeId>, vn: VarnodeId)
    requires ClosedBut(f, c, {}) && Within(f, c, LiveScope(f, home, Reads(f, u, vn), vn)) && vn in path
    requires forall i :: 0 <= i < |path| ==> AllRead(f, c, u, path[i], vn) && Followed(f, u, path, path[i])
    ensures Exact(f, c, home, Reads(f, u, vn), vn)
  {
    hide ReadDone, Followed, Closed, Carries, LiveOut, Started;
    var refs := Reads(f, u, vn);
    forall ref | ref in refs ensures ReadDone(f, c, ref, vn) {
      var v: VarnodeId :| v < |u.descend| && ref in u.descend[v] && Carries(f, u, vn, v);
      AllAreListed(f, u, path, vn, v);
    }
    CoversLive(f, c, home, refs, vn);
    forall b: nat | AtExit(f, Get(c, b)) && !IsHome(home, b) ensures LiveOut(f, home, refs, vn, b) {
      ExitIsWithin(f, c, LiveScope(f, home, refs, vn), b);
    }
  }

  lemma CoversLive(f: Flow, c: Cover, home: Home, refs: set<OpId>, vn: VarnodeId)
    requires ClosedBut(f, c, {}) && Started(f, c, home) && forall ref :: ref in refs ==> ReadDone(f, c, ref, vn)
    ensures forall b: nat :: LiveOut(f, home, refs, vn, b) ==> AtExit(f, Get(c, b))
  {
    hide LiveOut, Closed, Started, SlotsLive, ReadLive;
    forall b: nat | LiveOut(f, home, refs, vn, b) ensures AtExit(f, Get(c, b)) {
      LiveIsCovered(f, c, home, refs, vn, b);
    }
  }

  /** A range of nothing but the definition is within any scope. */
  lemma DefIsWithin(f: Flow, c: Cover, home: Home, refs: set<OpId>, vn: VarnodeId)
    requires Started(f, c, home)
    requires forall b: nat :: if IsHome(home, b) then Get(c, b) == CoverBlock(home.start, home.start) else IsEmpty(Get(c, b))
    ensures Within(f, c, LiveScope(f, home, refs, vn))
  {
    hide LiveOut;
    LiveScopeOk(f, home, refs, vn);
  }

  lemma ReadsAreWithin(f: Flow, home: Home, u: Uses, rank: seq<nat>, vn: VarnodeId, v: VarnodeId)
    requires FlowOk(f) && HomeOk(f, home) && UsesOk(f, u, rank) && v < |u.descend| && Carries(f, u, vn, v)
    ensures forall k :: 0 <= k < |u.descend[v]| ==> ReadWithin(f, LiveScope(f, home, Reads(f, u, vn), vn), u.descend[v][k], vn)
  {
    hide LiveOut, ReadWithin, Carries;
    forall k | 0 <= k < |u.descend[v]| ensures ReadWithin(f, LiveScope(f, home, Reads(f, u, vn), vn), u.descend[v][k], vn) {
      assert ReadsIt(f, u, vn, u.descend[v][k]);
      LiveScopeReads(f, home, Reads(f, u, vn), vn, u.descend[v][k]);
    }
  }

  class LiveRange {
    const flow: Flow
    var cover: Cover

    constructor (flow: Flow)
      ensures this.flow == flow && cover == map[]
    {
      this.flow := flow;
      cover := map[];
    }

    ghost function ToDo(): nat
      reads this
    {
      Work(flow, cover, |flow.preds|)
    }

    /** One block is covered further; it may need its predecessors. */
    method Widen(bl: nat, block: CoverBlock, ghost open: set<nat>, ghost scope: Scope)
      requires ClosedBut(flow, cover, open) && bl < |flow.preds| && BlockOk(flow, block) && BlockOk(flow, Get(cover, bl))
      requires Wider(flow, Get(cover, bl), block) && block.start == Get(cover, bl).start && Left(flow, block) <= Left(flow, Get(cover, bl))
      requires Within(flow, cover, scope) && StopsWithin(flow, scope, bl, block)
      modifies this
      ensures cover == old(cover)[bl := block] && ClosedBut(flow, cover, open + {bl}) && Grows(flow, old(cover), cover)
      ensures Within(flow, cover, scope)
      ensures ToDo() <= old(ToDo()) && (Left(flow, block) < Left(flow, old(Get(cover, bl))) ==> ToDo() < old(ToDo()))
    {
      UpdateCloses(flow, cover, open, bl, block);
      UpdateGrows(flow, cover, bl, block);
      WithinUpdate(flow, cover, scope, bl, block);
      WorkUpdate(flow, cover, bl, block, |flow.preds|);
      cover := cover[bl := block];
    }

    /** The stop moves to the end of the block. */
    method SetStopEnd(bl: nat, block: CoverBlock, ghost open: set<nat>, ghost scope: Scope)
      requires ClosedBut(flow, cover, open) && bl < |flow.preds| && block == Get(cover, bl) && BlockOk(flow, block) && !IsEmpty(block)
      requires UIndex(flow, block.stop) != MAX_INDEX && UIndex(flow, block.stop) >= UIndex(flow, block.start)
      requires Within(flow, cover, scope) && bl in scope.want
      modifies this
      ensures cover == old(cover)[bl := block.(stop := End)] && Grows(flow, old(cover), cover) && AtExit(flow, Get(cover, bl))
      ensures var pending := block.start == Begin && StopsAtMulti(flow, block);
              ClosedBut(flow, cover, if pending then open + {bl} else open) && (pending ==> ToDo() < old(ToDo()))
      ensures ToDo() <= old(ToDo()) && Within(flow, cover, scope)
    {
      ExtendIsWider(flow, block);
      if !(block.start == Begin && StopsAtMulti(flow, block)) { StaysClosed(flow, cover, open, bl, block.(stop := End)); }
      Widen(bl, block.(stop := End), open, scope);
    }

    /** The varnode is live at the exit of every predecessor. */
    method RecursePreds(bl: nat, ghost open: set<nat>, ghost scope: Scope)
      requires ClosedBut(flow, cover, open + {bl}) && bl < |flow.preds|
      requires Within(flow, cover, scope) && forall j :: 0 <= j < |flow.preds[bl]| ==> flow.preds[bl][j] in scope.want
      modifies this
      ensures ClosedBut(flow, cover, open) && Grows(flow, old(cover), cover) && ToDo() <= old(ToDo())
      ensures Within(flow, cover, scope)
      decreases ToDo(), 1
    {
      hide Wider, Work, Closed, Within;
      ghost var c0 := cover;
      GrowsSelf(flow, cover, open + {bl});
      var slot := 0;
      while slot < |flow.preds[bl]|
        invariant 0 <= slot <= |flow.preds[bl]| && ClosedBut(flow, cover, open + {bl}) && Grows(flow, c0, cover) && ToDo() <= old(ToDo())
        invariant Within(flow, cover, scope)
        invariant forall j :: 0 <= j < slot ==> AtExit(flow, Get(cover, flow.preds[bl][j]))
      {
        ghost var c1 := cover;
        AddRefRecurse(flow.preds[bl][slot], open + {bl}, scope);
        GrowsTrans(flow, c0, c1, cover);
        forall j | 0 <= j < slot ensures AtExit(flow, Get(cover, flow.preds[bl][j])) {
          GrowsKeepsExit(flow, c1, cover, flow.preds[bl][j]);
        }
        slot := slot + 1;
      }
      NowClosed(flow, cover, open, bl);
    }

    /** The varnode is live at the exit of a block, and so of everything that leads to it, back to where
        it is live already. */
    method AddRefRecurse(bl: nat, ghost open: set<nat>, ghost scope: Scope)
      requires ClosedBut(flow, cover, open) && bl < |flow.preds|
      requires Within(flow, cover, scope) && bl in scope.want
      modifies this
      ensures Within(flow, cover, scope)
      ensures ClosedBut(flow, cover, open) && AtExit(flow, Get(cover, bl)) && Grows(flow, old(cover), cover) && ToDo() <= old(ToDo())
      decreases ToDo(), 0
    {
      hide Wider, Work, Closed, Within;
      GetOk(flow, cover, bl);
      ghost var c0 := cover;
      var block := Get(cover, bl);
      BeginNeedsPreds(flow, cover, scope, bl);
      if IsEmpty(block) {
        NothingIsLess(flow, CoverBlock(Begin, End));
        Widen(bl, CoverBlock(Begin, End), open, scope);
        ghost var c1 := cover;
        RecursePreds(bl, open, scope);
        GrowsTrans(flow, c0, c1, cover);
        GrowsKeepsExit(flow, c1, cover, bl);
      } else {
        var op := block.stop;
        var ustart, ustop := UIndex(flow, block.start), UIndex(flow, op);
        if ustop != MAX_INDEX && ustop >= ustart {
          SetStopEnd(bl, block, open, scope);
        } else {
          ReachesExit(flow, block);
          GrowsSelf(flow, cover, open);
        }
        if ustop == 0 && block.start == Begin && op.Op? && flow.ops[op.id].multiequal {
          ghost var c1 := cover;
          RecursePreds(bl, open, scope);
          GrowsTrans(flow, c0, c1, cover);
          GrowsKeepsExit(flow, c1, cover, bl);
        }
      }
    }

    /** The stop moves to an operation, forwards or round the end of the block. */
    method SetStop(bl: nat, ref: OpId, ghost scope: Scope)
      requires ClosedBut(flow, cover, {}) && bl < |flow.preds| && ref < |flow.ops| && BlockOk(flow, Get(cover, bl))
      requires Wider(flow, Get(cover, bl), Get(cover, bl).(stop := Op(ref))) && Within(flow, cover, scope)
      requires flow.ops[ref].block == bl && ref in scope.refs
      modifies this
      ensures cover == old(cover)[bl := old(Get(cover, bl)).(stop := Op(ref))]
      ensures ClosedBut(flow, cover, {bl}) && Grows(flow, old(cover), cover) && Within(flow, cover, scope)
    {
      var block := Get(cover, bl);
      UpdateCloses(flow, cover, {}, bl, block.(stop := Op(ref)));
      UpdateGrows(flow, cover, bl, block.(stop := Op(ref)));
      WithinUpdate(flow, cover, scope, bl, block.(stop := Op(ref)));
      assert {} + {bl} == {bl};
      cover := cover[bl := block.(stop := Op(ref))];
    }

    /** The varnode is live at the exit of the predecessors from which a MULTIEQUAL reads it. */
    method RecurseSlots(ref: OpId, vn: VarnodeId, ghost scope: Scope)
      requires ClosedBut(flow, cover, {}) && ref < |flow.ops| && flow.ops[ref].multiequal
      requires Within(flow, cover, scope) && ReadWithin(flow, scope, ref, vn)
      modifies this
      ensures Within(flow, cover, scope)
      ensures ClosedBut(flow, cover, {}) && Grows(flow, old(cover), cover) && SlotsLive(flow, cover, ref, vn)
    {
      hide Wider, Closed, Within;
      GrowsSelf(flow, cover, {});
      var info := flow.ops[ref];
      var slot := 0;
      while slot < |info.inputs|
        invariant 0 <= slot <= |info.inputs| && ClosedBut(flow, cover, {}) && Grows(flow, old(cover), cover) && Within(flow, cover, scope)
        invariant forall j :: 0 <= j < slot && info.inputs[j] == vn ==> AtExit(flow, Get(cover, flow.preds[info.block][j]))
      {
        if info.inputs[slot] == vn {
          ghost var c1 := cover;
          assert TakesFrom(flow, scope.home, ref, vn, flow.preds[info.block][slot]);
          AddRefRecurse(flow.preds[info.block][slot], {}, scope);
          GrowsTrans(flow, old(cover), c1, cover);
          forall j | 0 <= j < slot && info.inputs[j] == vn ensures AtExit(flow, Get(cover, flow.preds[info.block][j])) {
            GrowsKeepsExit(flow, c1, cover, flow.preds[info.block][j]);
          }
        }
        slot := slot + 1;
      }
    }

    /** Where the definition starts the range. */
    method AddDefPoint(def: Option<OpId>, isInput: bool)
      requires DefOk(flow, def, isInput)
      modifies this
      ensures ClosedBut(flow, cover, {}) && Started(flow, cover, HomeOf(flow, def, isInput))
      ensures var home := HomeOf(flow, def, isInput);
              forall b: nat :: if IsHome(home, b) then Get(cover, b) == CoverBlock(home.start, home.start) else IsEmpty(Get(cover, b))
      ensures def.Some? ==> Covers(flow, Get(cover, flow.ops[def.value].block), flow.ops[def.value].index)
    {
      cover := map[];
      if def.Some? {
        cover := cover[flow.ops[def.value].block := CoverBlock(Op(def.value), Op(def.value))];
      } else if isInput {
        cover := cover[0 := CoverBlock(Input, Input)];
      }
    }

    /** A read extends the range back to where it is live already; nothing live is lost. */
    method AddRefPoint(ref: OpId, vn: VarnodeId, ghost scope: Scope)
      requires ClosedBut(flow, cover, {}) && ref < |flow.ops|
      requires Within(flow, cover, scope) && ReadWithin(flow, scope, ref, vn)
      modifies this
      ensures ClosedBut(flow, cover, {}) && Grows(flow, old(cover), cover) && ReadDone(flow, cover, ref, vn)
      ensures Within(flow, cover, scope)
    {
      hide Wider, Closed, Within, ReadWithin;
      var info := flow.ops[ref];
      var bl := info.block;
      GetOk(flow, cover, bl);
      GrowsSelf(flow, cover, {});
      ghost var c0 := cover;
      var block := Get(cover, bl);
      UncoveredNeedsPreds(flow, cover, scope, ref, vn);
      if IsEmpty(block) {
        NothingIsLess(flow, block.(stop := Op(ref)));
        SetStop(bl, ref, scope);
      } else if Contain(flow, block, Op(ref)) {
        if !info.multiequal {
          return;
        }
      } else {
        StopIsWider(flow, block, ref);
        SetStop(bl, ref, scope);
        if UIndex(flow, Op(ref)) >= UIndex(flow, block.start) {
          if block.stop.Op? && flow.ops[block.stop.id].multiequal && block.start == Begin {
            ghost var c1 := cover;
            assert {bl} == {} + {bl};
            RecursePreds(bl, {}, scope);
            GrowsTrans(flow, c0, c1, cover);
            ReadStays(flow, c1, cover, ref);
          } else {
            StopKeepsClosed(flow, c0, bl, ref);
          }
          return;
        }
      }
      ghost var c1 := cover;
      if info.multiequal {
        MultiCloses(flow, c0, c1, bl, ref);
        RecurseSlots(ref, vn, scope);
      } else {
        ReadNeedsPreds(flow, c0, c1, bl, ref);
        assert {bl} == {} + {bl};
        RecursePreds(bl, {}, scope);
      }
      GrowsTrans(flow, c0, c1, cover);
      ReadStays(flow, c1, cover, ref);
    }

    /** All reads of one varnode on the work list; the implied varnodes they compute are to be added. */
    method AddReads(cur: VarnodeId, vn: VarnodeId, uses: Uses, ghost rank: seq<nat>, ghost scope: Scope)
      returns (more: seq<VarnodeId>)
      requires UsesOk(flow, uses, rank) && cur < |uses.descend| && Carries(flow, uses, vn, cur)
      requires ClosedBut(flow, cover, {}) && Within(flow, cover, scope)
      requires forall k :: 0 <= k < |uses.descend[cur]| ==> ReadWithin(flow, scope, uses.descend[cur][k], vn)
      modifies this
      ensures ClosedBut(flow, cover, {}) && Within(flow, cover, scope) && Grows(flow, old(cover), cover)
      ensures AllRead(flow, cover, uses, cur, vn)
      ensures Listed(uses, more) && CarriesAll(flow, uses, vn, more) && Followed(flow, uses, more, cur)
      ensures Pending(flow, uses, rank, more) < Weight(flow, uses, rank, cur)
    {
      hide ClosedBut, Within, Grows, ReadDone, ReadWithin, Carries, UsesOk, SlotsLive;
      more := [];
      GrowsSelf(flow, cover, {});
      var k := 0;
      while k < |uses.descend[cur]|
        invariant 0 <= k <= |uses.descend[cur]|
        invariant ClosedBut(flow, cover, {}) && Within(flow, cover, scope) && Grows(flow, old(cover), cover)
        invariant forall j :: 0 <= j < k ==> ReadDone(flow, cover, uses.descend[cur][j], vn)
        invariant Listed(uses, more) && CarriesAll(flow, uses, vn, more)
        invariant forall j :: 0 <= j < k ==> NextListed(flow, uses, more, uses.descend[cur][j])
        invariant Pending(flow, uses, rank, more) == UsesWeight(flow, uses, rank, cur, k)
      {
        var op := uses.descend[cur][k];
        NextIsCarried(flow, uses, rank, vn, cur, k);
        ghost var c1 := cover;
        AddRefPoint(op, vn, scope);
        GrowsTrans(flow, old(cover), c1, cover);
        forall j | 0 <= j < k ensures ReadDone(flow, cover, uses.descend[cur][j], vn) {
          DoneStays(flow, c1, cover, uses.descend[cur][j], vn);
        }
        var next := Implied(flow, uses, op);
        if next.Some? {
          PendingAppend(flow, uses, rank, more, next.value);
          more := more + [next.value];
        }
        k := k + 1;
      }
      NextsAreFollowed(flow, uses, more, cur);
    }

    /** The whole range of a varnode: its definition, and its reads through implied varnodes. */
    method Rebuild(vn: VarnodeId, def: Option<OpId>, isInput: bool, uses: Uses, ghost rank: seq<nat>)
      requires DefOk(flow, def, isInput) && UsesOk(flow, uses, rank) && vn < |uses.descend|
      modifies this
      ensures Exact(flow, cover, HomeOf(flow, def, isInput), Reads(flow, uses, vn), vn)
    {
      hide ClosedBut, Within, Grows, Exact, AllRead, ReadWithin, Carries, Reads, UsesOk, Started, Followed, Pending;
      ghost var home := HomeOf(flow, def, isInput);
      ghost var scope := LiveScope(flow, home, Reads(flow, uses, vn), vn);
      var path, pos := [vn], 0;
      AddDefPoint(def, isInput);
      DefIsWithin(flow, cover, home, Reads(flow, uses, vn), vn);
      CarriesSelf(flow, uses, vn);
      while pos < |path|
        invariant 0 <= pos <= |path| && vn in path && Listed(uses, path) && CarriesAll(flow, uses, vn, path)
        invariant ClosedBut(flow, cover, {}) && Within(flow, cover, scope)
        invariant forall i :: 0 <= i < pos ==> AllRead(flow, cover, uses, path[i], vn)
        invariant forall i :: 0 <= i < pos ==> Followed(flow, uses, path, path[i])
        decreases Pending(flow, uses, rank, path[pos..])
      {
        ghost var c1, path1 := cover, path;
        ReadsAreWithin(flow, home, uses, rank, vn, path[pos]);
        var more := AddReads(path[pos], vn, uses, rank, scope);
        forall i | 0 <= i < pos ensures AllRead(flow, cover, uses, path[i], vn) {
          AllReadStays(flow, c1, cover, uses, path[i], vn);
        }
        forall i | 0 <= i < pos ensures Followed(flow, uses, path + more, path[i]) {
          FollowedStays(flow, uses, path, more, path[i]);
        }
        MoreIsFollowed(flow, uses, path, more, path[pos]);
        PendingStep(flow, uses, rank, path, pos, more);
        path, pos := path + more, pos + 1;
      }
      FinishedIsExact(flow, cover, home, uses, path, vn);
    }
  }
}
