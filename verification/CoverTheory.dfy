/** What it means for a live range, an arc per block, to be closed under predecessors. */
module CoverTheory {
  import opened CoverBlocks

  type Cover = map<nat, CoverBlock>

  function Get(c: Cover, b: nat): CoverBlock {
    if b in c then c[b] else EMPTY_BLOCK
  }

  ghost predicate CoverOk(f: Flow, c: Cover) {
    forall b :: b in c ==> b < |f.preds| && BlockOk(f, c[b])
  }

  lemma GetOk(f: Flow, c: Cover, b: nat)
    requires CoverOk(f, c)
    ensures BlockOk(f, Get(c, b))
  {
  }

  ghost predicate StopsAtMulti(f: Flow, k: CoverBlock)
    requires BlockOk(f, k)
  {
    k.stop.Op? && f.ops[k.stop.id].multiequal
  }

  /** The varnode is live at the start of the block: the arc starts there, or wraps round to it. */
  ghost predicate FromBegin(f: Flow, k: CoverBlock)
    requires BlockOk(f, k)
  {
    !IsEmpty(k) && (k.start == Begin || UIndex(f, k.start) > UIndex(f, k.stop))
  }

  /** The varnode is live at the end of the block. */
  ghost predicate AtExit(f: Flow, k: CoverBlock)
    requires BlockOk(f, k)
  {
    Covers(f, k, MAX_INDEX)
  }

  /** Live at the start for another reason than a MULTIEQUAL there: live at the exit of every
      predecessor. */
  ghost predicate Closed(f: Flow, c: Cover, b: nat)
    requires FlowOk(f) && CoverOk(f, c)
  {
    b < |f.preds| && FromBegin(f, Get(c, b)) && !StopsAtMulti(f, Get(c, b)) ==>
      forall k :: 0 <= k < |f.preds[b]| ==> AtExit(f, Get(c, f.preds[b][k]))
  }

  /** Closed, but for the blocks being worked on. */
  ghost predicate ClosedBut(f: Flow, c: Cover, open: set<nat>) {
    FlowOk(f) && CoverOk(f, c) && forall b :: b !in open ==> Closed(f, c, b)
  }

  /** Whatever was live still is. */
  ghost predicate Wider(f: Flow, k: CoverBlock, k': CoverBlock)
    requires BlockOk(f, k) && BlockOk(f, k')
  {
    forall u :: 0 <= u <= MAX_INDEX && Covers(f, k, u) ==> Covers(f, k', u)
  }

  ghost predicate Grows(f: Flow, c: Cover, c': Cover) {
    CoverOk(f, c) && CoverOk(f, c') && forall b: nat :: Wider(f, Get(c, b), Get(c', b)) && Get(c', b).start == Get(c, b).start
  }

  lemma GrowsSelf(f: Flow, c: Cover, open: set<nat>)
    requires ClosedBut(f, c, open)
    ensures Grows(f, c, c)
  {
  }

  lemma GrowsTrans(f: Flow, a: Cover, b: Cover, c: Cover)
    requires Grows(f, a, b) && Grows(f, b, c)
    ensures Grows(f, a, c)
  {
    forall x: nat ensures Wider(f, Get(a, x), Get(c, x)) {
      assert Wider(f, Get(a, x), Get(b, x)) && Wider(f, Get(b, x), Get(c, x));
    }
  }

  lemma GrowsKeepsExit(f: Flow, c: Cover, c': Cover, b: nat)
    requires FlowOk(f) && Grows(f, c, c') && AtExit(f, Get(c, b))
    ensures AtExit(f, Get(c', b))
  {
    assert Wider(f, Get(c, b), Get(c', b));
    assert Covers(f, Get(c, b), MAX_INDEX);
  }

  // ----- How much is left to do

  /** Two for a block not covered, one for a block covered only up to a MULTIEQUAL at its start. */
  ghost function Left(f: Flow, k: CoverBlock): nat {
    if IsEmpty(k) then 2
    else if BlockOk(f, k) && k.start == Begin && StopsAtMulti(f, k) then 1
    else 0
  }

  ghost function Work(f: Flow, c: Cover, n: nat): nat {
    if n == 0 then 0 else Work(f, c, n - 1) + Left(f, Get(c, n - 1))
  }

  lemma {:induction false} WorkUpdate(f: Flow, c: Cover, b: nat, k: CoverBlock, n: nat)
    requires Left(f, k) <= Left(f, Get(c, b))
    ensures Work(f, c[b := k], n) <= Work(f, c, n)
    ensures b < n && Left(f, k) < Left(f, Get(c, b)) ==> Work(f, c[b := k], n) < Work(f, c, n)
  {
    if n > 0 { WorkUpdate(f, c, b, k, n - 1); }
  }

  // ----- One block changes

  lemma UpdateGrows(f: Flow, c: Cover, b: nat, k: CoverBlock)
    requires FlowOk(f) && CoverOk(f, c) && b < |f.preds| && BlockOk(f, k) && Wider(f, Get(c, b), k) && k.start == Get(c, b).start
    ensures Grows(f, c, c[b := k])
  {
  }

  /** Widening one block keeps every other block closed. */
  lemma UpdateCloses(f: Flow, c: Cover, open: set<nat>, b: nat, k: CoverBlock)
    requires ClosedBut(f, c, open) && b < |f.preds| && BlockOk(f, k) && Wider(f, Get(c, b), k) && k.start == Get(c, b).start
    ensures ClosedBut(f, c[b := k], open + {b})
  {
    UpdateGrows(f, c, b, k);
    forall x: nat | x !in open + {b} ensures Closed(f, c[b := k], x) {
      assert Closed(f, c, x);
      if x < |f.preds| && FromBegin(f, Get(c, x)) && !StopsAtMulti(f, Get(c, x)) {
        forall j | 0 <= j < |f.preds[x]| ensures AtExit(f, Get(c[b := k], f.preds[x][j])) {
          GrowsKeepsExit(f, c, c[b := k], f.preds[x][j]);
        }
      }
    }
  }

  /** A block stays closed when it was, or was not live at its start, and only its stop moved. */
  lemma StaysClosed(f: Flow, c: Cover, open: set<nat>, b: nat, k: CoverBlock)
    requires ClosedBut(f, c, open) && b < |f.preds| && BlockOk(f, k) && Wider(f, Get(c, b), k) && k.start == Get(c, b).start
    requires b !in open ==> (FromBegin(f, k) && !StopsAtMulti(f, k) ==> FromBegin(f, Get(c, b)) && !StopsAtMulti(f, Get(c, b)))
    ensures ClosedBut(f, c[b := k], open)
  {
    UpdateCloses(f, c, open, b, k);
    UpdateGrows(f, c, b, k);
    if b !in open {
      assert Closed(f, c, b);
      if FromBegin(f, k) && !StopsAtMulti(f, k) {
        forall j | 0 <= j < |f.preds[b]| ensures AtExit(f, Get(c[b := k], f.preds[b][j])) {
          GrowsKeepsExit(f, c, c[b := k], f.preds[b][j]);
        }
      }
      assert Closed(f, c[b := k], b);
    }
  }

  /** A block live at its exit needs no more, but for a MULTIEQUAL at its start. */
  lemma ExtendIsWider(f: Flow, k: CoverBlock)
    requires FlowOk(f) && BlockOk(f, k) && !IsEmpty(k)
    requires UIndex(f, k.stop) != MAX_INDEX && UIndex(f, k.stop) >= UIndex(f, k.start)
    ensures Wider(f, k, k.(stop := End)) && AtExit(f, k.(stop := End)) && Left(f, k.(stop := End)) == 0
    ensures FromBegin(f, k.(stop := End)) ==> k.start == Begin
  {
  }

  /** Otherwise it is live at its exit already. */
  lemma ReachesExit(f: Flow, k: CoverBlock)
    requires FlowOk(f) && BlockOk(f, k) && !IsEmpty(k)
    requires UIndex(f, k.stop) == MAX_INDEX || UIndex(f, k.stop) < UIndex(f, k.start)
    ensures AtExit(f, k)
  {
  }

  lemma NothingIsLess(f: Flow, k: CoverBlock)
    requires BlockOk(f, k)
    ensures Wider(f, EMPTY_BLOCK, k)
  {
  }

  /** When every predecessor is live at its exit, the block is closed. */
  lemma NowClosed(f: Flow, c: Cover, open: set<nat>, b: nat)
    requires ClosedBut(f, c, open + {b}) && b < |f.preds|
    requires forall j :: 0 <= j < |f.preds[b]| ==> AtExit(f, Get(c, f.preds[b][j]))
    ensures ClosedBut(f, c, open)
  {
    forall x: nat | x !in open ensures Closed(f, c, x) {
      if x != b { assert x !in open + {b}; }
    }
  }

  /** A read is within the range of its block. */
  ghost predicate ReadLive(f: Flow, c: Cover, ref: OpId)
    requires FlowOk(f) && CoverOk(f, c) && ref < |f.ops|
  {
    Covers(f, Get(c, f.ops[ref].block), f.ops[ref].index)
  }

  lemma ReadStays(f: Flow, c: Cover, c': Cover, ref: OpId)
    requires FlowOk(f) && Grows(f, c, c') && ref < |f.ops| && ReadLive(f, c, ref)
    ensures ReadLive(f, c', ref)
  {
    assert Wider(f, Get(c, f.ops[ref].block), Get(c', f.ops[ref].block));
    assert Covers(f, Get(c, f.ops[ref].block), f.ops[ref].index);
  }

  /** The varnode is live at the exit of every predecessor a MULTIEQUAL reads it from. */
  ghost predicate SlotsLive(f: Flow, c: Cover, ref: OpId, vn: VarnodeId)
    requires FlowOk(f) && CoverOk(f, c) && ref < |f.ops| && f.ops[ref].multiequal
  {
    forall j :: 0 <= j < |f.ops[ref].inputs| && f.ops[ref].inputs[j] == vn ==> AtExit(f, Get(c, f.preds[f.ops[ref].block][j]))
  }

  /** Moving the stop to a read outside the arc covers more. */
  lemma StopIsWider(f: Flow, k: CoverBlock, ref: OpId)
    requires FlowOk(f) && BlockOk(f, k) && !IsEmpty(k) && ref < |f.ops| && !Covers(f, k, f.ops[ref].index)
    ensures Wider(f, k, k.(stop := Op(ref)))
  {
  }

  /** The stop moved forwards in a block that was closed: it still is. */
  lemma StopKeepsClosed(f: Flow, c: Cover, b: nat, ref: OpId)
    requires ClosedBut(f, c, {}) && b < |f.preds| && ref < |f.ops| && BlockOk(f, Get(c, b)) && !IsEmpty(Get(c, b))
    requires !Covers(f, Get(c, b), f.ops[ref].index) && f.ops[ref].index >= UIndex(f, Get(c, b).start)
    requires !(Get(c, b).start == Begin && StopsAtMulti(f, Get(c, b)))
    ensures ClosedBut(f, c[b := Get(c, b).(stop := Op(ref))], {})
    ensures !f.ops[ref].multiequal
  {
    var k := Get(c, b);
    StopIsWider(f, k, ref);
    StaysClosed(f, c, {}, b, k.(stop := Op(ref)));
  }

  /** A block that is live only up to a MULTIEQUAL needs no predecessors for itself. */
  lemma MultiCloses(f: Flow, c0: Cover, c: Cover, b: nat, ref: OpId)
    requires ref < |f.ops| && f.ops[ref].multiequal && b == f.ops[ref].block && ClosedBut(f, c0, {})
    requires c == c0 || (ClosedBut(f, c, {b}) && c == c0[b := Get(c0, b).(stop := Op(ref))])
    requires c == c0 ==> Covers(f, Get(c0, b), f.ops[ref].index)
    ensures ClosedBut(f, c, {}) && ReadLive(f, c, ref)
  {
    if c != c0 {
      forall x: nat ensures Closed(f, c, x) { if x != b { assert x !in {b}; } }
    }
  }

  lemma ReadNeedsPreds(f: Flow, c0: Cover, c: Cover, b: nat, ref: OpId)
    requires ref < |f.ops| && b == f.ops[ref].block && ClosedBut(f, c0, {}) && ClosedBut(f, c, {b})
    requires c == c0[b := Get(c0, b).(stop := Op(ref))]
    ensures ReadLive(f, c, ref)
  {
  }

  /** A read is accounted for: it is in the range, and the exits a MULTIEQUAL takes it from are. */
  ghost predicate ReadDone(f: Flow, c: Cover, ref: OpId, vn: VarnodeId) {
    FlowOk(f) && CoverOk(f, c) && ref < |f.ops| && ReadLive(f, c, ref) && (f.ops[ref].multiequal ==> SlotsLive(f, c, ref, vn))
  }

  lemma DoneStays(f: Flow, c: Cover, c': Cover, ref: OpId, vn: VarnodeId)
    requires ReadDone(f, c, ref, vn) && Grows(f, c, c')
    ensures ReadDone(f, c', ref, vn)
  {
    hide Wider;
    ReadStays(f, c, c', ref);
    var info := f.ops[ref];
    if info.multiequal {
      forall j | 0 <= j < |info.inputs| && info.inputs[j] == vn ensures AtExit(f, Get(c', f.preds[info.block][j])) {
        GrowsKeepsExit(f, c, c', f.preds[info.block][j]);
      }
    }
  }
}
