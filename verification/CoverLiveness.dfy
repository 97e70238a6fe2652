/** Liveness along the walks of the flow graph, and what a closed live range says about it. */
module CoverLiveness {
  import opened CoverBlocks
  import opened CoverTheory

  /** Where the definition starts the range, if there is one. */
  datatype Home = Nowhere | At(block: nat, start: Point)

  ghost predicate IsHome(home: Home, b: nat) {
    home.At? && home.block == b
  }

  ghost predicate HomeOk(f: Flow, home: Home) {
    home.At? ==> home.block < |f.preds| && (home.start == Input || (home.start.Op? && home.start.id < |f.ops|))
  }

  /** Only the block of the definition has an arc that does not start at its beginning. */
  ghost predicate Started(f: Flow, c: Cover, home: Home) {
    && FlowOk(f) && CoverOk(f, c) && HomeOk(f, home)
    && forall b: nat :: Get(c, b).start == if IsHome(home, b) then home.start else Begin
  }

  // ----- What is live, by walks

  /** The value read is not the one defined earlier in the same block. */
  ghost predicate Exposed(f: Flow, home: Home, ref: OpId)
    requires HomeOk(f, home) && ref < |f.ops|
  {
    !(IsHome(home, f.ops[ref].block) && UIndex(f, home.start) <= f.ops[ref].index)
  }

  /** The read takes the value from the exit of `q`: a MULTIEQUAL from the in-edges of its slots, any
      other operation from all in-edges. */
  ghost predicate TakesFrom(f: Flow, home: Home, ref: OpId, vn: VarnodeId, q: nat)
    requires FlowOk(f) && HomeOk(f, home) && ref < |f.ops|
  {
    var info := f.ops[ref];
    if info.multiequal then
      exists j :: 0 <= j < |info.inputs| && info.inputs[j] == vn && f.preds[info.block][j] == q
    else
      Exposed(f, home, ref) && q in f.preds[info.block]
  }

  ghost predicate Step(f: Flow, home: Home, p: nat, q: nat) {
    q < |f.preds| && p in f.preds[q] && !IsHome(home, q)
  }

  /** A walk along flow edges that enters no block which defines the varnode. */
  ghost predicate Walk(f: Flow, home: Home, w: seq<nat>) {
    && |w| > 0 && (forall i :: 0 <= i < |w| ==> w[i] < |f.preds|)
    && forall i :: 0 <= i < |w| - 1 ==> Step(f, home, w[i], w[i + 1])
  }

  ghost predicate LeadsTo(f: Flow, home: Home, b: nat, q: nat) {
    exists w :: Walk(f, home, w) && w[0] == b && w[|w| - 1] == q
  }

  /** From the exit of `b` a walk leads to a read. */
  ghost predicate LiveOut(f: Flow, home: Home, refs: set<OpId>, vn: VarnodeId, b: nat) {
    FlowOk(f) && HomeOk(f, home) && exists ref, q :: ref in refs && ref < |f.ops| && TakesFrom(f, home, ref, vn, q) && LeadsTo(f, home, b, q)
  }

  lemma LeadsSelf(f: Flow, home: Home, q: nat)
    requires q < |f.preds|
    ensures LeadsTo(f, home, q, q)
  {
    assert Walk(f, home, [q]) && [q][0] == q;
  }

  lemma LeadsFurther(f: Flow, home: Home, p: nat, b: nat, q: nat)
    requires LeadsTo(f, home, b, q) && Step(f, home, p, b) && p < |f.preds|
    ensures LeadsTo(f, home, p, q)
  {
    var w :| Walk(f, home, w) && w[0] == b && w[|w| - 1] == q;
    var w' := [p] + w;
    forall i | 0 <= i < |w'| - 1 ensures Step(f, home, w'[i], w'[i + 1]) {
      if i > 0 { assert w'[i] == w[i - 1] && Step(f, home, w[i - 1], w[i - 1 + 1]); }
    }
    assert Walk(f, home, w') && w'[0] == p && w'[|w'| - 1] == q;
  }

  lemma TakenIsBlock(f: Flow, home: Home, ref: OpId, vn: VarnodeId, q: nat)
    requires FlowOk(f) && HomeOk(f, home) && ref < |f.ops| && TakesFrom(f, home, ref, vn, q)
    ensures q < |f.preds|
  {
  }

  // ----- A closed range holds all that is live

  /** A block live at its exit, without the definition, is live throughout, and its predecessors at their exits. */
  lemma ExitNeedsPreds(f: Flow, c: Cover, home: Home, p: nat, b: nat)
    requires ClosedBut(f, c, {}) && Started(f, c, home) && AtExit(f, Get(c, b)) && Step(f, home, p, b)
    ensures AtExit(f, Get(c, p))
  {
    assert Closed(f, c, b);
    var j :| 0 <= j < |f.preds[b]| && f.preds[b][j] == p;
    assert Get(c, b).start == Begin;
  }

  lemma {:induction false} WalkIsLive(f: Flow, c: Cover, home: Home, w: seq<nat>)
    requires ClosedBut(f, c, {}) && Started(f, c, home) && Walk(f, home, w) && AtExit(f, Get(c, w[|w| - 1]))
    ensures AtExit(f, Get(c, w[0]))
    decreases |w|
  {
    if |w| > 1 {
      var v := w[..|w| - 1];
      assert Step(f, home, w[|w| - 2], w[|w| - 2 + 1]);
      ExitNeedsPreds(f, c, home, w[|w| - 2], w[|w| - 1]);
      forall i | 0 <= i < |v| - 1 ensures Step(f, home, v[i], v[i + 1]) { assert Step(f, home, w[i], w[i + 1]); }
      WalkIsLive(f, c, home, v);
    }
  }

  /** An exposed read needs every predecessor. */
  lemma ReadNeedsExit(f: Flow, c: Cover, home: Home, ref: OpId, vn: VarnodeId, q: nat)
    requires ClosedBut(f, c, {}) && Started(f, c, home) && ref < |f.ops| && ReadLive(f, c, ref)
    requires f.ops[ref].multiequal ==> SlotsLive(f, c, ref, vn)
    requires TakesFrom(f, home, ref, vn, q)
    ensures AtExit(f, Get(c, q))
  {
    var b := f.ops[ref].block;
    if !f.ops[ref].multiequal {
      assert Closed(f, c, b);
      assert Get(c, b).start == if IsHome(home, b) then home.start else Begin;
      var j :| 0 <= j < |f.preds[b]| && f.preds[b][j] == q;
    }
  }

  /** Every exit from which a walk leads to a read is in the range. */
  lemma LiveIsCovered(f: Flow, c: Cover, home: Home, refs: set<OpId>, vn: VarnodeId, b: nat)
    requires ClosedBut(f, c, {}) && Started(f, c, home)
    requires forall ref :: ref in refs && ref < |f.ops| ==> ReadLive(f, c, ref) && (f.ops[ref].multiequal ==> SlotsLive(f, c, ref, vn))
    requires LiveOut(f, home, refs, vn, b)
    ensures AtExit(f, Get(c, b))
  {
    hide ClosedBut, Started, SlotsLive, ReadLive, TakesFrom;
    var ref, q :| ref in refs && ref < |f.ops| && TakesFrom(f, home, ref, vn, q) && LeadsTo(f, home, b, q);
    ReadNeedsExit(f, c, home, ref, vn, q);
    var w :| Walk(f, home, w) && w[0] == b && w[|w| - 1] == q;
    WalkIsLive(f, c, home, w);
  }

  // ----- And nothing else

  /** The definition, the reads, and a set of blocks whose exits may be in the range. */
  datatype Scope = Scope(home: Home, refs: set<OpId>, want: set<nat>)

  /** With a block, its predecessors, but for the block of the definition. */
  ghost predicate ScopeOk(f: Flow, s: Scope) {
    forall b, j :: b in s.want && b < |f.preds| && 0 <= j < |f.preds[b]| && !IsHome(s.home, b) ==> f.preds[b][j] in s.want
  }

  /** An arc is that of the definition alone, or stops at a read of its block, or at the end of a block
      in scope. */
  ghost predicate StopsWithin(f: Flow, s: Scope, b: nat, k: CoverBlock) {
    || IsEmpty(k)
    || (IsHome(s.home, b) && k == CoverBlock(s.home.start, s.home.start))
    || (k.stop.Op? && k.stop.id in s.refs && k.stop.id < |f.ops| && f.ops[k.stop.id].block == b)
    || (k.stop == End && b in s.want)
  }

  ghost predicate Within(f: Flow, c: Cover, s: Scope) {
    Started(f, c, s.home) && ScopeOk(f, s) && forall b: nat :: StopsWithin(f, s, b, Get(c, b))
  }

  lemma ExitIsWithin(f: Flow, c: Cover, s: Scope, b: nat)
    requires Within(f, c, s) && AtExit(f, Get(c, b)) && !IsHome(s.home, b)
    ensures b in s.want
  {
    assert StopsWithin(f, s, b, Get(c, b));
  }

  ghost predicate ReadWithin(f: Flow, s: Scope, ref: OpId, vn: VarnodeId) {
    FlowOk(f) && HomeOk(f, s.home) && ref < |f.ops| && ref in s.refs && forall q :: TakesFrom(f, s.home, ref, vn, q) ==> q in s.want
  }

  lemma WithinUpdate(f: Flow, c: Cover, s: Scope, b: nat, k: CoverBlock)
    requires Within(f, c, s) && b < |f.preds| && BlockOk(f, k) && k.start == Get(c, b).start
    requires StopsWithin(f, s, b, k)
    ensures Within(f, c[b := k], s)
  {
  }

  /** The blocks from whose exits a walk leads to a read. */
  ghost function LiveScope(f: Flow, home: Home, refs: set<OpId>, vn: VarnodeId): (s: Scope) {
    Scope(home, refs, set b | 0 <= b < |f.preds| && LiveOut(f, home, refs, vn, b))
  }

  lemma LiveScopeOk(f: Flow, home: Home, refs: set<OpId>, vn: VarnodeId)
    requires FlowOk(f)
    ensures ScopeOk(f, LiveScope(f, home, refs, vn))
  {
    hide TakesFrom;
    var s := LiveScope(f, home, refs, vn);
    forall b, j | b in s.want && b < |f.preds| && 0 <= j < |f.preds[b]| && !IsHome(home, b) ensures f.preds[b][j] in s.want {
      var ref, q :| ref in refs && ref < |f.ops| && TakesFrom(f, home, ref, vn, q) && LeadsTo(f, home, b, q);
      LeadsFurther(f, home, f.preds[b][j], b, q);
    }
  }

  lemma LiveScopeReads(f: Flow, home: Home, refs: set<OpId>, vn: VarnodeId, ref: OpId)
    requires FlowOk(f) && HomeOk(f, home) && ref < |f.ops| && ref in refs
    ensures ReadWithin(f, LiveScope(f, home, refs, vn), ref, vn)
  {
    forall q | TakesFrom(f, home, ref, vn, q) ensures q in LiveScope(f, home, refs, vn).want {
      TakenIsBlock(f, home, ref, vn, q);
      LeadsSelf(f, home, q);
    }
  }
}
