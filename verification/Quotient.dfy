/** Collapsing a set of blocks into one: edges that cross the boundary are moved one by one to the
    new block, then parallel ones are merged. */
module Quotient {
  import opened FlowGraph
  import opened EdgeLabels
  import opened EdgePairing
  import opened EdgeCounts
  import opened EdgeFlags

  /** Neither a member nor the new block. */
  ghost predicate Outsider(members: set<BlockId>, ident: BlockId, b: BlockId) {
    b !in members && b != ident
  }

  /** Some edge between `o` and a member is gone, in one direction. */
  ghost predicate MovedIn(g0: Graph, g: Graph, members: set<BlockId>, o: BlockId) {
    exists m :: m in members && Cnt(g, o, m) < Cnt(g0, o, m)
  }

  ghost predicate MovedOut(g0: Graph, g: Graph, members: set<BlockId>, o: BlockId) {
    exists m :: m in members && Cnt(g, m, o) < Cnt(g0, m, o)
  }

  /** Edges on one side of the boundary are untouched. */
  ghost predicate SidesKept(g0: Graph, g: Graph, members: set<BlockId>, ident: BlockId) {
    && (forall x, y :: x in members && y in members ==> Cnt(g, x, y) == Cnt(g0, x, y))
    && (forall x, y :: Outsider(members, ident, x) && Outsider(members, ident, y) ==> Cnt(g, x, y) == Cnt(g0, x, y))
  }

  /** An outsider has an edge to or from the new block exactly when one of its edges to or from a
      member has been moved; the new block has no other edges. */
  ghost predicate Moving(g0: Graph, g: Graph, members: set<BlockId>, ident: BlockId) {
    && Linked(g) && |g.outofthis| == |g0.outofthis| && SidesKept(g0, g, members, ident)
    && (forall o, m :: Outsider(members, ident, o) && m in members ==>
          Cnt(g, o, m) <= Cnt(g0, o, m) && Cnt(g, m, o) <= Cnt(g0, m, o))
    && (forall o :: Outsider(members, ident, o) ==>
          (Cnt(g, o, ident) > 0 <==> MovedIn(g0, g, members, o)) && (Cnt(g, ident, o) > 0 <==> MovedOut(g0, g, members, o)))
    && Cnt(g, ident, ident) == 0
    && (forall m :: m in members ==> Cnt(g, ident, m) == 0 && Cnt(g, m, ident) == 0)
    && LabelsMoving(g0, g, members, ident)
  }

  ghost predicate SameSide(members: set<BlockId>, ident: BlockId, x: BlockId, y: BlockId) {
    (x in members && y in members) || (Outsider(members, ident, x) && Outsider(members, ident, y))
  }

  ghost predicate SidesLabelled(g0: Graph, g: Graph, members: set<BlockId>, ident: BlockId) {
    forall x: BlockId, y: BlockId :: SameSide(members, ident, x, y) ==> SameBetween(g0, g, x, y)
  }

  /** An edge that is moved keeps its label at the outsider's end, and has the same one at the new block. */
  ghost predicate LabelsMoving(g0: Graph, g: Graph, members: set<BlockId>, ident: BlockId) {
    && SidesLabelled(g0, g, members, ident)
    && (forall o: BlockId :: Outsider(members, ident, o) ==> EndsMoving(g0, g, members, ident, o))
  }

  ghost predicate EndsMoving(g0: Graph, g: Graph, members: set<BlockId>, ident: BlockId, o: BlockId) {
    forall l ::
      && Outs(g, o, members + {ident}, l) == Outs(g0, o, members, l) && Ins(g, o, members + {ident}, l) == Ins(g0, o, members, l)
      && Ins(g, ident, {o}, l) == Outs(g, o, {ident}, l) && Outs(g, ident, {o}, l) == Ins(g, o, {ident}, l)
  }

  /** An edge of the new block has a flag there exactly when some edge that it stands for has it at the
      outsider's end; at the outsider's end it has the label of one of them. */
  ghost predicate StandsFor(g0: Graph, g: Graph, members: set<BlockId>, ident: BlockId, o: BlockId) {
    && (forall f :: InHas(g, ident, {o}, f) <==> OutHas(g0, o, members, f))
    && (forall f :: OutHas(g, ident, {o}, f) <==> InHas(g0, o, members, f))
    && (forall l :: Outs(g, o, {ident}, l) <= Outs(g0, o, members, l) && Ins(g, o, {ident}, l) <= Ins(g0, o, members, l))
  }

  /** The quotient: members are joined to each other as before, outsiders too, no edge crosses the
      boundary, and one edge joins an outsider with the new block exactly when some edge joined it
      with a member. Labels stay with their edges, and an edge of the new block takes all flags of those
      it stands for. */
  ghost predicate IsQuotient(g0: Graph, g: Graph, members: set<BlockId>, ident: BlockId) {
    && Linked(g) && |g.outofthis| == |g0.outofthis| && SidesKept(g0, g, members, ident)
    && (forall o, m :: Outsider(members, ident, o) && m in members ==> Cnt(g, o, m) == 0 && Cnt(g, m, o) == 0)
    && (forall o :: Outsider(members, ident, o) ==>
          Cnt(g, o, ident) == One(exists m :: m in members && Cnt(g0, o, m) > 0) &&
          Cnt(g, ident, o) == One(exists m :: m in members && Cnt(g0, m, o) > 0))
    && Cnt(g, ident, ident) == 0
    && (forall m :: m in members ==> Cnt(g, ident, m) == 0 && Cnt(g, m, ident) == 0)
    && SidesLabelled(g0, g, members, ident)
    && (forall o: BlockId :: Outsider(members, ident, o) ==> StandsFor(g0, g, members, ident, o))
  }

  lemma StartMoving(g: Graph, members: set<BlockId>, ident: BlockId)
    requires Linked(g) && ident !in members && ident < |g.outofthis| && g.outofthis[ident] == [] && g.intothis[ident] == []
    ensures Moving(g, g, members, ident)
  {
    forall x ensures Cnt(g, x, ident) == 0 && Cnt(g, ident, x) == 0 {
      InSlotCounts(g, ident, x);
    }
    StartLabels(g, members, ident);
  }

  lemma StartLabels(g: Graph, members: set<BlockId>, ident: BlockId)
    requires Linked(g) && ident < |g.outofthis| && g.outofthis[ident] == [] && g.intothis[ident] == []
    ensures LabelsMoving(g, g, members, ident)
  {
    forall o: BlockId | Outsider(members, ident, o) ensures EndsMoving(g, g, members, ident, o) {
      if o < |g.outofthis| {
        forall k | 0 <= k < |g.outofthis[o]| ensures g.outofthis[o][k].point != ident { assert IsOut(g, o, k) && OutLinked(g, o, k); }
        forall k | 0 <= k < |g.intothis[o]| ensures g.intothis[o][k].point != ident { assert IsIn(g, o, k) && InLinked(g, o, k); }
        forall l {:trigger Outs(g, o, members, l)} ensures LabelsAt(g, members, ident, o, l) {
          LabelledSame(g.outofthis[o], g.outofthis[o], members + {ident}, members, l);
          LabelledSame(g.intothis[o], g.intothis[o], members + {ident}, members, l);
          LabelledPositive(g.outofthis[o], {ident}, l);
          LabelledPositive(g.intothis[o], {ident}, l);
        }
      }
    }
  }

  ghost predicate LabelsAt(g: Graph, members: set<BlockId>, ident: BlockId, o: BlockId, l: EdgeLabel) {
    && Outs(g, o, members + {ident}, l) == Outs(g, o, members, l) && Ins(g, o, members + {ident}, l) == Ins(g, o, members, l)
    && Outs(g, o, {ident}, l) == 0 && Ins(g, o, {ident}, l) == 0
  }

  /** An out-edge of `o`, or an in-edge, moves from a member to the new block. */
  lemma MoveLabels(g0: Graph, g: Graph, g': Graph, members: set<BlockId>, ident: BlockId, o: BlockId, m: BlockId, l: EdgeLabel, q: EdgeLabel)
    requires LabelsMoving(g0, g, members, ident) && Outsider(members, ident, o) && m in members && ident !in members
    requires || Turns(g, g', End(m, o, q), End(ident, o, l), End(o, m, l), End(o, ident, l))
             || Turns(g, g', End(o, m, l), End(o, ident, l), End(m, o, q), End(ident, o, l))
    ensures LabelsMoving(g0, g', members, ident)
  {
    hide Ins, Outs;
    forall x: BlockId, y: BlockId | SameSide(members, ident, x, y) ensures SameBetween(g0, g', x, y) {
      assert SameBetween(g0, g, x, y);
    }
    forall x: BlockId | Outsider(members, ident, x) ensures EndsMoving(g0, g', members, ident, x) {
      assert EndsMoving(g0, g, members, ident, x);
    }
  }

  /** How one edit changed the counts: one edge fewer here, one more there. */
  ghost predicate Shifts(g: Graph, g': Graph, x0: BlockId, y0: BlockId, x1: BlockId, y1: BlockId) {
    forall x, y :: Cnt(g', x, y) + One(x == x0 && y == y0) == Cnt(g, x, y) + One(x == x1 && y == y1)
  }

  /** An edge from an outsider to a member is moved to the new block. */
  lemma MoveInKeeps(g0: Graph, g: Graph, g': Graph, members: set<BlockId>, ident: BlockId, o: BlockId, m: BlockId)
    requires Moving(g0, g, members, ident) && Outsider(members, ident, o) && m in members && ident !in members
    requires Linked(g') && |g'.outofthis| == |g.outofthis| && Shifts(g, g', o, m, o, ident) && LabelsMoving(g0, g', members, ident)
    ensures Moving(g0, g', members, ident)
  {
    hide LabelsMoving, Linked;
    assert Cnt(g', o, m) < Cnt(g0, o, m);
    forall x | Outsider(members, ident, x)
      ensures (Cnt(g', x, ident) > 0 <==> MovedIn(g0, g', members, x)) && (Cnt(g', ident, x) > 0 <==> MovedOut(g0, g', members, x))
    {
      SameMoved(g0, g, g', members, ident, o, m, x);
    }
  }

  lemma SameMoved(g0: Graph, g: Graph, g': Graph, members: set<BlockId>, ident: BlockId, o: BlockId, m: BlockId, x: BlockId)
    requires Moving(g0, g, members, ident) && Outsider(members, ident, o) && m in members && ident !in members
    requires Outsider(members, ident, x) && Shifts(g, g', o, m, o, ident)
    ensures MovedOut(g0, g', members, x) <==> MovedOut(g0, g, members, x)
    ensures x != o ==> (MovedIn(g0, g', members, x) <==> MovedIn(g0, g, members, x))
  {
    hide LabelsMoving, Linked;
    forall y | y in members ensures Cnt(g', y, x) == Cnt(g, y, x) && (x != o ==> Cnt(g', x, y) == Cnt(g, x, y)) { }
  }

  /** An edge from a member to an outsider is moved to the new block. */
  lemma MoveOutKeeps(g0: Graph, g: Graph, g': Graph, members: set<BlockId>, ident: BlockId, o: BlockId, m: BlockId)
    requires Moving(g0, g, members, ident) && Outsider(members, ident, o) && m in members && ident !in members
    requires Linked(g') && |g'.outofthis| == |g.outofthis| && Shifts(g, g', m, o, ident, o) && LabelsMoving(g0, g', members, ident)
    ensures Moving(g0, g', members, ident)
  {
    hide LabelsMoving, Linked;
    assert Cnt(g', m, o) < Cnt(g0, m, o);
    forall x | Outsider(members, ident, x)
      ensures (Cnt(g', x, ident) > 0 <==> MovedIn(g0, g', members, x)) && (Cnt(g', ident, x) > 0 <==> MovedOut(g0, g', members, x))
    {
      SameMovedOut(g0, g, g', members, ident, o, m, x);
    }
  }

  lemma SameMovedOut(g0: Graph, g: Graph, g': Graph, members: set<BlockId>, ident: BlockId, o: BlockId, m: BlockId, x: BlockId)
    requires Moving(g0, g, members, ident) && Outsider(members, ident, o) && m in members && ident !in members
    requires Outsider(members, ident, x) && Shifts(g, g', m, o, ident, o)
    ensures MovedIn(g0, g', members, x) <==> MovedIn(g0, g, members, x)
    ensures x != o ==> (MovedOut(g0, g', members, x) <==> MovedOut(g0, g, members, x))
  {
    hide LabelsMoving, Linked;
    forall y | y in members ensures Cnt(g', x, y) == Cnt(g, x, y) && (x != o ==> Cnt(g', y, x) == Cnt(g, y, x)) { }
  }

  // ----- Nothing left to move

  ghost predicate NoneCrossIn(g: Graph, members: set<BlockId>, ident: BlockId, m: BlockId) {
    forall o :: Outsider(members, ident, o) ==> Cnt(g, o, m) == 0
  }

  ghost predicate NoneCrossOut(g: Graph, members: set<BlockId>, ident: BlockId, m: BlockId) {
    forall o :: Outsider(members, ident, o) ==> Cnt(g, m, o) == 0
  }

  /** Parallel edges at `b` are merged, and only those. */
  ghost predicate Merged(g: Graph, g': Graph, b: BlockId) {
    forall x, y :: Cnt(g', x, y) == if x == b || y == b then One(Cnt(g, x, y) > 0) else Cnt(g, x, y)
  }

  lemma MergedIsQuotient(g0: Graph, g: Graph, g': Graph, members: set<BlockId>, ident: BlockId)
    requires Moving(g0, g, members, ident) && ident !in members && Merged(g, g', ident)
    requires Linked(g') && |g'.outofthis| == |g.outofthis| && LabelsMerged(g, g', ident)
    requires forall m :: m in members ==> NoneCrossIn(g, members, ident, m) && NoneCrossOut(g, members, ident, m)
    ensures IsQuotient(g0, g', members, ident)
  {
    QuotientLabels(g0, g, g', members, ident);
    hide LabelsMoving, LabelsMerged, SidesLabelled, StandsFor, Linked;
    forall o | Outsider(members, ident, o)
      ensures Cnt(g', o, ident) == One(exists m :: m in members && Cnt(g0, o, m) > 0)
      ensures Cnt(g', ident, o) == One(exists m :: m in members && Cnt(g0, m, o) > 0)
    {
      AllMoved(g0, g, members, ident, o);
    }
  }

  lemma QuotientLabels(g0: Graph, g: Graph, g': Graph, members: set<BlockId>, ident: BlockId)
    requires Linked(g) && LabelsMoving(g0, g, members, ident) && ident !in members && LabelsMerged(g, g', ident)
    requires forall m :: m in members ==> NoneCrossIn(g, members, ident, m) && NoneCrossOut(g, members, ident, m)
    ensures SidesLabelled(g0, g', members, ident)
    ensures forall o: BlockId :: Outsider(members, ident, o) ==> StandsFor(g0, g', members, ident, o)
  {
    hide Ins, Outs, Linked, NoneCrossIn, NoneCrossOut;
    forall x: BlockId, y: BlockId | SameSide(members, ident, x, y) ensures SameBetween(g0, g', x, y) {
      assert SameBetween(g0, g, x, y) && SameBetween(g, g', x, y);
    }
    forall o: BlockId | Outsider(members, ident, o) ensures StandsFor(g0, g', members, ident, o) {
      assert EndsMoving(g0, g, members, ident, o) && KeptInto(g, g', o, ident) && KeptFrom(g, g', ident, o);
      forall l ensures MovedLabels(g0, g, members, ident, o, l) { AllAreMoved(g0, g, members, ident, o, l); }
      StandsForOne(g0, g, g', members, ident, o);
    }
  }

  /** Nothing crosses the boundary: at both ends, the labels of the new block's edges are those of the moved ones. */
  ghost predicate MovedLabels(g0: Graph, g: Graph, members: set<BlockId>, ident: BlockId, o: BlockId, l: EdgeLabel) {
    && Outs(g, o, {ident}, l) == Outs(g0, o, members, l) == Ins(g, ident, {o}, l)
    && Ins(g, o, {ident}, l) == Ins(g0, o, members, l) == Outs(g, ident, {o}, l)
  }

  lemma AllAreMoved(g0: Graph, g: Graph, members: set<BlockId>, ident: BlockId, o: BlockId, l: EdgeLabel)
    requires Linked(g) && Outsider(members, ident, o) && EndsMoving(g0, g, members, ident, o) && ident !in members
    requires forall m :: m in members ==> NoneCrossIn(g, members, ident, m) && NoneCrossOut(g, members, ident, m)
    ensures MovedLabels(g0, g, members, ident, o, l)
  {
    if o < |g.outofthis| {
      forall k | 0 <= k < |g.outofthis[o]| ensures g.outofthis[o][k].point !in members {
        var m := g.outofthis[o][k].point;
        CountPositive(g.outofthis[o], m);
        assert m in members ==> NoneCrossIn(g, members, ident, m);
      }
      forall k | 0 <= k < |g.intothis[o]| ensures g.intothis[o][k].point !in members {
        var m := g.intothis[o][k].point;
        InSlotCounts(g, o, m);
        assert m in members ==> NoneCrossOut(g, members, ident, m);
      }
      LabelledSame(g.outofthis[o], g.outofthis[o], members + {ident}, {ident}, l);
      LabelledSame(g.intothis[o], g.intothis[o], members + {ident}, {ident}, l);
    }
  }

  lemma StandsForOne(g0: Graph, g: Graph, g': Graph, members: set<BlockId>, ident: BlockId, o: BlockId)
    requires KeptInto(g, g', o, ident) && KeptFrom(g, g', ident, o) && forall l :: MovedLabels(g0, g, members, ident, o, l)
    ensures StandsFor(g0, g', members, ident, o)
  {
    hide Ins, Outs, Has;
    assert forall l :: Outs(g, o, {ident}, l) == Outs(g0, o, members, l) == Ins(g, ident, {o}, l) by {
      forall l ensures Outs(g, o, {ident}, l) == Outs(g0, o, members, l) == Ins(g, ident, {o}, l) { assert MovedLabels(g0, g, members, ident, o, l); }
    }
    assert forall l :: Ins(g, o, {ident}, l) == Ins(g0, o, members, l) == Outs(g, ident, {o}, l) by {
      forall l ensures Ins(g, o, {ident}, l) == Ins(g0, o, members, l) == Outs(g, ident, {o}, l) { assert MovedLabels(g0, g, members, ident, o, l); }
    }
    forall f ensures InHas(g, ident, {o}, f) <==> OutHas(g0, o, members, f) {
      if l :| Ins(g, ident, {o}, l) > 0 && Has(l, f) { assert Outs(g0, o, members, l) > 0; }
      if l :| Outs(g0, o, members, l) > 0 && Has(l, f) { assert Ins(g, ident, {o}, l) > 0; }
    }
    forall f ensures OutHas(g, ident, {o}, f) <==> InHas(g0, o, members, f) {
      if l :| Outs(g, ident, {o}, l) > 0 && Has(l, f) { assert Ins(g0, o, members, l) > 0; }
      if l :| Ins(g0, o, members, l) > 0 && Has(l, f) { assert Outs(g, ident, {o}, l) > 0; }
    }
  }

  lemma AllMoved(g0: Graph, g: Graph, members: set<BlockId>, ident: BlockId, o: BlockId)
    requires Outsider(members, ident, o)
    requires forall m :: m in members ==> NoneCrossIn(g, members, ident, m) && NoneCrossOut(g, members, ident, m)
    ensures MovedIn(g0, g, members, o) <==> exists m :: m in members && Cnt(g0, o, m) > 0
    ensures MovedOut(g0, g, members, o) <==> exists m :: m in members && Cnt(g0, m, o) > 0
  {
    forall m | m in members ensures Cnt(g, o, m) == 0 && Cnt(g, m, o) == 0 {
      assert NoneCrossIn(g, members, ident, m) && NoneCrossOut(g, members, ident, m);
    }
  }

  // ----- Merging one direction after the other

  ghost predicate MergedInto(g: Graph, g': Graph, b: BlockId) {
    forall x, y :: Cnt(g', x, y) == if y == b then One(Cnt(g, x, y) > 0) else Cnt(g, x, y)
  }

  ghost predicate MergedFrom(g: Graph, g': Graph, b: BlockId) {
    forall x, y :: Cnt(g', x, y) == if x == b then One(Cnt(g, x, y) > 0) else Cnt(g, x, y)
  }

  /** Edges into `b` from blocks outside `rest` are merged. */
  ghost predicate MergingInto(g: Graph, g': Graph, b: BlockId, rest: seq<BlockId>) {
    && (forall x, y :: y != b ==> Cnt(g', x, y) == Cnt(g, x, y))
    && (forall x :: (Cnt(g', x, b) > 0 <==> Cnt(g, x, b) > 0) && (Cnt(g', x, b) >= 2 ==> x in rest))
  }

  ghost predicate MergingFrom(g: Graph, g': Graph, b: BlockId, rest: seq<BlockId>) {
    && (forall x, y :: x != b ==> Cnt(g', x, y) == Cnt(g, x, y))
    && (forall y :: (Cnt(g', b, y) > 0 <==> Cnt(g, b, y) > 0) && (Cnt(g', b, y) >= 2 ==> y in rest))
  }

  lemma StartMergingInto(g: Graph, b: BlockId, duplist: seq<BlockId>)
    requires Linked(g) && b < |g.intothis| && forall x :: x in duplist <==> Count(g.intothis[b], x) >= 2
    ensures MergingInto(g, g, b, duplist)
  {
    forall x | Cnt(g, x, b) >= 2 ensures x in duplist {
      TwiceBothWays(g, b, x);
      CountTwice(g.intothis[b], x);
    }
  }

  lemma MergeOneInto(g: Graph, g1: Graph, g2: Graph, b: BlockId, rest: seq<BlockId>)
    requires rest != [] && MergingInto(g, g1, b, rest) && SameElse(g1, g2, rest[0], b) && Cnt(g2, rest[0], b) <= 1
    ensures MergingInto(g, g2, b, rest[1..])
  {
    forall x | Cnt(g2, x, b) >= 2 ensures x in rest[1..] {
      assert x != rest[0];
      assert x in rest;
    }
  }

  lemma MergeOneFrom(g: Graph, g1: Graph, g2: Graph, b: BlockId, rest: seq<BlockId>)
    requires rest != [] && MergingFrom(g, g1, b, rest) && SameElse(g1, g2, b, rest[0]) && Cnt(g2, b, rest[0]) <= 1
    ensures MergingFrom(g, g2, b, rest[1..])
  {
    forall y | Cnt(g2, b, y) >= 2 ensures y in rest[1..] {
      assert y != rest[0];
      assert y in rest;
    }
  }

  lemma BothMerged(g: Graph, g1: Graph, g2: Graph, b: BlockId)
    requires MergedInto(g, g1, b) && MergedFrom(g1, g2, b)
    ensures Merged(g, g2, b)
  {
  }

  // ----- One edge moves

  /** Crossing edges only disappear. */
  ghost predicate FewerCross(g: Graph, g': Graph, members: set<BlockId>, ident: BlockId) {
    forall o, m :: Outsider(members, ident, o) && m in members ==>
      Cnt(g', o, m) <= Cnt(g, o, m) && Cnt(g', m, o) <= Cnt(g, m, o)
  }

  lemma FewerTrans(a: Graph, b: Graph, c: Graph, members: set<BlockId>, ident: BlockId)
    requires FewerCross(a, b, members, ident) && FewerCross(b, c, members, ident)
    ensures FewerCross(a, c, members, ident)
  {
  }

  /** An out-edge of an outsider to a member is redirected to the new block. */
  lemma RedirectOut(g0: Graph, g: Graph, members: set<BlockId>, ident: BlockId, o: BlockId, k: nat, m: BlockId)
    requires Moving(g0, g, members, ident) && Outsider(members, ident, o) && m in members && ident !in members
    requires IsOut(g, o, k) && g.outofthis[o][k].point == m && ident < |g.intothis|
    ensures OutLinked(g, o, k)
    ensures var g' := ReplaceOut(g, o, k, ident);
            && Moving(g0, g', members, ident) && FewerCross(g, g', members, ident) && Cnt(g', o, m) == Cnt(g, o, m) - 1
            && PointsBut(g.outofthis[o], g'.outofthis[o], k, ident)
            && PointsDropped(g.intothis[m], g'.intothis[m], g.outofthis[o][k].reverseIndex) && |g'.intothis| == |g.intothis|
  {
    assert OutLinked(g, o, k);
    var g' := ReplaceOut(g, o, k, ident);
    ReplaceOutKeeps(g, o, k, ident);
    forall x: nat, y: nat ensures Cnt(g', x, y) + One(x == o && y == m) == Cnt(g, x, y) + One(x == o && y == ident) {
      ReplaceOutCounts(g, o, k, ident, x, y);
    }
    assert Shifts(g, g', o, m, o, ident);
    ReplaceOutLabels(g, o, k, ident);
    hide Linked, ReplaceOut, LabelsMoving, Turns, Shifts;
    MoveLabels(g0, g, g', members, ident, o, m, g.outofthis[o][k].bits, g.intothis[m][g.outofthis[o][k].reverseIndex].bits);
    MoveInKeeps(g0, g, g', members, ident, o, m);
  }

  /** An in-edge of an outsider from a member comes from the new block instead. */
  lemma RedirectIn(g0: Graph, g: Graph, members: set<BlockId>, ident: BlockId, o: BlockId, k: nat, m: BlockId)
    requires Moving(g0, g, members, ident) && Outsider(members, ident, o) && m in members && ident !in members
    requires IsIn(g, o, k) && g.intothis[o][k].point == m && ident < |g.outofthis|
    ensures InLinked(g, o, k)
    ensures var g' := ReplaceIn(g, o, k, ident);
            && Moving(g0, g', members, ident) && FewerCross(g, g', members, ident) && Cnt(g', m, o) == Cnt(g, m, o) - 1
            && PointsBut(g.intothis[o], g'.intothis[o], k, ident)
            && PointsDropped(g.outofthis[m], g'.outofthis[m], g.intothis[o][k].reverseIndex) && |g'.outofthis| == |g.outofthis|
  {
    assert InLinked(g, o, k);
    var g' := ReplaceIn(g, o, k, ident);
    ReplaceInKeeps(g, o, k, ident);
    forall x: nat, y: nat ensures Cnt(g', x, y) + One(x == m && y == o) == Cnt(g, x, y) + One(x == ident && y == o) {
      ReplaceInCounts(g, o, k, ident, x, y);
    }
    assert Shifts(g, g', m, o, ident, o);
    ReplaceInLabels(g, o, k, ident);
    hide Linked, ReplaceIn, LabelsMoving, Turns, Shifts;
    MoveLabels(g0, g, g', members, ident, o, m, g.intothis[o][k].bits, g.outofthis[m][g.intothis[o][k].reverseIndex].bits);
    MoveOutKeeps(g0, g, g', members, ident, o, m);
  }

  ghost predicate PointsBut(s: seq<BlockEdge>, r: seq<BlockEdge>, k: nat, v: BlockId) {
    && |r| == |s| && k < |s| && r[k].point == v
    && forall i :: 0 <= i < |s| && i != k ==> r[i].point == s[i].point
  }

  ghost predicate PointsDropped(s: seq<BlockEdge>, r: seq<BlockEdge>, k: nat) {
    && k < |s| && |r| == |s| - 1
    && forall i :: 0 <= i < |r| ==> r[i].point == DropAt(s, k)[i].point
  }

  /** The first `slot` edge ends name members. */
  ghost predicate NamesMembers(s: seq<BlockEdge>, slot: nat, members: set<BlockId>) {
    slot <= |s| && forall k :: 0 <= k < slot ==> s[k].point in members
  }

  lemma DropKeepsNames(s: seq<BlockEdge>, r: seq<BlockEdge>, k: nat, slot: nat, members: set<BlockId>)
    requires NamesMembers(s, slot, members) && PointsDropped(s, r, k) && s[k].point !in members
    ensures NamesMembers(r, slot, members)
  {
  }

  ghost predicate NoneBefore(s: seq<BlockEdge>, slot: nat, v: BlockId) {
    slot <= |s| && forall k :: 0 <= k < slot ==> s[k].point != v
  }

  lemma NoneIsZero(s: seq<BlockEdge>, v: BlockId)
    requires NoneBefore(s, |s|, v)
    ensures Count(s, v) == 0
  {
    CountPositive(s, v);
  }

  /** When every in-edge of a member comes from a member, no outsider leads to it. */
  lemma InsAreInside(g: Graph, members: set<BlockId>, ident: BlockId, m: BlockId)
    requires Linked(g) && m < |g.intothis| && NamesMembers(g.intothis[m], |g.intothis[m]|, members)
    ensures NoneCrossIn(g, members, ident, m)
  {
    forall o | Outsider(members, ident, o) ensures Cnt(g, o, m) == 0 { InSlotCounts(g, m, o); }
  }

  lemma OutsAreInside(g: Graph, members: set<BlockId>, ident: BlockId, m: BlockId)
    requires m < |g.outofthis| && NamesMembers(g.outofthis[m], |g.outofthis[m]|, members)
    ensures NoneCrossOut(g, members, ident, m)
  {
    forall o | Outsider(members, ident, o) ensures Cnt(g, m, o) == 0 { CountPositive(g.outofthis[m], o); }
  }

  /** The source of an in-edge of a member is a member or an outsider. */
  lemma SourceIsOutsider(g0: Graph, g: Graph, members: set<BlockId>, ident: BlockId, m: BlockId, k: nat)
    requires Moving(g0, g, members, ident) && m in members && IsIn(g, m, k) && g.intothis[m][k].point !in members
    ensures Outsider(members, ident, g.intothis[m][k].point) && g.intothis[m][k].point < |g.outofthis|
    ensures Cnt(g, g.intothis[m][k].point, m) > 0
  {
    InSlotCounts(g, m, g.intothis[m][k].point);
    assert InLinked(g, m, k);
  }

  lemma TargetIsOutsider(g0: Graph, g: Graph, members: set<BlockId>, ident: BlockId, m: BlockId, k: nat)
    requires Moving(g0, g, members, ident) && m in members && IsOut(g, m, k) && g.outofthis[m][k].point !in members
    ensures Outsider(members, ident, g.outofthis[m][k].point) && g.outofthis[m][k].point < |g.intothis|
    ensures Cnt(g, m, g.outofthis[m][k].point) > 0
  {
    CountPositive(g.outofthis[m], g.outofthis[m][k].point);
    assert OutLinked(g, m, k);
  }
}
