/** The labels of edges at their two ends: how edits move them, and what merging keeps of them. */
module EdgeFlags {
  import opened FlowGraph
  import opened EdgeLabels
  import opened EdgePairing
  import opened EdgeCounts

  /** Edge ends with this label that name a block of `s`. */
  ghost function Labelled(edges: seq<BlockEdge>, s: set<BlockId>, l: EdgeLabel): nat {
    if edges == [] then 0
    else
      var last := edges[|edges| - 1];
      Labelled(edges[..|edges| - 1], s, l) + One(last.point in s && last.bits == l)
  }

  /** At the end of `y`: edges with this label from blocks of `s`. */
  ghost function Ins(g: Graph, y: BlockId, s: set<BlockId>, l: EdgeLabel): nat {
    if y < |g.intothis| then Labelled(g.intothis[y], s, l) else 0
  }

  /** At the end of `x`: edges with this label to blocks of `s`. */
  ghost function Outs(g: Graph, x: BlockId, s: set<BlockId>, l: EdgeLabel): nat {
    if x < |g.outofthis| then Labelled(g.outofthis[x], s, l) else 0
  }

  lemma FlipAt(g: Graph, c: BlockId, s: set<BlockId>, l: EdgeLabel)
    ensures Ins(Flip(g), c, s, l) == Outs(g, c, s, l) && Outs(Flip(g), c, s, l) == Ins(g, c, s, l)
  {
  }

  // ----- Lists of edge ends

  lemma {:induction false} LabelledSame(a: seq<BlockEdge>, b: seq<BlockEdge>, s: set<BlockId>, t: set<BlockId>, l: EdgeLabel)
    requires |a| == |b| && forall k :: 0 <= k < |a| ==> (a[k].point in s <==> b[k].point in t) && a[k].bits == b[k].bits
    ensures Labelled(a, s, l) == Labelled(b, t, l)
  {
    if a != [] { LabelledSame(a[..|a| - 1], b[..|b| - 1], s, t, l); }
  }

  lemma LabelledAppend(a: seq<BlockEdge>, e: BlockEdge, s: set<BlockId>, l: EdgeLabel)
    ensures Labelled(a + [e], s, l) == Labelled(a, s, l) + One(e.point in s && e.bits == l)
  {
    assert (a + [e])[..|a|] == a;
  }

  lemma {:induction false} LabelledDrop(a: seq<BlockEdge>, k: nat, s: set<BlockId>, l: EdgeLabel)
    requires k < |a|
    ensures Labelled(a, s, l) == Labelled(DropAt(a, k), s, l) + One(a[k].point in s && a[k].bits == l)
  {
    var last := |a| - 1;
    if k == last {
      assert DropAt(a, k) == a[..last];
    } else {
      LabelledDrop(a[..last], k, s, l);
      assert DropAt(a, k) == DropAt(a[..last], k) + [a[last]];
      LabelledAppend(DropAt(a[..last], k), a[last], s, l);
    }
  }

  lemma LabelledUpdate(a: seq<BlockEdge>, k: nat, e: BlockEdge, s: set<BlockId>, l: EdgeLabel)
    requires k < |a|
    ensures Labelled(a[k := e], s, l) + One(a[k].point in s && a[k].bits == l) == Labelled(a, s, l) + One(e.point in s && e.bits == l)
  {
    LabelledDrop(a, k, s, l);
    LabelledDrop(a[k := e], k, s, l);
    assert DropAt(a[k := e], k) == DropAt(a, k);
  }

  lemma {:induction false} LabelledPositive(a: seq<BlockEdge>, s: set<BlockId>, l: EdgeLabel)
    ensures Labelled(a, s, l) > 0 <==> exists k :: 0 <= k < |a| && a[k].point in s && a[k].bits == l
  {
    if a != [] {
      var last := |a| - 1;
      LabelledPositive(a[..last], s, l);
      if k :| 0 <= k < |a| && a[k].point in s && a[k].bits == l {
        if k < last { assert a[..last][k].point in s; }
      }
      if Labelled(a[..last], s, l) > 0 {
        var k :| 0 <= k < last && a[..last][k].point in s && a[..last][k].bits == l;
        assert a[k].point in s && a[k].bits == l;
      }
    }
  }

  // ----- Edits

  /** One end of an edge: in the list of block `at`, naming another block, with a label. */
  datatype End = End(at: BlockId, names: BlockId, bits: EdgeLabel)

  ghost function Of(e: End, c: BlockId, s: set<BlockId>, l: EdgeLabel): nat {
    One(c == e.at && e.names in s && l == e.bits)
  }

  lemma HalfDeleteLabels(g: Graph, b: BlockId, slot: nat, c: BlockId, s: set<BlockId>, l: EdgeLabel)
    requires IsIn(g, b, slot)
    ensures var g', e := HalfDeleteIn(g, b, slot), g.intothis[b][slot];
            && Ins(g', c, s, l) + Of(End(b, e.point, e.bits), c, s, l) == Ins(g, c, s, l)
            && Outs(g', c, s, l) == Outs(g, c, s, l)
  {
    hide Labelled;
    var g' := HalfDeleteIn(g, b, slot);
    if c == b { LabelledDrop(g.intothis[b], slot, s, l); }
    if c < |g.outofthis| { LabelledSame(g'.outofthis[c], g.outofthis[c], s, s, l); }
  }

  lemma HalfDeleteOutLabels(g: Graph, b: BlockId, slot: nat, c: BlockId, s: set<BlockId>, l: EdgeLabel)
    requires IsOut(g, b, slot)
    ensures var g', e := HalfDeleteOut(g, b, slot), g.outofthis[b][slot];
            && Outs(g', c, s, l) + Of(End(b, e.point, e.bits), c, s, l) == Outs(g, c, s, l)
            && Ins(g', c, s, l) == Ins(g, c, s, l)
  {
    HalfDeleteLabels(Flip(g), b, slot, c, s, l);
    FlipAt(g, c, s, l);
    FlipAt(HalfDeleteIn(Flip(g), b, slot), c, s, l);
  }

  /** One edge is gone, with its label at either end. */
  ghost predicate Loses(g: Graph, g': Graph, ins: End, outs: End) {
    && (forall c: BlockId, s, l :: Ins(g', c, s, l) + Of(ins, c, s, l) == Ins(g, c, s, l))
    && (forall c: BlockId, s, l :: Outs(g', c, s, l) + Of(outs, c, s, l) == Outs(g, c, s, l))
  }

  /** One edge took the place of another, with these labels. */
  ghost predicate Turns(g: Graph, g': Graph, ins: End, ins': End, outs: End, outs': End) {
    && (forall c: BlockId, s, l :: Ins(g', c, s, l) + Of(ins, c, s, l) == Ins(g, c, s, l) + Of(ins', c, s, l))
    && (forall c: BlockId, s, l :: Outs(g', c, s, l) + Of(outs, c, s, l) == Outs(g, c, s, l) + Of(outs', c, s, l))
  }

  lemma RemoveInLabels(g: Graph, b: BlockId, slot: nat)
    requires Linked(g) && IsIn(g, b, slot)
    ensures InLinked(g, b, slot)
    ensures var e := g.intothis[b][slot];
            Loses(g, RemoveIn(g, b, slot), End(b, e.point, e.bits), End(e.point, b, g.outofthis[e.point][e.reverseIndex].bits))
  {
    assert InLinked(g, b, slot);
    var e, g1, g' := g.intothis[b][slot], HalfDeleteIn(g, b, slot), RemoveIn(g, b, slot);
    var q := g.outofthis[e.point][e.reverseIndex].bits;
    assert g1.outofthis[e.point][e.reverseIndex].point == b && g1.outofthis[e.point][e.reverseIndex].bits == q;
    hide Linked, Ins, Outs, HalfDeleteIn, HalfDeleteOut;
    forall c: BlockId, s, l
      ensures Ins(g', c, s, l) + Of(End(b, e.point, e.bits), c, s, l) == Ins(g, c, s, l)
      ensures Outs(g', c, s, l) + Of(End(e.point, b, q), c, s, l) == Outs(g, c, s, l)
    {
      HalfDeleteLabels(g, b, slot, c, s, l);
      HalfDeleteOutLabels(g1, e.point, e.reverseIndex, c, s, l);
    }
  }

  /** A redirected edge keeps its label at the end that stays, and takes it to its new end. */
  lemma ReplaceInLabels(g: Graph, b: BlockId, slot: nat, source: BlockId)
    requires Linked(g) && IsIn(g, b, slot) && source < |g.outofthis|
    ensures InLinked(g, b, slot)
    ensures var e := g.intothis[b][slot];
            Turns(g, ReplaceIn(g, b, slot, source), End(b, e.point, e.bits), End(b, source, e.bits),
                  End(e.point, b, g.outofthis[e.point][e.reverseIndex].bits), End(source, b, e.bits))
  {
    assert InLinked(g, b, slot);
    var e, g' := g.intothis[b][slot], ReplaceIn(g, b, slot, source);
    var g1 := HalfDeleteOut(g, e.point, e.reverseIndex);
    var q := g.outofthis[e.point][e.reverseIndex].bits;
    assert g1.intothis[b][slot].point == e.point && g1.intothis[b][slot].bits == e.bits;
    assert |g1.outofthis| == |g.outofthis| && |g1.intothis| == |g.intothis|;
    hide Linked, HalfDeleteIn, HalfDeleteOut, Labelled;
    forall c: BlockId, s, l
      ensures Ins(g', c, s, l) + Of(End(b, e.point, e.bits), c, s, l) == Ins(g, c, s, l) + Of(End(b, source, e.bits), c, s, l)
      ensures Outs(g', c, s, l) + Of(End(e.point, b, q), c, s, l) == Outs(g, c, s, l) + Of(End(source, b, e.bits), c, s, l)
    {
      HalfDeleteOutLabels(g, e.point, e.reverseIndex, c, s, l);
      FillLabels(g1, b, slot, source, c, s, l);
    }
  }

  lemma FillLabels(g: Graph, b: BlockId, slot: nat, source: BlockId, c: BlockId, s: set<BlockId>, l: EdgeLabel)
    requires IsIn(g, b, slot) && source < |g.outofthis|
    ensures var g', e := FillIn(g, b, slot, source), g.intothis[b][slot];
            && Ins(g', c, s, l) + Of(End(b, e.point, e.bits), c, s, l) == Ins(g, c, s, l) + Of(End(b, source, e.bits), c, s, l)
            && Outs(g', c, s, l) == Outs(g, c, s, l) + Of(End(source, b, e.bits), c, s, l)
  {
    hide Labelled;
    var e, g' := g.intothis[b][slot], FillIn(g, b, slot, source);
    if c == b { LabelledUpdate(g.intothis[b], slot, g'.intothis[b][slot], s, l); }
    if c == source { LabelledAppend(g.outofthis[source], BlockEdge(b, e.bits, slot), s, l); }
  }

  lemma FlipTurns(g: Graph, g': Graph, ins: End, ins': End, outs: End, outs': End)
    requires Turns(Flip(g), Flip(g'), outs, outs', ins, ins')
    ensures Turns(g, g', ins, ins', outs, outs')
  {
    hide Ins, Outs, Of, Flip;
    forall c: BlockId, s, l
      ensures Ins(g', c, s, l) + Of(ins, c, s, l) == Ins(g, c, s, l) + Of(ins', c, s, l)
      ensures Outs(g', c, s, l) + Of(outs, c, s, l) == Outs(g, c, s, l) + Of(outs', c, s, l)
    {
      FlipAt(g, c, s, l);
      FlipAt(g', c, s, l);
    }
  }

  lemma ReplaceOutLabels(g: Graph, b: BlockId, slot: nat, target: BlockId)
    requires Linked(g) && IsOut(g, b, slot) && target < |g.intothis|
    ensures OutLinked(g, b, slot)
    ensures var e := g.outofthis[b][slot];
            Turns(g, ReplaceOut(g, b, slot, target), End(e.point, b, g.intothis[e.point][e.reverseIndex].bits), End(target, b, e.bits),
                  End(b, e.point, e.bits), End(b, target, e.bits))
  {
    FlipLinked(g);
    assert OutLinked(g, b, slot);
    var e, g' := g.outofthis[b][slot], ReplaceOut(g, b, slot, target);
    ReplaceInLabels(Flip(g), b, slot, target);
    assert Flip(g') == ReplaceIn(Flip(g), b, slot, target);
    hide Turns, Linked, ReplaceOut, ReplaceIn;
    FlipTurns(g, g', End(e.point, b, g.intothis[e.point][e.reverseIndex].bits), End(target, b, e.bits),
              End(b, e.point, e.bits), End(b, target, e.bits));
  }

  // ----- Merging

  /** Some edge from `s` has the flag at the end of `y`. */
  ghost predicate InHas(g: Graph, y: BlockId, s: set<BlockId>, f: Flag) {
    exists l :: Ins(g, y, s, l) > 0 && Has(l, f)
  }

  /** Some edge to `s` has the flag at the end of `x`. */
  ghost predicate OutHas(g: Graph, x: BlockId, s: set<BlockId>, f: Flag) {
    exists l :: Outs(g, x, s, l) > 0 && Has(l, f)
  }

  /** All labels but those of edges from `u` to `v` are as they were. */
  ghost predicate OthersSame(g: Graph, g': Graph, u: BlockId, v: BlockId) {
    && (forall x: BlockId, y: BlockId, l :: !(x == u && y == v) ==> Ins(g', y, {x}, l) == Ins(g, y, {x}, l))
    && (forall x: BlockId, y: BlockId, l :: !(x == u && y == v) ==> Outs(g', x, {y}, l) == Outs(g, x, {y}, l))
  }

  /** Edges from `u` into `v` are merged: those left have the flags of all at `v`, and some of the labels at `u`. */
  ghost predicate MergesInto(g: Graph, g': Graph, u: BlockId, v: BlockId) {
    && OthersSame(g, g', u, v)
    && (forall f :: InHas(g', v, {u}, f) <==> InHas(g, v, {u}, f))
    && (forall l :: Outs(g', u, {v}, l) <= Outs(g, u, {v}, l))
  }

  ghost predicate MergesFrom(g: Graph, g': Graph, u: BlockId, v: BlockId) {
    && OthersSame(g, g', u, v)
    && (forall f :: OutHas(g', u, {v}, f) <==> OutHas(g, u, {v}, f))
    && (forall l :: Ins(g', v, {u}, l) <= Ins(g, v, {u}, l))
  }

  lemma MergesSelf(g: Graph, u: BlockId, v: BlockId)
    ensures MergesInto(g, g, u, v) && MergesFrom(g, g, u, v)
  {
  }

  lemma MergesTrans(a: Graph, b: Graph, c: Graph, u: BlockId, v: BlockId)
    requires MergesInto(a, b, u, v) && MergesInto(b, c, u, v)
    ensures MergesInto(a, c, u, v)
  {
    hide Ins, Outs, InHas;
  }

  /** The in-slot with a new label. */
  ghost function LabelIn(g: Graph, b: BlockId, k: nat, bits: EdgeLabel): Graph
    requires IsIn(g, b, k)
  {
    g.(intothis := g.intothis[b := g.intothis[b][k := g.intothis[b][k].(bits := bits)]])
  }

  lemma OfHere(e: BlockEdge, b: BlockId, s: set<BlockId>, l: EdgeLabel)
    ensures Of(End(b, e.point, e.bits), b, s, l) == One(e.point in s && e.bits == l)
    ensures e.point in s ==> Of(End(b, e.point, e.bits), b, s, l) == One(l == e.bits)
  {
  }

  lemma LabelInLabels(g: Graph, b: BlockId, k: nat, bits: EdgeLabel, c: BlockId, s: set<BlockId>, l: EdgeLabel)
    requires IsIn(g, b, k)
    ensures var g', e := LabelIn(g, b, k, bits), g.intothis[b][k];
            && Ins(g', c, s, l) + Of(End(b, e.point, e.bits), c, s, l) == Ins(g, c, s, l) + Of(End(b, e.point, bits), c, s, l)
            && Outs(g', c, s, l) == Outs(g, c, s, l)
  {
    hide Labelled, One;
    var e, e' := g.intothis[b][k], g.intothis[b][k].(bits := bits);
    LabelledUpdate(g.intothis[b], k, e', s, l);
    if c == b {
      assert LabelIn(g, b, k, bits).intothis[b] == g.intothis[b][k := e'];
      OfHere(e, b, s, l);
      OfHere(e', b, s, l);
    } else {
      assert Of(End(b, e.point, e.bits), c, s, l) == Of(End(b, e.point, bits), c, s, l);
    }
  }

  /** At `y`, two labels were replaced by one. */
  ghost predicate Joined(g: Graph, g': Graph, y: BlockId, s: set<BlockId>, l1: EdgeLabel, l2: EdgeLabel, o: EdgeLabel) {
    forall l :: Ins(g', y, s, l) + One(l == l1) + One(l == l2) == Ins(g, y, s, l) + One(l == o)
  }

  lemma JoinedHas(g: Graph, g': Graph, y: BlockId, s: set<BlockId>, l1: EdgeLabel, l2: EdgeLabel, o: EdgeLabel, l: EdgeLabel)
    requires Joined(g, g', y, s, l1, l2, o) && Ins(g', y, s, o) > 0
    ensures Ins(g, y, s, l1) > 0 && Ins(g, y, s, l2) > 0
    ensures l != o && Ins(g', y, s, l) > 0 ==> Ins(g, y, s, l) > 0
    ensures l != l1 && l != l2 && Ins(g, y, s, l) > 0 ==> Ins(g', y, s, l) > 0
  {
    hide Ins;
    assert Ins(g', y, s, l1) + One(l1 == l1) + One(l1 == l2) == Ins(g, y, s, l1) + One(l1 == o);
    assert Ins(g', y, s, l2) + One(l2 == l1) + One(l2 == l2) == Ins(g, y, s, l2) + One(l2 == o);
    assert Ins(g', y, s, l) + One(l == l1) + One(l == l2) == Ins(g, y, s, l) + One(l == o);
  }

  /** When the one has the flags of both, the flags are the same. */
  lemma FlagsMerged(g: Graph, g': Graph, y: BlockId, s: set<BlockId>, l1: EdgeLabel, l2: EdgeLabel)
    requires Joined(g, g', y, s, l1, l2, Or(l1, l2)) && Ins(g', y, s, Or(l1, l2)) > 0
    ensures forall f :: InHas(g', y, s, f) <==> InHas(g, y, s, f)
  {
    var o := Or(l1, l2);
    hide Or, Has, Ins, Joined;
    forall f ensures InHas(g', y, s, f) <==> InHas(g, y, s, f) {
      FlagsAre(l1, l2, f);
      if l :| Ins(g', y, s, l) > 0 && Has(l, f) { JoinedHas(g, g', y, s, l1, l2, o, l); }
      if l :| Ins(g, y, s, l) > 0 && Has(l, f) { JoinedHas(g, g', y, s, l1, l2, o, l); }
    }
  }

  /** Labels at the two ends after a label is changed and another edge removed. */
  ghost predicate LabelsAfter(g: Graph, g': Graph, b: BlockId, dup: BlockId, l1: EdgeLabel, l2: EdgeLabel, o: EdgeLabel, q: EdgeLabel) {
    && (forall x: BlockId, y: BlockId, l ::
          Ins(g', y, {x}, l) + Of(End(b, dup, l1), y, {x}, l) + Of(End(b, dup, l2), y, {x}, l) == Ins(g, y, {x}, l) + Of(End(b, dup, o), y, {x}, l))
    && (forall x: BlockId, y: BlockId, l :: Outs(g', x, {y}, l) + Of(End(dup, b, q), x, {y}, l) == Outs(g, x, {y}, l))
  }

  lemma LabelThenRemove(g: Graph, b: BlockId, k: nat, slot: nat, dup: BlockId, o: EdgeLabel)
    requires Linked(g) && IsIn(g, b, k) && IsIn(g, b, slot) && k < slot
    requires g.intothis[b][k].point == dup && g.intothis[b][slot].point == dup
    ensures var g1 := LabelIn(g, b, k, o);
            && Linked(g1) && InLinked(g1, b, slot)
            && LabelsAfter(g, RemoveIn(g1, b, slot), b, dup, g.intothis[b][k].bits, g.intothis[b][slot].bits, o,
                           g1.outofthis[dup][g1.intothis[b][slot].reverseIndex].bits)
  {
    var g1 := LabelIn(g, b, k, o);
    LabelInLinked(g, b, k, o);
    RemoveInLabels(g1, b, slot);
    hide Ins, Outs, Linked, RemoveIn, LabelIn, InLinked, Of;
    forall x: BlockId, y: BlockId, l {:trigger Ins(g, y, {x}, l)} {:trigger Outs(g, x, {y}, l)}
      ensures Ins(g1, y, {x}, l) + Of(End(b, dup, g.intothis[b][k].bits), y, {x}, l) == Ins(g, y, {x}, l) + Of(End(b, dup, o), y, {x}, l)
      ensures Outs(g1, x, {y}, l) == Outs(g, x, {y}, l)
    {
      LabelInLabels(g, b, k, o, y, {x}, l);
      LabelInLabels(g, b, k, o, x, {y}, l);
    }
  }

  lemma AfterMerges(g: Graph, g': Graph, b: BlockId, dup: BlockId, l1: EdgeLabel, l2: EdgeLabel, q: EdgeLabel)
    requires LabelsAfter(g, g', b, dup, l1, l2, Or(l1, l2), q) && Ins(g', b, {dup}, Or(l1, l2)) > 0
    ensures MergesInto(g, g', dup, b)
  {
    hide Or, Ins, Outs, InHas, Joined, OthersSame, LabelsAfter;
    JoinedAfter(g, g', b, dup, l1, l2, Or(l1, l2), q);
    FlagsMerged(g, g', b, {dup}, l1, l2);
    OthersAfter(g, g', b, dup, l1, l2, Or(l1, l2), q);
    FewerAfter(g, g', b, dup, l1, l2, Or(l1, l2), q);
  }

  lemma JoinedAfter(g: Graph, g': Graph, b: BlockId, dup: BlockId, l1: EdgeLabel, l2: EdgeLabel, o: EdgeLabel, q: EdgeLabel)
    requires LabelsAfter(g, g', b, dup, l1, l2, o, q)
    ensures Joined(g, g', b, {dup}, l1, l2, o)
  {
    hide Ins, Outs, Of, One;
    forall l ensures Ins(g', b, {dup}, l) + One(l == l1) + One(l == l2) == Ins(g, b, {dup}, l) + One(l == o) {
      OfHere(BlockEdge(dup, l1, 0), b, {dup}, l);
      OfHere(BlockEdge(dup, l2, 0), b, {dup}, l);
      OfHere(BlockEdge(dup, o, 0), b, {dup}, l);
      assert Ins(g', b, {dup}, l) + Of(End(b, dup, l1), b, {dup}, l) + Of(End(b, dup, l2), b, {dup}, l) ==
             Ins(g, b, {dup}, l) + Of(End(b, dup, o), b, {dup}, l);
    }
  }

  lemma FewerAfter(g: Graph, g': Graph, b: BlockId, dup: BlockId, l1: EdgeLabel, l2: EdgeLabel, o: EdgeLabel, q: EdgeLabel)
    requires LabelsAfter(g, g', b, dup, l1, l2, o, q)
    ensures forall l :: Outs(g', dup, {b}, l) <= Outs(g, dup, {b}, l)
  {
    hide Ins, Outs, Of;
    forall l ensures Outs(g', dup, {b}, l) <= Outs(g, dup, {b}, l) {
      assert Outs(g', dup, {b}, l) + Of(End(dup, b, q), dup, {b}, l) == Outs(g, dup, {b}, l);
    }
  }

  lemma OthersAfter(g: Graph, g': Graph, b: BlockId, dup: BlockId, l1: EdgeLabel, l2: EdgeLabel, o: EdgeLabel, q: EdgeLabel)
    requires LabelsAfter(g, g', b, dup, l1, l2, o, q)
    ensures OthersSame(g, g', dup, b)
  {
    hide Ins, Outs;
    forall x: BlockId, y: BlockId, l | !(x == dup && y == b)
      ensures Ins(g', y, {x}, l) == Ins(g, y, {x}, l) && Outs(g', x, {y}, l) == Outs(g, x, {y}, l)
    {
      NotOf(x, y, dup, b, l);
      assert Of(End(b, dup, l1), y, {x}, l) == 0 && Of(End(b, dup, l2), y, {x}, l) == 0 && Of(End(b, dup, o), y, {x}, l) == 0;
      assert Of(End(dup, b, q), x, {y}, l) == 0;
    }
  }

  lemma NotOf(x: BlockId, y: BlockId, u: BlockId, v: BlockId, l: EdgeLabel)
    requires !(x == u && y == v)
    ensures forall bits :: Of(End(v, u, bits), y, {x}, l) == 0 && Of(End(u, v, bits), x, {y}, l) == 0
  {
  }

  /** One more edge is merged into the first. */
  lemma MergeOnce(g: Graph, b: BlockId, k: nat, slot: nat, dup: BlockId)
    requires Linked(g) && IsIn(g, b, k) && IsIn(g, b, slot) && k < slot
    requires g.intothis[b][k].point == dup && g.intothis[b][slot].point == dup
    ensures var g1 := LabelIn(g, b, k, Or(g.intothis[b][k].bits, g.intothis[b][slot].bits));
            Linked(g1) && InLinked(g1, b, slot) && MergesInto(g, RemoveIn(g1, b, slot), dup, b)
  {
    var l1, l2 := g.intothis[b][k].bits, g.intothis[b][slot].bits;
    var o := Or(l1, l2);
    var g1 := LabelIn(g, b, k, o);
    hide Or, LabelsAfter, MergesInto, Linked;
    LabelThenRemove(g, b, k, slot, dup, o);
    var g2 := RemoveIn(g1, b, slot);
    assert g2.intothis[b][k].point == dup && g2.intothis[b][k].bits == o;
    LabelledPositive(g2.intothis[b], {dup}, o);
    AfterMerges(g, g2, b, dup, l1, l2, g1.outofthis[dup][g1.intothis[b][slot].reverseIndex].bits);
  }

  lemma FlipMerges(g: Graph, g': Graph, u: BlockId, v: BlockId)
    requires MergesInto(Flip(g), Flip(g'), v, u)
    ensures MergesFrom(g, g', u, v)
  {
    hide Ins, Outs, Flip;
    forall c: BlockId, s, l
      ensures Ins(Flip(g), c, s, l) == Outs(g, c, s, l) && Outs(Flip(g), c, s, l) == Ins(g, c, s, l)
    { FlipAt(g, c, s, l); }
    forall c: BlockId, s, l
      ensures Ins(Flip(g'), c, s, l) == Outs(g', c, s, l) && Outs(Flip(g'), c, s, l) == Ins(g', c, s, l)
    { FlipAt(g', c, s, l); }
    forall f ensures InHas(Flip(g), u, {v}, f) == OutHas(g, u, {v}, f) && InHas(Flip(g'), u, {v}, f) == OutHas(g', u, {v}, f) { }
    hide InHas, OutHas;
  }

  /** The out-slot with a new label. */
  ghost function LabelOut(g: Graph, b: BlockId, k: nat, bits: EdgeLabel): Graph
    requires IsOut(g, b, k)
  {
    g.(outofthis := g.outofthis[b := g.outofthis[b][k := g.outofthis[b][k].(bits := bits)]])
  }

  lemma MergeOnceOut(g: Graph, b: BlockId, k: nat, slot: nat, dup: BlockId)
    requires Linked(g) && IsOut(g, b, k) && IsOut(g, b, slot) && k < slot
    requires g.outofthis[b][k].point == dup && g.outofthis[b][slot].point == dup
    ensures var g1 := LabelOut(g, b, k, Or(g.outofthis[b][k].bits, g.outofthis[b][slot].bits));
            Linked(g1) && OutLinked(g1, b, slot) && MergesFrom(g, RemoveOut(g1, b, slot), b, dup)
  {
    var o := Or(g.outofthis[b][k].bits, g.outofthis[b][slot].bits);
    var g1 := LabelOut(g, b, k, o);
    FlipLinked(g);
    MergeOnce(Flip(g), b, k, slot, dup);
    assert Flip(g1) == LabelIn(Flip(g), b, k, o);
    FlipLinked(g1);
    assert IsOut(g1, b, slot) && OutLinked(g1, b, slot);
    assert Flip(RemoveOut(g1, b, slot)) == RemoveIn(Flip(g1), b, slot);
    FlipMerges(g, RemoveOut(g1, b, slot), b, dup);
  }

  lemma MergesFromTrans(a: Graph, b: Graph, c: Graph, u: BlockId, v: BlockId)
    requires MergesFrom(a, b, u, v) && MergesFrom(b, c, u, v)
    ensures MergesFrom(a, c, u, v)
  {
    hide Ins, Outs, OutHas;
  }

  // ----- All edges of one block

  /** Edges between two blocks have the same labels as before, at both ends. */
  ghost predicate SameBetween(g: Graph, g': Graph, x: BlockId, y: BlockId) {
    forall l :: Ins(g', y, {x}, l) == Ins(g, y, {x}, l) && Outs(g', x, {y}, l) == Outs(g, x, {y}, l)
  }

  /** The edges left from `x` into `b` have the flags of all, at `b`, and some of the labels at `x`. */
  ghost predicate KeptInto(g: Graph, g': Graph, x: BlockId, b: BlockId) {
    && (forall f :: InHas(g', b, {x}, f) <==> InHas(g, b, {x}, f))
    && (forall l :: Outs(g', x, {b}, l) <= Outs(g, x, {b}, l))
  }

  ghost predicate KeptFrom(g: Graph, g': Graph, b: BlockId, y: BlockId) {
    && (forall f :: OutHas(g', b, {y}, f) <==> OutHas(g, b, {y}, f))
    && (forall l :: Ins(g', y, {b}, l) <= Ins(g, y, {b}, l))
  }

  /** Edges into `b` were merged. */
  ghost predicate LabelsInto(g: Graph, g': Graph, b: BlockId) {
    && (forall x: BlockId, y: BlockId :: y != b ==> SameBetween(g, g', x, y))
    && (forall x: BlockId :: KeptInto(g, g', x, b))
  }

  /** Edges out of `b` were merged where there were several. */
  ghost predicate LabelsFrom(g: Graph, g': Graph, b: BlockId) {
    && (forall x: BlockId, y: BlockId :: x != b || Cnt(g, b, y) <= 1 ==> SameBetween(g, g', x, y))
    && (forall y: BlockId :: KeptFrom(g, g', b, y))
  }

  /** Edges at `b` were merged in either direction. */
  ghost predicate LabelsMerged(g: Graph, g': Graph, b: BlockId) {
    && (forall x: BlockId, y: BlockId :: x != b && y != b ==> SameBetween(g, g', x, y))
    && (forall x: BlockId :: KeptInto(g, g', x, b))
    && (forall y: BlockId :: y != b ==> KeptFrom(g, g', b, y))
  }

  lemma LabelsSelf(g: Graph, b: BlockId)
    ensures LabelsInto(g, g, b) && LabelsFrom(g, g, b)
  {
  }

  lemma OneMoreInto(g: Graph, g1: Graph, g2: Graph, u: BlockId, b: BlockId)
    requires LabelsInto(g, g1, b) && MergesInto(g1, g2, u, b)
    ensures LabelsInto(g, g2, b)
  {
    hide Ins, Outs;
    forall x: BlockId ensures KeptInto(g, g2, x, b) {
      assert KeptInto(g, g1, x, b);
      if x != u { SameInto(g1, g2, x, b); }
    }
    hide InHas;
    forall x: BlockId, y: BlockId | y != b ensures SameBetween(g, g2, x, y) { assert SameBetween(g, g1, x, y); }
  }

  lemma SameThere(g: Graph, g': Graph, b: BlockId, y: BlockId)
    requires SameBetween(g, g', b, y)
    ensures KeptFrom(g, g', b, y)
  {
    hide Ins, Outs;
    forall f ensures OutHas(g', b, {y}, f) <==> OutHas(g, b, {y}, f) {
      if l :| Outs(g', b, {y}, l) > 0 && Has(l, f) { assert Outs(g, b, {y}, l) > 0; }
      if l :| Outs(g, b, {y}, l) > 0 && Has(l, f) { assert Outs(g', b, {y}, l) > 0; }
    }
  }

  lemma OneMoreFrom(g: Graph, g1: Graph, g2: Graph, b: BlockId, v: BlockId)
    requires LabelsFrom(g, g1, b) && MergesFrom(g1, g2, b, v) && Cnt(g, b, v) >= 2
    ensures LabelsFrom(g, g2, b)
  {
    hide Ins, Outs, OutHas, Cnt;
    forall x: BlockId, y: BlockId | !(x == b && y == v) ensures SameBetween(g1, g2, x, y) { }
    forall y: BlockId ensures KeptFrom(g, g2, b, y) {
      assert KeptFrom(g, g1, b, y);
      if y != v { SameThere(g1, g2, b, y); }
    }
    forall x: BlockId, y: BlockId | x != b || Cnt(g, b, y) <= 1 ensures SameBetween(g, g2, x, y) {
      assert SameBetween(g, g1, x, y) && SameBetween(g1, g2, x, y);
    }
  }

  /** A self-loop is merged as an in-edge. */
  lemma BothLabels(g: Graph, g1: Graph, g2: Graph, b: BlockId)
    requires LabelsInto(g, g1, b) && LabelsFrom(g1, g2, b) && Cnt(g1, b, b) <= 1
    ensures LabelsMerged(g, g2, b)
  {
    hide Ins, Outs, Cnt;
    forall x: BlockId, y: BlockId | x != b && y != b ensures SameBetween(g, g2, x, y) {
      assert SameBetween(g, g1, x, y) && SameBetween(g1, g2, x, y);
    }
    forall x: BlockId ensures KeptInto(g, g2, x, b) {
      assert KeptInto(g, g1, x, b) && SameBetween(g1, g2, x, b);
      SameInto(g1, g2, x, b);
    }
    forall y: BlockId | y != b ensures KeptFrom(g, g2, b, y) {
      assert SameBetween(g, g1, b, y) && KeptFrom(g1, g2, b, y);
      SameThere(g, g1, b, y);
    }
  }

  lemma SameInto(g: Graph, g': Graph, x: BlockId, b: BlockId)
    requires SameBetween(g, g', x, b)
    ensures KeptInto(g, g', x, b)
  {
    hide Ins, Outs;
    forall f ensures InHas(g', b, {x}, f) <==> InHas(g, b, {x}, f) {
      if l :| Ins(g', b, {x}, l) > 0 && Has(l, f) { assert Ins(g, b, {x}, l) > 0; }
      if l :| Ins(g, b, {x}, l) > 0 && Has(l, f) { assert Ins(g', b, {x}, l) > 0; }
    }
  }
}
