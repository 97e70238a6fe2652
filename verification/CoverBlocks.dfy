/** Live ranges within one block: arcs on the circle of 32-bit operation indices. */
module CoverBlocks {
  import opened FlowGraph

  type VarnodeId = nat
  type OpId = nat

  /** A place in a block: its beginning or end, the function's inputs, or an operation. */
  datatype Point = Begin | End | Input | Op(id: OpId)

  const MAX_INDEX: nat := 0xffff_ffff

  /** An operation: its block, its index there, and what it reads and writes. A MULTIEQUAL has one input
      per in-edge of its block and index 0; every other operation comes after it. */
  datatype OpInfo = OpInfo(block: nat, index: nat, multiequal: bool, inputs: seq<VarnodeId>, out: Option<VarnodeId>)

  /** Blocks by index with the indices of their predecessors, and the operations. */
  datatype Flow = Flow(preds: seq<seq<nat>>, ops: seq<OpInfo>)

  ghost predicate FlowOk(f: Flow) {
    && (forall b, k :: 0 <= b < |f.preds| && 0 <= k < |f.preds[b]| ==> f.preds[b][k] < |f.preds|)
    && (forall i :: 0 <= i < |f.ops| ==>
          && f.ops[i].block < |f.preds| && f.ops[i].index < MAX_INDEX
          && (if f.ops[i].multiequal then f.ops[i].index == 0 && |f.ops[i].inputs| <= |f.preds[f.ops[i].block]| else f.ops[i].index > 0))
  }

  predicate PointOk(f: Flow, p: Point) {
    p.Op? ==> p.id < |f.ops|
  }

  /** The beginning and the inputs come first, then the operations by index, and the end last. */
  function UIndex(f: Flow, p: Point): (u: nat)
    requires PointOk(f, p)
    ensures p.Op? ==> u == f.ops[p.id].index
    ensures !p.Op? ==> u == if p == End then MAX_INDEX else 0
  {
    match p
    case Begin => 0
    case End => MAX_INDEX
    case Input => 0
    case Op(id) => f.ops[id].index
  }

  datatype CoverBlock = CoverBlock(start: Point, stop: Point)

  const EMPTY_BLOCK := CoverBlock(Begin, Begin)

  ghost predicate BlockOk(f: Flow, c: CoverBlock) {
    PointOk(f, c.start) && PointOk(f, c.stop)
  }

  predicate IsEmpty(c: CoverBlock): (e: bool)
    ensures e <==> c == EMPTY_BLOCK
  {
    c.start == Begin && c.stop == Begin
  }

  /** The closed arc from `start` to `stop` holds `u`. */
  ghost predicate InArc(start: nat, stop: nat, u: nat) {
    if start <= stop then start <= u <= stop else u <= stop || u >= start
  }

  /** The block's arc holds `u`; an empty block has none. */
  ghost predicate Covers(f: Flow, c: CoverBlock, u: nat)
    requires BlockOk(f, c)
  {
    c != EMPTY_BLOCK && InArc(UIndex(f, c.start), UIndex(f, c.stop), u)
  }

  predicate Contain(f: Flow, c: CoverBlock, p: Point): (r: bool)
    requires BlockOk(f, c) && PointOk(f, p)
    ensures r <==> Covers(f, c, UIndex(f, p))
  {
    if IsEmpty(c) then false
    else
      var upoint, ustart, ustop := UIndex(f, p), UIndex(f, c.start), UIndex(f, c.stop);
      if ustart <= ustop then upoint >= ustart && upoint <= ustop else upoint <= ustop || upoint >= ustart
  }

  // ----- Intersection

  ghost predicate Meet(start: nat, stop: nat, start2: nat, stop2: nat) {
    exists u :: 0 <= u <= MAX_INDEX && InArc(start, stop, u) && InArc(start2, stop2, u)
  }

  /** Every point the arcs share is where one starts and the other stops. */
  ghost predicate OnlyTouch(start: nat, stop: nat, start2: nat, stop2: nat) {
    forall u :: 0 <= u <= MAX_INDEX && InArc(start, stop, u) && InArc(start2, stop2, u) ==>
      (u == start && u == stop2) || (u == stop && u == start2)
  }

  /** 0 exactly when the arcs are disjoint, 1 exactly when they meet only where one starts and the
      other stops, 2 otherwise. */
  function IntersectIndices(start: nat, stop: nat, start2: nat, stop2: nat): (r: int)
    requires start <= MAX_INDEX && stop <= MAX_INDEX && start2 <= MAX_INDEX && stop2 <= MAX_INDEX
    ensures r == 0 <==> !Meet(start, stop, start2, stop2)
    ensures r == 1 <==> Meet(start, stop, start2, stop2) && OnlyTouch(start, stop, start2, stop2)
    ensures 0 <= r <= 2
  {
    assert InArc(start, stop, start) && InArc(start, stop, stop);
    assert InArc(start2, stop2, start2) && InArc(start2, stop2, stop2);
    assert start <= stop || InArc(start, stop, 0);
    assert start2 <= stop2 || InArc(start2, stop2, 0);
    if start <= stop then
      if start2 <= stop2 then
        if stop <= start2 || stop2 <= start then
          if start == stop2 || stop == start2 then 1 else 0
        else 2
      else if start >= stop2 && stop <= start2 then
        if start == stop2 || stop == start2 then 1 else 0
      else 2
    else if start2 <= stop2 && start2 >= stop && stop2 <= start then
      if start2 == stop || stop2 == start then 1 else 0
    else 2
  }

  // ----- Merging

  lemma ArcHasEnds(f: Flow, c: CoverBlock)
    requires FlowOk(f) && BlockOk(f, c)
    ensures UIndex(f, c.start) <= MAX_INDEX && (c != EMPTY_BLOCK ==> Covers(f, c, UIndex(f, c.start)))
  {
  }

  /** The arcs are not empty, have no point in common, and do not meet at the block's boundary. */
  ghost predicate Apart(f: Flow, a: CoverBlock, b: CoverBlock)
    requires BlockOk(f, a) && BlockOk(f, b)
  {
    && a != EMPTY_BLOCK && b != EMPTY_BLOCK && !(exists u :: 0 <= u <= MAX_INDEX && Covers(f, a, u) && Covers(f, b, u))
    && !(UIndex(f, a.start) == 0 && b.stop == End) && !(UIndex(f, b.start) == 0 && a.stop == End)
  }

  /** A merge covers both arcs, and nothing else when they share a point; when they are apart it goes
      from the lesser start to the stop of the other arc. */
  function Merge(f: Flow, a: CoverBlock, b: CoverBlock): (r: CoverBlock)
    requires FlowOk(f) && BlockOk(f, a) && BlockOk(f, b)
    ensures BlockOk(f, r)
    ensures forall u :: 0 <= u <= MAX_INDEX && (Covers(f, a, u) || Covers(f, b, u)) ==> Covers(f, r, u)
    ensures (exists u :: 0 <= u <= MAX_INDEX && Covers(f, a, u) && Covers(f, b, u)) ==>
              forall u :: 0 <= u <= MAX_INDEX && Covers(f, r, u) ==> Covers(f, a, u) || Covers(f, b, u)
    ensures Apart(f, a, b) ==>
      r == if UIndex(f, a.start) < UIndex(f, b.start) then CoverBlock(a.start, b.stop) else CoverBlock(b.start, a.stop)
  {
    ArcHasEnds(f, a);
    ArcHasEnds(f, b);
    if IsEmpty(b) then a
    else if IsEmpty(a) then b
    else
      var ustart, u2start := UIndex(f, a.start), UIndex(f, b.start);
      var internal4 := ustart == 0 && b.stop == End;
      var internal1 := internal4 || Contain(f, b, a.start);
      var internal3 := u2start == 0 && a.stop == End;
      var internal2 := internal3 || Contain(f, a, b.start);
      if internal1 && internal2 && (ustart != u2start || internal3 || internal4) then CoverBlock(Begin, End)
      else if !internal1 && !internal2 then
        if ustart < u2start then a.(stop := b.stop) else a.(start := b.start)
      else
        var r := if internal1 then a.(start := b.start) else a;
        if internal3 || Contain(f, b, a.stop) then r.(stop := b.stop) else r
  }
}
