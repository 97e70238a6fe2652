/** Following a range of bits one operation back, and a trail of such steps. */
module BitSteps {
  import opened FlowGraph
  import opened BitWords
  import opened BitTrace

  /** What the tracer needs of a field's type. */
  datatype Field = Field(isInt: bool, numBits: int)

  datatype NodeState = NodeState(bitsUsed: BitRange, bitsField: BitRange, node: Option<VarnodeId>, field: Option<Field>, origLsb: int)

  predicate FieldAligned(st: NodeState) {
    st.bitsField.lsb == 0 && st.bitsField.numBits == st.bitsUsed.numBits
  }

  /** The state names bits of a varnode, among those in use. */
  ghost predicate Placed(data: Data, st: NodeState) {
    && st.node.Some? && st.node.value < |data| && InVarnode(data, st.node.value, st.bitsField) && st.bitsField.numBits > 0
    && InVarnode(data, st.node.value, st.bitsUsed)
    && st.bitsUsed.lsb <= st.bitsField.lsb && st.bitsField.lsb + st.bitsField.numBits <= st.bitsUsed.lsb + st.bitsUsed.numBits
    && (st.field.Some? ==> st.field.value.numBits == st.bitsField.numBits)
  }

  ghost predicate InVarnode(data: Data, v: VarnodeId, r: BitRange)
    requires v < |data|
  {
    r.byteSize == data[v].size && 0 <= r.lsb && r.lsb + r.numBits <= 8 * r.byteSize
  }

  /** A state before tracing: a range of the root itself, all of whose bits are in use. */
  ghost predicate Fresh(data: Data, root: VarnodeId, st: NodeState) {
    && Placed(data, st) && st.node == Some(root) && st.bitsField.lsb == st.origLsb
    && st.bitsUsed == BitRange(data[root].size, 0, 8 * data[root].size)
  }

  /** Bit `j` of the root is in the range. */
  ghost predicate HoldsBit(st: NodeState, j: int) {
    st.origLsb <= j < st.origLsb + st.bitsField.numBits
  }

  /** What an operation does with the bits traced to its output: they are bits of an input, they are
      zero, or nothing is known. */
  datatype Move = Follow(to: VarnodeId, bits: BitRange, used: BitRange) | Zero | Stop

  /** The operation at the state is followed rightly: a shift constant fits 32 bits, or only the sign
      is traced through an arithmetic shift; a truncation drops no low byte. */
  ghost predicate ExactStep(data: Data, st: NodeState)
    requires WellFormed(data) && Placed(data, st)
  {
    var v, r := st.node.value, st.bitsField;
    assert DefFits(data, v);
    match data[v].def
    case IntLeft(_, b) => data[b].def.Constant? ==> Val(data[b].def.value) < 0x1_0000_0000
    case IntSright(_, b) =>
      data[b].def.Constant? ==>
        Val(data[b].def.value) < 0x1_0000_0000 || r.lsb + AsI32(Val(data[b].def.value)) == 8 * data[v].size - 1
    case Subpiece(_, b) => Val(data[b].def.value) == 0
    case _ => true
  }

  /** In every valuation: where the bits are followed to, when the step is exact, and whether they are zero. */
  ghost predicate MoveMeans(data: Data, st: NodeState, m: Move)
    requires WellFormed(data) && Placed(data, st)
  {
    var v, r := st.node.value, st.bitsField;
    match m
    case Follow(to, r', used) =>
      && to < v && Placed(data, st.(node := Some(to), bitsField := r', bitsUsed := used))
      && (ExactStep(data, st) ==> SameBits(data, v, r.lsb, to, r'.lsb, r.numBits))
    case Zero => ClearBits(data, v, r.lsb, r.numBits)
    case Stop => true
  }

  // ----- Which operations are followed

  ghost predicate AllIn(r: BitRange, mask: set<nat>) {
    forall j: nat :: InRange(r, j) ==> j in mask
  }

  ghost predicate NoneIn(r: BitRange, mask: set<nat>) {
    forall j: nat :: InRange(r, j) ==> j !in mask
  }

  /** One of the two operands cannot be set anywhere in the range, and the other, `to`, can. */
  ghost predicate OnlyOneShows(data: Data, r: BitRange, a: VarnodeId, b: VarnodeId, to: VarnodeId)
    requires a < |data| && b < |data|
  {
    || (to == a && !NoneIn(r, data[a].nzMask) && NoneIn(r, data[b].nzMask))
    || (to == b && NoneIn(r, data[a].nzMask) && !NoneIn(r, data[b].nzMask))
  }

  /** A shift amount that is accepted: the constant's low 32 bits, from 0 to 63. */
  ghost predicate ShiftsBy(data: Data, b: VarnodeId, sa: int)
    requires b < |data|
  {
    data[b].def.Constant? && sa == AsI32(Val(data[b].def.value)) && 0 <= sa < 64
  }

  /** The traced bits are looked for in `to`, from bit `lsb` on. */
  ghost predicate Follows(data: Data, st: NodeState, to: VarnodeId, lsb: int)
    requires WellFormed(data) && Placed(data, st)
  {
    var v, r := st.node.value, st.bitsField;
    assert DefFits(data, v);
    match data[v].def
    case Copy(a) => to == a && lsb == r.lsb
    case IntAnd(a, b) =>
      data[b].def.Constant? && data[v].size <= 8 && AllIn(r, BitsOf(data[b].def.value)) && to == a && lsb == r.lsb
    case IntOr(a, b) =>
      && data[v].size <= 8 && lsb == r.lsb
      && (|| OnlyOneShows(data, r, a, b, to)
          || (!NoneIn(r, data[a].nzMask) && data[b].def.Constant? && AllIn(r, data[b].nzMask) && to == b))
    case IntAdd(a, b) =>
      && data[v].size <= 8 && (forall j :: j in data[a].nzMask ==> j !in data[b].nzMask)
      && OnlyOneShows(data, r, a, b, to) && lsb == r.lsb
    case IntLeft(a, b) => exists sa: int :: ShiftsBy(data, b, sa) && sa <= r.lsb && to == a && lsb == r.lsb - sa
    case IntSright(a, b) =>
      exists sa: int :: ShiftsBy(data, b, sa) && r.lsb + sa + r.numBits <= 8 * data[v].size && to == a && lsb == r.lsb + sa
    case IntZext(a) => r.lsb + r.numBits <= 8 * data[a].size && to == a && lsb == r.lsb
    case IntMult(a, b) =>
      data[b].def.Constant? && exists k: nat :: BitsOf(data[b].def.value) == {k} && k <= r.lsb && to == a && lsb == r.lsb - k
    case Subpiece(a, b) =>
      && lsb == r.lsb - AsI32(8 * Val(data[b].def.value))
      && 0 <= lsb && lsb + r.numBits <= 8 * data[a].size && to == a
    case _ => false
  }

  /** The operation clears the traced bits: a mask keeps none of them, or a shift pushes all of them in. */
  ghost predicate Clears(data: Data, st: NodeState)
    requires WellFormed(data) && Placed(data, st)
  {
    var v, r := st.node.value, st.bitsField;
    assert DefFits(data, v);
    match data[v].def
    case IntAnd(_, b) => data[b].def.Constant? && data[v].size <= 8 && NoneIn(r, BitsOf(data[b].def.value))
    case IntLeft(_, b) => exists sa: int :: ShiftsBy(data, b, sa) && r.lsb + r.numBits <= sa
    case _ => false
  }

  /** Nothing is known of the traced bits. */
  ghost predicate GivesUp(data: Data, st: NodeState)
    requires WellFormed(data) && Placed(data, st)
  {
    !Clears(data, st) && forall to: VarnodeId, lsb: int :: !Follows(data, st, to, lsb)
  }

  /** The bits in use of the input: those of the output that are bits of the input, and for a mask the
      stretch from the first to the last that it keeps. */
  ghost predicate UsedAfter(data: Data, st: NodeState, to: VarnodeId, lsb: int, used: BitRange)
    requires WellFormed(data) && Placed(data, st) && to < |data|
  {
    var d := data[st.node.value].def;
    assert DefFits(data, st.node.value);
    if d.IntAnd? then data[d.b].def.Constant? && IsHull(st.bitsUsed, BitsOf(data[d.b].def.value), used)
    else
      && used.byteSize == data[to].size
      && forall j: int :: InRange(used, j) <==> 0 <= j < 8 * data[to].size && InRange(st.bitsUsed, j + (st.bitsField.lsb - lsb))
  }

  /** The move is the one the operation calls for. */
  ghost predicate CalledFor(data: Data, st: NodeState, m: Move)
    requires WellFormed(data) && Placed(data, st)
  {
    match m
    case Follow(to, bits, used) =>
      && Follows(data, st, to, bits.lsb) && to < |data| && bits == BitRange(data[to].size, bits.lsb, st.bitsField.numBits)
      && UsedAfter(data, st, to, bits.lsb, used)
    case Zero => Clears(data, st)
    case Stop => GivesUp(data, st)
  }

  /** An operation leads to one place or is not followed. */
  lemma FollowsOnce(data: Data, st: NodeState, to: VarnodeId, lsb: int, to': VarnodeId, lsb': int)
    requires WellFormed(data) && Placed(data, st) && Follows(data, st, to, lsb)
    ensures !Clears(data, st) && (Follows(data, st, to', lsb') ==> to == to' && lsb == lsb')
  {
    var r := st.bitsField;
    assert InRange(r, r.lsb) && DefFits(data, st.node.value);
  }

  // ----- Shifting ranges

  /** A shifted range has all its bits exactly when it is still within the container. */
  lemma ShiftKeeps(r: BitRange, left: int)
    requires 0 <= r.lsb && 0 < r.numBits && r.lsb + r.numBits <= 8 * r.byteSize
    ensures Shift(r, left).numBits == r.numBits <==> 0 <= r.lsb + left && r.lsb + left + r.numBits <= 8 * r.byteSize
    ensures Shift(r, left).numBits == r.numBits ==> Shift(r, left) == r.(lsb := r.lsb + left)
    ensures left <= 0 ==> (Shift(r, left).numBits == 0 <==> r.lsb + r.numBits <= 0 - left)
  {
  }

  /** Eight times a number, and eight times its low 32 bits, have the same low 32 bits. */
  lemma Wraps(off: nat)
    ensures AsI32(AsI32(off) * 8) == AsI32(8 * off)
  {
    var small := AsI32(off);
    var k := (off - small) / 0x1_0000_0000;
    assert off == small + 0x1_0000_0000 * k;
    assert 8 * off == small * 8 + 0x1_0000_0000 * (8 * k);
    SameLow(small * 8, 8 * k);
  }

  lemma SameLow(x: int, k: int)
    ensures AsI32(x + 0x1_0000_0000 * k) == AsI32(x)
  {
    assert (x + 0x1_0000_0000 * k) % 0x1_0000_0000 == x % 0x1_0000_0000;
  }

  /** A byte offset as a shift amount, in 32-bit arithmetic. */
  function ByteShift(off: nat): (sa: int)
    ensures sa == AsI32(8 * off)
  {
    Wraps(off);
    AsI32(AsI32(off) * 8)
  }

  /** Where the bits of a truncation are looked for in its input. */
  function SubpieceRange(r: BitRange, amount: int, off: nat): BitRange {
    Shift(ExtendBytes(r, amount), 0 - ByteShift(off))
  }

  /** A constant with one bit set is that power of two. */
  lemma OnlyBit(value: Word, sa: nat)
    requires BitsOf(value) == {sa}
    ensures Val(value) == Pow2(sa)
  {
    assert sa in BitsOf(value);
    forall j | 0 <= j < |value| && j != sa ensures !value[j] { assert j !in BitsOf(value); }
    SingleBit(value, sa);
  }

  lemma OneElement(mask: set<nat>, sa: nat)
    requires |mask| == 1 && sa == LeastBit(mask, 0) && forall k :: k in mask ==> k < 64
    ensures mask == {sa}
  {
    var k :| k in mask;
    assert |mask - {k}| == 0 && mask == (mask - {k}) + {k};
    assert k < 64;
  }

  lemma MaskMeans(r: BitRange, s: set<nat>)
    requires 0 <= r.lsb && 0 < r.numBits && r.lsb + r.numBits <= 64
    ensures Mask(r) * s == Mask(r) <==> AllIn(r, s)
    ensures Mask(r) * s == {} <==> NoneIn(r, s)
    ensures AllIn(r, s) ==> !NoneIn(r, s)
  {
    var m := Mask(r);
    assert InRange(r, r.lsb);
    forall j: nat ensures InRange(r, j) <==> j in m { }
    if AllIn(r, s) { assert m * s == m; }
    if NoneIn(r, s) { assert m * s == {}; }
    if m * s == m { forall j: nat | InRange(r, j) ensures j in s { assert j in m * s; } }
    if m * s == {} { forall j: nat | InRange(r, j) ensures j !in s { assert j in m; assert j !in m * s; } }
  }

  /** The bits in use still hold the traced ones. */
  lemma HullHolds(used: BitRange, r: BitRange, mask: set<nat>, h: BitRange)
    requires IsHull(used, mask, h) && AllIn(r, mask) && 0 <= r.lsb && 0 < r.numBits && r.lsb + r.numBits <= 64
    requires used.lsb <= r.lsb && r.lsb + r.numBits <= used.lsb + used.numBits
    ensures used.lsb <= h.lsb <= r.lsb && r.lsb + r.numBits <= h.lsb + h.numBits <= used.lsb + used.numBits
  {
    var last: nat := r.lsb + r.numBits - 1;
    assert InRange(r, r.lsb) && InRange(r, last);
    assert Kept(used, mask, r.lsb) && Kept(used, mask, last);
  }

  /** Bits in use that are shifted: those that stay in the container. */
  lemma ShiftUsed(used: BitRange, r: BitRange, left: int)
    requires 0 <= used.lsb <= r.lsb && 0 < r.numBits && r.lsb + r.numBits <= used.lsb + used.numBits <= 8 * used.byteSize
    requires 0 <= r.lsb + left && r.lsb + r.numBits + left <= 8 * used.byteSize
    ensures var u := Shift(used, left);
            && u.byteSize == used.byteSize && 0 <= u.lsb && u.lsb + u.numBits <= 8 * used.byteSize
            && u.lsb <= r.lsb + left && r.lsb + r.numBits + left <= u.lsb + u.numBits
            && forall j: int :: InRange(u, j) <==> 0 <= j < 8 * used.byteSize && InRange(used, j - left)
  {
  }

  lemma AddCalled(data: Data, st: NodeState)
    requires WellFormed(data) && Placed(data, st) && data[st.node.value].def.IntAdd? && DefFits(data, st.node.value)
    requires st.bitsField.byteSize <= 8
    ensures var d, r := data[st.node.value].def, st.bitsField;
            var nz0, nz1 := data[d.a].nzMask, data[d.b].nzMask;
            if nz0 * nz1 != {} || NoneIn(r, nz0) == NoneIn(r, nz1) then CalledFor(data, st, Stop)
            else CalledFor(data, st, Follow(if NoneIn(r, nz0) then d.b else d.a, r, st.bitsUsed))
  {
    var d, r := data[st.node.value].def, st.bitsField;
    var nz0, nz1 := data[d.a].nzMask, data[d.b].nzMask;
    hide NoneIn;
    if nz0 * nz1 == {} {
      forall j | j in nz0 ensures j !in nz1 { assert j !in nz0 * nz1; }
    } else {
      var j :| j in nz0 * nz1;
      assert j in nz0 && j in nz1;
    }
  }

  lemma LeftMove(data: Data, st: NodeState, sa: int)
    requires WellFormed(data) && Placed(data, st) && data[st.node.value].def.IntLeft? && DefFits(data, st.node.value)
    requires ShiftsBy(data, data[st.node.value].def.b, sa)
    ensures var d, r := data[st.node.value].def, st.bitsField;
            var m := if sa <= r.lsb then Follow(d.a, r.(lsb := r.lsb - sa), Shift(st.bitsUsed, 0 - sa))
                     else if r.lsb + r.numBits <= sa then Zero else Stop;
            MoveMeans(data, st, m) && CalledFor(data, st, m)
  {
    LeftSame(data, st.node.value, st.bitsField.lsb, st.bitsField.numBits, sa);
    hide AsI32, Val, Shift, SameBits, ClearBits;
    if sa <= st.bitsField.lsb { ShiftUsed(st.bitsUsed, st.bitsField, 0 - sa); }
  }

  lemma RightMeans(data: Data, st: NodeState, sa: nat)
    requires WellFormed(data) && Placed(data, st) && data[st.node.value].def.IntSright? && DefFits(data, st.node.value)
    requires var c := data[data[st.node.value].def.b].def; c.Constant? && AsI32(Val(c.value)) == sa
    requires st.bitsField.lsb + sa + st.bitsField.numBits <= 8 * data[st.node.value].size
    ensures ExactStep(data, st) ==>
      SameBits(data, st.node.value, st.bitsField.lsb, data[st.node.value].def.a, st.bitsField.lsb + sa, st.bitsField.numBits)
  {
    hide SameBits, AsI32, Val;
    if ExactStep(data, st) { SrightSame(data, st.node.value, st.bitsField.lsb, st.bitsField.numBits, sa); }
  }

  lemma RightMove(data: Data, st: NodeState, sa: int)
    requires WellFormed(data) && Placed(data, st) && data[st.node.value].def.IntSright? && DefFits(data, st.node.value)
    requires ShiftsBy(data, data[st.node.value].def.b, sa)
    ensures var d, r := data[st.node.value].def, st.bitsField;
            var m := if r.lsb + sa + r.numBits <= 8 * r.byteSize then Follow(d.a, r.(lsb := r.lsb + sa), Shift(st.bitsUsed, sa)) else Stop;
            MoveMeans(data, st, m) && CalledFor(data, st, m)
  {
    hide AsI32, Val, Shift, SameBits;
    if st.bitsField.lsb + sa + st.bitsField.numBits <= 8 * st.bitsField.byteSize {
      RightMeans(data, st, sa);
      ShiftUsed(st.bitsUsed, st.bitsField, sa);
    }
  }

  lemma MultMeans(data: Data, v: VarnodeId, r: BitRange, sa: nat)
    requires WellFormed(data) && v < |data| && data[v].def.IntMult? && DefFits(data, v) && InVarnode(data, v, r) && r.lsb >= sa
    requires var c := data[data[v].def.b].def; c.Constant? && BitsOf(c.value) == {sa}
    ensures SameBits(data, v, r.lsb, data[v].def.a, r.lsb - sa, r.numBits)
  {
    assert DefFits(data, data[v].def.b);
    hide SameBits, WellFormed, Val, BitsOf, Pow2;
    OnlyBit(data[data[v].def.b].def.value, sa);
    MultSame(data, v, r.lsb, r.numBits, sa);
  }

  lemma MultMove(data: Data, st: NodeState, sa: nat)
    requires WellFormed(data) && Placed(data, st) && data[st.node.value].def.IntMult? && DefFits(data, st.node.value)
    requires data[data[st.node.value].def.b].def.Constant? && BitsOf(data[data[st.node.value].def.b].def.value) == {sa}
    ensures var d, r := data[st.node.value].def, st.bitsField;
            var m := if sa <= r.lsb then Follow(d.a, r.(lsb := r.lsb - sa), Shift(st.bitsUsed, 0 - sa)) else Stop;
            MoveMeans(data, st, m) && CalledFor(data, st, m)
  {
    var v, r := st.node.value, st.bitsField;
    if sa <= r.lsb { MultMeans(data, v, r, sa); }
    hide Shift, BitsOf, SameBits;
    assert forall k: nat :: {sa} == {k} ==> k == sa by { forall k: nat | {sa} == {k} ensures k == sa { assert sa in {k}; } }
    if sa <= st.bitsField.lsb { ShiftUsed(st.bitsUsed, st.bitsField, 0 - sa); }
  }

  lemma SubpieceMeans(data: Data, st: NodeState)
    requires WellFormed(data) && Placed(data, st) && data[st.node.value].def.Subpiece? && DefFits(data, st.node.value)
    ensures ExactStep(data, st) ==> ByteShift(Val(data[data[st.node.value].def.b].def.value)) == 0
    ensures ExactStep(data, st) ==>
      SameBits(data, st.node.value, st.bitsField.lsb, data[st.node.value].def.a, st.bitsField.lsb, st.bitsField.numBits)
  {
    hide SameBits, Val;
    if ExactStep(data, st) { SubpieceSame(data, st.node.value, st.bitsField.lsb, st.bitsField.numBits); }
  }

  lemma SubpieceKeeps(r: BitRange, amount: nat, off: nat)
    requires 0 <= r.lsb && 0 < r.numBits && r.lsb + r.numBits <= 8 * r.byteSize
    ensures var sa, newRange := ByteShift(off), SubpieceRange(r, amount, off);
            if 0 <= r.lsb - sa && r.lsb - sa + r.numBits <= 8 * (r.byteSize + amount) then
              newRange == BitRange(r.byteSize + amount, r.lsb - sa, r.numBits)
            else newRange.numBits != r.numBits
  {
    ShiftKeeps(ExtendBytes(r, amount), 0 - ByteShift(off));
    hide ByteShift, Shift;
  }

  /** A truncation is followed exactly when the bits, moved up by the dropped bytes, are in the input. */
  lemma SubpieceFollows(data: Data, st: NodeState)
    requires WellFormed(data) && Placed(data, st) && data[st.node.value].def.Subpiece? && DefFits(data, st.node.value)
    ensures var d, r := data[st.node.value].def, st.bitsField;
            var lsb := r.lsb - ByteShift(Val(data[d.b].def.value));
            if 0 <= lsb && lsb + r.numBits <= 8 * data[d.a].size then Follows(data, st, d.a, lsb) else GivesUp(data, st)
  {
    hide AsI32, Val, ByteShift;
  }

  lemma SubpieceUsed(data: Data, st: NodeState, to: VarnodeId, sa: int, used: BitRange)
    requires WellFormed(data) && Placed(data, st) && to < |data| && data[st.node.value].size <= data[to].size
    requires data[st.node.value].def.Subpiece? && DefFits(data, st.node.value)
    requires 0 <= st.bitsField.lsb - sa && st.bitsField.lsb - sa + st.bitsField.numBits <= 8 * data[to].size
    requires used == Shift(ExtendBytes(st.bitsUsed, data[to].size - data[st.node.value].size), 0 - sa)
    ensures var lsb := st.bitsField.lsb - sa;
            && Placed(data, st.(node := Some(to), bitsField := BitRange(data[to].size, lsb, st.bitsField.numBits), bitsUsed := used))
            && UsedAfter(data, st, to, lsb, used)
  {
    var amount := data[to].size - data[st.node.value].size;
    ShiftUsed(ExtendBytes(st.bitsUsed, amount), ExtendBytes(st.bitsField, amount), 0 - sa);
    hide Shift, WellFormed, DefFits;
  }

  lemma SubpieceMove(data: Data, st: NodeState, newRange: BitRange, used: BitRange)
    requires WellFormed(data) && Placed(data, st) && data[st.node.value].def.Subpiece? && DefFits(data, st.node.value)
    requires var d := data[st.node.value].def;
             var amount, off := data[d.a].size - data[st.node.value].size, Val(data[d.b].def.value);
             newRange == SubpieceRange(st.bitsField, amount, off) && used == Shift(ExtendBytes(st.bitsUsed, amount), 0 - ByteShift(off))
    ensures var m := if st.bitsField.numBits == newRange.numBits then Follow(data[st.node.value].def.a, newRange, used) else Stop;
            MoveMeans(data, st, m) && CalledFor(data, st, m)
  {
    var d, r := data[st.node.value].def, st.bitsField;
    var amount, off := data[d.a].size - data[st.node.value].size, Val(data[d.b].def.value);
    SubpieceMeans(data, st);
    SubpieceKeeps(r, amount, off);
    SubpieceFollows(data, st);
    hide Shift, SameBits, AsI32, Val, ByteShift, ExactStep, SubpieceRange, WellFormed, Follows, GivesUp, UsedAfter, Placed;
    if r.numBits == newRange.numBits { SubpieceUsed(data, st, d.a, ByteShift(off), used); }
  }

  // ----- One operation back

  function CopyBack(data: Data, st: NodeState): (m: Move)
    requires WellFormed(data) && Placed(data, st) && data[st.node.value].def.Copy?
    ensures MoveMeans(data, st, m) && CalledFor(data, st, m)
  {
    CopySame(data, st.node.value, st.bitsField.lsb, st.bitsField.numBits);
    Follow(data[st.node.value].def.a, st.bitsField, st.bitsUsed)
  }

  /** Bits that a constant mask keeps are those of the other operand; bits it clears are zero. */
  function AndBack(data: Data, st: NodeState): (m: Move)
    requires WellFormed(data) && Placed(data, st) && data[st.node.value].def.IntAnd?
    ensures MoveMeans(data, st, m) && CalledFor(data, st, m)
  {
    var v, r := st.node.value, st.bitsField;
    assert DefFits(data, v);
    var c := data[data[v].def.b].def;
    if !c.Constant? || r.byteSize > 8 then Stop
    else
      AndSame(data, v, r.lsb, r.numBits);
      MaskMeans(r, BitsOf(c.value));
      var mask := Mask(r);
      var res := mask * BitsOf(c.value);
      if res == mask then
        HullHolds(st.bitsUsed, r, BitsOf(c.value), IntersectMask(st.bitsUsed, BitsOf(c.value)));
        Follow(data[v].def.a, r, IntersectMask(st.bitsUsed, BitsOf(c.value)))
      else if res == {} then Zero
      else Stop
  }

  /** Where one operand is known to be clear, the bits are those of the other. */
  function OrBack(data: Data, st: NodeState): (m: Move)
    requires WellFormed(data) && Placed(data, st) && data[st.node.value].def.IntOr?
    ensures MoveMeans(data, st, m) && CalledFor(data, st, m)
  {
    var v, r := st.node.value, st.bitsField;
    assert DefFits(data, v);
    if r.byteSize > 8 then Stop
    else
      var mask := Mask(r);
      var vn0, vn1 := data[v].def.a, data[v].def.b;
      MaskMeans(r, data[vn0].nzMask);
      MaskMeans(r, data[vn1].nzMask);
      assert data[vn0].nzMask * mask == mask * data[vn0].nzMask && data[vn1].nzMask * mask == mask * data[vn1].nzMask;
      var masked0, masked1 := data[vn0].nzMask * mask == {}, data[vn1].nzMask * mask == {};
      if masked0 == masked1 then
        if data[vn1].def.Constant? && data[vn1].nzMask * mask == mask then
          OrOnes(data, v, r.lsb, r.numBits);
          Follow(vn1, r, st.bitsUsed)
        else Stop
      else
        OrSame(data, v, r.lsb, r.numBits);
        MaskedClear(data, if masked0 then vn0 else vn1, r.lsb, r.numBits);
        Follow(if masked0 then vn1 else vn0, r, st.bitsUsed)
  }

  function AddBack(data: Data, st: NodeState): (m: Move)
    requires WellFormed(data) && Placed(data, st) && data[st.node.value].def.IntAdd?
    ensures MoveMeans(data, st, m) && CalledFor(data, st, m)
  {
    var v, r := st.node.value, st.bitsField;
    assert DefFits(data, v);
    var vn0, vn1 := data[v].def.a, data[v].def.b;
    if r.byteSize > 8 || data[vn0].nzMask * data[vn1].nzMask != {} then Stop
    else
      var mask := Mask(r);
      MaskMeans(r, data[vn0].nzMask);
      MaskMeans(r, data[vn1].nzMask);
      assert data[vn0].nzMask * mask == mask * data[vn0].nzMask && data[vn1].nzMask * mask == mask * data[vn1].nzMask;
      var masked0, masked1 := data[vn0].nzMask * mask == {}, data[vn1].nzMask * mask == {};
      if masked0 == masked1 then Stop
      else
        AddCalled(data, st);
        AddSame(data, v, r.lsb, r.numBits);
        MaskedClear(data, if masked0 then vn0 else vn1, r.lsb, r.numBits);
        Follow(if masked0 then vn1 else vn0, r, st.bitsUsed)
  }

  function LeftBack(data: Data, st: NodeState): (m: Move)
    requires WellFormed(data) && Placed(data, st) && data[st.node.value].def.IntLeft?
    ensures MoveMeans(data, st, m) && CalledFor(data, st, m)
  {
    var v, r := st.node.value, st.bitsField;
    assert DefFits(data, v);
    var c := data[data[v].def.b].def;
    if !c.Constant? then Stop
    else
      var sa := AsI32(Val(c.value));
      if !(0 <= sa < 64) then Stop
      else
        LeftMove(data, st, sa);
        ShiftKeeps(r, 0 - sa);
        var newRange := Shift(r, 0 - sa);
        if r.numBits == newRange.numBits then Follow(data[v].def.a, newRange, Shift(st.bitsUsed, 0 - sa))
        else if newRange.numBits == 0 then Zero
        else Stop
  }

  function RightBack(data: Data, st: NodeState): (m: Move)
    requires WellFormed(data) && Placed(data, st) && data[st.node.value].def.IntSright?
    ensures MoveMeans(data, st, m) && CalledFor(data, st, m)
  {
    var v, r := st.node.value, st.bitsField;
    assert DefFits(data, v);
    var c := data[data[v].def.b].def;
    if !c.Constant? then Stop
    else
      var sa := AsI32(Val(c.value));
      if !(0 <= sa < 64) then Stop
      else
        RightMove(data, st, sa);
        ShiftKeeps(r, sa);
        var newRange := Shift(r, sa);
        if r.numBits == newRange.numBits then Follow(data[v].def.a, newRange, Shift(st.bitsUsed, sa)) else Stop
  }

  function ZextBack(data: Data, st: NodeState): (m: Move)
    requires WellFormed(data) && Placed(data, st) && data[st.node.value].def.IntZext?
    ensures MoveMeans(data, st, m) && CalledFor(data, st, m)
  {
    var v, r := st.node.value, st.bitsField;
    assert DefFits(data, v);
    var amount := data[v].size - data[data[v].def.a].size;
    var newRange := TruncateMost(r, amount);
    if r.numBits == newRange.numBits then
      ZextSame(data, v, r.lsb, r.numBits);
      Follow(data[v].def.a, newRange, TruncateMost(st.bitsUsed, amount))
    else Stop
  }

  function MultBack(data: Data, st: NodeState): (m: Move)
    requires WellFormed(data) && Placed(data, st) && data[st.node.value].def.IntMult?
    ensures MoveMeans(data, st, m) && CalledFor(data, st, m)
  {
    var v, r := st.node.value, st.bitsField;
    assert DefFits(data, v);
    var c := data[data[v].def.b].def;
    if !c.Constant? || |BitsOf(c.value)| != 1 then Stop
    else
      var sa := LeastBit(BitsOf(c.value), 0);
      assert DefFits(data, data[v].def.b);
      OneElement(BitsOf(c.value), sa);
      MultMove(data, st, sa);
      ShiftKeeps(r, 0 - sa);
      var newRange := Shift(r, 0 - sa);
      if r.numBits == newRange.numBits then Follow(data[v].def.a, newRange, Shift(st.bitsUsed, 0 - sa)) else Stop
  }

  function SubpieceBack(data: Data, st: NodeState): (m: Move)
    requires WellFormed(data) && Placed(data, st) && data[st.node.value].def.Subpiece?
    ensures MoveMeans(data, st, m) && CalledFor(data, st, m)
  {
    var v, r := st.node.value, st.bitsField;
    assert DefFits(data, v);
    var amount, off := data[data[v].def.a].size - data[v].size, Val(data[data[v].def.b].def.value);
    var newRange, newUsed := SubpieceRange(r, amount, off), Shift(ExtendBytes(st.bitsUsed, amount), 0 - ByteShift(off));
    SubpieceMove(data, st, newRange, newUsed);
    if r.numBits == newRange.numBits then Follow(data[v].def.a, newRange, newUsed) else Stop
  }

  /** One operation back, by its code. */
  function OneBack(data: Data, st: NodeState): (m: Move)
    requires WellFormed(data) && Placed(data, st)
    ensures MoveMeans(data, st, m) && CalledFor(data, st, m)
  {
    match data[st.node.value].def
    case Copy(_) => CopyBack(data, st)
    case IntAdd(_, _) => AddBack(data, st)
    case IntAnd(_, _) => AndBack(data, st)
    case IntLeft(_, _) => LeftBack(data, st)
    case IntZext(_) => ZextBack(data, st)
    case IntOr(_, _) => OrBack(data, st)
    case IntMult(_, _) => MultBack(data, st)
    case Subpiece(_, _) => SubpieceBack(data, st)
    case IntSright(_, _) => RightBack(data, st)
    case _ => Stop
  }

  // ----- Trails

  /** The state after following an operation. */
  function AfterMove(st: NodeState, m: Move): NodeState
    requires m.Follow?
  {
    st.(node := Some(m.to), bitsField := m.bits, bitsUsed := m.used)
  }

  ghost predicate StepsTo(data: Data, st: NodeState, st': NodeState)
    requires WellFormed(data)
  {
    && Placed(data, st) && Placed(data, st') && st'.field == st.field && st'.origLsb == st.origLsb
    && Follows(data, st, st'.node.value, st'.bitsField.lsb) && st'.bitsField.numBits == st.bitsField.numBits
    && UsedAfter(data, st, st'.node.value, st'.bitsField.lsb, st'.bitsUsed)
  }

  /** A step that is exact keeps the bits. */
  lemma StepMeans(data: Data, st: NodeState, st': NodeState)
    requires WellFormed(data) && StepsTo(data, st, st') && ExactStep(data, st)
    ensures SameBits(data, st.node.value, st.bitsField.lsb, st'.node.value, st'.bitsField.lsb, st.bitsField.numBits)
  {
    hide OneBack, Follows, Clears, SameBits, ExactStep, UsedAfter, WellFormed;
    var m := OneBack(data, st);
    FollowsOnce(data, st, st'.node.value, st'.bitsField.lsb, st'.node.value, st'.bitsField.lsb);
    if m.Follow? { FollowsOnce(data, st, st'.node.value, st'.bitsField.lsb, m.to, m.bits.lsb); }
  }

  /** The states of a trace: each is where the operation of the one before leads. */
  ghost predicate Trail(data: Data, trail: seq<NodeState>)
    requires WellFormed(data)
  {
    && trail != [] && (forall i :: 0 <= i < |trail| ==> Placed(data, trail[i]))
    && forall i :: 0 <= i < |trail| - 1 ==> StepsTo(data, trail[i], trail[i + 1])
  }

  ghost function End(trail: seq<NodeState>): NodeState
    requires trail != []
  {
    trail[|trail| - 1]
  }

  /** Every operation followed was followed rightly. */
  ghost predicate ExactTrail(data: Data, trail: seq<NodeState>)
    requires WellFormed(data) && Trail(data, trail)
  {
    forall i :: 0 <= i < |trail| - 1 ==> ExactStep(data, trail[i])
  }

  lemma TrailStarts(data: Data, st: NodeState)
    requires WellFormed(data) && Placed(data, st)
    ensures Trail(data, [st]) && End([st]) == st
  {
  }

  lemma TrailExtends(data: Data, trail: seq<NodeState>)
    requires WellFormed(data) && Trail(data, trail) && OneBack(data, End(trail)).Follow?
    ensures var st := AfterMove(End(trail), OneBack(data, End(trail)));
            && Trail(data, trail + [st]) && End(trail + [st]) == st && (trail + [st])[0] == trail[0]
            && st.node.value < End(trail).node.value && st.bitsField.numBits == End(trail).bitsField.numBits
            && st.origLsb == End(trail).origLsb && st.field == End(trail).field
  {
    hide OneBack, Follows, UsedAfter, WellFormed;
    var st := AfterMove(End(trail), OneBack(data, End(trail)));
    var longer := trail + [st];
    forall i | 0 <= i < |longer| - 1 ensures StepsTo(data, longer[i], longer[i + 1]) {
      if i < |trail| - 1 { assert StepsTo(data, trail[i], trail[i + 1]); }
    }
  }

  /** Along an exact trail the bits are the same, in every valuation the masks allow. */
  lemma {:induction false} TrailKeeps(data: Data, trail: seq<NodeState>)
    requires WellFormed(data) && Trail(data, trail)
    ensures var first, end := trail[0], End(trail);
            && end.bitsField.numBits == first.bitsField.numBits && end.origLsb == first.origLsb && end.field == first.field
            && (ExactTrail(data, trail) ==>
                  SameBits(data, first.node.value, first.bitsField.lsb, end.node.value, end.bitsField.lsb, first.bitsField.numBits))
    decreases |trail|
  {
    hide SameBits, Follows, UsedAfter, ExactStep, WellFormed;
    if |trail| == 1 {
      SameSelf(data, trail[0].node.value, trail[0].bitsField.lsb, trail[0].bitsField.numBits);
    } else {
      var front := trail[..|trail| - 1];
      forall i | 0 <= i < |front| - 1 ensures StepsTo(data, front[i], front[i + 1]) { assert StepsTo(data, trail[i], trail[i + 1]); }
      TrailKeeps(data, front);
      var first, last, end := trail[0], trail[|trail| - 2], End(trail);
      assert StepsTo(data, trail[|trail| - 2], trail[|trail| - 2 + 1]);
      if ExactTrail(data, trail) {
        StepMeans(data, last, end);
        assert ExactTrail(data, front);
        SameTrans(data, first.node.value, first.bitsField.lsb, last.node.value, last.bitsField.lsb,
                  end.node.value, end.bitsField.lsb, first.bitsField.numBits);
      }
    }
  }

  lemma SameSelf(data: Data, x: VarnodeId, i: int, n: int)
    requires WellFormed(data) && x < |data| && 0 <= i && i + n <= 8 * data[x].size
    ensures SameBits(data, x, i, x, i, n)
  {
  }
}
