/** Where tracing bits back is not exact: for three operations, an input on which the bits are
    mistaken, and the condition under which they never are. */
module BitFindings {
  import opened BitWords
  import opened BitTrace
  import opened FlowGraph
  import opened BitSteps
  import opened BitFieldInsert

  /** `n` bits of `x` from `i` on are those of `y` from `j` on. */
  ghost predicate SameRange(x: Word, i: int, y: Word, j: int, n: int) {
    forall k :: 0 <= k < n ==> At(x, i, k) == At(y, j, k)
  }

  /** A word with one bit set. */
  ghost function OneBit(bits: nat, j: nat): (w: Word)
    ensures |w| == bits && forall k :: 0 <= k < bits ==> w[k] == (k == j)
  {
    seq(bits, k => k == j)
  }

  ghost predicate InContainer(r: BitRange, size: nat) {
    r.byteSize == size && 0 <= r.lsb && 0 < r.numBits && r.lsb + r.numBits <= 8 * size && 8 * size < 0x8000_0000
  }

  // ----- Truncation

  ghost predicate SubpieceExactOn(w: Word, inSize: nat, outSize: nat, off: nat, r: BitRange) {
    SameRange(Piece(w, 8 * off, 8 * outSize), r.lsb, w, SubpieceRange(r, inSize - outSize, off).lsb, r.numBits)
  }

  /** The bits of a truncation are looked for where they are exactly when no byte is dropped. */
  lemma LookedForAt(inSize: nat, outSize: nat, off: nat, r: BitRange)
    requires outSize <= inSize && InContainer(r, outSize) && 8 * inSize < 0x8000_0000
    requires SubpieceRange(r, inSize - outSize, off).numBits == r.numBits
    ensures var at := SubpieceRange(r, inSize - outSize, off).lsb;
            0 <= at && at + r.numBits <= 8 * inSize && (at == r.lsb + 8 * off <==> off == 0)
  {
    ShiftKeeps(ExtendBytes(r, inSize - outSize), 0 - ByteShift(off));
    if off < 0x1000_0000 { SmallByteShift(off); }
  }

  lemma SmallByteShift(off: nat)
    requires off < 0x1000_0000
    ensures ByteShift(off) == 8 * off
  {
  }

  /** A truncation that is followed gives the traced bits, for every word, exactly when it drops no byte. */
  lemma SubpieceExact(inSize: nat, outSize: nat, off: nat, r: BitRange)
    requires outSize <= inSize && InContainer(r, outSize) && 8 * inSize < 0x8000_0000
    requires SubpieceRange(r, inSize - outSize, off).numBits == r.numBits
    ensures (forall w: Word :: |w| == 8 * inSize ==> SubpieceExactOn(w, inSize, outSize, off, r)) <==> off == 0
  {
    var at := SubpieceRange(r, inSize - outSize, off).lsb;
    LookedForAt(inSize, outSize, off, r);
    hide SubpieceRange;
    if off == 0 {
      forall w: Word | |w| == 8 * inSize ensures SubpieceExactOn(w, inSize, outSize, off, r) { }
    } else {
      var w := OneBit(8 * inSize, at);
      assert At(w, at, 0) && !At(Piece(w, 8 * off, 8 * outSize), r.lsb, 0);
      assert !SubpieceExactOn(w, inSize, outSize, off, r);
    }
  }

  // ----- Shifts

  ghost predicate LeftExactOn(w: Word, c: nat, r: BitRange) {
    SameRange(ShiftLeft(w, c), r.lsb, w, Shift(r, 0 - AsI32(c)).lsb, r.numBits)
  }

  /** A left shift by a constant that is followed is exact when the constant fits 32 bits, and only then. */
  lemma LeftExact(size: nat, c: nat, r: BitRange)
    requires InContainer(r, size) && 0 <= AsI32(c) < 64 && Shift(r, 0 - AsI32(c)).numBits == r.numBits
    ensures (forall w: Word :: |w| == 8 * size ==> LeftExactOn(w, c, r)) <==> c < 0x1_0000_0000
  {
    var sa := AsI32(c);
    ShiftKeeps(r, 0 - sa);
    if c < 0x1_0000_0000 {
      forall w: Word | |w| == 8 * size ensures LeftExactOn(w, c, r) { LeftBits(w, ShiftLeft(w, c), c, r.lsb, r.numBits); }
    } else {
      var w := OneBit(8 * size, r.lsb - sa);
      assert At(w, r.lsb - sa, 0) && !At(ShiftLeft(w, c), r.lsb, 0);
      assert !LeftExactOn(w, c, r);
    }
  }

  ghost predicate RightExactOn(w: Word, c: nat, r: BitRange) {
    SameRange(ShiftRightSigned(w, c), r.lsb, w, Shift(r, AsI32(c)).lsb, r.numBits)
  }

  /** An arithmetic right shift that is followed is exact when the constant fits 32 bits, or when the
      only bit traced is the sign. */
  lemma RightExact(size: nat, c: nat, r: BitRange)
    requires InContainer(r, size) && 0 <= AsI32(c) < 64 && Shift(r, AsI32(c)).numBits == r.numBits
    ensures (forall w: Word :: |w| == 8 * size ==> RightExactOn(w, c, r)) <==>
            c < 0x1_0000_0000 || r.lsb + AsI32(c) == 8 * size - 1
  {
    var sa := AsI32(c);
    ShiftKeeps(r, sa);
    if c < 0x1_0000_0000 {
      forall w: Word | |w| == 8 * size ensures RightExactOn(w, c, r) { RightBits(w, ShiftRightSigned(w, c), c, r.lsb, r.numBits); }
    } else if r.lsb + sa == 8 * size - 1 {
      forall w: Word | |w| == 8 * size ensures RightExactOn(w, c, r) {
        assert r.numBits == 1;
      }
    } else {
      var w := OneBit(8 * size, r.lsb + sa);
      assert At(w, r.lsb + sa, 0) && !At(ShiftRightSigned(w, c), r.lsb, 0);
      assert !RightExactOn(w, c, r);
    }
  }

  // ----- Pulled fields

  /** The bits of a pull at the field's own position are those of its source there. */
  ghost predicate PullExactOn(signed: bool, w: Word, pos: nat, n: nat, bits: nat) {
    SameRange(PullWord(signed, w, pos, n, bits), pos, w, pos, n)
  }

  /** A pulled field counts as the original's bits rightly exactly when it starts at bit 0, or is a
      single bit extended by its sign. */
  lemma PullExact(signed: bool, inBits: nat, pos: nat, n: nat, bits: nat)
    requires 0 < n && pos + n <= inBits && pos + n <= bits
    ensures (forall w: Word :: |w| == inBits ==> PullExactOn(signed, w, pos, n, bits)) <==> pos == 0 || (signed && n == 1)
  {
    if pos == 0 {
      forall w: Word | |w| == inBits ensures PullExactOn(signed, w, pos, n, bits) { PullBits(signed, w, n, bits, n); }
    } else if signed && n == 1 {
      forall w: Word | |w| == inBits ensures PullExactOn(signed, w, pos, n, bits) {
        assert At(PullWord(signed, w, pos, n, bits), pos, 0) == At(w, pos, 0);
      }
    } else {
      var w := OneBit(inBits, pos);
      assert At(w, pos, 0) && !At(PullWord(signed, w, pos, n, bits), pos, 0);
      assert !PullExactOn(signed, w, pos, n, bits);
    }
  }

  // ----- The conditions under which a trace is exact

  /** For this input word, the bits traced to the operation's output are those they are followed to. */
  ghost predicate StepExactOn(data: Data, st: NodeState, w: Word)
    requires WellFormed(data) && Placed(data, st)
  {
    var v, r := st.node.value, st.bitsField;
    assert DefFits(data, v);
    match data[v].def
    case IntLeft(_, b) => data[b].def.Constant? && LeftExactOn(w, Val(data[b].def.value), r)
    case IntSright(_, b) => data[b].def.Constant? && RightExactOn(w, Val(data[b].def.value), r)
    case Subpiece(a, b) => SubpieceExactOn(w, data[a].size, data[v].size, Val(data[b].def.value), r)
    case _ => true
  }

  /** The condition on a followed shift or truncation is exact: it holds if and only if every input
      word shows its bits where they are looked for. */
  lemma StepExactIff(data: Data, st: NodeState, a: VarnodeId)
    requires WellFormed(data) && Placed(data, st) && OneBack(data, st).Follow? && a < |data| && 8 * data[a].size < 0x8000_0000
    requires var d := data[st.node.value].def; (d.IntLeft? || d.IntSright? || d.Subpiece?) && a == d.a
    ensures ExactStep(data, st) <==> forall w: Word :: |w| == 8 * data[a].size ==> StepExactOn(data, st, w)
  {
    var v, r := st.node.value, st.bitsField;
    assert DefFits(data, v);
    hide Val, LeftExactOn, RightExactOn, SubpieceExactOn, WellFormed;
    match data[v].def {
      case IntLeft(_, b) => LeftExact(data[v].size, Val(data[b].def.value), r);
      case IntSright(_, b) => RightExact(data[v].size, Val(data[b].def.value), r);
      case Subpiece(_, b) => SubpieceExact(data[a].size, data[v].size, Val(data[b].def.value), r);
    }
  }

  /** So is the condition on a pull that passes for the original. */
  lemma PullExactIff(data: Data, originals: set<VarnodeId>, st: NodeState)
    requires WellFormed(data) && Placed(data, st) && PullsFrom(data, originals, st) && 8 * data[st.node.value].size < 0x8000_0000
    requires DefFits(data, st.node.value) && 8 * data[data[st.node.value].def.a].size < 0x8000_0000
    ensures var d := data[st.node.value].def;
            ExactPull(data, st) <==>
            forall w: Word :: |w| == 8 * data[d.a].size ==>
              PullExactOn(d.Spull?, w, st.bitsField.lsb, st.bitsField.numBits, 8 * data[st.node.value].size)
  {
    var v, r := st.node.value, st.bitsField;
    var d := data[v].def;
    SmallReads(Val(data[d.b].def.value), r.lsb);
    SmallReads(Val(data[d.c].def.value), r.numBits);
    hide Val, PullExactOn, WellFormed;
    PullExact(d.Spull?, 8 * data[d.a].size, r.lsb, r.numBits, 8 * data[v].size);
  }

  lemma SmallReads(v: nat, n: int)
    requires AsI32(v) == n && v < 0x8000_0000
    ensures v == n
  {
  }

  // ----- Three inputs

  /** A varnode of any value. */
  ghost function Free(size: nat): Varnode {
    Varnode(size, Mask(BitRange(size, 0, 8 * size)), NoDef)
  }

  ghost function Known(size: nat, value: Word): Varnode {
    Varnode(size, BitsOf(value), Constant(value))
  }

  /** An input, a constant and an operation on the two, of whatever bits the masks allow. */
  ghost predicate Operation(data: Data, size: nat, value: Word, result: Varnode) {
    && 0 < size && |value| <= 64 && |value| % 8 == 0 && 0 < |value| && 0 < result.size <= 8
    && data == [Free(size), Known(|value| / 8, value), result]
    && result.nzMask == Mask(BitRange(result.size, 0, 8 * result.size))
  }

  lemma OperationEval(data: Data, size: nat, value: Word, result: Varnode, env: seq<Word>)
    requires Operation(data, size, value, result) && DefFits(data, 2) && Fits(data, env) && size <= 8
    ensures WellFormed(data) && Eval(data, env, 0) == env[0] && Eval(data, env, 1) == value && InMasks(data, env)
  {
    assert DefFits(data, 0) && DefFits(data, 1);
    forall v, j | 0 <= v < |data| && 0 <= j < |Eval(data, env, v)| && j < 64 && Eval(data, env, v)[j] ensures j in data[v].nzMask {
      if v == 1 { assert value[j]; }
    }
  }

  /** In this valuation, which the masks allow, the bits differ. */
  ghost predicate Mistaken(data: Data, env: seq<Word>, x: VarnodeId, i: int, y: VarnodeId, j: int, n: int) {
    && WellFormed(data) && InMasks(data, env) && x < |data| && y < |data|
    && 0 <= i && 0 <= j && i + n <= 8 * data[x].size && j + n <= 8 * data[y].size
    && !BitsMatch(data, env, x, i, y, j, n)
  }

  lemma FirstBitDiffers(data: Data, env: seq<Word>, x: VarnodeId, i: int, y: VarnodeId, j: int, n: int)
    requires WellFormed(data) && InMasks(data, env) && x < |data| && y < |data| && 0 < n
    requires 0 <= i && 0 <= j && i + n <= 8 * data[x].size && j + n <= 8 * data[y].size
    requires At(Eval(data, env, x), i, 0) != At(Eval(data, env, y), j, 0)
    ensures Mistaken(data, env, x, i, y, j, n)
  {
  }

  lemma SubpieceOf(data: Data, size: nat, value: Word, result: Varnode, env: seq<Word>)
    requires Operation(data, size, value, result) && Fits(data, env) && result.size <= size <= 8 && result.def == Subpiece(0, 1)
    ensures WellFormed(data) && InMasks(data, env) && Eval(data, env, 0) == env[0]
    ensures Eval(data, env, 2) == Piece(env[0], 8 * Val(value), 8 * result.size)
  {
    hide Mask, Val;
    assert DefFits(data, 2);
    OperationEval(data, size, value, result, env);
  }

  lemma LeftOf(data: Data, size: nat, value: Word, result: Varnode, env: seq<Word>)
    requires Operation(data, size, value, result) && Fits(data, env) && result.size == size <= 8 && result.def == IntLeft(0, 1)
    ensures WellFormed(data) && InMasks(data, env) && Eval(data, env, 0) == env[0]
    ensures Eval(data, env, 2) == ShiftLeft(env[0], Val(value))
  {
    hide Mask, Val;
    assert DefFits(data, 2);
    OperationEval(data, size, value, result, env);
  }

  lemma PullOf(data: Data, size: nat, value: Word, result: Varnode, env: seq<Word>)
    requires Operation(data, size, value, result) && Fits(data, env) && size <= 8 && result.def == Zpull(0, 1, 1) && 2 * Val(value) <= 8 * size
    ensures WellFormed(data) && InMasks(data, env) && Eval(data, env, 0) == env[0]
    ensures Eval(data, env, 2) == ZeroExtend(Piece(env[0], Val(value), Val(value)), 8 * result.size)
  {
    hide Mask, Val;
    assert DefFits(data, 2);
    OperationEval(data, size, value, result, env);
  }

  /** `w` has `bits` bits, of which only bit `j` is set. */
  ghost predicate IsBit(w: Word, bits: nat, j: nat) {
    |w| == bits && j < bits && forall k :: 0 <= k < bits ==> w[k] == (k == j)
  }

  lemma BitValue(w: Word, bits: nat, j: nat)
    requires IsBit(w, bits, j)
    ensures Val(w) == Pow2(j)
  {
    SingleBit(w, j);
  }

  lemma PowersAre()
    ensures Pow2(0) == 1 && Pow2(2) == 4 && Pow2(32) == 0x1_0000_0000
  {
    assert Pow2(8) == 256;
    Pow2Adds(8, 8);
    Pow2Adds(16, 16);
  }

  lemma {:induction false} Pow2Adds(a: nat, b: nat)
    ensures Pow2(a + b) == Pow2(a) * Pow2(b)
  {
    if a > 0 {
      Pow2Adds(a - 1, b);
      Doubled(Pow2(a - 1), Pow2(b));
    }
  }

  lemma Doubled(x: nat, y: nat)
    ensures (2 * x) * y == 2 * (x * y)
  {
  }

  /** Two bytes of a three-byte input, without its low byte: the constant is 1. */
  ghost function Truncation(one: Word): Data {
    [Free(3), Known(1, one), Varnode(2, Mask(BitRange(2, 0, 16)), Subpiece(0, 1))]
  }

  lemma LooksInFirstByte()
    ensures SubpieceRange(BitRange(2, 8, 8), 1, 1) == BitRange(3, 0, 8)
  {
  }

  lemma ThirdByte(w: Word)
    requires IsBit(w, 24, 16)
    ensures At(Piece(w, 8, 16), 8, 0) && !At(w, 0, 0)
  {
  }

  lemma TruncatedBits(one: Word, env: seq<Word>)
    requires IsBit(one, 8, 0) && Fits(Truncation(one), env) && IsBit(env[0], 24, 16)
    ensures Val(one) == 1 && SubpieceRange(BitRange(2, 8, 8), 1, 1) == BitRange(3, 0, 8)
    ensures Mistaken(Truncation(one), env, 2, 8, 0, 0, 8)
  {
    var data := Truncation(one);
    hide Val, Mask, Mistaken, InMasks, SubpieceRange, Eval, Pow2, WellFormed, IsBit, At, Piece;
    LooksInFirstByte();
    BitValue(one, 8, 0);
    PowersAre();
    BitSize(one, 8, 0);
    SubpieceOf(data, 3, one, data[2], env);
    ThirdByte(env[0]);
    FirstBitDiffers(data, env, 2, 8, 0, 0, 8);
  }

  lemma SetBit(bits: nat, j: nat) returns (w: Word)
    requires j < bits
    ensures IsBit(w, bits, j)
  {
    w := OneBit(bits, j);
  }

  lemma ThreeFit(data: Data, a: Word, b: Word, c: Word)
    requires |data| == 3 && |a| == 8 * data[0].size && |b| == 8 * data[1].size && |c| == 8 * data[2].size
    ensures Fits(data, [a, b, c]) && [a, b, c][0] == a
  {
  }

  /** The second byte of the truncation is looked for in the first byte of the input; it is the third. */
  lemma TruncationMistaken() returns (one: Word, env: seq<Word>)
    ensures Val(one) == 1 && SubpieceRange(BitRange(2, 8, 8), 1, 1) == BitRange(3, 0, 8)
    ensures Mistaken(Truncation(one), env, 2, 8, 0, 0, 8)
  {
    hide Val, Mask, Mistaken, SubpieceRange, Fits, IsBit;
    one := SetBit(8, 0);
    var input := SetBit(24, 16);
    var output := SetBit(16, 0);
    BitSize(one, 8, 0);
    BitSize(input, 24, 16);
    BitSize(output, 16, 0);
    env := [input, one, output];
    ThreeFit(Truncation(one), input, one, output);
    TruncatedBits(one, env);
  }

  lemma BitSize(w: Word, bits: nat, j: nat)
    requires IsBit(w, bits, j)
    ensures |w| == bits
  {
  }

  ghost function BigShift(amount: Word): Data {
    [Free(8), Known(8, amount), Varnode(8, Mask(BitRange(8, 0, 64)), IntLeft(0, 1))]
  }

  /** A 64-bit word with bits 2 and 32 set is such an amount. */
  lemma BigAmountIs(low: Word, high: Word)
    requires IsBit(low, 64, 2) && IsBit(high, 64, 32)
    ensures |Or(low, high)| == 64 && Val(Or(low, high)) == 0x1_0000_0004
  {
    hide Val, Pow2;
    DisjointSum(low, high);
    BitValue(low, 64, 2);
    BitValue(high, 64, 32);
    PowersAre();
  }

  lemma ShiftedOut(w: Word)
    requires IsBit(w, 64, 4)
    ensures !At(ShiftLeft(w, 0x1_0000_0004), 8, 0) && At(w, 4, 0)
  {
  }

  lemma ReadAsFour()
    ensures AsI32(0x1_0000_0004) == 4 && Shift(BitRange(8, 8, 4), 0 - 4) == BitRange(8, 4, 4)
  {
  }

  lemma ShiftedBits(amount: Word, env: seq<Word>)
    requires |amount| == 64 && Val(amount) == 0x1_0000_0004 && Fits(BigShift(amount), env) && IsBit(env[0], 64, 4)
    ensures AsI32(Val(amount)) == 4 && Shift(BitRange(8, 8, 4), 0 - 4) == BitRange(8, 4, 4)
    ensures Mistaken(BigShift(amount), env, 2, 8, 0, 4, 4)
  {
    var data := BigShift(amount);
    hide Val, Mask, Mistaken, InMasks, Eval, WellFormed, IsBit, At, ShiftLeft, AsI32, Shift;
    ReadAsFour();
    LeftOf(data, 8, amount, data[2], env);
    ShiftedOut(env[0]);
    FirstBitDiffers(data, env, 2, 8, 0, 4, 4);
  }

  /** A shift by 2^32 + 4 leaves nothing, but is read as a shift by 4. */
  lemma BigShiftMistaken() returns (amount: Word, env: seq<Word>)
    ensures Val(amount) == 0x1_0000_0004 && AsI32(Val(amount)) == 4 && Shift(BitRange(8, 8, 4), 0 - 4) == BitRange(8, 4, 4)
    ensures Mistaken(BigShift(amount), env, 2, 8, 0, 4, 4)
  {
    hide Val, Mask, Mistaken, Fits, IsBit, AsI32, Shift;
    var low := SetBit(64, 2);
    var high := SetBit(64, 32);
    var input := SetBit(64, 4);
    BitSize(low, 64, 2);
    BitSize(high, 64, 32);
    BitSize(input, 64, 4);
    BigAmountIs(low, high);
    amount := Or(low, high);
    env := [input, amount, input];
    ThreeFit(BigShift(amount), input, amount, input);
    ShiftedBits(amount, env);
  }

  /** The high half of a byte, pulled: the constant is 4. */
  ghost function HighPull(four: Word): Data {
    [Free(1), Known(1, four), Varnode(1, Mask(BitRange(1, 0, 8)), Zpull(0, 1, 1))]
  }

  lemma HighHalf(w: Word)
    requires IsBit(w, 8, 4)
    ensures !At(ZeroExtend(Piece(w, 4, 4), 8), 4, 0) && At(w, 4, 0)
  {
  }

  lemma PulledBits(four: Word, env: seq<Word>)
    requires IsBit(four, 8, 2) && Fits(HighPull(four), env) && IsBit(env[0], 8, 4)
    ensures Val(four) == 4 && PullMatches(4, 4, BitRange(1, 4, 4))
    ensures Mistaken(HighPull(four), env, 2, 4, 0, 4, 4)
  {
    var data := HighPull(four);
    hide Val, Mask, Mistaken, InMasks, Eval, Pow2, WellFormed, IsBit, At, Piece, ZeroExtend;
    BitValue(four, 8, 2);
    PowersAre();
    BitSize(four, 8, 2);
    PullOf(data, 1, four, data[2], env);
    HighHalf(env[0]);
    FirstBitDiffers(data, env, 2, 4, 0, 4, 4);
  }

  /** The pull of bits 4 to 7 passes for the original's bits 4 to 7, but has them at 0 to 3. */
  lemma HighPullMistaken() returns (four: Word, env: seq<Word>)
    ensures Val(four) == 4 && PullMatches(4, 4, BitRange(1, 4, 4))
    ensures Mistaken(HighPull(four), env, 2, 4, 0, 4, 4)
  {
    hide Val, Mask, Mistaken, Fits, IsBit;
    four := SetBit(8, 2);
    var input := SetBit(8, 4);
    BitSize(four, 8, 2);
    BitSize(input, 8, 4);
    env := [input, four, input];
    ThreeFit(HighPull(four), input, four, input);
    PulledBits(four, env);
  }
}
