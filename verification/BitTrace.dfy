/** Expressions over varnodes and tracing a range of bits back through them. */
module BitTrace {
  import opened BitWords

  type VarnodeId = nat

  /** How a varnode is defined. `Opaque` stands for every operation that is not traced through. */
  datatype Def =
    | NoDef
    | Constant(value: Word)
    | Copy(a: VarnodeId)
    | IntAdd(a: VarnodeId, b: VarnodeId)
    | IntAnd(a: VarnodeId, b: VarnodeId)
    | IntOr(a: VarnodeId, b: VarnodeId)
    | IntLeft(a: VarnodeId, b: VarnodeId)
    | IntSright(a: VarnodeId, b: VarnodeId)
    | IntMult(a: VarnodeId, b: VarnodeId)
    | IntZext(a: VarnodeId)
    | Subpiece(a: VarnodeId, b: VarnodeId)
    | Zpull(a: VarnodeId, b: VarnodeId, c: VarnodeId)
    | Spull(a: VarnodeId, b: VarnodeId, c: VarnodeId)
    | Call
    | Opaque

  /** A varnode: its size in bytes, the low 64 bits that may be non-zero, and its definition. */
  datatype Varnode = Varnode(size: nat, nzMask: set<nat>, def: Def)

  type Data = seq<Varnode>

  // ----- Meaning

  ghost predicate WellFormed(data: Data) {
    forall v :: 0 <= v < |data| ==> DefFits(data, v)
  }

  /** Definitions come before uses, and operand sizes are those of the operation. */
  ghost predicate DefFits(data: Data, v: VarnodeId)
    requires v < |data|
  {
    var n := data[v].size;
    && n > 0
    && match data[v].def {
         case NoDef => true
         case Call => true
         case Opaque => true
         case Constant(value) => |value| == 8 * n && n <= 8 && data[v].nzMask == BitsOf(value)
         case Copy(a) => a < v && data[a].size == n
         case IntAdd(a, b) => a < v && b < v && data[a].size == n && data[b].size == n
         case IntAnd(a, b) => a < v && b < v && data[a].size == n && data[b].size == n
         case IntOr(a, b) => a < v && b < v && data[a].size == n && data[b].size == n
         case IntMult(a, b) => a < v && b < v && data[a].size == n && data[b].size == n
         case IntLeft(a, b) => a < v && b < v && data[a].size == n
         case IntSright(a, b) => a < v && b < v && data[a].size == n
         case IntZext(a) => a < v && data[a].size <= n
         case Subpiece(a, b) => a < v && b < v && data[a].size >= n && data[b].def.Constant?
         case Zpull(a, b, c) => a < v && b < v && c < v && PullFits(data, a, b, c)
         case Spull(a, b, c) => a < v && b < v && c < v && PullFits(data, a, b, c)
       }
  }

  /** A pulled field lies within its source. */
  ghost predicate PullFits(data: Data, a: VarnodeId, b: VarnodeId, c: VarnodeId)
    requires a < |data| && b < |data| && c < |data|
  {
    && data[b].def.Constant? && data[c].def.Constant?
    && Val(data[b].def.value) + Val(data[c].def.value) <= 8 * data[a].size
  }

  function BitsOf(w: Word): set<nat> {
    set j | 0 <= j < |w| && w[j] :: j
  }

  /** A valuation gives a word to every varnode that is not computed here. */
  ghost predicate Fits(data: Data, env: seq<Word>) {
    |env| == |data| && forall v :: 0 <= v < |data| ==> |env[v]| == 8 * data[v].size
  }

  ghost function Eval(data: Data, env: seq<Word>, v: VarnodeId): (w: Word)
    requires WellFormed(data) && Fits(data, env) && v < |data|
    ensures |w| == 8 * data[v].size
  {
    assert DefFits(data, v);
    match data[v].def
    case NoDef => env[v]
    case Call => env[v]
    case Opaque => env[v]
    case Constant(value) => value
    case Copy(a) => Eval(data, env, a)
    case IntAdd(a, b) => Add(Eval(data, env, a), Eval(data, env, b))
    case IntAnd(a, b) => And(Eval(data, env, a), Eval(data, env, b))
    case IntOr(a, b) => Or(Eval(data, env, a), Eval(data, env, b))
    case IntMult(a, b) => Mult(Eval(data, env, a), Eval(data, env, b))
    case IntLeft(a, b) => ShiftLeft(Eval(data, env, a), Val(Eval(data, env, b)))
    case IntSright(a, b) => ShiftRightSigned(Eval(data, env, a), Val(Eval(data, env, b)))
    case IntZext(a) => ZeroExtend(Eval(data, env, a), 8 * data[v].size)
    case Subpiece(a, b) => Piece(Eval(data, env, a), 8 * Val(Eval(data, env, b)), 8 * data[v].size)
    case Zpull(a, b, c) => ZeroExtend(Piece(Eval(data, env, a), Val(Eval(data, env, b)), Val(Eval(data, env, c))), 8 * data[v].size)
    case Spull(a, b, c) => SignExtend(Piece(Eval(data, env, a), Val(Eval(data, env, b)), Val(Eval(data, env, c))), 8 * data[v].size)
  }

  /** The low 32 bits of a number, read as signed. */
  function AsI32(v: int): int {
    var low := v % 0x1_0000_0000;
    if low < 0x8000_0000 then low else low - 0x1_0000_0000
  }

  /** It is the one signed 32-bit number that differs from `v` by a multiple of 2^32. */
  lemma AsI32Is(v: int, r: int)
    ensures r == AsI32(v) <==> -0x8000_0000 <= r < 0x8000_0000 && (v - r) % 0x1_0000_0000 == 0
  {
  }

  /** The valuation respects every non-zero mask. */
  ghost predicate InMasks(data: Data, env: seq<Word>)
    requires WellFormed(data)
  {
    && Fits(data, env)
    && forall v, j :: 0 <= v < |data| && 0 <= j < |Eval(data, env, v)| && j < 64 && Eval(data, env, v)[j] ==> j in data[v].nzMask
  }

  // ----- Ranges of bits

  /** `numBits` bits from `lsb` on, in a container of `byteSize` bytes. */
  datatype BitRange = BitRange(byteSize: int, lsb: int, numBits: int)

  function Shift(r: BitRange, left: int): BitRange {
    var lsb := r.lsb + left;
    var most := lsb + r.numBits;
    var moved :=
      if lsb < 0 then r.(lsb := 0, numBits := r.numBits + lsb)
      else if most > r.byteSize * 8 then r.(lsb := lsb, numBits := r.numBits - (most - r.byteSize * 8))
      else r.(lsb := lsb);
    if moved.numBits < 0 then moved.(lsb := 0, numBits := 0) else moved
  }

  function TruncateMost(r: BitRange, num: int): BitRange {
    var size := r.byteSize - num;
    var most := r.lsb + r.numBits;
    var n := if most > size * 8 then r.numBits - (most - size * 8) else r.numBits;
    BitRange(size, r.lsb, if n < 0 then 0 else n)
  }

  function ExtendBytes(r: BitRange, num: int): BitRange {
    r.(byteSize := r.byteSize + num)
  }

  /** The bits of a range within 64. */
  function Mask(r: BitRange): (m: set<nat>)
    ensures forall j: nat :: j in m <==> j < 64 && r.lsb <= j < r.lsb + r.numBits
    decreases if r.numBits > 0 then r.numBits else 0
  {
    if r.numBits <= 0 then {}
    else
      var last := r.lsb + r.numBits - 1;
      Mask(r.(numBits := r.numBits - 1)) + if 0 <= last < 64 then {last} else {}
  }

  /** The least bit of a mask from `from` on, or 64. */
  function LeastBit(mask: set<nat>, from: nat): (j: nat)
    requires from <= 64
    ensures from <= j <= 64 && (j < 64 ==> j in mask)
    ensures forall i :: i in mask && from <= i < 64 ==> j <= i
    decreases 64 - from
  {
    if from == 64 || from in mask then from else LeastBit(mask, from + 1)
  }

  /** One more than the greatest bit of a mask below `to`, or 0. */
  function PastMostBit(mask: set<nat>, to: nat): (j: nat)
    requires to <= 64
    ensures j <= to && (j > 0 ==> j - 1 in mask)
    ensures forall i :: i in mask && i < to ==> i < j
  {
    if to == 0 || to - 1 in mask then to else PastMostBit(mask, to - 1)
  }

  ghost predicate InRange(r: BitRange, j: int) {
    r.lsb <= j < r.lsb + r.numBits
  }

  /** A bit of the range that the mask leaves, among the low 64. */
  ghost predicate Kept(r: BitRange, mask: set<nat>, j: int) {
    InRange(r, j) && 0 <= j < 64 && j in mask
  }

  /** `h` starts and ends with bits the mask leaves of `r`, and holds all of them. */
  ghost predicate IsHull(r: BitRange, mask: set<nat>, h: BitRange) {
    && h.byteSize == r.byteSize && (forall j: int :: Kept(r, mask, j) ==> InRange(h, j))
    && if exists j: int :: Kept(r, mask, j) then h.numBits > 0 && Kept(r, mask, h.lsb) && Kept(r, mask, h.lsb + h.numBits - 1)
       else h.lsb == h.numBits == 0
  }

  /** The range shrinks to the bits that the mask leaves of it. */
  function IntersectMask(r: BitRange, mask: set<nat>): (h: BitRange)
    ensures IsHull(r, mask, h)
  {
    var m := mask * Mask(r);
    assert forall j: int :: Kept(r, mask, j) <==> j >= 0 && j in m;
    if m == {} then r.(lsb := 0, numBits := 0)
    else
      var least, most, thisMost := LeastBit(m, 0), PastMostBit(m, 64), r.lsb + r.numBits;
      var r1 := if least > r.lsb then r.(numBits := r.numBits - (least - r.lsb), lsb := least) else r;
      if most < thisMost then r1.(numBits := r1.numBits - (thisMost - most)) else r1
  }

  // ----- What a traced state means

  /** Bit `k` after bit `i`. */
  function At(w: Word, i: int, k: int): bool {
    0 <= i + k < |w| && w[i + k]
  }

  /** In every valuation, `n` bits of `x` from `i` on are those of `y` from `j` on. */
  ghost predicate SameBits(data: Data, x: VarnodeId, i: int, y: VarnodeId, j: int, n: int)
    requires WellFormed(data)
  {
    && x < |data| && y < |data| && 0 <= i && 0 <= j && i + n <= 8 * data[x].size && j + n <= 8 * data[y].size
    && forall env :: InMasks(data, env) ==> BitsMatch(data, env, x, i, y, j, n)
  }

  ghost predicate BitsMatch(data: Data, env: seq<Word>, x: VarnodeId, i: int, y: VarnodeId, j: int, n: int)
    requires WellFormed(data) && Fits(data, env) && x < |data| && y < |data|
    requires 0 <= i && 0 <= j && i + n <= 8 * data[x].size && j + n <= 8 * data[y].size
  {
    forall k :: 0 <= k < n ==> At(Eval(data, env, x), i, k) == At(Eval(data, env, y), j, k)
  }

  /** In every valuation, `n` bits of `x` from `i` on are clear. */
  ghost predicate ClearBits(data: Data, x: VarnodeId, i: int, n: int)
    requires WellFormed(data)
  {
    && x < |data| && 0 <= i && i + n <= 8 * data[x].size
    && forall env :: InMasks(data, env) ==> BitsClear(data, env, x, i, n)
  }

  ghost predicate BitsClear(data: Data, env: seq<Word>, x: VarnodeId, i: int, n: int)
    requires WellFormed(data) && Fits(data, env) && x < |data| && 0 <= i && i + n <= 8 * data[x].size
  {
    forall k :: 0 <= k < n ==> !At(Eval(data, env, x), i, k)
  }

  lemma SameTrans(data: Data, x: VarnodeId, i: int, y: VarnodeId, j: int, z: VarnodeId, l: int, n: int)
    requires WellFormed(data) && SameBits(data, x, i, y, j, n) && SameBits(data, y, j, z, l, n)
    ensures SameBits(data, x, i, z, l, n)
  {
    forall env | InMasks(data, env) ensures BitsMatch(data, env, x, i, z, l, n) {
      assert BitsMatch(data, env, x, i, y, j, n) && BitsMatch(data, env, y, j, z, l, n);
    }
  }

  /** Bits outside the non-zero mask are clear. */
  lemma MaskedClear(data: Data, v: VarnodeId, i: int, n: int)
    requires WellFormed(data) && v < |data| && 0 <= i && i + n <= 8 * data[v].size && i + n <= 64
    requires data[v].nzMask * Mask(BitRange(data[v].size, i, n)) == {}
    ensures ClearBits(data, v, i, n)
  {
    forall env | InMasks(data, env) ensures BitsClear(data, env, v, i, n) {
      forall k | 0 <= k < n ensures !At(Eval(data, env, v), i, k) {
        assert i + k in Mask(BitRange(data[v].size, i, n));
      }
    }
  }

  // ----- One operation

  lemma CopySame(data: Data, v: VarnodeId, i: int, n: int)
    requires WellFormed(data) && v < |data| && data[v].def.Copy? && 0 <= i && i + n <= 8 * data[v].size
    ensures DefFits(data, v) && SameBits(data, v, i, data[v].def.a, i, n)
  {
    assert DefFits(data, v);
  }

  lemma AndSame(data: Data, v: VarnodeId, i: int, n: int)
    requires WellFormed(data) && v < |data| && data[v].def.IntAnd? && 0 <= i && i + n <= 8 * data[v].size && i + n <= 64
    ensures DefFits(data, v)
    ensures var c := data[data[v].def.b].def; var mask := Mask(BitRange(data[v].size, i, n));
            && (c.Constant? && mask <= BitsOf(c.value) ==> SameBits(data, v, i, data[v].def.a, i, n))
            && (c.Constant? && mask * BitsOf(c.value) == {} ==> ClearBits(data, v, i, n))
  {
    assert DefFits(data, v) && DefFits(data, data[v].def.b);
    var c, mask := data[data[v].def.b].def, Mask(BitRange(data[v].size, i, n));
    if c.Constant? && mask <= BitsOf(c.value) {
      forall env | InMasks(data, env) ensures BitsMatch(data, env, v, i, data[v].def.a, i, n) {
        forall k | 0 <= k < n ensures At(Eval(data, env, v), i, k) == At(Eval(data, env, data[v].def.a), i, k) {
          assert i + k in mask;
        }
      }
    }
    if c.Constant? && mask * BitsOf(c.value) == {} {
      forall env | InMasks(data, env) ensures BitsClear(data, env, v, i, n) {
        forall k | 0 <= k < n ensures !At(Eval(data, env, v), i, k) {
          assert i + k in mask && i + k !in BitsOf(c.value);
        }
      }
    }
  }

  lemma OrMatches(data: Data, env: seq<Word>, v: VarnodeId, a: VarnodeId, b: VarnodeId, i: int, n: int)
    requires WellFormed(data) && Fits(data, env) && v < |data| && a < |data| && b < |data| && data[a].size == data[b].size == data[v].size
    requires 0 <= i && i + n <= 8 * data[v].size && Eval(data, env, v) == Or(Eval(data, env, a), Eval(data, env, b))
    ensures BitsClear(data, env, a, i, n) ==> BitsMatch(data, env, v, i, b, i, n)
    ensures BitsClear(data, env, b, i, n) ==> BitsMatch(data, env, v, i, a, i, n)
  {
    var x, y, w := Eval(data, env, a), Eval(data, env, b), Eval(data, env, v);
    forall k | 0 <= k < n ensures At(w, i, k) == (At(x, i, k) || At(y, i, k)) {
      assert w[i + k] == (x[i + k] || y[i + k]);
    }
  }

  /** Where one operand of an or is clear, the other shows. */
  lemma OrSame(data: Data, v: VarnodeId, i: int, n: int)
    requires WellFormed(data) && v < |data| && data[v].def.IntOr? && 0 <= i && i + n <= 8 * data[v].size
    ensures DefFits(data, v)
    ensures var a, b := data[v].def.a, data[v].def.b;
            && (ClearBits(data, a, i, n) ==> SameBits(data, v, i, b, i, n))
            && (ClearBits(data, b, i, n) ==> SameBits(data, v, i, a, i, n))
  {
    assert DefFits(data, v);
    var a, b := data[v].def.a, data[v].def.b;
    forall env | InMasks(data, env)
      ensures BitsClear(data, env, a, i, n) ==> BitsMatch(data, env, v, i, b, i, n)
      ensures BitsClear(data, env, b, i, n) ==> BitsMatch(data, env, v, i, a, i, n)
    {
      OrMatches(data, env, v, a, b, i, n);
    }
  }

  /** Where a constant operand of an or is all ones, so is the result. */
  lemma OrOnes(data: Data, v: VarnodeId, i: int, n: int)
    requires WellFormed(data) && v < |data| && data[v].def.IntOr? && 0 <= i && i + n <= 8 * data[v].size && i + n <= 64
    requires DefFits(data, v)
    requires var b := data[v].def.b; data[b].def.Constant? && Mask(BitRange(data[v].size, i, n)) <= data[b].nzMask
    ensures SameBits(data, v, i, data[v].def.b, i, n)
  {
    var b := data[v].def.b;
    assert DefFits(data, b);
    forall env | InMasks(data, env) ensures BitsMatch(data, env, v, i, b, i, n) {
      forall k | 0 <= k < n ensures At(Eval(data, env, v), i, k) == At(Eval(data, env, b), i, k) {
        assert i + k in Mask(BitRange(data[v].size, i, n));
        assert i + k in BitsOf(data[b].def.value);
      }
    }
  }

  /** A sum without common bits is an or. */
  lemma AddSame(data: Data, v: VarnodeId, i: int, n: int)
    requires WellFormed(data) && v < |data| && data[v].def.IntAdd? && 0 <= i && i + n <= 8 * data[v].size && data[v].size <= 8
    requires DefFits(data, v) && data[data[v].def.a].nzMask * data[data[v].def.b].nzMask == {}
    ensures var a, b := data[v].def.a, data[v].def.b;
            && (ClearBits(data, a, i, n) ==> SameBits(data, v, i, b, i, n))
            && (ClearBits(data, b, i, n) ==> SameBits(data, v, i, a, i, n))
  {
    var a, b := data[v].def.a, data[v].def.b;
    forall env | InMasks(data, env)
      ensures BitsClear(data, env, a, i, n) ==> BitsMatch(data, env, v, i, b, i, n)
      ensures BitsClear(data, env, b, i, n) ==> BitsMatch(data, env, v, i, a, i, n)
    {
      var x, y := Eval(data, env, a), Eval(data, env, b);
      forall j | 0 <= j < |x| ensures !(x[j] && y[j]) {
        assert j !in data[a].nzMask * data[b].nzMask;
        assert (x[j] ==> j in data[a].nzMask) && (y[j] ==> j in data[b].nzMask);
      }
      DisjointAddIsOr(x, y);
      OrMatches(data, env, v, a, b, i, n);
    }
  }

  lemma LeftBits(w: Word, r: Word, sa: nat, i: int, n: int)
    requires r == ShiftLeft(w, sa) && 0 <= i && i + n <= |w|
    ensures i >= sa ==> forall k :: 0 <= k < n ==> At(r, i, k) == At(w, i - sa, k)
    ensures i + n <= sa ==> forall k :: 0 <= k < n ==> !At(r, i, k)
  {
  }

  lemma RightBits(w: Word, r: Word, sa: nat, i: int, n: int)
    requires r == ShiftRightSigned(w, sa) && 0 <= i && i + sa + n <= |w|
    ensures forall k :: 0 <= k < n ==> At(r, i, k) == At(w, i + sa, k)
  {
  }

  /** A constant that reads as `sa`, not negative, is `sa` or too large for any shift. */
  lemma ReadsAs(v: nat, sa: nat)
    requires AsI32(v) == sa
    ensures v == sa || v >= 0x1_0000_0000
  {
  }

  /** A left shift by a constant read as `sa`: what is shifted out is clear however large the constant
      is, what is followed is exact when it fits 32 bits. */
  lemma LeftSame(data: Data, v: VarnodeId, i: int, n: int, sa: nat)
    requires WellFormed(data) && v < |data| && data[v].def.IntLeft? && 0 <= i && i + n <= 8 * data[v].size
    requires DefFits(data, v) && data[data[v].def.b].def.Constant? && AsI32(Val(data[data[v].def.b].def.value)) == sa < 64
    ensures i >= sa && Val(data[data[v].def.b].def.value) < 0x1_0000_0000 ==> SameBits(data, v, i, data[v].def.a, i - sa, n)
    ensures i + n <= sa ==> ClearBits(data, v, i, n)
  {
    var a, c := data[v].def.a, Val(data[data[v].def.b].def.value);
    ReadsAs(c, sa);
    forall env | InMasks(data, env)
      ensures i >= sa && c < 0x1_0000_0000 ==> BitsMatch(data, env, v, i, a, i - sa, n)
      ensures i + n <= sa ==> BitsClear(data, env, v, i, n)
    {
      assert Eval(data, env, data[v].def.b) == data[data[v].def.b].def.value;
      hide InMasks, WellFormed, AsI32, DefFits, Val;
      LeftBits(Eval(data, env, a), Eval(data, env, v), c, i, n);
    }
  }

  lemma MultSame(data: Data, v: VarnodeId, i: int, n: int, sa: nat)
    requires WellFormed(data) && v < |data| && data[v].def.IntMult? && 0 <= i && i + n <= 8 * data[v].size
    requires DefFits(data, v) && data[data[v].def.b].def.Constant? && Val(data[data[v].def.b].def.value) == Pow2(sa)
    ensures i >= sa ==> SameBits(data, v, i, data[v].def.a, i - sa, n)
  {
    var a, b := data[v].def.a, data[v].def.b;
    if i >= sa {
      forall env | InMasks(data, env) ensures BitsMatch(data, env, v, i, a, i - sa, n) {
        assert Eval(data, env, b) == data[b].def.value;
        MultIsShift(Eval(data, env, a), Eval(data, env, b), sa);
      }
    }
  }

  /** An arithmetic right shift: exact when the constant fits 32 bits, or for the sign bit alone. */
  lemma SrightSame(data: Data, v: VarnodeId, i: int, n: int, sa: nat)
    requires WellFormed(data) && v < |data| && data[v].def.IntSright? && 0 <= i && i + sa + n <= 8 * data[v].size
    requires DefFits(data, v) && data[data[v].def.b].def.Constant? && AsI32(Val(data[data[v].def.b].def.value)) == sa
    requires Val(data[data[v].def.b].def.value) < 0x1_0000_0000 || i + sa == 8 * data[v].size - 1
    ensures SameBits(data, v, i, data[v].def.a, i + sa, n)
  {
    var a, c := data[v].def.a, Val(data[data[v].def.b].def.value);
    ReadsAs(c, sa);
    forall env | InMasks(data, env) ensures BitsMatch(data, env, v, i, a, i + sa, n) {
      assert Eval(data, env, data[v].def.b) == data[data[v].def.b].def.value;
      hide InMasks, WellFormed, AsI32, DefFits, Val;
      if c == sa {
        RightBits(Eval(data, env, a), Eval(data, env, v), sa, i, n);
      } else {
        SignBits(Eval(data, env, a), Eval(data, env, v), c, i, n, sa);
      }
    }
  }

  lemma SignBits(w: Word, r: Word, c: nat, i: int, n: int, sa: nat)
    requires r == ShiftRightSigned(w, c) && 0 <= i && n <= 1 && i + sa == |w| - 1 && sa <= c
    ensures forall k :: 0 <= k < n ==> At(r, i, k) == At(w, i + sa, k)
  {
  }

  lemma ZextSame(data: Data, v: VarnodeId, i: int, n: int)
    requires WellFormed(data) && v < |data| && data[v].def.IntZext? && 0 <= i && i + n <= 8 * data[v].size
    requires DefFits(data, v)
    ensures i + n <= 8 * data[data[v].def.a].size ==> SameBits(data, v, i, data[v].def.a, i, n)
  {
  }

  /** A truncation that drops no low byte. */
  lemma SubpieceSame(data: Data, v: VarnodeId, i: int, n: int)
    requires WellFormed(data) && v < |data| && data[v].def.Subpiece? && 0 <= i && i + n <= 8 * data[v].size && DefFits(data, v)
    requires Val(data[data[v].def.b].def.value) == 0
    ensures SameBits(data, v, i, data[v].def.a, i, n)
  {
    var a, b := data[v].def.a, data[v].def.b;
    forall env | InMasks(data, env) ensures BitsMatch(data, env, v, i, a, i, n) {
      assert Eval(data, env, b) == data[b].def.value;
      assert Eval(data, env, v) == Piece(Eval(data, env, a), 0, 8 * data[v].size);
    }
  }

  ghost predicate IsPull(d: Def) {
    d.Zpull? || d.Spull?
  }

  /** What a pull gives: the field at the bottom, extended by zeros or by its sign. */
  ghost function PullWord(signed: bool, w: Word, pos: nat, n: nat, bits: nat): (r: Word)
    ensures |r| == bits
  {
    if signed then SignExtend(Piece(w, pos, n), bits) else ZeroExtend(Piece(w, pos, n), bits)
  }

  lemma PullBits(signed: bool, w: Word, m: nat, bits: nat, n: nat)
    requires n <= m <= |w| && n <= bits
    ensures forall k :: 0 <= k < n ==> At(PullWord(signed, w, 0, m, bits), 0, k) == At(w, 0, k)
  {
  }

  lemma PullEval(data: Data, env: seq<Word>, v: VarnodeId)
    requires WellFormed(data) && Fits(data, env) && v < |data| && IsPull(data[v].def) && DefFits(data, v)
    ensures var d := data[v].def;
            Eval(data, env, v) ==
            PullWord(d.Spull?, Eval(data, env, d.a), Val(data[d.b].def.value), Val(data[d.c].def.value), 8 * data[v].size)
  {
    var d := data[v].def;
    assert Eval(data, env, d.b) == data[d.b].def.value && Eval(data, env, d.c) == data[d.c].def.value;
  }

  lemma ReadsLess(v: nat, n: nat)
    requires AsI32(v) == n
    ensures n <= v && (v == 1 ==> n == 1)
  {
  }

  lemma PullSignBits(w: Word, pos: nat, bits: nat)
    requires pos < |w| && pos < bits
    ensures At(PullWord(true, w, pos, 1, bits), pos, 0) == At(w, pos, 0)
  {
  }

  /** A field pulled from bit 0 keeps its place, and so does a single bit extended by its sign. */
  lemma PullSame(data: Data, v: VarnodeId, i: nat, n: int)
    requires WellFormed(data) && v < |data| && IsPull(data[v].def) && DefFits(data, v) && i + n <= 8 * data[v].size
    requires 0 <= n == AsI32(Val(data[data[v].def.c].def.value))
    requires var pos := Val(data[data[v].def.b].def.value);
             pos == i && (pos == 0 || (data[v].def.Spull? && Val(data[data[v].def.c].def.value) == 1))
    ensures i + n <= 8 * data[data[v].def.a].size && SameBits(data, v, i, data[v].def.a, i, n)
  {
    hide AsI32, PullWord, Val, Eval, WellFormed;
    var d := data[v].def;
    var m := Val(data[d.c].def.value);
    ReadsLess(m, n);
    forall env | InMasks(data, env) ensures BitsMatch(data, env, v, i, d.a, i, n) {
      PullEval(data, env, v);
      hide InMasks, DefFits, PullFits;
      if i == 0 {
        PullBits(d.Spull?, Eval(data, env, d.a), m, 8 * data[v].size, n);
      } else if n == 1 {
        PullSignBits(Eval(data, env, d.a), i, 8 * data[v].size);
      }
    }
  }
}
