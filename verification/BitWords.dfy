/** Machine words as bits, least significant first, and the p-code operations on them. */
module BitWords {

  type Word = seq<bool>

  function Bit(b: bool): nat {
    if b then 1 else 0
  }

  function Val(w: Word): nat {
    if w == [] then 0 else Bit(w[0]) + 2 * Val(w[1..])
  }

  /** The low `n` bits of a number. */
  function ToWord(v: nat, n: nat): (w: Word)
    ensures |w| == n
  {
    if n == 0 then [] else [v % 2 == 1] + ToWord(v / 2, n - 1)
  }

  ghost function Pow2(k: nat): nat {
    if k == 0 then 1 else 2 * Pow2(k - 1)
  }

  ghost function And(a: Word, b: Word): (w: Word)
    requires |a| == |b|
    ensures |w| == |a| && forall j :: 0 <= j < |w| ==> w[j] == (a[j] && b[j])
  {
    seq(|a|, j requires 0 <= j < |a| => a[j] && b[j])
  }

  ghost function Or(a: Word, b: Word): (w: Word)
    requires |a| == |b|
    ensures |w| == |a| && forall j :: 0 <= j < |w| ==> w[j] == (a[j] || b[j])
  {
    seq(|a|, j requires 0 <= j < |a| => a[j] || b[j])
  }

  ghost function Add(a: Word, b: Word): (w: Word)
    ensures |w| == |a|
  {
    ToWord(Val(a) + Val(b), |a|)
  }

  ghost function Mult(a: Word, b: Word): (w: Word)
    ensures |w| == |a|
  {
    ToWord(Val(a) * Val(b), |a|)
  }

  ghost function ShiftLeft(a: Word, k: nat): (w: Word)
    ensures |w| == |a| && forall j :: 0 <= j < |w| ==> w[j] == (j >= k && a[j - k])
  {
    seq(|a|, j requires 0 <= j < |a| => j >= k && a[j - k])
  }

  /** Arithmetic right shift: the sign bit moves in. */
  ghost function ShiftRightSigned(a: Word, k: nat): (w: Word)
    ensures |w| == |a| && forall j :: 0 <= j < |w| ==> w[j] == if j + k < |a| then a[j + k] else a[|a| - 1]
  {
    seq(|a|, j requires 0 <= j < |a| => if j + k < |a| then a[j + k] else a[|a| - 1])
  }

  ghost function ZeroExtend(a: Word, n: nat): (w: Word)
    ensures |w| == n && forall j :: 0 <= j < n ==> w[j] == (j < |a| && a[j])
  {
    seq(n, j requires 0 <= j < n => j < |a| && a[j])
  }

  ghost function SignExtend(a: Word, n: nat): (w: Word)
    ensures |w| == n && forall j :: 0 <= j < n ==> w[j] == (|a| > 0 && a[if j < |a| then j else |a| - 1])
  {
    seq(n, j requires 0 <= j < n => |a| > 0 && a[if j < |a| then j else |a| - 1])
  }

  /** `n` bits, after the low `k` are dropped. */
  ghost function Piece(a: Word, k: nat, n: nat): (w: Word)
    ensures |w| == n && forall j :: 0 <= j < n ==> w[j] == (j + k < |a| && a[j + k])
  {
    seq(n, j requires 0 <= j < n => j + k < |a| && a[j + k])
  }

  /** The bits from `pos` on are replaced by the low bits of `value`. */
  ghost function Insert(a: Word, value: Word, pos: nat, n: nat): (w: Word)
    ensures |w| == |a|
    ensures forall j :: 0 <= j < |w| ==> w[j] == if pos <= j < pos + n then j - pos < |value| && value[j - pos] else a[j]
  {
    seq(|a|, j requires 0 <= j < |a| => if pos <= j < pos + n then j - pos < |value| && value[j - pos] else a[j])
  }

  // ----- Arithmetic that only moves bits

  lemma Halves(b: nat, h: nat)
    requires b < 2
    ensures (b + 2 * h) % 2 == b && (b + 2 * h) / 2 == h
  {
  }

  /** The low bits of a word's value are its low bits. */
  lemma {:induction false} LowBits(w: Word, n: nat)
    requires n <= |w|
    ensures ToWord(Val(w), n) == w[..n]
  {
    if n > 0 {
      LowBits(w[1..], n - 1);
      Halves(Bit(w[0]), Val(w[1..]));
      assert w[..n] == [w[0]] + w[1..][..n - 1];
    }
  }

  lemma {:induction false} DisjointSum(a: Word, b: Word)
    requires |a| == |b| && forall j :: 0 <= j < |a| ==> !(a[j] && b[j])
    ensures Val(Or(a, b)) == Val(a) + Val(b)
  {
    if a != [] {
      DisjointSum(a[1..], b[1..]);
      assert Or(a, b)[1..] == Or(a[1..], b[1..]);
    }
  }

  /** Without a common bit there is no carry: addition is or. */
  lemma DisjointAddIsOr(a: Word, b: Word)
    requires |a| == |b| && forall j :: 0 <= j < |a| ==> !(a[j] && b[j])
    ensures Add(a, b) == Or(a, b)
  {
    DisjointSum(a, b);
    LowBits(Or(a, b), |a|);
    assert Or(a, b)[..|a|] == Or(a, b);
  }

  lemma Moved(x: nat, y: nat)
    ensures 2 * (x * y) == x * (2 * y)
  {
  }

  lemma {:induction false} LeadingZeros(w: Word, k: nat)
    ensures Val(seq(k, i => false) + w) == Val(w) * Pow2(k)
  {
    if k == 0 {
      assert seq(0, i => false) + w == w;
    } else {
      var z := seq(k, i => false) + w;
      assert z[1..] == seq(k - 1, i => false) + w;
      LeadingZeros(w, k - 1);
      Moved(Val(w), Pow2(k - 1));
    }
  }

  /** Multiplying by a power of two shifts. */
  lemma MultIsShift(a: Word, b: Word, k: nat)
    requires Val(b) == Pow2(k)
    ensures Mult(a, b) == ShiftLeft(a, k)
  {
    var z := seq(k, i => false) + a;
    LeadingZeros(a, k);
    LowBits(z, |a|);
    assert z[..|a|] == ShiftLeft(a, k);
  }

  /** A word with a single bit set is a power of two. */
  lemma {:induction false} SingleBit(b: Word, k: nat)
    requires k < |b| && b[k] && forall j :: 0 <= j < |b| && j != k ==> !b[j]
    ensures Val(b) == Pow2(k)
  {
    if k == 0 {
      NoBits(b[1..]);
    } else {
      SingleBit(b[1..], k - 1);
    }
  }

  lemma {:induction false} NoBits(b: Word)
    requires forall j :: 0 <= j < |b| ==> !b[j]
    ensures Val(b) == 0
  {
    if b != [] { NoBits(b[1..]); }
  }
}
