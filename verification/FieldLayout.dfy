/** The ranges to trace: the bit fields of a structure in a container, and the holes between them. */
module FieldLayout {
  import opened FlowGraph
  import opened BitTrace
  import opened BitSteps

  /** A field: `numBits` bits from `lsb` on, in bytes of its immediate structure, which starts at `base`. */
  datatype FieldBits = FieldBits(base: nat, byteOffset: int, byteSize: int, lsb: int, numBits: int, isInt: bool)

  /** Where the structure is written: `size` bytes from `offset` on. */
  datatype Container = Container(offset: int, size: int, bigEndian: bool)

  /** A byte address and a bit of that byte. */
  datatype Place = Place(byte: int, bit: int)

  /** Where bit `k` is when `size` bytes from `offset` on are read as one number: in big-endian order its
      low bits are in the last byte. */
  ghost function PlaceOf(offset: int, size: int, bigEndian: bool, k: int): Place {
    Place(if bigEndian then offset + size - 1 - k / 8 else offset + k / 8, k % 8)
  }

  /** The field's least significant bit in the container, as computed: the base is not added. */
  function TranslateLsb(c: Container, f: FieldBits): (lsb: int)
    ensures PlaceOf(c.offset, c.size, c.bigEndian, lsb) == PlaceOf(f.byteOffset, f.byteSize, c.bigEndian, f.lsb)
  {
    if c.bigEndian then f.lsb + 8 * ((c.offset + c.size) - (f.byteOffset + f.byteSize)) else f.lsb + 8 * (f.byteOffset - c.offset)
  }

  ghost function FieldEnd(c: Container, f: FieldBits): int {
    TranslateLsb(c, f) + f.numBits
  }

  /** Where it is: counted from the outer structure. */
  ghost function TrueLsb(c: Container, f: FieldBits): (lsb: int)
    ensures PlaceOf(c.offset, c.size, c.bigEndian, lsb) == PlaceOf(f.base + f.byteOffset, f.byteSize, c.bigEndian, f.lsb)
  {
    TranslateLsb(c, f.(base := 0, byteOffset := f.base + f.byteOffset))
  }

  /** How a field of `num` bits at `lsb` lies to a container of `bits` bits: before or after (-1, 1),
      equal (0), covering it (2), inside it (3), across its boundary (4). */
  function OverlapTest(bits: int, lsb: int, num: int, bigEndian: bool): int {
    var most := lsb + num;
    if bigEndian && 0 >= most then -1
    else if bigEndian && lsb >= bits then 1
    else if !bigEndian && bits <= lsb then -1
    else if !bigEndian && most <= 0 then 1
    else if lsb == 0 && most == bits then 0
    else if lsb <= 0 && most >= bits then 2
    else if 0 <= lsb && bits >= most then 3
    else 4
  }

  ghost predicate Inside(c: Container, lsb: int, num: int) {
    0 <= lsb && lsb + num <= 8 * c.size
  }

  lemma TestMeansInside(c: Container, lsb: int, num: int)
    requires num > 0
    ensures var code := OverlapTest(8 * c.size, lsb, num, c.bigEndian); Inside(c, lsb, num) <==> code == 0 || code == 3
  {
  }

  function Min(a: int, b: int): (m: int)
    ensures m <= a && m <= b && (m == a || m == b)
  {
    if a < b then a else b
  }

  ghost function Max(a: int, b: int): (m: int)
    ensures a <= m && b <= m && (m == a || m == b)
  {
    if a < b then b else a
  }

  function NewBits(size: int, vn: VarnodeId, lsb: int, numBits: int): NodeState {
    NodeState(BitRange(size, 0, 8 * size), BitRange(size, lsb, numBits), Some(vn), None, lsb)
  }

  function NewField(size: int, vn: VarnodeId, lsb: int, f: FieldBits): NodeState {
    NodeState(BitRange(size, 0, 8 * size), BitRange(size, lsb, f.numBits), Some(vn), Some(Field(f.isInt, f.numBits)), lsb)
  }

  // ----- What the pushed ranges are

  ghost function EndOf(st: NodeState): int {
    st.origLsb + st.bitsField.numBits
  }

  /** The first bit after the last range. */
  ghost function Ends(list: seq<NodeState>): int {
    if list == [] then 0 else EndOf(list[|list| - 1])
  }

  ghost predicate StartsRight(list: seq<NodeState>, i: nat)
    requires i < |list|
  {
    list[i].origLsb == if i == 0 then 0 else EndOf(list[i - 1])
  }

  ghost predicate AllFresh(data: Data, root: VarnodeId, list: seq<NodeState>) {
    forall i :: 0 <= i < |list| ==> Fresh(data, root, list[i])
  }

  /** Ranges of the root, each starting where the one before ends. */
  ghost predicate Tiles(data: Data, root: VarnodeId, list: seq<NodeState>) {
    AllFresh(data, root, list) && forall i :: 0 <= i < |list| ==> StartsRight(list, i)
  }

  ghost predicate CoversBit(list: seq<NodeState>, j: int) {
    exists i :: 0 <= i < |list| && HoldsBit(list[i], j)
  }

  /** Every bit below `to` is in some range. */
  ghost predicate Covers(list: seq<NodeState>, to: int) {
    forall j :: 0 <= j < to ==> CoversBit(list, j)
  }

  lemma CoversMore(list: seq<NodeState>, st: NodeState, to: int, to': int)
    requires Covers(list, to) && st.origLsb <= to && to' <= Max(to, EndOf(st))
    ensures Covers(list + [st], to')
  {
    var list' := list + [st];
    forall j | 0 <= j < to' ensures CoversBit(list', j) {
      if j < to {
        assert CoversBit(list, j);
        var i :| 0 <= i < |list| && HoldsBit(list[i], j);
        assert list'[i] == list[i];
      } else {
        assert list'[|list|] == st;
      }
    }
  }

  lemma FreshAppend(data: Data, root: VarnodeId, list: seq<NodeState>, st: NodeState)
    ensures AllFresh(data, root, list + [st]) <==> AllFresh(data, root, list) && Fresh(data, root, st)
    ensures Ends(list + [st]) == EndOf(st)
  {
    var list' := list + [st];
    assert list'[|list|] == st && forall i :: 0 <= i < |list| ==> list'[i] == list[i];
  }

  lemma TilesAppend(data: Data, root: VarnodeId, list: seq<NodeState>, st: NodeState)
    ensures Tiles(data, root, list + [st]) <==> Tiles(data, root, list) && Fresh(data, root, st) && st.origLsb == Ends(list)
  {
    FreshAppend(data, root, list, st);
    var list' := list + [st];
    assert list'[|list|] == st && forall i :: 0 <= i < |list| ==> list'[i] == list[i];
    if Tiles(data, root, list') {
      forall i | 0 <= i < |list| ensures StartsRight(list, i) { assert StartsRight(list', i); }
      assert StartsRight(list', |list|);
    }
    if Tiles(data, root, list) && st.origLsb == Ends(list) {
      forall i | 0 <= i < |list'| ensures StartsRight(list', i) {
        if i < |list| { assert StartsRight(list, i); }
      }
    }
  }

  // ----- When they tile, and when they are sized

  /** The position before field `k`: the end of the field before it, within the container. */
  ghost function Reached(c: Container, overlap: seq<FieldBits>, k: nat): int
    requires k <= |overlap|
  {
    if k == 0 then 0 else Min(FieldEnd(c, overlap[k - 1]), 8 * c.size)
  }

  /** The range pushed for field `k` has bits of the container: always when the field is inside it. */
  ghost predicate SizedAt(c: Container, overlap: seq<FieldBits>, k: nat)
    requires k < |overlap|
  {
    var f := overlap[k];
    Inside(c, TranslateLsb(c, f), f.numBits) ||
    Max(Reached(c, overlap, k), Min(TranslateLsb(c, f), 8 * c.size)) < Min(FieldEnd(c, f), 8 * c.size)
  }

  /** The field does not start before the end of the one before it, if it is inside the container. */
  ghost predicate InOrderAt(c: Container, overlap: seq<FieldBits>, k: nat)
    requires k < |overlap|
  {
    var f := overlap[k];
    Inside(c, TranslateLsb(c, f), f.numBits) ==> Reached(c, overlap, k) <= TranslateLsb(c, f)
  }

  ghost predicate Sized(c: Container, overlap: seq<FieldBits>, n: nat) {
    n <= |overlap| && forall k :: 0 <= k < n ==> SizedAt(c, overlap, k)
  }

  ghost predicate InOrder(c: Container, overlap: seq<FieldBits>, n: nat) {
    n <= |overlap| && forall k :: 0 <= k < n ==> InOrderAt(c, overlap, k)
  }

  ghost predicate Positive(overlap: seq<FieldBits>) {
    forall k :: 0 <= k < |overlap| ==> overlap[k].numBits > 0
  }

  /** The ranges pushed for the first `n` fields. */
  ghost predicate Laid(data: Data, vn: VarnodeId, c: Container, overlap: seq<FieldBits>, n: nat, list: seq<NodeState>, pos: int)
    requires n <= |overlap|
  {
    && pos == Reached(c, overlap, n)
    && (AllFresh(data, vn, list) <==> Sized(c, overlap, n))
    && (Tiles(data, vn, list) <==> Sized(c, overlap, n) && InOrder(c, overlap, n))
    && (Sized(c, overlap, n) ==> 0 <= pos <= 8 * c.size && Covers(list, pos))
    && (Sized(c, overlap, n) && InOrder(c, overlap, n) ==> Ends(list) == pos)
  }

  lemma LaidNothing(data: Data, vn: VarnodeId, c: Container, overlap: seq<FieldBits>)
    requires c.size >= 0
    ensures Laid(data, vn, c, overlap, 0, [], 0)
  {
  }

  lemma Grows(c: Container, overlap: seq<FieldBits>, n: nat)
    requires n < |overlap|
    ensures Sized(c, overlap, n + 1) <==> Sized(c, overlap, n) && SizedAt(c, overlap, n)
    ensures InOrder(c, overlap, n + 1) <==> InOrder(c, overlap, n) && InOrderAt(c, overlap, n)
  {
  }

  /** The states pushed for one field, after those for the ones before it. */
  ghost function PushHole(c: Container, vn: VarnodeId, list: seq<NodeState>, pos: int, to: int): seq<NodeState> {
    if to > pos then list + [NewBits(c.size, vn, pos, to - pos)] else list
  }

  lemma HoleLaid(data: Data, vn: VarnodeId, c: Container, list: seq<NodeState>, pos: int, to: int)
    requires vn < |data| && c.size == data[vn].size
    ensures var list' := PushHole(c, vn, list, pos, to);
            && (AllFresh(data, vn, list) && 0 <= pos && to <= 8 * c.size ==> AllFresh(data, vn, list'))
            && (!AllFresh(data, vn, list) ==> !AllFresh(data, vn, list')) && (!Tiles(data, vn, list) ==> !Tiles(data, vn, list'))
            && (Tiles(data, vn, list) && Ends(list) == pos && 0 <= pos && to <= 8 * c.size ==> Tiles(data, vn, list') && Ends(list') == Max(pos, to))
            && (Covers(list, pos) ==> Covers(list', Max(pos, to)))
  {
    if to > pos {
      var st := NewBits(c.size, vn, pos, to - pos);
      FreshAppend(data, vn, list, st);
      TilesAppend(data, vn, list, st);
      if Covers(list, pos) { CoversMore(list, st, pos, to); }
    }
  }

  /** One field, after the hole before it. */
  lemma FieldLaid(data: Data, vn: VarnodeId, c: Container, overlap: seq<FieldBits>, n: nat, list: seq<NodeState>, pos: int)
    requires vn < |data| && c.size == data[vn].size && n < |overlap| && Positive(overlap) && Laid(data, vn, c, overlap, n, list, pos)
    ensures var f := overlap[n];
            var t, end := TranslateLsb(c, f), Min(FieldEnd(c, f), 8 * c.size);
            var list1, pos1 := PushHole(c, vn, list, pos, Min(t, 8 * c.size)), Max(pos, Min(t, 8 * c.size));
            var st := if Inside(c, t, f.numBits) then NewField(c.size, vn, t, f) else NewBits(c.size, vn, pos1, end - pos1);
            Laid(data, vn, c, overlap, n + 1, list1 + [st], end)
  {
    var f := overlap[n];
    var t, end := TranslateLsb(c, f), Min(FieldEnd(c, f), 8 * c.size);
    var list1, pos1 := PushHole(c, vn, list, pos, Min(t, 8 * c.size)), Max(pos, Min(t, 8 * c.size));
    var st := if Inside(c, t, f.numBits) then NewField(c.size, vn, t, f) else NewBits(c.size, vn, pos1, end - pos1);
    HoleLaid(data, vn, c, list, pos, Min(t, 8 * c.size));
    Grows(c, overlap, n);
    FreshAppend(data, vn, list1, st);
    TilesAppend(data, vn, list1, st);
    hide Tiles, AllFresh, Covers, Sized, InOrder, TranslateLsb, PushHole;
    if Sized(c, overlap, n + 1) { CoversMore(list1, st, pos1, end); }
  }

  /** `at[k]` is the place of field `k` in the list, or -1; those are all the fields there, in order. */
  ghost predicate Places(c: Container, vn: VarnodeId, overlap: seq<FieldBits>, n: nat, list: seq<NodeState>, at: seq<int>) {
    && n <= |overlap| && |at| == n
    && (forall k :: 0 <= k < n ==> PlacedAt(c, vn, overlap[k], list, at[k]))
    && (forall j, k :: 0 <= j < k < n && at[j] >= 0 && at[k] >= 0 ==> at[j] < at[k])
    && (forall i :: 0 <= i < |list| && list[i].field.Some? ==> i in at)
  }

  ghost predicate PlacedAt(c: Container, vn: VarnodeId, f: FieldBits, list: seq<NodeState>, i: int) {
    && (i >= 0 <==> Inside(c, TranslateLsb(c, f), f.numBits)) && i < |list|
    && (i >= 0 ==> IsFieldAt(list[i], c, vn, f))
  }

  /** The state to trace a field from: its bits of the container, and what its record needs of it. */
  ghost predicate IsFieldAt(st: NodeState, c: Container, vn: VarnodeId, f: FieldBits) {
    && st.node == Some(vn) && st.bitsField == BitRange(c.size, TranslateLsb(c, f), f.numBits) && st.origLsb == TranslateLsb(c, f)
    && st.bitsUsed == BitRange(c.size, 0, 8 * c.size)
    && st.field.Some? && st.field.value.isInt == f.isInt && st.field.value.numBits == f.numBits
  }

  lemma PlacesHole(c: Container, vn: VarnodeId, overlap: seq<FieldBits>, n: nat, list: seq<NodeState>, at: seq<int>, st: NodeState)
    requires Places(c, vn, overlap, n, list, at) && st.field.None?
    ensures Places(c, vn, overlap, n, list + [st], at)
  {
    hide Inside, TranslateLsb;
    var list' := list + [st];
    forall i | 0 <= i < |list'| && list'[i].field.Some? ensures i in at { assert i < |list|; assert list'[i] == list[i]; }
    forall k | 0 <= k < n ensures PlacedAt(c, vn, overlap[k], list', at[k]) { assert PlacedAt(c, vn, overlap[k], list, at[k]); }
  }

  lemma PlacesField(c: Container, vn: VarnodeId, overlap: seq<FieldBits>, n: nat, list: seq<NodeState>, at: seq<int>)
    requires Places(c, vn, overlap, n, list, at) && n < |overlap| && Inside(c, TranslateLsb(c, overlap[n]), overlap[n].numBits)
    ensures Places(c, vn, overlap, n + 1, list + [NewField(c.size, vn, TranslateLsb(c, overlap[n]), overlap[n])], at + [|list|])
  {
    hide Inside, TranslateLsb;
    var list', at' := list + [NewField(c.size, vn, TranslateLsb(c, overlap[n]), overlap[n])], at + [|list|];
    forall i | 0 <= i < |list'| && list'[i].field.Some? ensures i in at' {
      if i < |list| { assert list'[i] == list[i]; } else { assert at'[n] == i; }
    }
    forall k | 0 <= k < n + 1 ensures PlacedAt(c, vn, overlap[k], list', at'[k]) {
      if k < n { assert PlacedAt(c, vn, overlap[k], list, at[k]); }
    }
    forall j, k | 0 <= j < k < n + 1 && at'[j] >= 0 && at'[k] >= 0 ensures at'[j] < at'[k] {
      assert PlacedAt(c, vn, overlap[j], list, at[j]);
    }
  }

  lemma PlacesNone(c: Container, vn: VarnodeId, overlap: seq<FieldBits>, n: nat, list: seq<NodeState>, at: seq<int>)
    requires Places(c, vn, overlap, n, list, at) && n < |overlap| && !Inside(c, TranslateLsb(c, overlap[n]), overlap[n].numBits)
    ensures Places(c, vn, overlap, n + 1, list, at + [-1])
  {
    hide Inside, TranslateLsb;
    var at' := at + [-1];
    forall k | 0 <= k < n + 1 ensures PlacedAt(c, vn, overlap[k], list, at'[k]) {
      if k < n { assert PlacedAt(c, vn, overlap[k], list, at[k]); }
    }
    forall i | 0 <= i < |list| && list[i].field.Some? ensures i in at' {
      var k :| 0 <= k < n && at[k] == i;
      assert at'[k] == i;
    }
  }

  ghost predicate Pushed(data: Data, vn: VarnodeId, c: Container, overlap: seq<FieldBits>, followHoles: bool, n: nat,
                         list: seq<NodeState>, pos: int, at: seq<int>)
  {
    && n <= |overlap| && Places(c, vn, overlap, n, list, at) && pos <= 8 * c.size
    && if followHoles then Laid(data, vn, c, overlap, n, list, pos) else forall k :: 0 <= k < |list| ==> list[k].field.Some?
  }

  /** The hole before a field, and the field, or a hole in its place. */
  method PushField(data: Data, vn: VarnodeId, c: Container, overlap: seq<FieldBits>, followHoles: bool, i: nat,
                   workList: seq<NodeState>, pos: int, ghost at: seq<int>)
    returns (workList': seq<NodeState>, pos': int, ghost at': seq<int>)
    requires vn < |data| && c.size == data[vn].size && Positive(overlap) && i < |overlap|
    requires Pushed(data, vn, c, overlap, followHoles, i, workList, pos, at)
    ensures Pushed(data, vn, c, overlap, followHoles, i + 1, workList', pos', at')
  {
    hide Laid, Places, TranslateLsb, Inside, OverlapTest;
    workList', pos', at' := workList, pos, at;
    var f := overlap[i];
    var lsb := TranslateLsb(c, f);
    var fieldPos, fieldEnd := Min(lsb, 8 * c.size), Min(lsb + f.numBits, 8 * c.size);
    if followHoles { FieldLaid(data, vn, c, overlap, i, workList', pos'); }
    if fieldPos > pos' {
      if followHoles {
        PlacesHole(c, vn, overlap, i, workList', at', NewBits(c.size, vn, pos', fieldPos - pos'));
        workList' := workList' + [NewBits(c.size, vn, pos', fieldPos - pos')];
      }
      pos' := fieldPos;
    }
    var code := OverlapTest(8 * c.size, lsb, f.numBits, c.bigEndian);
    TestMeansInside(c, lsb, f.numBits);
    if code == 0 || code == 3 {
      PlacesField(c, vn, overlap, i, workList', at');
      at' := at' + [|workList'|];
      workList' := workList' + [NewField(c.size, vn, lsb, f)];
    } else {
      PlacesNone(c, vn, overlap, i, workList', at');
      at' := at' + [-1];
      if followHoles {
        PlacesHole(c, vn, overlap, i + 1, workList', at', NewBits(c.size, vn, pos', fieldEnd - pos'));
        workList' := workList' + [NewBits(c.size, vn, pos', fieldEnd - pos')];
      }
    }
    pos' := fieldEnd;
  }

  /** The ranges to trace: the fields inside the container, and, when holes are followed, everything
      between them. For every list of fields: the ranges have bits of the container exactly when each
      field at least ends after what was reached, and tile it exactly when the fields are in order too. */
  method EstablishFields(data: Data, vn: VarnodeId, c: Container, overlap: seq<FieldBits>, followHoles: bool)
    returns (workList: seq<NodeState>, ghost at: seq<int>)
    requires WellFormed(data) && vn < |data| && c.size == data[vn].size && Positive(overlap)
    ensures Places(c, vn, overlap, |overlap|, workList, at)
    ensures followHoles ==> (AllFresh(data, vn, workList) <==> Sized(c, overlap, |overlap|))
    ensures followHoles ==>
      (Tiles(data, vn, workList) && Ends(workList) == 8 * c.size <==> Sized(c, overlap, |overlap|) && InOrder(c, overlap, |overlap|))
    ensures followHoles && Sized(c, overlap, |overlap|) ==> Covers(workList, 8 * c.size)
    ensures !followHoles ==> forall i :: 0 <= i < |workList| ==> workList[i].field.Some?
  {
    assert DefFits(data, vn);
    hide Laid, Places, TranslateLsb, Inside, OverlapTest, WellFormed;
    workList, at := [], [];
    var pos, i := 0, 0;
    LaidNothing(data, vn, c, overlap);
    assert Places(c, vn, overlap, 0, [], []) by { PlacesNothing(c, vn, overlap); }
    while i < |overlap|
      invariant 0 <= i <= |overlap| && Pushed(data, vn, c, overlap, followHoles, i, workList, pos, at)
    {
      workList, pos, at := PushField(data, vn, c, overlap, followHoles, i, workList, pos, at);
      i := i + 1;
    }
    if followHoles { LaidEnds(data, vn, c, overlap, workList, pos); }
    if pos < 8 * c.size && followHoles {
      PlacesHole(c, vn, overlap, i, workList, at, NewBits(c.size, vn, pos, 8 * c.size - pos));
      workList := workList + [NewBits(c.size, vn, pos, 8 * c.size - pos)];
    }
  }

  lemma PlacesNothing(c: Container, vn: VarnodeId, overlap: seq<FieldBits>)
    ensures Places(c, vn, overlap, 0, [], [])
  {
  }

  /** The hole after the last field. */
  lemma LaidEnds(data: Data, vn: VarnodeId, c: Container, overlap: seq<FieldBits>, list: seq<NodeState>, pos: int)
    requires vn < |data| && c.size == data[vn].size > 0 && Laid(data, vn, c, overlap, |overlap|, list, pos) && pos <= 8 * c.size
    ensures var list', n := PushHole(c, vn, list, pos, 8 * c.size), |overlap|;
            && (AllFresh(data, vn, list') <==> Sized(c, overlap, n))
            && (Tiles(data, vn, list') && Ends(list') == 8 * c.size <==> Sized(c, overlap, n) && InOrder(c, overlap, n))
            && (Sized(c, overlap, n) ==> Covers(list', 8 * c.size))
  {
    HoleLaid(data, vn, c, list, pos, 8 * c.size);
  }

  // ----- Fields of nested structures

  /** Every field inside the container has its range at its true position, and no other field has one. */
  ghost predicate FieldsRight(c: Container, overlap: seq<FieldBits>, list: seq<NodeState>, at: seq<int>) {
    |at| == |overlap| && forall k :: 0 <= k < |overlap| ==> FieldRight(c, overlap[k], list, at[k])
  }

  ghost predicate FieldRight(c: Container, f: FieldBits, list: seq<NodeState>, i: int) {
    (Inside(c, TrueLsb(c, f), f.numBits) <==> 0 <= i < |list|) && (0 <= i < |list| ==> list[i].origLsb == TrueLsb(c, f))
  }

  /** The field belongs to the outer structure itself, or would have no range at either position. */
  ghost predicate UnbasedAt(c: Container, f: FieldBits) {
    f.base == 0 || (!Inside(c, TranslateLsb(c, f), f.numBits) && !Inside(c, TrueLsb(c, f), f.numBits))
  }

  /** The fields have their ranges where they are if and only if none of a nested structure has one. */
  lemma RightIffUnbased(c: Container, vn: VarnodeId, overlap: seq<FieldBits>, list: seq<NodeState>, at: seq<int>)
    requires Places(c, vn, overlap, |overlap|, list, at)
    ensures FieldsRight(c, overlap, list, at) <==> forall k :: 0 <= k < |overlap| ==> UnbasedAt(c, overlap[k])
  {
    forall k | 0 <= k < |overlap| ensures FieldRight(c, overlap[k], list, at[k]) <==> UnbasedAt(c, overlap[k]) {
      assert PlacedAt(c, vn, overlap[k], list, at[k]);
      BaseMoves(c, overlap[k]);
      hide TranslateLsb, TrueLsb, Inside;
    }
  }

  /** A base that is dropped moves the field. */
  lemma BaseMoves(c: Container, f: FieldBits)
    ensures TrueLsb(c, f) == TranslateLsb(c, f) <==> f.base == 0
  {
  }

  /** The fields overlap the container, in ascending order and apart, where they really are. */
  ghost predicate Ascending(c: Container, overlap: seq<FieldBits>) {
    && Positive(overlap)
    && (forall k :: 0 <= k < |overlap| ==> TrueLsb(c, overlap[k]) < 8 * c.size && TrueLsb(c, overlap[k]) + overlap[k].numBits > 0)
    && (forall j, k :: 0 <= j < k < |overlap| ==> TrueLsb(c, overlap[j]) + overlap[j].numBits <= TrueLsb(c, overlap[k]))
  }

  /** Ascending fields of the outer structure alone tile the container. */
  lemma FlatIsLaid(c: Container, overlap: seq<FieldBits>)
    requires Ascending(c, overlap) && c.size > 0 && forall k :: 0 <= k < |overlap| ==> overlap[k].base == 0
    ensures Sized(c, overlap, |overlap|) && InOrder(c, overlap, |overlap|)
  {
    forall k | 0 <= k < |overlap| ensures TrueLsb(c, overlap[k]) == TranslateLsb(c, overlap[k]) { BaseMoves(c, overlap[k]); }
    hide TrueLsb, TranslateLsb;
    forall k | 0 <= k < |overlap| ensures SizedAt(c, overlap, k) && InOrderAt(c, overlap, k) {
      if k > 0 { assert TrueLsb(c, overlap[k - 1]) + overlap[k - 1].numBits <= TrueLsb(c, overlap[k]); }
    }
  }

  /** All that can be asked of the layout: the ranges tile the container and the fields are in their places. */
  ghost predicate LayoutRight(c: Container, overlap: seq<FieldBits>) {
    && Sized(c, overlap, |overlap|) && InOrder(c, overlap, |overlap|)
    && forall k :: 0 <= k < |overlap| ==> UnbasedAt(c, overlap[k])
  }

  /** For ascending fields inside the container, the layout is right if and only if no base is dropped. */
  lemma RightIffFlat(c: Container, overlap: seq<FieldBits>)
    requires Ascending(c, overlap) && c.size > 0
    requires forall k :: 0 <= k < |overlap| ==> Inside(c, TrueLsb(c, overlap[k]), overlap[k].numBits)
    ensures LayoutRight(c, overlap) <==> forall k :: 0 <= k < |overlap| ==> overlap[k].base == 0
  {
    hide TrueLsb, TranslateLsb, Sized, InOrder;
    if forall k :: 0 <= k < |overlap| ==> overlap[k].base == 0 { FlatIsLaid(c, overlap); }
  }

  /** Two structures of two four-bit fields each, one after the other. */
  ghost function TwoNested(): seq<FieldBits> {
    [FieldBits(0, 0, 1, 0, 4, false), FieldBits(0, 0, 1, 4, 4, false),
     FieldBits(1, 0, 1, 0, 4, false), FieldBits(1, 0, 1, 4, 4, false)]
  }

  /** Written together, the second structure's fields are laid over the first's: the ranges do not tile
      the container. */
  lemma NestedMistaken()
    ensures Ascending(Container(0, 2, false), TwoNested())
    ensures TranslateLsb(Container(0, 2, false), TwoNested()[2]) == 0 && TrueLsb(Container(0, 2, false), TwoNested()[2]) == 8
    ensures Sized(Container(0, 2, false), TwoNested(), 4) && !InOrder(Container(0, 2, false), TwoNested(), 4)
    ensures !LayoutRight(Container(0, 2, false), TwoNested())
  {
    assert !InOrderAt(Container(0, 2, false), TwoNested(), 2);
    forall k | 0 <= k < 4 ensures SizedAt(Container(0, 2, false), TwoNested(), k) { }
  }

  /** Written alone, the second structure's fields give ranges of less than no bits. */
  lemma NestedUnsized()
    ensures Ascending(Container(1, 1, false), TwoNested()[2..])
    ensures !Sized(Container(1, 1, false), TwoNested()[2..], 2)
  {
    assert !SizedAt(Container(1, 1, false), TwoNested()[2..], 0);
  }
}
