/** Recovering the bit-field writes behind a stored value: each field's bits are traced back to a
    source, a constant or the original value, and become an INSERT. */
module BitFieldInsert {
  import opened FlowGraph
  import opened BitWords
  import opened BitTrace
  import opened BitSteps
  import opened FieldLayout

  /** The value is a varnode shifted right, or a constant. */
  datatype InsertRecord = InsertRecord(vn: Option<VarnodeId>, constVal: Word, pos: int, numBits: int, shiftAmount: int)

  // ----- Meaning of records

  ghost predicate ConstBits(data: Data, x: VarnodeId, i: int, c: Word, n: int)
    requires WellFormed(data)
  {
    x < |data| && forall env :: InMasks(data, env) ==> BitsAre(data, env, x, i, c, n)
  }

  ghost predicate BitsAre(data: Data, env: seq<Word>, x: VarnodeId, i: int, c: Word, n: int)
    requires WellFormed(data) && Fits(data, env) && x < |data|
  {
    forall k :: 0 <= k < n ==> At(Eval(data, env, x), i, k) == At(c, 0, k)
  }

  /** The recorded value gives the varnode's bits from `i` on, in every valuation. */
  ghost predicate Sound(data: Data, x: VarnodeId, i: int, rec: InsertRecord)
    requires WellFormed(data)
  {
    match rec.vn
    case Some(v) => SameBits(data, x, i, v, rec.shiftAmount, rec.numBits)
    case None => ConstBits(data, x, i, rec.constVal, rec.numBits)
  }

  const ZERO: Word := seq(64, i => false)

  // ----- Constants

  /** The bits of the range, moved to the bottom. */
  function FieldOf(c: Word, r: BitRange): (w: Word)
    ensures |w| == 64
  {
    seq(64, j requires 0 <= j < 64 => j + r.lsb in Mask(r) && At(c, r.lsb, j))
  }

  /** The sign bit of an `numBits` wide value, copied up to `size` bytes. */
  function ExtendSign(w: Word, numBits: int, size: int): (r: Word)
    requires |w| == 64 && 0 < numBits <= 64
    ensures |r| == 64
  {
    if numBits < 8 * size then seq(64, j requires 0 <= j < 64 => j < 8 * size && w[if j < numBits then j else numBits - 1])
    else w
  }

  lemma ConstantIsSound(data: Data, st: NodeState, isInt: bool)
    requires WellFormed(data) && Placed(data, st) && data[st.node.value].def.Constant? && st.bitsField.byteSize <= 8
    ensures var r, w := st.bitsField, FieldOf(data[st.node.value].def.value, st.bitsField);
            0 < r.numBits <= 64 &&
            ConstBits(data, st.node.value, r.lsb, if isInt then ExtendSign(w, r.numBits, r.byteSize) else w, r.numBits)
  {
    var v, r := st.node.value, st.bitsField;
    var c := data[v].def.value;
    var w := FieldOf(c, r);
    var value := if isInt then ExtendSign(w, r.numBits, r.byteSize) else w;
    forall env | InMasks(data, env) ensures BitsAre(data, env, v, r.lsb, value, r.numBits) {
      assert Eval(data, env, v) == c;
      forall k | 0 <= k < r.numBits ensures At(Eval(data, env, v), r.lsb, k) == At(value, 0, k) {
        assert k + r.lsb in Mask(r);
      }
    }
  }

  /** The value recorded for a constant. */
  ghost function ConstantOf(c: Word, r: BitRange, isInt: bool): (w: Word)
    requires 0 < r.numBits <= 64
    ensures |w| == 64
  {
    var value := FieldOf(c, r);
    if isInt then ExtendSign(value, r.numBits, r.byteSize) else value
  }

  lemma ConstantIsAdded(c: Word, st: NodeState, list: seq<InsertRecord>)
    requires st.field.Some? && |c| == 8 * st.bitsField.byteSize <= 64
    requires 0 <= st.bitsField.lsb && 0 < st.bitsField.numBits && st.bitsField.lsb + st.bitsField.numBits <= |c|
    ensures var w := ConstantOf(c, st.bitsField, st.field.value.isInt);
            AddsConstant(c, st, list, list + [InsertRecord(None, w, st.origLsb, st.bitsField.numBits, 0)])
  {
    var r, w := st.bitsField, ConstantOf(c, st.bitsField, st.field.value.isInt);
    assert forall j: nat :: j in Mask(r) <==> InRange(r, j);
    forall j | 0 <= j < 64 ensures w[j] == ConstantBit(c, st, j) { }
  }

  lemma ClearIsZero(data: Data, v: VarnodeId, i: int, n: int)
    requires WellFormed(data) && ClearBits(data, v, i, n)
    ensures ConstBits(data, v, i, ZERO, n)
  {
    forall env | InMasks(data, env) ensures BitsAre(data, env, v, i, ZERO, n) {
      assert BitsClear(data, env, v, i, n);
    }
  }

  // ----- How a trace ends

  /** A pull of exactly these bits. */
  ghost predicate PullMatches(pos: nat, num: nat, r: BitRange) {
    AsI32(pos) == r.lsb && AsI32(num) == r.numBits
  }

  /** The state is at a field pulled from one of the varnodes, at the field's own position. */
  ghost predicate PullsFrom(data: Data, originals: set<VarnodeId>, st: NodeState)
    requires WellFormed(data) && Placed(data, st)
  {
    var d := data[st.node.value].def;
    assert DefFits(data, st.node.value);
    (d.Zpull? || d.Spull?) && d.a in originals && PullMatches(Val(data[d.b].def.value), Val(data[d.c].def.value), st.bitsField)
  }

  /** Such a pull has the bits where its source has them: it starts at bit 0, or is one bit extended by
      its sign. */
  ghost predicate ExactPull(data: Data, st: NodeState)
    requires WellFormed(data) && Placed(data, st)
  {
    var d := data[st.node.value].def;
    assert DefFits(data, st.node.value);
    IsPull(d) ==>
      var pos := Val(data[d.b].def.value);
      pos == st.bitsField.lsb && (pos == 0 || (d.Spull? && Val(data[d.c].def.value) == 1))
  }

  /** The bits are in their original place, in a varnode that holds the original value or is pulled from one. */
  ghost predicate AtOriginal(data: Data, originals: set<VarnodeId>, st: NodeState)
    requires WellFormed(data)
  {
    Placed(data, st) && st.bitsField.lsb == st.origLsb && (st.node.value in originals || PullsFrom(data, originals, st))
  }

  /** The record is for the state's bits, and gives their value. */
  ghost predicate RecordsState(data: Data, st: NodeState, rec: InsertRecord)
    requires WellFormed(data)
  {
    && Placed(data, st) && rec.pos == st.origLsb && rec.numBits == st.bitsField.numBits
    && (rec.vn.Some? ==> rec.vn == st.node && rec.shiftAmount == st.bitsField.lsb)
    && Sound(data, st.node.value, st.bitsField.lsb, rec)
  }

  ghost predicate Recorded(data: Data, st: NodeState, list: seq<InsertRecord>, list': seq<InsertRecord>)
    requires WellFormed(data)
  {
    |list'| == |list| + 1 && list'[..|list|] == list && RecordsState(data, st, list'[|list|])
  }

  /** A range is settled where its trace ends: by one record, or because the bits are the original's. */
  ghost predicate SettledAt(data: Data, originals: set<VarnodeId>, end: NodeState, list: seq<InsertRecord>, list': seq<InsertRecord>)
    requires WellFormed(data)
  {
    Recorded(data, end, list, list') || (list' == list && AtOriginal(data, originals, end))
  }

  // ----- When and why a trace ends

  /** Varnodes that hold the original value, calls that return it, and the varnode taken for it so far. */
  datatype Sources = Sources(bases: set<VarnodeId>, callBases: set<VarnodeId>, found: Option<VarnodeId>)

  /** The bits are in their original place, in a varnode known to hold the original value or pulled from one. */
  ghost predicate IsKnown(data: Data, src: Sources, st: NodeState)
    requires WellFormed(data) && Placed(data, st)
  {
    st.bitsField.lsb == st.origLsb && (st.node == src.found || st.node.value in src.bases || PullsFrom(data, src.bases, st))
  }

  /** A call may return the original value, as long as no other varnode was taken for it. */
  ghost predicate IsReturned(data: Data, src: Sources, st: NodeState)
    requires WellFormed(data) && Placed(data, st)
  {
    data[st.node.value].def.Call? && st.node.value in src.callBases && st.bitsField.lsb == st.origLsb && src.found.None?
  }

  /** The varnode taken for the original value from then on. */
  ghost function FoundBy(data: Data, src: Sources, st: NodeState): (v: Option<VarnodeId>)
    requires WellFormed(data) && Placed(data, st)
  {
    if st.node != src.found && PullsFrom(data, src.bases, st) then Some(data[st.node.value].def.a) else st.node
  }

  /** The field's bits are the lowest, and the only ones in use. */
  ghost predicate Alone(st: NodeState) {
    st.field.Some? && st.bitsField.lsb == 0 && st.bitsUsed.lsb == 0 && st.bitsUsed.numBits == st.bitsField.numBits
  }

  /** Some bit of the field may be set. */
  ghost predicate MayBeSet(data: Data, st: NodeState)
    requires Placed(data, st)
  {
    exists j: nat :: InRange(st.bitsField, j) && j in data[st.node.value].nzMask
  }

  /** Some other bit in use may be set. */
  ghost predicate Mixed(data: Data, st: NodeState)
    requires Placed(data, st)
  {
    exists j: nat :: InRange(st.bitsUsed, j) && !InRange(st.bitsField, j) && j in data[st.node.value].nzMask
  }

  /** One record more, for the state's bits. */
  ghost predicate Adds(st: NodeState, list: seq<InsertRecord>, list': seq<InsertRecord>) {
    && |list'| == |list| + 1 && list'[..|list|] == list
    && list'[|list|].pos == st.origLsb && list'[|list|].numBits == st.bitsField.numBits
  }

  /** The record is of the varnode's own bits. */
  ghost predicate AddsVarnode(st: NodeState, list: seq<InsertRecord>, list': seq<InsertRecord>) {
    Adds(st, list, list') && st.node.Some? && list'[|list|].vn == st.node && list'[|list|].shiftAmount == st.bitsField.lsb
  }

  ghost predicate AddsZero(st: NodeState, list: seq<InsertRecord>, list': seq<InsertRecord>) {
    && Adds(st, list, list') && list'[|list|].vn.None? && |list'[|list|].constVal| == 64
    && forall j :: 0 <= j < 64 ==> !list'[|list|].constVal[j]
  }

  /** The record is the field's bits of the constant, extended by their sign up to the constant's size
      when the field is an integer, and by zeros after that. */
  ghost predicate AddsConstant(c: Word, st: NodeState, list: seq<InsertRecord>, list': seq<InsertRecord>) {
    && Adds(st, list, list') && st.field.Some? && list'[|list|].vn.None? && |list'[|list|].constVal| == 64
    && forall j :: 0 <= j < 64 ==> list'[|list|].constVal[j] == ConstantBit(c, st, j)
  }

  ghost predicate ConstantBit(c: Word, st: NodeState, j: nat)
    requires st.field.Some?
  {
    var r := st.bitsField;
    if j < r.numBits then 0 <= r.lsb + j < |c| && c[r.lsb + j]
    else st.field.value.isInt && j < |c| && 0 <= r.lsb + r.numBits - 1 < |c| && c[r.lsb + r.numBits - 1]
  }

  /** How a trace ends: whether the range is settled, by which record if any, and what is then taken for
      the original value. */
  ghost predicate Outcome(data: Data, src: Sources, st: NodeState, list: seq<InsertRecord>, list': seq<InsertRecord>,
                          found: Option<VarnodeId>, ok: bool)
    requires WellFormed(data) && Placed(data, st)
  {
    var def := data[st.node.value].def;
    if def.Constant? then
      found == src.found && ok == st.field.Some? && if ok then AddsConstant(def.value, st, list, list') else list' == list
    else if IsKnown(data, src, st) then ok && list' == list && found == FoundBy(data, src, st)
    else if Alone(st) then ok && AddsVarnode(st, list, list') && found == src.found
    else if def.NoDef? then !ok && list' == list && found == src.found
    else if IsReturned(data, src, st) then ok && list' == list && found == st.node
    else
      && found == src.found && (Clears(data, st) || GivesUp(data, st))
      && ok == (st.field.Some? && (Clears(data, st) || (data[st.node.value].size <= 8 && !(MayBeSet(data, st) && Mixed(data, st)))))
      && if !ok then list' == list
         else if Clears(data, st) || !MayBeSet(data, st) then AddsZero(st, list, list')
         else AddsVarnode(st, list, list')
  }

  /** Nothing settles the range here, before the operation is looked at. */
  ghost predicate Unsettled(data: Data, src: Sources, st: NodeState)
    requires WellFormed(data)
  {
    Placed(data, st) && !data[st.node.value].def.Constant? && !IsKnown(data, src, st) && !Alone(st)
  }

  /** A trail is followed as long as nothing settles the range. */
  ghost predicate Traced(data: Data, src: Sources, trail: seq<NodeState>)
    requires WellFormed(data)
  {
    Trail(data, trail) && forall i :: 0 <= i < |trail| - 1 ==> Unsettled(data, src, trail[i])
  }

  // ----- Runs over the work list

  /** How one range went after a trail: settled, with or without a record, or not settled. What was taken
      for the original value before and after is kept with it. */
  datatype Run =
    | Settled(trail: seq<NodeState>, kept: bool, src: Sources, found: Option<VarnodeId>)
    | Skipped(trail: seq<NodeState>, src: Sources, found: Option<VarnodeId>)

  ghost predicate RunOk(data: Data, originals: set<VarnodeId>, st: NodeState, run: Run, list: seq<InsertRecord>, list': seq<InsertRecord>)
    requires WellFormed(data)
  {
    && Traced(data, run.src, run.trail) && run.trail[0] == st && originals == run.src.bases + run.src.callBases
    && Outcome(data, run.src, End(run.trail), list, list', run.found, run.Settled?)
    && match run
       case Settled(trail, kept, _, _) => (kept <==> list' == list) && SettledAt(data, originals, End(trail), list, list')
       case Skipped(_, _, _) => list' == list
  }

  /** Each run starts from what the one before took for the original value. */
  ghost predicate Chained(runs: seq<Run>, src: Sources, found: Option<VarnodeId>) {
    if runs == [] then found == src.found
    else
      var last := runs[|runs| - 1];
      last.found == found && last.src == src.(found := last.src.found) && Chained(runs[..|runs| - 1], src, last.src.found)
  }

  /** A range that is not settled may be skipped: it has no field, and is overwritten later. */
  ghost predicate MaySkip(st: NodeState, overwritten: set<int>) {
    st.field.None? && st.origLsb in overwritten
  }

  /** Every run but the last leaves the trace going. */
  ghost predicate GoesOn(workList: seq<NodeState>, runs: seq<Run>, overwritten: set<int>, n: nat) {
    n <= |runs| && n <= |workList| && forall i :: 0 <= i < n && runs[i].Skipped? ==> MaySkip(workList[i], overwritten)
  }

  /** No operation on the way, and no pull at its end, was followed wrongly. */
  ghost predicate ExactRun(data: Data, originals: set<VarnodeId>, run: Run)
    requires WellFormed(data)
  {
    run.Settled? && Trail(data, run.trail) ==>
      ExactTrail(data, run.trail) && (run.kept && End(run.trail).node.value !in originals ==> ExactPull(data, End(run.trail)))
  }

  ghost function Before(runs: seq<Run>, list: seq<InsertRecord>): seq<InsertRecord>
    requires runs != []
  {
    var run := runs[|runs| - 1];
    if list == [] || run.Skipped? || run.kept then list else list[..|list| - 1]
  }

  /** The records are those of the runs, in order. */
  ghost predicate Runs(data: Data, originals: set<VarnodeId>, workList: seq<NodeState>, runs: seq<Run>, list: seq<InsertRecord>)
    requires WellFormed(data)
    decreases |runs|
  {
    if runs == [] then list == []
    else
      && |runs| <= |workList|
      && RunOk(data, originals, workList[|runs| - 1], runs[|runs| - 1], Before(runs, list), list)
      && Runs(data, originals, workList, runs[..|runs| - 1], Before(runs, list))
  }

  ghost predicate ExactRuns(data: Data, originals: set<VarnodeId>, runs: seq<Run>)
    requires WellFormed(data)
  {
    forall i :: 0 <= i < |runs| ==> ExactRun(data, originals, runs[i])
  }

  lemma RunsExtend(data: Data, originals: set<VarnodeId>, workList: seq<NodeState>, runs: seq<Run>, run: Run,
                   list: seq<InsertRecord>, list': seq<InsertRecord>)
    requires WellFormed(data) && Runs(data, originals, workList, runs, list) && |runs| < |workList|
    requires RunOk(data, originals, workList[|runs|], run, list, list')
    ensures Runs(data, originals, workList, runs + [run], list')
  {
    var longer := runs + [run];
    assert longer[..|longer| - 1] == runs;
    assert Before(longer, list') == list;
  }

  // ----- Rebuilding the root

  /** The word a record inserts. */
  ghost function RecordValue(data: Data, env: seq<Word>, rec: InsertRecord): Word
    requires WellFormed(data) && Fits(data, env)
  {
    match rec.vn
    case Some(v) =>
      if v < |data| && rec.shiftAmount >= 0 then Piece(Eval(data, env, v), rec.shiftAmount, 8 * data[v].size) else []
    case None => rec.constVal
  }

  /** The original value with every record inserted, in order. */
  ghost function Rebuilt(data: Data, env: seq<Word>, original: Word, list: seq<InsertRecord>): (w: Word)
    requires WellFormed(data) && Fits(data, env)
    ensures |w| == |original|
  {
    if list == [] then original
    else
      var rec := list[|list| - 1];
      var before := Rebuilt(data, env, original, list[..|list| - 1]);
      if rec.pos >= 0 && rec.numBits >= 0 then Insert(before, RecordValue(data, env, rec), rec.pos, rec.numBits) else before
  }

  /** The valuation gives the same word to every varnode that may be taken for the original. */
  ghost predicate OneOriginal(data: Data, env: seq<Word>, root: VarnodeId, originals: set<VarnodeId>, original: Word)
    requires WellFormed(data) && Fits(data, env)
  {
    && root < |data| && |original| == 8 * data[root].size
    && forall b :: b in originals && b < |data| ==> Eval(data, env, b) == original
  }

  /** Some range that was settled holds the bit. */
  ghost predicate SettledBit(workList: seq<NodeState>, runs: seq<Run>, j: int) {
    exists i :: 0 <= i < |runs| && i < |workList| && runs[i].Settled? && HoldsBit(workList[i], j)
  }

  /** Inserting the records into the original gives the root on the settled bits and leaves the others. */
  ghost predicate RebuildsBits(data: Data, env: seq<Word>, root: VarnodeId, original: Word, workList: seq<NodeState>, runs: seq<Run>,
                               list: seq<InsertRecord>)
    requires WellFormed(data) && Fits(data, env) && root < |data| && |original| == 8 * data[root].size
  {
    forall j :: 0 <= j < |original| ==>
      Rebuilt(data, env, original, list)[j] == if SettledBit(workList, runs, j) then Eval(data, env, root)[j] else original[j]
  }

  /** The same, in every valuation the masks allow. */
  ghost predicate Rebuilds(data: Data, root: VarnodeId, originals: set<VarnodeId>, workList: seq<NodeState>, runs: seq<Run>,
                           list: seq<InsertRecord>)
    requires WellFormed(data)
  {
    forall env, original :: InMasks(data, env) && OneOriginal(data, env, root, originals, original) ==>
      RebuildsBits(data, env, root, original, workList, runs, list)
  }

  /** Exact runs rebuild the root, in one valuation. */
  lemma {:induction false} RunsRebuild(data: Data, root: VarnodeId, originals: set<VarnodeId>, workList: seq<NodeState>, runs: seq<Run>,
                                       list: seq<InsertRecord>, env: seq<Word>, original: Word)
    requires WellFormed(data) && Runs(data, originals, workList, runs, list) && ExactRuns(data, originals, runs)
    requires forall i :: 0 <= i < |workList| ==> Fresh(data, root, workList[i])
    requires InMasks(data, env) && OneOriginal(data, env, root, originals, original)
    ensures RebuildsBits(data, env, root, original, workList, runs, list)
    decreases |runs|
  {
    hide WellFormed, InMasks, OneOriginal, RunOk, ExactRun, Rebuilt, Fresh;
    if runs != [] {
      var before, front := Before(runs, list), runs[..|runs| - 1];
      assert forall i :: 0 <= i < |front| ==> front[i] == runs[i];
      RunsRebuild(data, root, originals, workList, front, before, env, original);
      RunRebuilds(data, root, originals, workList, runs, list, env, original);
    } else {
      NothingRebuilt(data, root, originals, workList, env, original);
    }
  }

  lemma NothingRebuilt(data: Data, root: VarnodeId, originals: set<VarnodeId>, workList: seq<NodeState>, env: seq<Word>, original: Word)
    requires WellFormed(data) && InMasks(data, env) && OneOriginal(data, env, root, originals, original)
    ensures RebuildsBits(data, env, root, original, workList, [], [])
  {
  }

  /** One more run. */
  lemma RunRebuilds(data: Data, root: VarnodeId, originals: set<VarnodeId>, workList: seq<NodeState>, runs: seq<Run>,
                    list: seq<InsertRecord>, env: seq<Word>, original: Word)
    requires WellFormed(data) && 0 < |runs| <= |workList| && ExactRun(data, originals, runs[|runs| - 1])
    requires Fresh(data, root, workList[|runs| - 1]) && InMasks(data, env) && OneOriginal(data, env, root, originals, original)
    requires RunOk(data, originals, workList[|runs| - 1], runs[|runs| - 1], Before(runs, list), list)
    requires RebuildsBits(data, env, root, original, workList, runs[..|runs| - 1], Before(runs, list))
    ensures RebuildsBits(data, env, root, original, workList, runs, list)
  {
    var last := |runs| - 1;
    var before, front, st, run := Before(runs, list), runs[..last], workList[last], runs[last];
    forall j | 0 <= j < |original|
      ensures Rebuilt(data, env, original, list)[j] == if SettledBit(workList, runs, j) then Eval(data, env, root)[j] else original[j]
    {
      SettledNext(workList, runs, j);
      RunBit(data, root, originals, st, run, before, list, env, original, j);
    }
  }

  lemma SettledNext(workList: seq<NodeState>, runs: seq<Run>, j: int)
    requires 0 < |runs| <= |workList|
    ensures var last := |runs| - 1;
            SettledBit(workList, runs, j) <==> SettledBit(workList, runs[..last], j) || (runs[last].Settled? && HoldsBit(workList[last], j))
  {
    var last := |runs| - 1;
    var front := runs[..last];
    if SettledBit(workList, front, j) {
      var i :| 0 <= i < |front| && i < |workList| && front[i].Settled? && HoldsBit(workList[i], j);
      assert runs[i].Settled?;
    }
    if SettledBit(workList, runs, j) {
      var i :| 0 <= i < |runs| && i < |workList| && runs[i].Settled? && HoldsBit(workList[i], j);
      assert i < last ==> front[i].Settled?;
    }
  }

  /** One run and one bit: a settled bit becomes the root's, if it was the original's or the root's. */
  lemma RunBit(data: Data, root: VarnodeId, originals: set<VarnodeId>, st: NodeState, run: Run, before: seq<InsertRecord>,
               list: seq<InsertRecord>, env: seq<Word>, original: Word, j: nat)
    requires WellFormed(data) && Fresh(data, root, st) && InMasks(data, env) && OneOriginal(data, env, root, originals, original)
    requires RunOk(data, originals, st, run, before, list) && ExactRun(data, originals, run) && j < |original|
    ensures var w, w' := Rebuilt(data, env, original, before), Rebuilt(data, env, original, list);
            if run.Settled? && HoldsBit(st, j) then
              w[j] == original[j] || w[j] == Eval(data, env, root)[j] ==> w'[j] == Eval(data, env, root)[j]
            else w'[j] == w[j]
  {
    if run.Settled? {
      var end := End(run.trail);
      TrailKeeps(data, run.trail);
      if Recorded(data, end, before, list) {
        RecordBit(data, root, st, end, before, list, env, original, j);
      } else if HoldsBit(st, j) {
        OriginalBit(data, root, originals, st, end, env, original, j);
      }
    }
  }

  lemma RecordBit(data: Data, root: VarnodeId, st: NodeState, end: NodeState, before: seq<InsertRecord>,
                  list: seq<InsertRecord>, env: seq<Word>, original: Word, j: nat)
    requires WellFormed(data) && Fresh(data, root, st) && Recorded(data, end, before, list) && InMasks(data, env) && j < |original|
    requires end.origLsb == st.origLsb && end.bitsField.numBits == st.bitsField.numBits
    requires SameBits(data, root, st.origLsb, end.node.value, end.bitsField.lsb, st.bitsField.numBits)
    requires |original| == 8 * data[root].size
    ensures Rebuilt(data, env, original, list)[j] ==
            if HoldsBit(st, j) then Eval(data, env, root)[j] else Rebuilt(data, env, original, before)[j]
  {
    var rec := list[|before|];
    assert list[..|list| - 1] == before;
    var w, value, w' := Rebuilt(data, env, original, before), RecordValue(data, env, rec), Rebuilt(data, env, original, list);
    assert w' == Insert(w, value, rec.pos, rec.numBits);
    if HoldsBit(st, j) {
      InsertedBit(data, end, env, rec, j - rec.pos);
      assert BitsMatch(data, env, root, st.origLsb, end.node.value, end.bitsField.lsb, st.bitsField.numBits);
      assert At(Eval(data, env, root), st.origLsb, j - st.origLsb) == Eval(data, env, root)[j];
    }
  }

  /** Each bit a record inserts is the traced one. */
  lemma InsertedBit(data: Data, st: NodeState, env: seq<Word>, rec: InsertRecord, k: nat)
    requires WellFormed(data) && InMasks(data, env) && RecordsState(data, st, rec) && k < rec.numBits
    ensures var value := RecordValue(data, env, rec);
            (k < |value| && value[k]) == At(Eval(data, env, st.node.value), st.bitsField.lsb, k)
  {
    match rec.vn
    case Some(v) => assert BitsMatch(data, env, st.node.value, st.bitsField.lsb, v, rec.shiftAmount, rec.numBits);
    case None => assert BitsAre(data, env, st.node.value, st.bitsField.lsb, rec.constVal, rec.numBits);
  }

  /** A bit traced to its own place in the original is the original's. */
  lemma OriginalBit(data: Data, root: VarnodeId, originals: set<VarnodeId>, st: NodeState, end: NodeState, env: seq<Word>,
                    original: Word, j: nat)
    requires WellFormed(data) && Fresh(data, root, st) && AtOriginal(data, originals, end) && InMasks(data, env)
    requires end.origLsb == st.origLsb && end.bitsField.numBits == st.bitsField.numBits
    requires SameBits(data, root, st.origLsb, end.node.value, end.bitsField.lsb, st.bitsField.numBits)
    requires end.node.value !in originals ==> ExactPull(data, end)
    requires OneOriginal(data, env, root, originals, original) && HoldsBit(st, j)
    ensures j < |original| && Eval(data, env, root)[j] == original[j]
  {
    var k, v, n := j - st.origLsb, end.node.value, st.bitsField.numBits;
    assert BitsMatch(data, env, root, st.origLsb, v, end.bitsField.lsb, n);
    assert At(Eval(data, env, root), st.origLsb, k) == At(Eval(data, env, v), st.origLsb, k);
    if v !in originals {
      var a := data[v].def.a;
      hide SameBits, Val;
      PullSame(data, v, st.origLsb, n);
      PulledBit(data, env, v, a, st.origLsb, n, k);
    }
  }

  lemma PulledBit(data: Data, env: seq<Word>, v: VarnodeId, a: VarnodeId, i: nat, n: int, k: nat)
    requires WellFormed(data) && InMasks(data, env) && SameBits(data, v, i, a, i, n) && k < n
    ensures At(Eval(data, env, v), i, k) == At(Eval(data, env, a), i, k)
  {
    assert BitsMatch(data, env, v, i, a, i, n);
  }

  lemma AllRebuild(data: Data, root: VarnodeId, originals: set<VarnodeId>, workList: seq<NodeState>, runs: seq<Run>,
                   list: seq<InsertRecord>)
    requires WellFormed(data) && Runs(data, originals, workList, runs, list) && ExactRuns(data, originals, runs)
    requires forall i :: 0 <= i < |workList| ==> Fresh(data, root, workList[i])
    ensures Rebuilds(data, root, originals, workList, runs, list)
  {
    hide WellFormed, RebuildsBits, Runs, ExactRuns, Fresh;
    forall env, original | InMasks(data, env) && OneOriginal(data, env, root, originals, original)
      ensures RebuildsBits(data, env, root, original, workList, runs, list)
    {
      RunsRebuild(data, root, originals, workList, runs, list, env, original);
    }
  }

  /** Inserting the records into the original gives the whole root, in every valuation the masks allow. */
  ghost predicate RebuildsAll(data: Data, root: VarnodeId, originals: set<VarnodeId>, list: seq<InsertRecord>)
    requires WellFormed(data)
  {
    forall env, original :: InMasks(data, env) && OneOriginal(data, env, root, originals, original) ==>
      Rebuilt(data, env, original, list) == Eval(data, env, root)
  }

  lemma FreshRanges(data: Data, root: VarnodeId, list: seq<NodeState>)
    requires AllFresh(data, root, list)
    ensures forall i :: 0 <= i < |list| ==> Fresh(data, root, list[i])
  {
  }

  /** When every range is settled, and they cover the root, all of it is rebuilt. */
  lemma AllSettled(data: Data, root: VarnodeId, originals: set<VarnodeId>, workList: seq<NodeState>, runs: seq<Run>,
                   list: seq<InsertRecord>, bits: int)
    requires WellFormed(data) && root < |data| && Rebuilds(data, root, originals, workList, runs, list)
    requires |runs| == |workList| && Covers(workList, bits) && bits == 8 * data[root].size && forall i :: 0 <= i < |runs| ==> runs[i].Settled?
    ensures RebuildsAll(data, root, originals, list)
  {
    forall j | 0 <= j < bits ensures SettledBit(workList, runs, j) {
      assert CoversBit(workList, j);
      var i :| 0 <= i < |workList| && HoldsBit(workList[i], j);
      assert runs[i].Settled?;
    }
    hide SettledBit, HoldsBit;
    forall env, original | InMasks(data, env) && OneOriginal(data, env, root, originals, original)
      ensures Rebuilt(data, env, original, list) == Eval(data, env, root)
    {
      assert RebuildsBits(data, env, root, original, workList, runs, list);
    }
  }

  /** The hull of what may be set in the field is empty when nothing may, and as wide as the hull of what
      may be set in use exactly when nothing else may. */
  lemma HullsCompare(data: Data, st: NodeState, own: BitRange, all: BitRange)
    requires WellFormed(data) && Placed(data, st) && st.bitsField.byteSize <= 8
    requires IsHull(st.bitsField, data[st.node.value].nzMask, own) && IsHull(st.bitsUsed, data[st.node.value].nzMask, all)
    ensures own.numBits == 0 <==> !MayBeSet(data, st)
    ensures MayBeSet(data, st) ==> (own.numBits == all.numBits <==> !Mixed(data, st))
  {
    var r, used, nz := st.bitsField, st.bitsUsed, data[st.node.value].nzMask;
    assert forall j: int :: Kept(r, nz, j) ==> Kept(used, nz, j);
    if MayBeSet(data, st) {
      var j: nat :| InRange(r, j) && j in nz;
      assert Kept(r, nz, j);
      assert Kept(used, nz, own.lsb) && Kept(used, nz, own.lsb + own.numBits - 1);
      if Mixed(data, st) {
        var k: nat :| InRange(used, k) && !InRange(r, k) && k in nz;
        assert Kept(used, nz, k);
      } else {
        assert Kept(r, nz, all.lsb) && Kept(r, nz, all.lsb + all.numBits - 1);
      }
    } else {
      forall j: int ensures !Kept(r, nz, j) { }
    }
  }

  lemma NothingSet(data: Data, st: NodeState)
    requires WellFormed(data) && Placed(data, st) && st.bitsField.byteSize <= 8 && !MayBeSet(data, st)
    ensures var r := st.bitsField; data[st.node.value].nzMask * Mask(BitRange(data[st.node.value].size, r.lsb, r.numBits)) == {}
  {
    var r, nz := st.bitsField, data[st.node.value].nzMask;
    forall j: nat | j in nz ensures j !in Mask(BitRange(data[st.node.value].size, r.lsb, r.numBits)) { assert !InRange(r, j) || j !in nz; }
  }

  lemma RunIsOk(data: Data, st: NodeState, run: Run, list: seq<InsertRecord>, list': seq<InsertRecord>)
    requires WellFormed(data) && Traced(data, run.src, run.trail) && run.trail[0] == st
    requires Outcome(data, run.src, End(run.trail), list, list', run.found, run.Settled?)
    requires run.Settled? ==> SettledAt(data, run.src.bases + run.src.callBases, End(run.trail), list, list')
    requires run.Settled? ==> run.kept == (list' == list)
    ensures RunOk(data, run.src.bases + run.src.callBases, st, run, list, list')
  {
    hide Clears, GivesUp, IsKnown, IsReturned, Follows, SettledAt, MayBeSet, Mixed, AddsZero, AddsVarnode, AddsConstant;
  }

  lemma ChainExtends(runs: seq<Run>, run: Run, src: Sources)
    requires Chained(runs, src, run.src.found) && run.src == src.(found := run.src.found)
    ensures Chained(runs + [run], src, run.found)
  {
    assert (runs + [run])[..|runs|] == runs;
  }

  lemma CannotSkip(workList: seq<NodeState>, runs: seq<Run>, overwritten: set<int>)
    requires 0 < |runs| <= |workList| && GoesOn(workList, runs[..|runs| - 1], overwritten, |runs| - 1)
    requires runs[|runs| - 1].Skipped? && !MaySkip(workList[|runs| - 1], overwritten)
    ensures GoesOn(workList, runs, overwritten, |runs| - 1) && !GoesOn(workList, runs, overwritten, |runs|)
  {
    assert forall i :: 0 <= i < |runs| - 1 ==> runs[i] == runs[..|runs| - 1][i];
  }

  lemma MaySkipIt(workList: seq<NodeState>, runs: seq<Run>, overwritten: set<int>)
    requires 0 < |runs| <= |workList| && GoesOn(workList, runs[..|runs| - 1], overwritten, |runs| - 1)
    requires runs[|runs| - 1].Skipped? ==> MaySkip(workList[|runs| - 1], overwritten)
    ensures GoesOn(workList, runs, overwritten, |runs|)
  {
    assert forall i :: 0 <= i < |runs| - 1 ==> runs[i] == runs[..|runs| - 1][i];
  }

  class InsertTransform {
    const data: Data
    const root: VarnodeId
    /** Varnodes that hold the original value, and calls that return it. */
    const bases: set<VarnodeId>
    const callBases: set<VarnodeId>

    var state: NodeState
    var insertList: seq<InsertRecord>
    var originalValue: Option<VarnodeId>

    constructor (data: Data, root: VarnodeId, bases: set<VarnodeId>, callBases: set<VarnodeId>)
      requires WellFormed(data) && root < |data|
      ensures this.data == data && this.root == root && this.bases == bases && this.callBases == callBases
      ensures Valid() && insertList == []
    {
      this.data, this.root, this.bases, this.callBases := data, root, bases, callBases;
      insertList, originalValue := [], None;
      state := NodeState(BitRange(0, 0, 0), BitRange(0, 0, 0), None, None, 0);
    }

    /** The varnodes that may be taken for the original value. */
    ghost function Originals(): set<VarnodeId> {
      bases + callBases
    }

    ghost function Known(): Sources
      reads this`originalValue
    {
      Sources(bases, callBases, originalValue)
    }

    ghost predicate Valid()
      reads this
    {
      && WellFormed(data) && root < |data|
      && (originalValue.Some? ==> originalValue.value in Originals())
    }

    /** The bits are zero: only a field is written. */
    method AddZeroOut() returns (ok: bool)
      requires WellFormed(data) && Placed(data, state)
      requires ClearBits(data, state.node.value, state.bitsField.lsb, state.bitsField.numBits)
      modifies this`state, this`insertList
      ensures state == old(state).(node := None) && ok == state.field.Some?
      ensures if ok then Recorded(data, old(state), old(insertList), insertList) else insertList == old(insertList)
      ensures ok ==> AddsZero(old(state), old(insertList), insertList)
    {
      ClearIsZero(data, state.node.value, state.bitsField.lsb, state.bitsField.numBits);
      state := state.(node := None);
      if state.field.None? {
        return false;
      }
      insertList := insertList + [InsertRecord(None, ZERO, state.origLsb, state.field.value.numBits, 0)];
      ok := true;
    }

    method AddConstantWrite() returns (ok: bool)
      requires WellFormed(data) && Placed(data, state) && data[state.node.value].def.Constant?
      modifies this`state, this`insertList
      ensures state == old(state).(node := None) && ok == state.field.Some?
      ensures if ok then Recorded(data, old(state), old(insertList), insertList) else insertList == old(insertList)
      ensures ok ==> AddsConstant(data[old(state).node.value].def.value, old(state), old(insertList), insertList)
    {
      var c := data[state.node.value].def.value;
      assert DefFits(data, state.node.value);
      ConstantIsSound(data, state, true);
      ConstantIsSound(data, state, false);
      if state.field.Some? { ConstantIsAdded(c, state, insertList); }
      hide AddsConstant, ConstBits, FieldOf, ExtendSign;
      state := state.(node := None);
      if state.field.None? || state.bitsField.byteSize > 8 {
        return false;
      }
      var value := FieldOf(c, state.bitsField);
      if state.field.value.isInt {
        value := ExtendSign(value, state.bitsField.numBits, state.bitsField.byteSize);
      }
      insertList := insertList + [InsertRecord(None, value, state.origLsb, state.field.value.numBits, 0)];
      ok := true;
    }

    method AddFieldWrite()
      requires WellFormed(data) && Placed(data, state) && state.field.Some?
      modifies this`state, this`insertList
      ensures state == old(state).(node := None) && Recorded(data, old(state), old(insertList), insertList)
      ensures AddsVarnode(old(state), old(insertList), insertList)
    {
      SameSelf(data, state.node.value, state.bitsField.lsb, state.bitsField.numBits);
      hide SameBits;
      insertList := insertList + [InsertRecord(state.node, ZERO, state.origLsb, state.field.value.numBits, state.bitsField.lsb)];
      state := state.(node := None);
    }

    /** The node is a field pulled from a varnode that holds the original value, at the field's own position. */
    method CheckPulled() returns (ok: bool)
      requires Valid() && Placed(data, state) && state.bitsField.lsb == state.origLsb
      modifies this`originalValue
      ensures Valid() && ok == PullsFrom(data, bases, state)
      ensures originalValue == if ok then Some(data[state.node.value].def.a) else old(originalValue)
    {
      var v := state.node.value;
      assert DefFits(data, v);
      if !data[v].def.Zpull? && !data[v].def.Spull? {
        return false;
      }
      var a, b, c := data[v].def.a, data[v].def.b, data[v].def.c;
      var pos, numbits := AsI32(Val(data[b].def.value)), AsI32(Val(data[c].def.value));
      if pos != state.bitsField.lsb || numbits != state.bitsField.numBits || a !in bases {
        return false;
      }
      originalValue := Some(a);
      ok := true;
    }

    /** The bits are in their original place, in a varnode that holds the original value. */
    method IsOriginalValue() returns (ok: bool)
      requires Valid() && Placed(data, state)
      modifies this`originalValue
      ensures Valid() && (ok ==> AtOriginal(data, Originals(), state)) && ok == IsKnown(data, old(Known()), state)
      ensures originalValue == if ok then FoundBy(data, old(Known()), state) else old(originalValue)
    {
      if state.bitsField.lsb != state.origLsb {
        return false;
      }
      if state.node == originalValue {
        return true;
      }
      ok := CheckPulled();
      if ok {
        return;
      }
      if state.node.value in bases {
        originalValue := state.node;
        return true;
      }
      ok := false;
    }

    method TestCallOriginal() returns (ok: bool)
      requires Valid() && Placed(data, state)
      modifies this`originalValue
      ensures Valid() && (ok ==> AtOriginal(data, Originals(), state))
      ensures data[state.node.value].def.Call? ==> ok == IsReturned(data, old(Known()), state)
      ensures originalValue == if ok then state.node else old(originalValue)
    {
      ok := state.node.value in callBases && state.bitsField.lsb == state.origLsb && originalValue.None?;
      if ok { originalValue := state.node; }
    }

    /** When no operation can be followed, known zero bits may still settle the field. */
    method Fallback() returns (ok: bool)
      requires Valid() && Placed(data, state)
      modifies this`state, this`insertList
      ensures if ok then Recorded(data, old(state), old(insertList), insertList) else insertList == old(insertList)
      ensures var st := old(state); ok == (st.field.Some? && data[st.node.value].size <= 8 && !(MayBeSet(data, st) && Mixed(data, st)))
      ensures ok ==> if MayBeSet(data, old(state)) then AddsVarnode(old(state), old(insertList), insertList)
                     else AddsZero(old(state), old(insertList), insertList)
      ensures state.origLsb == old(state).origLsb && state.field == old(state).field
    {
      if state.field.None? || state.bitsField.byteSize > 8 {
        return false;
      }
      hide MayBeSet, Mixed, WellFormed, IntersectMask, IsHull, Recorded, AddsVarnode, AddsZero, ClearBits;
      var v, r := state.node.value, state.bitsField;
      var nz := data[v].nzMask;
      HullsCompare(data, state, IntersectMask(r, nz), IntersectMask(state.bitsUsed, nz));
      var nonZero := IntersectMask(r, nz);
      if nonZero.numBits == 0 {
        NothingSet(data, state);
        MaskedClear(data, v, r.lsb, r.numBits);
        ok := AddZeroOut();
        return;
      }
      var used := IntersectMask(state.bitsUsed, nz);
      ok := nonZero.numBits == used.numBits;
      if ok { AddFieldWrite(); }
      state := state.(bitsUsed := used);
    }

    /** Traces one range of the root's bits back until its value is known, or gives up. */
    method ProcessBackward() returns (ok: bool, ghost trail: seq<NodeState>)
      requires Valid() && Placed(data, state)
      modifies this`state, this`insertList, this`originalValue
      ensures Valid() && state.origLsb == old(state).origLsb && state.field == old(state).field
      ensures Trail(data, trail) && trail[0] == old(state)
      ensures Traced(data, old(Known()), trail)
      ensures Outcome(data, old(Known()), End(trail), old(insertList), insertList, originalValue, ok)
      ensures ok ==> SettledAt(data, Originals(), End(trail), old(insertList), insertList)
    {
      hide WellFormed, SameBits, ClearBits, Recorded, PullsFrom, OneBack, Trail, IntersectMask, IsKnown, Follows, Clears, UsedAfter,
           MayBeSet, Mixed, AddsZero, AddsConstant, AddsVarnode;
      TrailStarts(data, state);
      trail := [state];
      while true
        invariant Valid() && Placed(data, state) && insertList == old(insertList)
        invariant Trail(data, trail) && trail != [] && trail[0] == old(state) && End(trail) == state
        invariant forall i :: 0 <= i < |trail| - 1 ==> Unsettled(data, old(Known()), trail[i])
        invariant originalValue == old(originalValue)
        invariant state.origLsb == old(state).origLsb && state.field == old(state).field
        decreases state.node.value
      {
        var v := state.node.value;
        if data[v].def.Constant? {
          ok := AddConstantWrite();
          return;
        }
        var original := IsOriginalValue();
        if original {
          state := state.(node := None);
          return true, trail;
        }
        if state.field.Some? && FieldAligned(state) {
          AddFieldWrite();
          return true, trail;
        }
        if data[v].def.NoDef? {
          return false, trail;
        }
        if data[v].def.Call? {
          original := TestCallOriginal();
          if original {
            state := state.(node := None);
            return true, trail;
          }
        }
        var move := OneBack(data, state);
        match move {
          case Follow(to, bits, used) =>
            TrailExtends(data, trail);
            state := AfterMove(state, move);
            trail := trail + [state];
          case Zero =>
            ok := AddZeroOut();
            return;
          case Stop =>
            ok := Fallback();
            return;
        }
      }
    }

    /** Processes the work list in order. A range without a field may fail if it is overwritten later;
        the first other range that fails ends the trace. */
    method DoTrace(workList: seq<NodeState>, overwritten: set<int>, verified: bool) returns (ok: bool, ghost runs: seq<Run>)
      requires Valid() && insertList == [] && forall i :: 0 <= i < |workList| ==> Fresh(data, root, workList[i])
      modifies this`state, this`insertList, this`originalValue
      ensures Valid() && Runs(data, Originals(), workList, runs, insertList) && Chained(runs, old(Known()), originalValue)
      ensures |runs| <= |workList| && if GoesOn(workList, runs, overwritten, |runs|) then |runs| == |workList|
                                      else GoesOn(workList, runs, overwritten, |runs| - 1)
      ensures ok <==> GoesOn(workList, runs, overwritten, |runs|) && insertList != [] && verified
      ensures ok && ExactRuns(data, Originals(), runs) ==> Rebuilds(data, root, Originals(), workList, runs, insertList)
    {
      hide WellFormed, InMasks, SettledAt, Trail, RunOk, Rebuilds, ExactRun, Outcome, Traced;
      runs := [];
      var i := 0;
      while i < |workList|
        invariant 0 <= i == |runs| <= |workList| && Valid() && Runs(data, Originals(), workList, runs, insertList)
        invariant Chained(runs, old(Known()), originalValue) && GoesOn(workList, runs, overwritten, |runs|)
      {
        state := workList[i];
        ghost var before, src := insertList, Known();
        ghost var trail;
        var done;
        done, trail := ProcessBackward();
        ghost var run := if done then Settled(trail, insertList == before, src, originalValue) else Skipped(trail, src, originalValue);
        RunIsOk(data, workList[i], run, before, insertList);
        RunsExtend(data, Originals(), workList, runs, run, before, insertList);
        ChainExtends(runs, run, old(Known()));
        ghost var runs0 := runs;
        runs := runs + [run];
        if !done && (state.field.Some? || state.origLsb !in overwritten) {
          assert runs[..|runs| - 1] == runs0;
        CannotSkip(workList, runs, overwritten);
          return false, runs;
        }
        assert runs[..|runs| - 1] == runs0;
        MaySkipIt(workList, runs, overwritten);
        i := i + 1;
      }
      ok := insertList != [] && verified;
      if ExactRuns(data, Originals(), runs) { AllRebuild(data, root, Originals(), workList, runs, insertList); }
    }
  }

  /** The whole recovery, for ranges that have bits: when it succeeds and nothing was followed wrongly,
      inserting the records into the original value gives the stored value, but for bits that are
      overwritten later. */
  method Recover(tr: InsertTransform, c: Container, overlap: seq<FieldBits>, overwritten: set<int>, verified: bool)
    returns (ok: bool, ghost workList: seq<NodeState>, ghost runs: seq<Run>)
    requires tr.Valid() && tr.insertList == [] && c.size == tr.data[tr.root].size
    requires Positive(overlap) && Sized(c, overlap, |overlap|)
    modifies tr
    ensures tr.Valid() && Runs(tr.data, tr.Originals(), workList, runs, tr.insertList)
    ensures Covers(workList, 8 * c.size) && Chained(runs, old(tr.Known()), tr.originalValue)
    ensures |runs| <= |workList| && if GoesOn(workList, runs, overwritten, |runs|) then |runs| == |workList|
                                    else GoesOn(workList, runs, overwritten, |runs| - 1)
    ensures ok <==> GoesOn(workList, runs, overwritten, |runs|) && tr.insertList != [] && verified
    ensures ok && ExactRuns(tr.data, tr.Originals(), runs) ==>
      Rebuilds(tr.data, tr.root, tr.Originals(), workList, runs, tr.insertList)
    ensures ok && ExactRuns(tr.data, tr.Originals(), runs) && (forall i :: 0 <= i < |runs| ==> runs[i].Settled?) ==>
      RebuildsAll(tr.data, tr.root, tr.Originals(), tr.insertList)
  {
    hide Rebuilds, ExactRuns, Covers, Runs, AllFresh, RebuildsAll, WellFormed;
    ghost var at;
    var list;
    list, at := EstablishFields(tr.data, tr.root, c, overlap, true);
    workList := list;
    FreshRanges(tr.data, tr.root, list);
    ok, runs := tr.DoTrace(list, overwritten, verified);
    if ok && ExactRuns(tr.data, tr.Originals(), runs) && forall i :: 0 <= i < |runs| ==> runs[i].Settled? {
      AllSettled(tr.data, tr.root, tr.Originals(), list, runs, tr.insertList, 8 * c.size);
    }
  }
}
