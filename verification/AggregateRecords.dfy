/** The tagged records an aggregate spills: their row encoding, the order runs
    are merged in, and how a record updates the states of its group. */
module AggregateRecords {
  import opened Values
  import opened StableOrder
  import opened SpillCodec
  import opened RunMerge
  import opened Spilling
  import opened Grouping
  import opened AggregateStates

  datatype AggregateRecord =
    | Input(values: Row)
    | PercentileCount(index: nat, count: i64)
    | PercentileValue(index: nat, value: Decimal)

  type AggregateRow = Keyed<AggregateRecord>
  type InputRow = Keyed<Row>

  function AsRecord(row: InputRow): AggregateRow { Keyed(row.key, Input(row.item)) }

  // ----- row encoding -----

  /** encode_percentile_record: twice the index, plus one for a value. */
  function PercentileTag(index: nat, valueRecord: bool): Result<i64>
  {
    var tag := 2 * index + if valueRecord then 1 else 0;
    if tag > I64_MAX then Err(InvalidArgument) else Ok(tag)
  }

  /** encode_aggregate_input_record and encode_percentile_record */
  function EncodeRecord(row: AggregateRow): Result<Row>
  {
    match row.item
    case Input(values) => Ok(row.key + ([Int64(-1)] + values))
    case PercentileCount(index, count) =>
      var tag :- PercentileTag(index, false);
      Ok(row.key + [Int64(tag), Int64(count)])
    case PercentileValue(index, value) =>
      var tag :- PercentileTag(index, true);
      Ok(row.key + [Int64(tag), Decimal(value)])
  }

  /** decode_aggregate_record */
  function DecodePayload(payload: Row, aggs: seq<AggregateFunction>): Result<AggregateRecord>
  {
    if payload == [] || !payload[0].Int64? then Err(Corrupt)
    else
      var tag, rest := payload[0].i, payload[1..];
      if tag == -1 then if |rest| != |aggs| then Err(Corrupt) else Ok(Input(rest))
      else if tag < 0 || tag / 2 >= |aggs| || aggs[tag / 2] != PercentileCont || |rest| != 1 then Err(Corrupt)
      else if tag % 2 == 0 then
        if rest[0].Int64? && rest[0].i >= 0 then Ok(PercentileCount(tag / 2, rest[0].i)) else Err(Corrupt)
      else if rest[0].Decimal? then Ok(PercentileValue(tag / 2, rest[0].d))
      else Err(Corrupt)
  }

  /** decode_aggregate_spill_row: a tag and at least one payload value. */
  function DecodeRecord(row: Row, groupCount: nat, aggs: seq<AggregateFunction>): Result<AggregateRow>
  {
    if |row| < groupCount + 2 then Err(Corrupt)
    else
      var record :- DecodePayload(row[groupCount..], aggs);
      Ok(Keyed(row[..groupCount], record))
  }

  /** A record that belongs to these aggregates. */
  ghost predicate RecordShape(row: AggregateRow, groupCount: nat, aggs: seq<AggregateFunction>)
  {
    && |row.key| == groupCount && WellFormedRow(row.key)
    && match row.item
       case Input(values) => |values| == |aggs| && WellFormedRow(values)
       case PercentileCount(index, count) => index < |aggs| && aggs[index] == PercentileCont && count >= 0
       case PercentileValue(index, _) => index < |aggs| && aggs[index] == PercentileCont
  }

  ghost predicate RecordsShape(rows: seq<AggregateRow>, groupCount: nat, aggs: seq<AggregateFunction>)
  {
    forall i :: 0 <= i < |rows| ==> RecordShape(rows[i], groupCount, aggs)
  }

  /** What the spiller writes decodes back, unless it is an input record of an
      aggregation without aggregate functions, which the decoder rejects. */
  lemma DecodesIff(row: AggregateRow, groupCount: nat, aggs: seq<AggregateFunction>)
    requires RecordShape(row, groupCount, aggs) && EncodeRecord(row).Ok?
    ensures DecodeRecord(EncodeRecord(row).value, groupCount, aggs) == Ok(row) <==> !(row.item.Input? && aggs == [])
    ensures row.item.Input? && aggs == [] ==> DecodeRecord(EncodeRecord(row).value, groupCount, aggs) == Err(Corrupt)
  {
    var encoded := EncodeRecord(row).value;
    if |encoded| >= groupCount + 2 {
      assert encoded[..groupCount] == row.key;
      var payload := encoded[groupCount..];
      match row.item
      case Input(values) =>
        assert payload == [Int64(-1)] + values;
        assert payload[1..] == values;
      case PercentileCount(index, count) =>
        assert payload == [Int64(2 * index), Int64(count)];
        assert payload[1..] == [Int64(count)];
      case PercentileValue(index, value) =>
        assert payload == [Int64(2 * index + 1), Decimal(value)];
        assert payload[1..] == [Decimal(value)];
    }
  }

  /** aggregate_row_charge */
  function RecordCharge(row: AggregateRow): Result<nat>
  {
    match row.item
    case Input(values) => ValuesCharge(row.key + values)
    case PercentileCount(_, count) => ValuesCharge(row.key + [Int64(count)])
    case PercentileValue(_, value) => ValuesCharge(row.key + [Decimal(value)])
  }

  /** A record is charged for its key and for what it carries. */
  lemma RecordChargeMeans(row: AggregateRow)
    ensures RecordCharge(row) ==
            Charged(64 + ApproxTotal(row.key) +
                    match row.item
                    case Input(values) => ApproxTotal(values)
                    case PercentileCount(_, _) => 16
                    case PercentileValue(_, _) => 24)
  {
    var carried := match row.item
      case Input(values) => values
      case PercentileCount(_, count) => [Int64(count)]
      case PercentileValue(_, value) => [Decimal(value)];
    ValuesChargeMeans(row.key + carried);
    ApproxTotalAppend(row.key, carried);
    if !row.item.Input? { assert carried[..0] == []; }
  }

  function FrameRecord(row: AggregateRow): Result<seq<u8>>
  {
    var encoded :- EncodeRecord(row);
    FrameRow(encoded)
  }

  function ReadRecord(groupCount: nat, aggs: seq<AggregateFunction>, file: seq<u8>): Result<Option<(AggregateRow,
                                                                                                    seq<u8>)>>
  {
    var next :- ReadRow(file);
    if next.None? then Ok(None)
    else
      var row :- DecodeRecord(next.value.0, groupCount, aggs);
      Ok(Some((row, next.value.1)))
  }

  function AggregateFormat(groupCount: nat, aggs: seq<AggregateFunction>): RunFormat<AggregateRow>
  {
    RunFormat(FrameRecord, (file: seq<u8>) => ReadRecord(groupCount, aggs, file), RecordCharge)
  }

  lemma EncodedWellFormed(row: AggregateRow, groupCount: nat, aggs: seq<AggregateFunction>)
    requires RecordShape(row, groupCount, aggs) && EncodeRecord(row).Ok?
    ensures WellFormedRow(EncodeRecord(row).value)
  {
  }

  /** Every record of an aggregation with at least one function reads back. */
  lemma AggregateFormatFaithful(rows: seq<AggregateRow>, groupCount: nat, aggs: seq<AggregateFunction>)
    requires RecordsShape(rows, groupCount, aggs) && aggs != []
    ensures Faithful(AggregateFormat(groupCount, aggs), rows)
  {
    var format := AggregateFormat(groupCount, aggs);
    forall i | 0 <= i < |rows| ensures ReadsBack(format, rows[i]) {
      forall rest | format.frame(rows[i]).Ok?
        ensures format.read(format.frame(rows[i]).value + rest) == Ok(Some((rows[i], rest)))
      {
        RecordReadsBack(rows[i], groupCount, aggs, rest);
      }
    }
  }

  lemma RecordReadsBack(row: AggregateRow, groupCount: nat, aggs: seq<AggregateFunction>, rest: seq<u8>)
    requires RecordShape(row, groupCount, aggs) && aggs != [] && FrameRecord(row).Ok?
    ensures ReadRecord(groupCount, aggs, FrameRecord(row).value + rest) == Ok(Some((row, rest)))
  {
    EncodedWellFormed(row, groupCount, aggs);
    DecodesIff(row, groupCount, aggs);
    ReadFramedRow(EncodeRecord(row).value, rest);
  }

  /** The first row spilled by an aggregation without functions is unreadable. */
  lemma DistinctRunUnreadable(row: AggregateRow, groupCount: nat, rest: seq<u8>)
    requires RecordShape(row, groupCount, []) && FrameRecord(row).Ok?
    ensures ReadRecord(groupCount, [], FrameRecord(row).value + rest) == Err(Corrupt)
  {
    EncodedWellFormed(row, groupCount, []);
    DecodesIff(row, groupCount, []);
    ReadFramedRow(EncodeRecord(row).value, rest);
  }

  // ----- the merge order -----

  function Saturated(n: nat): nat { if n > USIZE_MAX then USIZE_MAX else n }

  /** aggregate_record_rank */
  function RecordRank(r: AggregateRecord): nat
  {
    match r
    case Input(_) => 0
    case PercentileCount(index, _) => Saturated(Saturated(2 * index) + 1)
    case PercentileValue(index, _) => Saturated(Saturated(2 * index) + 2)
  }

  /** compare_aggregate_records */
  function CompareRecords(a: AggregateRow, b: AggregateRow): Result<Ordering>
  {
    var group :- CompareKeyTuples(a.key, b.key);
    if group != Equal then Ok(group)
    else
      var rank := CompareInt(RecordRank(a.item), RecordRank(b.item));
      if rank != Equal then Ok(rank)
      else if a.item.PercentileValue? && b.item.PercentileValue? then
        Ok(CompareInt(a.item.value.digits, b.item.value.digits))
      else Ok(Equal)
  }

  /** Where a record belongs inside its group: inputs, then for each percentile
      its counts before its values, the values by digits. */
  function Place(r: AggregateRecord): (int, int)
  {
    match r
    case Input(_) => (0, 0)
    case PercentileCount(index, _) => (2 * index + 1, 0)
    case PercentileValue(index, value) => (2 * index + 2, value.digits)
  }

  function ComparePlaces(a: (int, int), b: (int, int)): Ordering
  {
    if a.0 != b.0 then CompareInt(a.0, b.0) else CompareInt(a.1, b.1)
  }

  function RecordOrder(a: AggregateRow, b: AggregateRow): Result<Ordering>
  {
    var group :- KeyOrder(a.key, b.key);
    if group != Equal then Ok(group) else Ok(ComparePlaces(Place(a.item), Place(b.item)))
  }

  lemma RecordOrderLaws(a: AggregateRow, b: AggregateRow, c: AggregateRow)
    ensures LawfulAt(RecordOrder, a, b, c)
  {
    KeyOrderLaws(a.key, b.key, c.key);
    KeyOrderLaws(b.key, c.key, a.key);
    KeyOrderLaws(a.key, c.key, b.key);
  }

  /** The tag fits, so the rank does not saturate. */
  predicate SmallIndex(r: AggregateRecord)
  {
    r.Input? || 2 * r.index + 1 <= I64_MAX
  }

  lemma RecordsExtend(a: AggregateRow, b: AggregateRow)
    requires SmallIndex(a.item) && SmallIndex(b.item)
    ensures ExtendsAt(CompareRecords, RecordOrder, a, b)
  {
    KeyOrderLaws(a.key, b.key, []);
    CompareKeyTuplesLaws(a.key, b.key, []);
    RanksArePlaces(a.item, b.item);
  }

  lemma RanksArePlaces(a: AggregateRecord, b: AggregateRecord)
    requires SmallIndex(a) && SmallIndex(b)
    ensures CompareInt(RecordRank(a), RecordRank(b)) == CompareInt(Place(a).0, Place(b).0)
    ensures RecordRank(a) == RecordRank(b) ==> (a.Input? <==> b.Input?) && (a.PercentileValue? <==> b.PercentileValue?)
  {
  }

  // ----- updating states -----

  /** update_aggregate_states, seen from state number j. */
  function RecordUpdate(ops: FloatOps, j: nat, s: AggregateState, r: AggregateRecord): Result<AggregateState>
  {
    match r
    case Input(values) => if s.PercentileState? || j >= |values| then Ok(s) else UpdateState(ops, s, values[j])
    case PercentileCount(index, count) => if index == j then UpdatePercentileCount(s, count) else Ok(s)
    case PercentileValue(index, value) => if index == j then UpdatePercentileValue(s, value) else Ok(s)
  }

  /** State j after all records of a group, in merge order. */
  ghost function FoldRecords(ops: FloatOps, f: AggregateFunction, j: nat, records: seq<AggregateRecord>)
    : Result<AggregateState>
  {
    if records == [] then Ok(Initial(f))
    else
      var s :- FoldRecords(ops, f, j, records[..|records| - 1]);
      RecordUpdate(ops, j, s, records[|records| - 1])
  }

  lemma FoldRecordsLast(ops: FloatOps, f: AggregateFunction, j: nat, records: seq<AggregateRecord>, r: AggregateRecord)
    ensures FoldRecords(ops, f, j, records + [r]) ==
            if FoldRecords(ops, f, j, records).Err? then FoldRecords(ops, f, j, records)
            else RecordUpdate(ops, j, FoldRecords(ops, f, j, records).value, r)
  {
    assert (records + [r])[..|records|] == records;
  }

  /** Every state is what the records so far make of it. */
  ghost predicate StatesFold(ops: FloatOps, aggs: seq<AggregateFunction>, records: seq<AggregateRecord>,
                             states: seq<AggregateState>)
  {
    |states| == |aggs| && forall j :: 0 <= j < |aggs| ==> FoldRecords(ops, aggs[j], j, records) == Ok(states[j])
  }

  /** initial_aggregate_states */
  method InitialStates(ops: FloatOps, aggs: seq<AggregateFunction>) returns (states: seq<AggregateState>)
    ensures StatesFold(ops, aggs, [], states)
    ensures |states| == |aggs| && forall j :: 0 <= j < |aggs| ==> states[j] == Initial(aggs[j])
  {
    states := seq(|aggs|, j requires 0 <= j < |aggs| => Initial(aggs[j]));
  }

  /** update_aggregate_states */
  method UpdateStates(ops: FloatOps, states: seq<AggregateState>, r: AggregateRecord)
    returns (res: Result<seq<AggregateState>>)
    ensures res.Ok? ==> |res.value| == |states|
    ensures res.Ok? ==> forall j :: 0 <= j < |states| ==> RecordUpdate(ops, j, states[j], r) == Ok(res.value[j])
    ensures res.Err? ==>
              !(r.Input? || r.index < |states|) || exists j ::
                0 <= j < |states| && RecordUpdate(ops, j, states[j], r).Err?
  {
    match r
    case Input(values) =>
      var next := states;
      for j := 0 to |states|
        invariant |next| == |states|
        invariant forall i :: 0 <= i < j ==> RecordUpdate(ops, i, states[i], r) == Ok(next[i])
        invariant forall i :: j <= i < |states| ==> next[i] == states[i]
      {
        if j >= |values| { continue; }
        if !next[j].PercentileState? {
          var updated := UpdateState(ops, next[j], values[j]);
          if updated.Err? { return Err(updated.error); }
          next := next[j := updated.value];
        }
      }
      res := Ok(next);
    case PercentileCount(index, count) =>
      if index >= |states| { return Err(Corrupt); }
      var updated := UpdatePercentileCount(states[index], count);
      if updated.Err? { return Err(updated.error); }
      res := Ok(states[index := updated.value]);
    case PercentileValue(index, value) =>
      if index >= |states| { return Err(Corrupt); }
      var updated := UpdatePercentileValue(states[index], value);
      if updated.Err? { return Err(updated.error); }
      res := Ok(states[index := updated.value]);
  }

  lemma StatesFoldLast(ops: FloatOps, aggs: seq<AggregateFunction>, records: seq<AggregateRecord>, r: AggregateRecord,
                       states: seq<AggregateState>, next: seq<AggregateState>)
    requires StatesFold(ops, aggs, records, states) && |next| == |states|
    requires forall j :: 0 <= j < |states| ==> RecordUpdate(ops, j, states[j], r) == Ok(next[j])
    ensures StatesFold(ops, aggs, records + [r], next)
  {
    forall j | 0 <= j < |aggs| ensures FoldRecords(ops, aggs[j], j, records + [r]) == Ok(next[j]) {
      FoldRecordsLast(ops, aggs[j], j, records, r);
    }
  }
}
