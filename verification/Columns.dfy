/** Typed chunk columns with validity, and the chunks they form. */
module Columns {
  import opened Values

  /** Bit i set means row i is not NULL; no bitmap means that every row is valid. */
  type Validity = Option<seq<bool>>
  type ColumnScale = x: int | 0 <= x <= MAX_SCALE

  datatype Column =
    | Int64s(ints: seq<i64>, validity: Validity)
    | Float64s(floats: seq<u64>, validity: Validity)
    | Bools(bools: seq<bool>, validity: Validity)
    | Timestamps(times: seq<i64>, validity: Validity)
    | Decimals(digits: seq<i128>, scale: ColumnScale, validity: Validity)
    | Boxed(values: seq<Value>)

  function Len(c: Column): nat
  {
    match c
    case Int64s(v, _) => |v|
    case Float64s(v, _) => |v|
    case Bools(v, _) => |v|
    case Timestamps(v, _) => |v|
    case Decimals(v, _, _) => |v|
    case Boxed(v) => |v|
  }

  predicate IsValid(validity: Validity, row: nat)
  {
    validity.None? || (row < |validity.value| && validity.value[row])
  }

  predicate ValidAt(c: Column, row: nat)
  {
    c.Boxed? || IsValid(c.validity, row)
  }

  /** Column::value_at */
  function ValueAt(c: Column, row: nat): (v: Value)
    requires row < Len(c)
    ensures !c.Boxed? ==> (v.Null? <==> !ValidAt(c, row))
  {
    if !ValidAt(c, row) then Null
    else match c
      case Int64s(vs, _) => Int64(vs[row])
      case Float64s(vs, _) => Float64(vs[row])
      case Bools(vs, _) => Bool(vs[row])
      case Timestamps(vs, _) => Timestamp(vs[row])
      case Decimals(vs, scale, _) => Decimal(Decimal128(vs[row], scale))
      case Boxed(vs) => vs[row]
  }

  /** Every row of the column, materialized. */
  function Materialized(c: Column): (vs: seq<Value>)
    ensures |vs| == Len(c) && forall i :: 0 <= i < |vs| ==> vs[i] == ValueAt(c, i)
  {
    seq(Len(c), i requires 0 <= i < Len(c) => ValueAt(c, i))
  }

  datatype RawChunk = Chunk(columns: seq<Column>, rowCount: nat)

  /** Every column of a chunk has one value per row. */
  predicate Rectangular(c: RawChunk)
  {
    forall i :: 0 <= i < |c.columns| ==> Len(c.columns[i]) == c.rowCount
  }

  type Chunk = c: RawChunk | Rectangular(c) witness Chunk([], 0)

  /** Chunk::column */
  function ColumnOf(c: Chunk, index: nat): (r: Option<Column>)
    ensures r.Some? ==> Len(r.value) == c.rowCount
  {
    if index < |c.columns| then Some(c.columns[index]) else None
  }

  /** What a typed column holds at a row: NULL where its bitmap has no bit, and else
      the row's number under the column's type. */
  lemma ValueAtMeans(c: Column, row: nat)
    requires row < Len(c) && !c.Boxed?
    ensures ValueAt(c, row) == Null <==> c.validity.Some? && (row >= |c.validity.value| || !c.validity.value[row])
    ensures ValueAt(c, row) != Null ==>
              match c
              case Int64s(vs, _) => ValueAt(c, row) == Int64(vs[row])
              case Float64s(vs, _) => ValueAt(c, row) == Float64(vs[row])
              case Bools(vs, _) => ValueAt(c, row) == Bool(vs[row])
              case Timestamps(vs, _) => ValueAt(c, row) == Timestamp(vs[row])
              case Decimals(vs, scale, _) => ValueAt(c, row) == Decimal(Decimal128(vs[row], scale))
              case Boxed(_) => false
  {
  }
}
