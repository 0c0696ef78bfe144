/** The binary row format of spill runs: encoder, decoder and run framing. */
module SpillCodec {
  import opened Values

  const MIN_SPILL_ROW_BYTES := 2
  const MAX_SPILL_ROW_BYTES := 256 * 1024 * 1024
  const SPILL_ROW_MAGIC: seq<u8> := [0x44, 0x56, 0x4E, 0x53, 0x50, 0x52, 0x4F, 0x57] // "DVNSPROW"
  const SPILL_ROW_FORMAT_VERSION := 1
  const U32_LIMIT := 0x1_0000_0000

  // ----- little-endian integers -----

  function Pow256(w: nat): (p: nat)
    ensures p >= 1
  {
    if w == 0 then 1 else 256 * Pow256(w - 1)
  }

  lemma PowValues()
    ensures Pow256(1) == 0x100 && Pow256(2) == 0x1_0000 && Pow256(4) == 0x1_0000_0000
    ensures Pow256(8) == 0x1_0000_0000_0000_0000
    ensures Pow256(16) == 0x1_0000_0000_0000_0000_0000_0000_0000_0000
  {
    assert Pow256(4) == 256 * (256 * Pow256(2));
    assert Pow256(6) == 256 * (256 * Pow256(4));
    assert Pow256(8) == 256 * (256 * Pow256(6));
    assert Pow256(10) == 256 * (256 * Pow256(8));
    assert Pow256(12) == 256 * (256 * Pow256(10));
    assert Pow256(14) == 256 * (256 * Pow256(12));
    assert Pow256(16) == 256 * (256 * Pow256(14));
  }

  function ToLe(n: nat, w: nat): (b: seq<u8>)
    ensures |b| == w
  {
    if w == 0 then [] else [n % 256] + ToLe(n / 256, w - 1)
  }

  function FromLe(b: seq<u8>): (n: nat)
    ensures n < Pow256(|b|)
  {
    if b == [] then 0 else b[0] + 256 * FromLe(b[1..])
  }

  lemma {:induction false} FromToLe(n: nat, w: nat)
    requires n < Pow256(w)
    ensures FromLe(ToLe(n, w)) == n
  {
    if w > 0 {
      FromToLe(n / 256, w - 1);
      assert ToLe(n, w)[1..] == ToLe(n / 256, w - 1);
    }
  }

  lemma {:induction false} ToFromLe(b: seq<u8>)
    ensures ToLe(FromLe(b), |b|) == b
  {
    if b != [] {
      ToFromLe(b[1..]);
      assert FromLe(b) % 256 == b[0] && FromLe(b) / 256 == FromLe(b[1..]);
    }
  }

  /** Two's complement over `w` bytes. */
  function ToSigned(v: int, w: nat): (b: seq<u8>)
    requires -(Pow256(w) as int) <= v
    ensures |b| == w
  {
    ToLe(if v < 0 then v + Pow256(w) else v, w)
  }

  function FromSigned(b: seq<u8>): (v: int)
    ensures 2 * v < Pow256(|b|) && 2 * v >= -(Pow256(|b|) as int)
  {
    var n := FromLe(b);
    if 2 * n < Pow256(|b|) then n else n - Pow256(|b|)
  }

  lemma FromToSigned(v: int, w: nat)
    requires 2 * v < Pow256(w) && 2 * v >= -(Pow256(w) as int)
    ensures FromSigned(ToSigned(v, w)) == v
  {
    FromToLe(if v < 0 then v + Pow256(w) else v, w);
  }

  lemma ToFromSigned(b: seq<u8>)
    ensures ToSigned(FromSigned(b), |b|) == b
  {
    ToFromLe(b);
  }

  // ----- what the constructors behind the decoder accept -----

  predicate Continuation(b: u8) { 0x80 <= b <= 0xBF }

  /** Well-formed UTF-8, by the byte sequences of table 3-7 of the Unicode standard. */
  predicate IsUtf8(s: seq<u8>)
  {
    if s == [] then true
    else if s[0] <= 0x7F then IsUtf8(s[1..])
    else if 0xC2 <= s[0] <= 0xDF then |s| >= 2 && Continuation(s[1]) && IsUtf8(s[2..])
    else if 0xE0 <= s[0] <= 0xEF then
      && |s| >= 3 && Continuation(s[1]) && Continuation(s[2])
      && (s[0] == 0xE0 ==> 0xA0 <= s[1]) && (s[0] == 0xED ==> s[1] <= 0x9F)
      && IsUtf8(s[3..])
    else if 0xF0 <= s[0] <= 0xF4 then
      && |s| >= 4 && Continuation(s[1]) && Continuation(s[2]) && Continuation(s[3])
      && (s[0] == 0xF0 ==> 0x90 <= s[1]) && (s[0] == 0xF4 ==> s[1] <= 0x8F)
      && IsUtf8(s[4..])
    else false
  }

  predicate IsFinite(bits: u64) { bits / 0x10_0000_0000_0000 % 0x800 != 0x7FF }

  /** GeoPoint::from_canonical on the bit patterns of latitude and longitude;
      the constants are the patterns of 90.0 and 180.0. */
  predicate IsCanonicalPoint(lat: u64, lng: u64)
  {
    && IsFinite(lat) && IsFinite(lng)
    && -1 - 0x4056_8000_0000_0000 <= TotalOrderKey(lat) <= 0x4056_8000_0000_0000
    && -1 - 0x4066_8000_0000_0000 <= TotalOrderKey(lng) < 0x4066_8000_0000_0000
    && (lat % 0x8000_0000_0000_0000 == 0x4056_8000_0000_0000 ==> lng % 0x8000_0000_0000_0000 == 0)
  }

  /** The invariants that the engine's own constructors maintain. */
  predicate WellFormed(v: Value)
  {
    match v
    case String(s) => IsUtf8(s)
    case Json(s) => IsUtf8(s)
    case GeoPoint(lat, lng) => IsCanonicalPoint(lat, lng)
    case _ => true
  }

  predicate WellFormedRow(row: Row)
  {
    forall i :: 0 <= i < |row| ==> WellFormed(row[i])
  }

  // ----- encoding -----

  function EncodeLen(n: nat): (r: Result<seq<u8>>)
    ensures r.Ok? <==> n < U32_LIMIT
    ensures r.Ok? ==> |r.value| == 4
  {
    if n < U32_LIMIT then Ok(ToLe(n, 4)) else Err(InvalidArgument)
  }

  function EncodeBlob(tag: u8, b: seq<u8>): Result<seq<u8>>
  {
    var len :- EncodeLen(|b|);
    Ok([tag] + len + b)
  }

  function EncodeElements(v: seq<u32>): (b: seq<u8>)
    ensures |b| == 4 * |v|
  {
    if v == [] then [] else ToLe(v[0], 4) + EncodeElements(v[1..])
  }

  function EncodeValue(v: Value): (r: Result<seq<u8>>)
    ensures r.Ok? ==> |r.value| >= 1
  {
    PowValues();
    match v
    case Null => Ok([0])
    case Bool(b) => Ok([1, if b then 1 else 0])
    case Int64(i) => Ok([2] + ToSigned(i, 8))
    case Float64(bits) => Ok([3] + ToLe(bits, 8))
    case String(s) => EncodeBlob(4, s)
    case Vector(e) => var len :- EncodeLen(|e|); Ok([5] + len + EncodeElements(e))
    case GeoPoint(lat, lng) => Ok([6] + ToLe(lat, 8) + ToLe(lng, 8))
    case Timestamp(t) => Ok([7] + ToSigned(t, 8))
    case Bytes(s) => EncodeBlob(8, s)
    case Decimal(d) => Ok([9] + ToSigned(d.digits, 16) + [d.scale])
    case Json(s) => EncodeBlob(10, s)
  }

  /** Concatenated encodings of a counted list. */
  function PrintAll<T>(encode1: T -> Result<seq<u8>>, xs: seq<T>): (r: Result<seq<u8>>)
  {
    if xs == [] then Ok([])
    else
      var head :- encode1(xs[0]);
      var tail :- PrintAll(encode1, xs[1..]);
      Ok(head + tail)
  }

  /** encode_spill_row: magic, version, body length, then the counted values. */
  function EncodeRow(row: Row): (r: Result<seq<u8>>)
    ensures r.Ok? ==> |r.value| >= 18
  {
    var count :- EncodeLen(|row|);
    var values :- PrintAll(EncodeValue, row);
    var body := count + values;
    var len :- EncodeLen(|body|);
    Ok(SPILL_ROW_MAGIC + ToLe(SPILL_ROW_FORMAT_VERSION, 2) + len + body)
  }

  /** write_spill_row: a length-prefixed payload, refused before any byte is
      written when its length is outside the readable range. */
  function FrameRow(row: Row): (r: Result<seq<u8>>)
    ensures r.Ok? ==> |r.value| >= 4 + MIN_SPILL_ROW_BYTES
  {
    var payload :- EncodeRow(row);
    if MIN_SPILL_ROW_BYTES <= |payload| <= MAX_SPILL_ROW_BYTES then Ok(ToLe(|payload|, 4) + payload)
    else Err(InvalidArgument)
  }

  /** write_spill_rows: the contents of one run. */
  function FrameRows(rows: seq<Row>): (r: Result<seq<u8>>)
  {
    PrintAll(FrameRow, rows)
  }

  // ----- decoding -----

  type Parsed<T> = Result<(T, seq<u8>)>

  function Take(s: seq<u8>, n: nat): (r: Parsed<seq<u8>>)
    ensures r.Ok? <==> n <= |s|
    ensures r.Ok? ==> |r.value.0| == n && s == r.value.0 + r.value.1
  {
    if n > |s| then Err(Corrupt) else Ok((s[..n], s[n..]))
  }

  function ReadLe(s: seq<u8>, w: nat): Parsed<nat>
  {
    var t :- Take(s, w);
    Ok((FromLe(t.0), t.1))
  }

  function ReadSigned(s: seq<u8>, w: nat): Parsed<int>
  {
    var t :- Take(s, w);
    Ok((FromSigned(t.0), t.1))
  }

  function ReadBlob(s: seq<u8>): Parsed<seq<u8>>
  {
    var len :- ReadLe(s, 4);
    Take(len.1, len.0)
  }

  function ReadText(s: seq<u8>): Parsed<seq<u8>>
  {
    var blob :- ReadBlob(s);
    if IsUtf8(blob.0) then Ok(blob) else Err(Corrupt)
  }

  function DecodeElements(b: seq<u8>): (v: seq<u32>)
    requires |b| % 4 == 0
    ensures 4 * |v| == |b|
  {
    if b == [] then []
    else
      PowValues();
      [FromLe(b[..4])] + DecodeElements(b[4..])
  }

  function DecodeValue(s: seq<u8>): (r: Parsed<Value>)
  {
    PowValues();
    var t :- ReadLe(s, 1);
    var (tag, s) := t;
    if tag == 0 then Ok((Null, s))
    else if tag == 1 then
      var b :- ReadLe(s, 1);
      if b.0 > 1 then Err(Corrupt) else Ok((Bool(b.0 == 1), b.1))
    else if tag == 2 then var i :- ReadSigned(s, 8); Ok((Int64(i.0), i.1))
    else if tag == 3 then var f :- ReadLe(s, 8); Ok((Float64(f.0), f.1))
    else if tag == 4 then var b :- ReadText(s); Ok((String(b.0), b.1))
    else if tag == 5 then
      var n :- ReadLe(s, 4);
      var b :- Take(n.1, 4 * n.0);
      Ok((Vector(DecodeElements(b.0)), b.1))
    else if tag == 6 then
      var lat :- ReadLe(s, 8);
      var lng :- ReadLe(lat.1, 8);
      if IsCanonicalPoint(lat.0, lng.0) then Ok((GeoPoint(lat.0, lng.0), lng.1)) else Err(Corrupt)
    else if tag == 7 then var i :- ReadSigned(s, 8); Ok((Timestamp(i.0), i.1))
    else if tag == 8 then var b :- ReadBlob(s); Ok((Bytes(b.0), b.1))
    else if tag == 9 then
      var digits :- ReadSigned(s, 16);
      var scale :- ReadLe(digits.1, 1);
      if scale.0 > MAX_SCALE then Err(Corrupt)
      else Ok((Value.Decimal(Decimal128(digits.0, scale.0)), scale.1))
    else if tag == 10 then var b :- ReadText(s); Ok((Json(b.0), b.1))
    else Err(Corrupt)
  }

  function ParseAll<T>(decode1: seq<u8> -> Parsed<T>, s: seq<u8>, n: nat): Parsed<seq<T>>
    decreases n
  {
    if n == 0 then Ok(([], s))
    else
      var v :- decode1(s);
      var rest :- ParseAll(decode1, v.1, n - 1);
      Ok(([v.0] + rest.0, rest.1))
  }

  function DecodeBody(body: seq<u8>): Result<Row>
  {
    var n :- ReadLe(body, 4);
    if n.0 > |n.1| then Err(Corrupt)
    else
      var row :- ParseAll(DecodeValue, n.1, n.0);
      if row.1 != [] then Err(Corrupt) else Ok(row.0)
  }

  function DecodeRow(payload: seq<u8>): Result<Row>
  {
    var magic :- Take(payload, 8);
    if magic.0 != SPILL_ROW_MAGIC then Err(Corrupt)
    else
      var version :- ReadLe(magic.1, 2);
      if version.0 != SPILL_ROW_FORMAT_VERSION then Err(Corrupt)
      else
        var len :- ReadLe(version.1, 4);
        if |len.1| != len.0 then Err(Corrupt) else DecodeBody(len.1)
  }

  /** SpillReader::read_row: None at a clean end of file. */
  function ReadRow(file: seq<u8>): Result<Option<(Row, seq<u8>)>>
  {
    if file == [] then Ok(None)
    else
      var len :- ReadLe(file, 4);
      if !(MIN_SPILL_ROW_BYTES <= len.0 <= MAX_SPILL_ROW_BYTES) then Err(Corrupt)
      else
        var payload :- Take(len.1, len.0);
        var row :- DecodeRow(payload.0);
        Ok(Some((row, payload.1)))
  }

  // ----- decoding undoes encoding -----

  lemma TakePrefix(a: seq<u8>, rest: seq<u8>)
    ensures Take(a + rest, |a|) == Ok((a, rest))
  {
    assert (a + rest)[..|a|] == a && (a + rest)[|a|..] == rest;
  }

  lemma ReadLePrefix(n: nat, w: nat, rest: seq<u8>)
    requires n < Pow256(w)
    ensures ReadLe(ToLe(n, w) + rest, w) == Ok((n, rest))
  {
    TakePrefix(ToLe(n, w), rest);
    FromToLe(n, w);
  }

  lemma ReadSignedPrefix(v: int, w: nat, rest: seq<u8>)
    requires 2 * v < Pow256(w) && 2 * v >= -(Pow256(w) as int)
    ensures ReadSigned(ToSigned(v, w) + rest, w) == Ok((v, rest))
  {
    TakePrefix(ToSigned(v, w), rest);
    FromToSigned(v, w);
  }

  lemma ReadBlobPrefix(b: seq<u8>, rest: seq<u8>)
    requires |b| < U32_LIMIT
    ensures ReadBlob(ToLe(|b|, 4) + b + rest) == Ok((b, rest))
  {
    PowValues();
    var len := ToLe(|b|, 4);
    Assoc(len, b, rest);
    ReadLePrefix(|b|, 4, b + rest);
    TakePrefix(b, rest);
  }

  lemma {:induction false} DecodeEncodeElements(v: seq<u32>)
    ensures DecodeElements(EncodeElements(v)) == v
  {
    if v != [] {
      PowValues();
      var b := EncodeElements(v);
      assert b[..4] == ToLe(v[0], 4) && b[4..] == EncodeElements(v[1..]);
      FromToLe(v[0], 4);
      DecodeEncodeElements(v[1..]);
    }
  }

  lemma TagPrefix(tag: u8, rest: seq<u8>)
    ensures ReadLe([tag] + rest, 1) == Ok((tag as nat, rest))
  {
    TakePrefix([tag], rest);
    assert FromLe([tag]) == tag + 256 * FromLe([tag][1..]);
  }

  lemma DecodeEncodeFixed(v: Value, rest: seq<u8>)
    requires v.Null? || v.Bool? || v.Int64? || v.Float64? || v.Timestamp?
    ensures EncodeValue(v).Ok? && DecodeValue(EncodeValue(v).value + rest) == Ok((v, rest))
  {
    PowValues();
    var bytes := EncodeValue(v).value + rest;
    TagPrefix(bytes[0], bytes[1..]);
    assert bytes == [bytes[0]] + bytes[1..];
    match v
    case Null =>
    case Bool(b) =>
      TagPrefix(bytes[1], rest);
      assert bytes[1..] == [bytes[1]] + rest;
    case Int64(i) =>
      assert bytes[1..] == ToSigned(i, 8) + rest;
      ReadSignedPrefix(i, 8, rest);
    case Timestamp(i) =>
      assert bytes[1..] == ToSigned(i, 8) + rest;
      ReadSignedPrefix(i, 8, rest);
    case Float64(f) =>
      assert bytes[1..] == ToLe(f, 8) + rest;
      ReadLePrefix(f, 8, rest);
  }

  lemma DecodeEncodePoint(v: Value, rest: seq<u8>)
    requires v.GeoPoint? && WellFormed(v)
    ensures DecodeValue(EncodeValue(v).value + rest) == Ok((v, rest))
  {
    PowValues();
    var lat, lng := ToLe(v.lat, 8), ToLe(v.lng, 8);
    Assoc([6] + lat, lng, rest);
    Assoc([6], lat, lng + rest);
    TagPrefix(6, lat + (lng + rest));
    ReadLePrefix(v.lat, 8, lng + rest);
    ReadLePrefix(v.lng, 8, rest);
  }

  lemma DecodeEncodeDecimal(v: Value, rest: seq<u8>)
    requires v.Decimal?
    ensures DecodeValue(EncodeValue(v).value + rest) == Ok((v, rest))
  {
    PowValues();
    var digits := ToSigned(v.d.digits, 16);
    Assoc([9] + digits, [v.d.scale], rest);
    Assoc([9], digits, [v.d.scale] + rest);
    TagPrefix(9, digits + ([v.d.scale] + rest));
    ReadSignedPrefix(v.d.digits, 16, [v.d.scale] + rest);
    TagPrefix(v.d.scale, rest);
  }

  lemma DecodeEncodeVector(v: Value, rest: seq<u8>)
    requires v.Vector? && EncodeValue(v).Ok?
    ensures DecodeValue(EncodeValue(v).value + rest) == Ok((v, rest))
  {
    PowValues();
    var len, e := ToLe(|v.elements|, 4), EncodeElements(v.elements);
    Assoc([5] + len, e, rest);
    Assoc([5], len, e + rest);
    TagPrefix(5, len + (e + rest));
    ReadLePrefix(|v.elements|, 4, e + rest);
    TakePrefix(e, rest);
    DecodeEncodeElements(v.elements);
  }

  lemma EncodeBlobPrefix(tag: u8, b: seq<u8>, rest: seq<u8>)
    requires |b| < U32_LIMIT
    ensures EncodeBlob(tag, b).Ok?
    ensures var bytes := EncodeBlob(tag, b).value + rest;
            ReadLe(bytes, 1) == Ok((tag as nat, ToLe(|b|, 4) + b + rest))
  {
    var len := ToLe(|b|, 4);
    Assoc([tag] + len, b, rest);
    Assoc([tag], len, b + rest);
    Assoc(len, b, rest);
    TagPrefix(tag, len + (b + rest));
  }

  lemma DecodeEncodeBlob(v: Value, rest: seq<u8>)
    requires v.String? || v.Bytes? || v.Json?
    requires WellFormed(v) && EncodeValue(v).Ok?
    ensures DecodeValue(EncodeValue(v).value + rest) == Ok((v, rest))
  {
    var b := if v.String? then v.text else if v.Bytes? then v.data else v.json;
    EncodeBlobPrefix(if v.String? then 4 else if v.Bytes? then 8 else 10, b, rest);
    ReadBlobPrefix(b, rest);
  }

  lemma DecodeEncodeValue(v: Value, rest: seq<u8>)
    requires WellFormed(v) && EncodeValue(v).Ok?
    ensures DecodeValue(EncodeValue(v).value + rest) == Ok((v, rest))
  {
    if v.String? || v.Bytes? || v.Json? {
      DecodeEncodeBlob(v, rest);
    } else if v.Vector? {
      DecodeEncodeVector(v, rest);
    } else if v.GeoPoint? {
      DecodeEncodePoint(v, rest);
    } else if v.Decimal? {
      DecodeEncodeDecimal(v, rest);
    } else {
      DecodeEncodeFixed(v, rest);
    }
  }

  lemma {:induction false} ParsePrintAll<T>(encode1: T -> Result<seq<u8>>, decode1: seq<u8> -> Parsed<T>, xs: seq<T>,
                                            rest: seq<u8>)
    requires PrintAll(encode1, xs).Ok?
    requires forall i, tail :: 0 <= i < |xs| && encode1(xs[i]).Ok? ==>
               decode1(encode1(xs[i]).value + tail) == Ok((xs[i], tail))
    ensures ParseAll(decode1, PrintAll(encode1, xs).value + rest, |xs|) == Ok((xs, rest))
  {
    if xs == [] {
      assert PrintAll(encode1, xs).value + rest == rest;
    } else {
      var head, tail := encode1(xs[0]).value, PrintAll(encode1, xs[1..]).value;
      assert head + tail + rest == head + (tail + rest);
      ParsePrintAll(encode1, decode1, xs[1..], rest);
      assert xs == [xs[0]] + xs[1..];
    }
  }

  lemma {:induction false} PrintAllLength<T>(encode1: T -> Result<seq<u8>>, xs: seq<T>)
    requires PrintAll(encode1, xs).Ok?
    requires forall i :: 0 <= i < |xs| && encode1(xs[i]).Ok? ==> |encode1(xs[i]).value| >= 1
    ensures |PrintAll(encode1, xs).value| >= |xs|
  {
    if xs != [] { PrintAllLength(encode1, xs[1..]); }
  }

  lemma DecodeEncodeValues(row: Row)
    requires WellFormedRow(row) && PrintAll(EncodeValue, row).Ok?
    ensures var values := PrintAll(EncodeValue, row).value;
            |values| >= |row| && ParseAll(DecodeValue, values, |row|) == Ok((row, []))
  {
    forall i, tail | 0 <= i < |row| && EncodeValue(row[i]).Ok?
      ensures DecodeValue(EncodeValue(row[i]).value + tail) == Ok((row[i], tail)) {
      DecodeEncodeValue(row[i], tail);
    }
    ParsePrintAll(EncodeValue, DecodeValue, row, []);
    PrintAllLength(EncodeValue, row);
    assert PrintAll(EncodeValue, row).value + [] == PrintAll(EncodeValue, row).value;
  }

  /** Every row the encoder accepts decodes to itself. */
  lemma DecodeEncodeRow(row: Row)
    requires WellFormedRow(row) && EncodeRow(row).Ok?
    ensures DecodeRow(EncodeRow(row).value) == Ok(row)
  {
    PowValues();
    var values := PrintAll(EncodeValue, row).value;
    var body := ToLe(|row|, 4) + values;
    var version, len := ToLe(SPILL_ROW_FORMAT_VERSION, 2), ToLe(|body|, 4);
    assert EncodeRow(row).value == SPILL_ROW_MAGIC + (version + (len + body));
    TakePrefix(SPILL_ROW_MAGIC, version + (len + body));
    ReadLePrefix(SPILL_ROW_FORMAT_VERSION, 2, len + body);
    ReadLePrefix(|body|, 4, body);
    ReadLePrefix(|row|, 4, values);
    DecodeEncodeValues(row);
  }

  /** A framed row is read back whole; its length is never refused. */
  lemma ReadFramedRow(row: Row, rest: seq<u8>)
    requires WellFormedRow(row) && FrameRow(row).Ok?
    ensures ReadRow(FrameRow(row).value + rest) == Ok(Some((row, rest)))
  {
    PowValues();
    var payload := EncodeRow(row).value;
    assert FrameRow(row).value + rest == ToLe(|payload|, 4) + (payload + rest);
    ReadLePrefix(|payload|, 4, payload + rest);
    TakePrefix(payload, rest);
    DecodeEncodeRow(row);
  }

  /** Reads a whole run. */
  function ReadRows(file: seq<u8>): Result<seq<Row>>
    decreases |file|
  {
    var next :- ReadRow(file);
    if next.None? then Ok([])
    else if |next.value.1| >= |file| then Err(Corrupt)
    else
      var rest :- ReadRows(next.value.1);
      Ok([next.value.0] + rest)
  }

  lemma ReadRowsStep(file: seq<u8>, row: Row, rest: seq<u8>)
    requires ReadRow(file) == Ok(Some((row, rest))) && |rest| < |file| && ReadRows(rest).Ok?
    ensures ReadRows(file) == Ok([row] + ReadRows(rest).value)
  {
  }

  /** A run of accepted writes reads back as exactly those rows, then ends. */
  lemma {:induction false} ReadFramedRows(rows: seq<Row>)
    requires forall i :: 0 <= i < |rows| ==> WellFormedRow(rows[i])
    requires FrameRows(rows).Ok?
    ensures ReadRows(FrameRows(rows).value) == Ok(rows)
  {
    if rows != [] {
      var head, tail := FrameRow(rows[0]).value, FrameRows(rows[1..]).value;
      ReadFramedRow(rows[0], tail);
      ReadFramedRows(rows[1..]);
      ReadRowsStep(head + tail, rows[0], tail);
      assert rows == [rows[0]] + rows[1..];
    }
  }

  // ----- encoding undoes decoding -----

  lemma ReadLeExact(s: seq<u8>, w: nat)
    requires ReadLe(s, w).Ok?
    ensures var (n, rest) := ReadLe(s, w).value; n < Pow256(w) && s == ToLe(n, w) + rest
  {
    ToFromLe(s[..w]);
  }

  lemma ReadSignedExact(s: seq<u8>, w: nat)
    requires ReadSigned(s, w).Ok?
    ensures var (v, rest) := ReadSigned(s, w).value;
            2 * v >= -(Pow256(w) as int) && 2 * v < Pow256(w) && s == ToSigned(v, w) + rest
  {
    ToFromSigned(s[..w]);
  }

  lemma ReadBlobExact(s: seq<u8>)
    requires ReadBlob(s).Ok?
    ensures var (b, rest) := ReadBlob(s).value; |b| < U32_LIMIT && s == ToLe(|b|, 4) + b + rest
  {
    PowValues();
    ReadLeExact(s, 4);
  }

  lemma {:induction false} EncodeDecodeElements(b: seq<u8>)
    requires |b| % 4 == 0
    ensures EncodeElements(DecodeElements(b)) == b
  {
    if b != [] {
      PowValues();
      ToFromLe(b[..4]);
      EncodeDecodeElements(b[4..]);
      assert DecodeElements(b)[1..] == DecodeElements(b[4..]);
      assert b == b[..4] + b[4..];
    }
  }

  lemma TagExact(s: seq<u8>)
    requires ReadLe(s, 1).Ok?
    ensures |s| >= 1 && ReadLe(s, 1).value == (s[0] as nat, s[1..]) && s == [s[0]] + s[1..]
  {
    TagPrefix(s[0], s[1..]);
    assert s == [s[0]] + s[1..];
  }

  ghost predicate IsExact(s: seq<u8>)
    requires DecodeValue(s).Ok?
  {
    var (v, rest) := DecodeValue(s).value;
    WellFormed(v) && EncodeValue(v).Ok? && s == EncodeValue(v).value + rest
  }

  /** Whatever the value decoder accepts is the encoding of what it returns. */
  lemma EncodeDecodeValue(s: seq<u8>)
    requires DecodeValue(s).Ok?
    ensures IsExact(s)
  {
    PowValues();
    TagExact(s);
    if s[0] in {4, 8, 10} {
      EncodeDecodeBlob(s);
    } else if s[0] == 5 {
      EncodeDecodeVector(s);
    } else if s[0] in {6, 9} {
      EncodeDecodePair(s);
    } else if s[0] == 1 {
      TagExact(s[1..]);
    } else if s[0] in {2, 7} {
      ReadSignedExact(s[1..], 8);
    } else if s[0] == 3 {
      ReadLeExact(s[1..], 8);
    }
  }

  lemma EncodeDecodeBlob(s: seq<u8>)
    requires DecodeValue(s).Ok? && |s| >= 1 && s[0] in {4, 8, 10}
    ensures IsExact(s)
  {
    TagExact(s);
    ReadBlobExact(s[1..]);
    var (b, rest) := ReadBlob(s[1..]).value;
    Assoc([s[0]], ToLe(|b|, 4) + b, rest);
    Assoc([s[0]], ToLe(|b|, 4), b);
  }

  lemma EncodeDecodePair(s: seq<u8>)
    requires DecodeValue(s).Ok? && |s| >= 1 && s[0] in {6, 9}
    ensures IsExact(s)
  {
    PowValues();
    TagExact(s);
    var t := s[1..];
    if s[0] == 6 {
      ReadLeExact(t, 8);
      var (lat, u) := ReadLe(t, 8).value;
      ReadLeExact(u, 8);
      var (lng, rest) := ReadLe(u, 8).value;
      Assoc(ToLe(lat, 8), ToLe(lng, 8), rest);
      Assoc([s[0]], ToLe(lat, 8) + ToLe(lng, 8), rest);
      Assoc([s[0]], ToLe(lat, 8), ToLe(lng, 8));
    } else {
      ReadSignedExact(t, 16);
      var (digits, u) := ReadSigned(t, 16).value;
      TagExact(u);
      Assoc(ToSigned(digits, 16), [u[0]], u[1..]);
      Assoc([s[0]], ToSigned(digits, 16) + [u[0]], u[1..]);
      Assoc([s[0]], ToSigned(digits, 16), [u[0]]);
    }
  }

  lemma EncodeDecodeVector(s: seq<u8>)
    requires DecodeValue(s).Ok? && |s| >= 1 && s[0] == 5
    ensures IsExact(s)
  {
    PowValues();
    TagExact(s);
    ReadLeExact(s[1..], 4);
    var (n, body) := ReadLe(s[1..], 4).value;
    var (b, rest) := Take(body, 4 * n).value;
    EncodeDecodeElements(b);
    assert |DecodeElements(b)| == n;
    Assoc(ToLe(n, 4), b, rest);
    Assoc([s[0]], ToLe(n, 4) + b, rest);
    Assoc([s[0]], ToLe(n, 4), b);
  }

  lemma {:induction false} PrintParseAll<T(!new)>(encode1: T -> Result<seq<u8>>, decode1: seq<u8> -> Parsed<T>,
                                                  ok: T -> bool, s: seq<u8>, n: nat)
    requires ParseAll(decode1, s, n).Ok?
    requires forall t {:trigger decode1(t)} :: decode1(t).Ok? ==>
               var (v, rest) := decode1(t).value; ok(v) && encode1(v).Ok? && t == encode1(v).value + rest
    ensures var (xs, rest) := ParseAll(decode1, s, n).value;
            |xs| == n && (forall i :: 0 <= i < n ==> ok(xs[i])) && PrintAll(encode1, xs).Ok? &&
            s == PrintAll(encode1, xs).value + rest
    decreases n
  {
    if n > 0 {
      var (v, after) := decode1(s).value;
      PrintParseAll(encode1, decode1, ok, after, n - 1);
      var (tail, rest) := ParseAll(decode1, after, n - 1).value;
      var xs := [v] + tail;
      assert xs[1..] == tail;
    }
  }

  lemma EncodeDecodeValues(s: seq<u8>, n: nat)
    requires ParseAll(DecodeValue, s, n).Ok?
    ensures var (row, rest) := ParseAll(DecodeValue, s, n).value;
            |row| == n && WellFormedRow(row) && PrintAll(EncodeValue, row).Ok? &&
            s == PrintAll(EncodeValue, row).value + rest
  {
    forall t | DecodeValue(t).Ok? ensures IsExact(t) {
      EncodeDecodeValue(t);
    }
    PrintParseAll(EncodeValue, DecodeValue, WellFormed, s, n);
  }

  /** The format is canonical: a payload decodes to at most one row, and that
      row encodes to the very same bytes. */
  lemma EncodeDecodeRow(payload: seq<u8>)
    requires DecodeRow(payload).Ok?
    ensures WellFormedRow(DecodeRow(payload).value)
    ensures EncodeRow(DecodeRow(payload).value) == Ok(payload)
  {
    PowValues();
    var afterMagic := Take(payload, 8).value.1;
    ReadLeExact(afterMagic, 2);
    var afterVersion := ReadLe(afterMagic, 2).value.1;
    ReadLeExact(afterVersion, 4);
    var body := ReadLe(afterVersion, 4).value.1;
    EncodeDecodeBody(body);
    var row := DecodeRow(payload).value;
    var (version, len) := (ToLe(1, 2), ToLe(|body|, 4));
    assert payload == SPILL_ROW_MAGIC + (version + (len + body));
    assert SPILL_ROW_MAGIC + (version + (len + body)) == SPILL_ROW_MAGIC + version + len + body;
  }

  lemma EncodeDecodeBody(body: seq<u8>)
    requires DecodeBody(body).Ok?
    ensures var row := DecodeBody(body).value;
            && |row| < U32_LIMIT && WellFormedRow(row) && PrintAll(EncodeValue, row).Ok?
            && body == ToLe(|row|, 4) + PrintAll(EncodeValue, row).value
  {
    PowValues();
    ReadLeExact(body, 4);
    var (n, values) := ReadLe(body, 4).value;
    EncodeDecodeValues(values, n);
    var row := DecodeBody(body).value;
    assert PrintAll(EncodeValue, row).value + [] == PrintAll(EncodeValue, row).value;
  }

  // ----- the decoder object -----

  /** SpillRowDecoder: consumes its remaining bytes field by field. */
  class SpillRowDecoder {
    var remaining: seq<u8>

    constructor (bytes: seq<u8>)
      ensures remaining == bytes
    {
      remaining := bytes;
    }

    method TakeBytes(n: nat) returns (r: Result<seq<u8>>)
      modifies this
      ensures match Take(old(remaining), n)
              case Ok(p) => r == Ok(p.0) && remaining == p.1
              case Err(e) => r == Err(e) && remaining == old(remaining)
    {
      if n > |remaining| { return Err(Corrupt); }
      r := Ok(remaining[..n]);
      remaining := remaining[n..];
    }

    /** One parse step: advance past what the parser consumed. */
    method Read<T>(decode1: seq<u8> -> Parsed<T>) returns (r: Result<T>)
      modifies this
      ensures match decode1(old(remaining))
              case Ok(p) => r == Ok(p.0) && remaining == p.1
              case Err(e) => r == Err(e)
    {
      var parsed := decode1(remaining);
      if parsed.Err? { return Err(parsed.error); }
      r := Ok(parsed.value.0);
      remaining := parsed.value.1;
    }

    /** The counted loop over the values of a row. */
    method ReadCounted<T>(decode1: seq<u8> -> Parsed<T>, count: nat) returns (r: Result<seq<T>>)
      modifies this
      ensures match ParseAll(decode1, old(remaining), count)
              case Ok(p) => r == Ok(p.0) && remaining == p.1
              case Err(e) => r == Err(e)
    {
      ghost var goal := ParseAll(decode1, remaining, count);
      var out: seq<T> := [];
      if goal.Ok? { assert out + goal.value.0 == goal.value.0; }
      while |out| < count
        invariant |out| <= count
        invariant var rest := ParseAll(decode1, remaining, count - |out|);
                  if goal.Ok? then rest.Ok? && goal.value == (out + rest.value.0, rest.value.1) else rest == goal
        decreases count - |out|
      {
        ghost var before := out;
        var value := Read(decode1);
        if value.Err? { return Err(value.error); }
        out := out + [value.value];
        ghost var rest := ParseAll(decode1, remaining, count - |out|);
        if goal.Ok? { Assoc(before, [value.value], rest.value.0); }
      }
      assert out + [] == out;
      r := Ok(out);
    }

    /** decode_spill_row_body, with both of its length checks. */
    method ReadBody() returns (r: Result<Row>)
      modifies this
      ensures r == DecodeBody(old(remaining))
    {
      var header := TakeBytes(4);
      if header.Err? { return Err(header.error); }
      var count := FromLe(header.value);
      if count > |remaining| { return Err(Corrupt); }
      r := ReadCounted(DecodeValue, count);
      if r.Ok? && remaining != [] { return Err(Corrupt); }
    }
  }
}
