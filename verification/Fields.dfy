/**
  The kinds of field the generated messages are made of: what each kind prints, how it merges,
  how long it is, and the runtime routines that write it.
 */
module Fields {
  import opened Wrappers
  import opened Wire
  import opened Utf8

  /** How a parse ended, and where. */
  datatype Status = ParsedAll | EndTag(tag: nat) | ParseError

  /** How one turn of the loop ended. */
  datatype Turn = Continue | Ended(tag: nat) | Error

  // ----- what a field prints -----

  function TextField(field: nat, b: Bytes): seq<Record> {
    if b == [] then [] else [Record(field, Chunk(b))]
  }

  function EnumField(field: nat, x: Int32): seq<Record> {
    if x == 0 then [] else [Record(field, Varint(SignExtend(x)))]
  }

  function OptionalText(field: nat, b: Option<Bytes>): seq<Record> {
    if b.None? then [] else [Record(field, Chunk(b.value))]
  }

  function OptionalInt(field: nat, x: Option<Int32>): seq<Record> {
    if x.None? then [] else [Record(field, Varint(SignExtend(x.value)))]
  }

  function BoolField(field: nat, x: bool): seq<Record> {
    if x then [Record(field, Varint(1))] else []
  }

  // ----- how a field merges -----

  function MergeText(a: Bytes, b: Bytes): Bytes {
    if b == [] then a else b
  }

  function MergeEnum(a: Int32, b: Int32): Int32 {
    if b == 0 then a else b
  }

  function MergeOption<T>(a: Option<T>, b: Option<T>): Option<T> {
    if b.None? then a else b
  }

  // ----- what can be printed -----

  /** A string field the parser accepts: valid UTF-8, shorter than 2 GiB. */
  predicate Printable(b: Bytes) {
    IsUtf8(b) && |b| < MAX_LENGTH
  }

  predicate PrintableOption(b: Option<Bytes>) {
    b.Some? ==> Printable(b.value)
  }

  lemma TextValid(field: nat, b: Bytes)
    requires 1 <= field <= 13 && Printable(b)
    ensures ValidRecords(TextField(field, b)) && ValidRecords(OptionalText(field, Some(b)))
  {
    assert ValidRecord(Record(field, Chunk(b)));
  }

  // ----- how long a field is -----

  /** `StringSize`: a length prefix and the bytes. */
  function StringSize(b: Bytes): nat {
    VarintSize(|b|) + |b|
  }

  /** `EnumSize` and `Int32Size`: ten bytes for a negative value. */
  function Int32Size(x: Int32): nat {
    if x < 0 then 10 else VarintSize(x)
  }

  lemma TextSize(field: nat, b: Bytes)
    requires 1 <= field <= 15
    ensures |EncodeAll([Record(field, Chunk(b))])| == 1 + StringSize(b)
  {
    EncodeAllOne(Record(field, Chunk(b)));
    VarintSizeIsLength(|b|);
    assert |EncodeVarint(8 * field + 2)| == 1;
  }

  lemma IntSize(field: nat, x: Int32)
    requires 1 <= field <= 15
    ensures |EncodeAll([Record(field, Varint(SignExtend(x)))])| == 1 + Int32Size(x)
  {
    EncodeAllOne(Record(field, Varint(SignExtend(x))));
    assert |EncodeVarint(8 * field)| == 1;
    if x < 0 { NegativeInt32TakesTenBytes(x); } else { VarintSizeIsLength(x); }
  }

  function TextFieldSize(b: Bytes): nat {
    if b == [] then 0 else 1 + StringSize(b)
  }

  function EnumFieldSize(x: Int32): nat {
    if x == 0 then 0 else 1 + Int32Size(x)
  }

  function OptionalTextSize(present: bool, b: Bytes): nat {
    if present then 1 + StringSize(b) else 0
  }

  // ----- the same byte by byte -----

  function TextBytes(tag: Byte, b: Bytes): Bytes {
    [tag] + EncodeVarint(|b|) + b
  }

  function NumberBytes(tag: Byte, v: nat): Bytes {
    [tag] + EncodeVarint(v)
  }

  function TextLayout(tag: Byte, b: Bytes): Bytes {
    if b == [] then [] else TextBytes(tag, b)
  }

  function IntLayout(tag: Byte, x: Int32): Bytes {
    if x == 0 then [] else NumberBytes(tag, SignExtend(x))
  }

  function BoolLayout(tag: Byte, x: bool): Bytes {
    if x then [tag, 1] else []
  }

  function OptionalTextLayout(tag: Byte, b: Option<Bytes>): Bytes {
    if b.None? then [] else TextBytes(tag, b.value)
  }

  function OptionalIntLayout(tag: Byte, x: Option<Int32>): Bytes {
    if x.None? then [] else NumberBytes(tag, SignExtend(x.value))
  }

  lemma RecordBytes(field: nat, b: Bytes, v: nat)
    requires 1 <= field <= 15
    ensures EncodeRecord(Record(field, Chunk(b))) == TextBytes(8 * field + 2, b)
    ensures EncodeRecord(Record(field, Varint(v))) == NumberBytes(8 * field, v)
  {
    assert EncodeVarint(8 * field + 2) == [8 * field + 2] && EncodeVarint(8 * field) == [8 * field];
    Associate([8 * field + 2], EncodeVarint(|b|), b);
  }

  lemma TextIs(field: nat, b: Bytes)
    requires 1 <= field <= 15
    ensures EncodeAll(TextField(field, b)) == TextLayout(8 * field + 2, b)
    ensures EncodeAll(OptionalText(field, Some(b))) == TextBytes(8 * field + 2, b)
  {
    RecordBytes(field, b, 0);
    EncodeAllOne(Record(field, Chunk(b)));
    NoRecords();
    hide EncodeAll, EncodeRecord, TextBytes;
  }

  lemma IntIs(field: nat, x: Int32)
    requires 1 <= field <= 15
    ensures EncodeAll(EnumField(field, x)) == IntLayout(8 * field, x)
    ensures EncodeAll(OptionalInt(field, Some(x))) == NumberBytes(8 * field, SignExtend(x))
  {
    RecordBytes(field, [], SignExtend(x));
    EncodeAllOne(Record(field, Varint(SignExtend(x))));
    NoRecords();
    hide EncodeAll, EncodeRecord, NumberBytes;
  }

  lemma BoolIs(field: nat, x: bool)
    requires 1 <= field <= 15
    ensures EncodeAll(BoolField(field, x)) == BoolLayout(8 * field, x)
  {
    RecordBytes(field, [], 1);
    EncodeAllOne(Record(field, Varint(1)));
    NoRecords();
    assert EncodeVarint(1) == [1];
  }

  lemma Associate(a: Bytes, b: Bytes, c: Bytes)
    ensures a + (b + c) == (a + b) + c
  {}

  // ----- writing -----

  /** A string field without presence: skipped when empty. */
  method WriteText(field: nat, b: Bytes, target: Bytes) returns (out: Bytes)
    ensures out == target + EncodeAll(TextField(field, b))
  {
    out := target;
    if b != [] {
      out := WritePresentText(field, b, out);
    }
  }

  method WriteOptionalText(field: nat, present: bool, b: Bytes, target: Bytes) returns (out: Bytes)
    ensures out == target + EncodeAll(OptionalText(field, if present then Some(b) else None))
  {
    out := target;
    if present {
      out := WritePresentText(field, b, out);
    }
  }

  method WritePresentText(field: nat, b: Bytes, target: Bytes) returns (out: Bytes)
    ensures out == target + EncodeAll([Record(field, Chunk(b))])
  {
    EncodeAllOne(Record(field, Chunk(b)));
    out := target + EncodeVarint(8 * field + 2);
    out := out + EncodeVarint(|b|);
    out := out + b;
  }

  /** An enum field without presence: skipped when zero. */
  method WriteEnum(field: nat, x: Int32, target: Bytes) returns (out: Bytes)
    ensures out == target + EncodeAll(EnumField(field, x))
  {
    out := target;
    if x != 0 {
      out := WriteInt32(field, x, out);
    }
  }

  method WriteOptionalInt32(field: nat, present: bool, x: Int32, target: Bytes) returns (out: Bytes)
    ensures out == target + EncodeAll(OptionalInt(field, if present then Some(x) else None))
  {
    out := target;
    if present {
      out := WriteInt32(field, x, out);
    }
  }

  method WriteInt32(field: nat, x: Int32, target: Bytes) returns (out: Bytes)
    ensures out == target + EncodeAll([Record(field, Varint(SignExtend(x)))])
  {
    EncodeAllOne(Record(field, Varint(SignExtend(x))));
    out := target + EncodeVarint(8 * field);
    out := out + EncodeVarint(SignExtend(x));
  }

  /** A bool field without presence: one byte, skipped when false. */
  method WriteBool(field: nat, x: bool, target: Bytes) returns (out: Bytes)
    ensures out == target + EncodeAll(BoolField(field, x))
  {
    out := target;
    if x {
      EncodeAllOne(Record(field, Varint(1)));
      out := out + EncodeVarint(8 * field);
      out := out + [1];
    }
  }

  lemma EncodeAllSnoc(rs: seq<Record>, i: nat)
    requires i < |rs|
    ensures EncodeAll(rs[..i + 1]) == EncodeAll(rs[..i]) + EncodeRecord(rs[i])
  {
    assert rs[..i + 1] == rs[..i] + [rs[i]];
    EncodeAllConcat(rs[..i], [rs[i]]);
    EncodeAllOne(rs[i]);
  }

  lemma EncodeWhole(rs: seq<Record>)
    ensures EncodeAll(rs[..0]) == [] && rs[..|rs|] == rs
  {}

  method WriteUnknown(rs: seq<Record>, target: Bytes) returns (out: Bytes)
    ensures out == target + EncodeAll(rs)
  {
    EncodeWhole(rs);
    hide EncodeAll;
    hide EncodeRecord;
    out := target;
    for i := 0 to |rs|
      invariant out == target + EncodeAll(rs[..i])
    {
      EncodeAllSnoc(rs, i);
      out := out + EncodeRecord(rs[i]);
    }
  }

  method UnknownSize(rs: seq<Record>) returns (n: nat)
    ensures n == |EncodeAll(rs)|
  {
    EncodeWhole(rs);
    hide EncodeAll;
    n := 0;
    for i := 0 to |rs|
      invariant n == |EncodeAll(rs[..i])|
    {
      EncodeAllSnoc(rs, i);
      VarintSizeIsLength(Tag(rs[i]));
      n := n + VarintSize(Tag(rs[i])) + |EncodePayload(rs[i].payload)|;
    }
  }

  // ----- printing a message field by field -----

  /** The records of fields k to `last` of a message. */
  function FieldsFrom<M>(fields: (M, nat) -> seq<Record>, last: nat, b: M, k: nat): seq<Record>
    decreases last + 1 - k
  {
    if k > last then [] else fields(b, k) + FieldsFrom(fields, last, b, k + 1)
  }

  function FieldSize<M>(fields: (M, nat) -> seq<Record>, b: M, k: nat): nat {
    |EncodeAll(fields(b, k))|
  }

  lemma FieldStep<M>(fields: (M, nat) -> seq<Record>, last: nat, b: M, k: nat)
    requires k <= last
    ensures EncodeAll(FieldsFrom(fields, last, b, k)) ==
            EncodeAll(fields(b, k)) + EncodeAll(FieldsFrom(fields, last, b, k + 1))
    ensures |EncodeAll(FieldsFrom(fields, last, b, k))| ==
            FieldSize(fields, b, k) + |EncodeAll(FieldsFrom(fields, last, b, k + 1))|
  {
    EncodeAllConcat(fields(b, k), FieldsFrom(fields, last, b, k + 1));
    hide EncodeAll;
  }

  lemma NoRecords()
    ensures EncodeAll([]) == []
  {
  }

  lemma NoFields<M>(fields: (M, nat) -> seq<Record>, last: nat, b: M)
    ensures EncodeAll(FieldsFrom(fields, last, b, last + 1)) == []
  {
  }

  /** Fields before number k have been printed behind `start`. */
  ghost predicate PrintedUpTo<M>(
      fields: (M, nat) -> seq<Record>, last: nat, b: M, k: nat, start: Bytes, target: Bytes)
  {
    target + EncodeAll(FieldsFrom(fields, last, b, k)) == start + EncodeAll(FieldsFrom(fields, last, b, 1))
  }

  lemma Printed<M>(
      fields: (M, nat) -> seq<Record>, last: nat, b: M, k: nat, start: Bytes, before: Bytes, after: Bytes)
    requires k <= last && PrintedUpTo(fields, last, b, k, start, before)
    requires after == before + EncodeAll(fields(b, k))
    ensures PrintedUpTo(fields, last, b, k + 1, start, after)
  {
    hide EncodeAll, FieldsFrom;
    FieldStep(fields, last, b, k);
    Associate(before, EncodeAll(fields(b, k)), EncodeAll(FieldsFrom(fields, last, b, k + 1)));
  }

  lemma NothingPrinted<M>(fields: (M, nat) -> seq<Record>, last: nat, b: M, start: Bytes)
    ensures PrintedUpTo(fields, last, b, 1, start, start)
  {
  }

  lemma AllPrinted<M>(fields: (M, nat) -> seq<Record>, last: nat, b: M, start: Bytes, target: Bytes)
    requires PrintedUpTo(fields, last, b, last + 1, start, target)
    ensures target == start + EncodeAll(FieldsFrom(fields, last, b, 1))
  {
    NoFields(fields, last, b);
    hide EncodeAll, FieldsFrom;
    assert target + [] == target;
  }
}
