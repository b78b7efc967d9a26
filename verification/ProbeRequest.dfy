/**
  NetifeProbeRequest: the values it stands for, what its printer writes and its parser
  accepts, and the laws tying printer, parser, size and merge together.
 */
module ProbeRequest {
  import opened Wrappers
  import opened Wire
  import opened Utf8
  import opened Fields
  import opened NamedFields
  import opened UnknownFields

  /** The message a caller sees. Optional fields are present or absent; the rest have defaults. */
  datatype Probe = Probe(
    uuid: Bytes,
    requestType: Int32,
    applicationType: Int32,
    protocol: Int32,
    dstIpAddr: Bytes,
    dstIpPort: Bytes,
    srcIpAddr: Bytes,
    srcIpPort: Bytes,
    isRawText: bool,
    uuidSub: Option<Int32>,
    rawText: Bytes,
    pid: Option<Bytes>,
    processName: Option<Bytes>,
    unknown: seq<Record>)

  const CLEARED := Probe([], 0, 0, 0, [], [], [], [], false, None, [], None, None, [])

  // ----- what the parser does with one record -----

  predicate TextNumber(field: nat) {
    field in {1, 5, 6, 7, 8, 11, 12, 13}
  }

  predicate VarintNumber(field: nat) {
    field in {2, 3, 4, 9, 10}
  }

  /** Whether a record has one of the tags the switch names. */
  predicate Known(r: Record) {
    (r.payload.Chunk? && TextNumber(r.field)) || (r.payload.Varint? && VarintNumber(r.field))
  }

  function SetText(m: Probe, field: nat, b: Bytes): Probe
    requires TextNumber(field)
  {
    if field == 1 then m.(uuid := b)
    else if field == 5 then m.(dstIpAddr := b)
    else if field == 6 then m.(dstIpPort := b)
    else if field == 7 then m.(srcIpAddr := b)
    else if field == 8 then m.(srcIpPort := b)
    else if field == 11 then m.(rawText := b)
    else if field == 12 then m.(pid := Some(b))
    else m.(processName := Some(b))
  }

  function SetVarint(m: Probe, field: nat, v: nat): Probe
    requires VarintNumber(field)
  {
    if field == 2 then m.(requestType := ToInt32(v))
    else if field == 3 then m.(applicationType := ToInt32(v))
    else if field == 4 then m.(protocol := ToInt32(v))
    else if field == 9 then m.(isRawText := v != 0)
    else m.(uuidSub := Some(ToInt32(v)))
  }

  /** One turn of the switch; None is the failure of a UTF-8 check. */
  function Apply(m: Probe, r: Record): Option<Probe> {
    if r.payload.Chunk? && TextNumber(r.field) then
      if IsUtf8(r.payload.bytes) then Some(SetText(m, r.field, r.payload.bytes)) else None
    else if r.payload.Varint? && VarintNumber(r.field) then
      Some(SetVarint(m, r.field, r.payload.value))
    else Some(m.(unknown := m.unknown + [r]))
  }

  function ParseProbe(m: Probe, s: Bytes): Outcome<Probe> {
    Parse(Apply, m, s)
  }

  // ----- what the printer writes -----

  /** The records printed for field k; the unknown fields come last, as number 14. */
  function FieldRecords(b: Probe, k: nat): seq<Record> {
    if k == 1 then TextField(1, b.uuid)
    else if k == 2 then EnumField(2, b.requestType)
    else if k == 3 then EnumField(3, b.applicationType)
    else if k == 4 then EnumField(4, b.protocol)
    else if k == 5 then TextField(5, b.dstIpAddr)
    else if k == 6 then TextField(6, b.dstIpPort)
    else if k == 7 then TextField(7, b.srcIpAddr)
    else if k == 8 then TextField(8, b.srcIpPort)
    else if k == 9 then BoolField(9, b.isRawText)
    else if k == 10 then OptionalInt(10, b.uuidSub)
    else if k == 11 then TextField(11, b.rawText)
    else if k == 12 then OptionalText(12, b.pid)
    else if k == 13 then OptionalText(13, b.processName)
    else if k == 14 then b.unknown
    else []
  }

  const LAST := 14

  function RecordsFrom(b: Probe, k: nat): seq<Record> {
    FieldsFrom(FieldRecords, LAST, b, k)
  }

  function Serialize(b: Probe): Bytes {
    EncodeAll(RecordsFrom(b, 1))
  }

  /** Defaults and absent fields of `b` leave `a` alone; unknown fields are appended. */
  function Merge(a: Probe, b: Probe): Probe {
    Probe(
      MergeText(a.uuid, b.uuid),
      MergeEnum(a.requestType, b.requestType),
      MergeEnum(a.applicationType, b.applicationType),
      MergeEnum(a.protocol, b.protocol),
      MergeText(a.dstIpAddr, b.dstIpAddr),
      MergeText(a.dstIpPort, b.dstIpPort),
      MergeText(a.srcIpAddr, b.srcIpAddr),
      MergeText(a.srcIpPort, b.srcIpPort),
      a.isRawText || b.isRawText,
      MergeOption(a.uuidSub, b.uuidSub),
      MergeText(a.rawText, b.rawText),
      MergeOption(a.pid, b.pid),
      MergeOption(a.processName, b.processName),
      a.unknown + b.unknown)
  }

  // ----- which messages can be printed -----

  predicate WellFormed(m: Probe) {
    && Printable(m.uuid)
    && Printable(m.dstIpAddr) && Printable(m.dstIpPort)
    && Printable(m.srcIpAddr) && Printable(m.srcIpPort)
    && Printable(m.rawText)
    && PrintableOption(m.pid) && PrintableOption(m.processName)
    && Unnamed(m.unknown, Known)
  }

  // ----- the laws -----

  lemma FieldRecordsValid(b: Probe, k: nat)
    requires WellFormed(b)
    ensures ValidRecords(FieldRecords(b, k))
  {
    if k == 1 { TextValid(1, b.uuid); }
    else if k == 5 { TextValid(5, b.dstIpAddr); }
    else if k == 6 { TextValid(6, b.dstIpPort); }
    else if k == 7 { TextValid(7, b.srcIpAddr); }
    else if k == 8 { TextValid(8, b.srcIpPort); }
    else if k == 11 { TextValid(11, b.rawText); }
    else if k == 12 { if b.pid.Some? { TextValid(12, b.pid.value); } }
    else if k == 13 { if b.processName.Some? { TextValid(13, b.processName.value); } }
  }

  lemma {:induction false} RecordsValid(b: Probe, k: nat)
    requires WellFormed(b)
    ensures ValidRecords(RecordsFrom(b, k))
    decreases 15 - k
  {
    if k <= 14 {
      FieldRecordsValid(b, k);
      RecordsValid(b, k + 1);
    }
    hide FieldRecords;
    hide ValidRecord;
    hide WellFormed;
  }

  function Keep(m: Probe, rs: seq<Record>): Probe {
    m.(unknown := m.unknown + rs)
  }

  /** Unknown records pass through the switch untouched and in order. */
  lemma FoldUnknown(m: Probe, rs: seq<Record>)
    requires Unnamed(rs, Known)
    ensures Fold(Apply, m, rs) == Some(m.(unknown := m.unknown + rs))
  {
    forall m: Probe {:trigger Keep(m, [])}
      ensures Keep(m, []) == m
    {
      assert m.unknown + [] == m.unknown;
    }
    forall m: Probe, a, b {:trigger Keep(Keep(m, a), b)}
      ensures Keep(Keep(m, a), b) == Keep(m, a + b)
    {
      assert m.unknown + a + b == m.unknown + (a + b);
    }
    FoldUnnamed(Apply, Known, Keep, m, rs);
  }

  /** The effect on `m` of reading back what is printed for field k of `b`. */
  function MergeField(m: Probe, b: Probe, k: nat): Probe {
    if k == 1 then m.(uuid := MergeText(m.uuid, b.uuid))
    else if k == 2 then m.(requestType := MergeEnum(m.requestType, b.requestType))
    else if k == 3 then m.(applicationType := MergeEnum(m.applicationType, b.applicationType))
    else if k == 4 then m.(protocol := MergeEnum(m.protocol, b.protocol))
    else if k == 5 then m.(dstIpAddr := MergeText(m.dstIpAddr, b.dstIpAddr))
    else if k == 6 then m.(dstIpPort := MergeText(m.dstIpPort, b.dstIpPort))
    else if k == 7 then m.(srcIpAddr := MergeText(m.srcIpAddr, b.srcIpAddr))
    else if k == 8 then m.(srcIpPort := MergeText(m.srcIpPort, b.srcIpPort))
    else if k == 9 then m.(isRawText := m.isRawText || b.isRawText)
    else if k == 10 then m.(uuidSub := MergeOption(m.uuidSub, b.uuidSub))
    else if k == 11 then m.(rawText := MergeText(m.rawText, b.rawText))
    else if k == 12 then m.(pid := MergeOption(m.pid, b.pid))
    else if k == 13 then m.(processName := MergeOption(m.processName, b.processName))
    else if k == 14 then m.(unknown := m.unknown + b.unknown)
    else m
  }

  lemma FoldOne(m: Probe, r: Record)
    ensures Fold(Apply, m, [r]) == Apply(m, r)
  {
    assert [r][1..] == [];
  }

  lemma FoldText(m: Probe, field: nat, b: Bytes)
    requires TextNumber(field) && IsUtf8(b)
    ensures Fold(Apply, m, TextField(field, b)) == Some(if b == [] then m else SetText(m, field, b))
    ensures Fold(Apply, m, OptionalText(field, Some(b))) == Some(SetText(m, field, b))
  {
    FoldOne(m, Record(field, Chunk(b)));
  }

  lemma FoldInt(m: Probe, field: nat, x: Int32)
    requires VarintNumber(field) && field != 9
    ensures Fold(Apply, m, EnumField(field, x)) == Some(if x == 0 then m else SetVarint(m, field, SignExtend(x)))
    ensures Fold(Apply, m, OptionalInt(field, Some(x))) == Some(SetVarint(m, field, SignExtend(x)))
    ensures ToInt32(SignExtend(x)) == x
  {
    Int32RoundTrip(x);
    FoldOne(m, Record(field, Varint(SignExtend(x))));
  }

  lemma FoldField(m: Probe, b: Probe, k: nat)
    requires WellFormed(b)
    ensures Fold(Apply, m, FieldRecords(b, k)) == Some(MergeField(m, b, k))
  {
    if k == 1 { FoldText(m, 1, b.uuid); }
    else if k == 2 { FoldInt(m, 2, b.requestType); }
    else if k == 3 { FoldInt(m, 3, b.applicationType); }
    else if k == 4 { FoldInt(m, 4, b.protocol); }
    else if k == 5 { FoldText(m, 5, b.dstIpAddr); }
    else if k == 6 { FoldText(m, 6, b.dstIpPort); }
    else if k == 7 { FoldText(m, 7, b.srcIpAddr); }
    else if k == 8 { FoldText(m, 8, b.srcIpPort); }
    else if k == 9 { FoldOne(m, Record(9, Varint(1))); }
    else if k == 10 { if b.uuidSub.Some? { FoldInt(m, 10, b.uuidSub.value); } }
    else if k == 11 { FoldText(m, 11, b.rawText); }
    else if k == 12 { if b.pid.Some? { FoldText(m, 12, b.pid.value); } }
    else if k == 13 { if b.processName.Some? { FoldText(m, 13, b.processName.value); } }
    else if k == 14 { FoldUnknown(m, b.unknown); }
  }

  lemma FoldStep(m: Probe, b: Probe, k: nat)
    requires WellFormed(b) && k <= 14
    ensures Fold(Apply, m, RecordsFrom(b, k)) == Fold(Apply, MergeField(m, b, k), RecordsFrom(b, k + 1))
  {
    FoldField(m, b, k);
    FoldConcat(Apply, m, FieldRecords(b, k), RecordsFrom(b, k + 1));
  }

  function MergeFrom(m: Probe, b: Probe, k: nat): Probe
    decreases 15 - k
  {
    if k > 14 then m else MergeFrom(MergeField(m, b, k), b, k + 1)
  }

  lemma {:induction false} FoldRecords(m: Probe, b: Probe, k: nat)
    requires WellFormed(b)
    ensures Fold(Apply, m, RecordsFrom(b, k)) == Some(MergeFrom(m, b, k))
    decreases 15 - k
  {
    hide Apply, FieldRecords, MergeField, WellFormed;
    if k <= 14 {
      hide Fold, RecordsFrom;
      FoldStep(m, b, k);
      FoldRecords(MergeField(m, b, k), b, k + 1);
    }
  }

  lemma MergeFromStep(m: Probe, b: Probe, k: nat)
    ensures MergeFrom(m, b, k) == if k > 14 then m else MergeFrom(MergeField(m, b, k), b, k + 1)
  {}

  /** Field by field in wire order, or all at once: the same merge. */
  lemma MergeFromIsMerge(m: Probe, b: Probe)
    ensures MergeFrom(m, b, 1) == Merge(m, b)
  {
    hide MergeText;
    hide MergeEnum;
    hide MergeOption;
    hide MergeFrom;
    var m1 := MergeField(m, b, 1);
    var m2 := MergeField(m1, b, 2);
    var m3 := MergeField(m2, b, 3);
    var m4 := MergeField(m3, b, 4);
    var m5 := MergeField(m4, b, 5);
    var m6 := MergeField(m5, b, 6);
    var m7 := MergeField(m6, b, 7);
    var m8 := MergeField(m7, b, 8);
    var m9 := MergeField(m8, b, 9);
    var m10 := MergeField(m9, b, 10);
    var m11 := MergeField(m10, b, 11);
    var m12 := MergeField(m11, b, 12);
    var m13 := MergeField(m12, b, 13);
    var m14 := MergeField(m13, b, 14);
    assert MergeFrom(m, b, 1) == m14 by {
      hide *;
      MergeFromStep(m, b, 1); MergeFromStep(m1, b, 2); MergeFromStep(m2, b, 3);
      MergeFromStep(m3, b, 4); MergeFromStep(m4, b, 5);
      MergeFromStep(m5, b, 6); MergeFromStep(m6, b, 7); MergeFromStep(m7, b, 8);
      MergeFromStep(m8, b, 9); MergeFromStep(m9, b, 10);
      MergeFromStep(m10, b, 11); MergeFromStep(m11, b, 12); MergeFromStep(m12, b, 13);
      MergeFromStep(m13, b, 14); MergeFromStep(m14, b, 15);
    }
  }

  /**
    The central law: parsing what `b` prints, on top of any message and in front of any
    further input, is merging `b` and then parsing the rest.
   */
  lemma ParseSerialized(m: Probe, b: Probe, rest: Bytes)
    requires WellFormed(b)
    ensures ParseProbe(m, Serialize(b) + rest) == ParseProbe(Merge(m, b), rest)
  {
    RecordsValid(b, 1);
    ParseEncoded(Apply, m, RecordsFrom(b, 1), rest);
    FoldRecords(m, b, 1);
    MergeFromIsMerge(m, b);
  }

  lemma MergeIntoCleared(b: Probe)
    ensures Merge(CLEARED, b) == b
  {
    assert [] + b.unknown == b.unknown;
  }

  /** Parse after serialize is a merge; onto a cleared message it is the identity. */
  lemma RoundTrip(m: Probe, b: Probe)
    requires WellFormed(b)
    ensures ParseProbe(m, Serialize(b)) == Complete(Merge(m, b))
    ensures ParseProbe(CLEARED, Serialize(b)) == Complete(b)
  {
    assert Serialize(b) + [] == Serialize(b);
    ParseSerialized(m, b, []);
    ParseSerialized(CLEARED, b, []);
    MergeIntoCleared(b);
  }

  /** Distinct messages print distinct bytes. */
  lemma SerializeInjective(a: Probe, b: Probe)
    requires WellFormed(a) && WellFormed(b) && Serialize(a) == Serialize(b)
    ensures a == b
  {
    RoundTrip(CLEARED, a);
    RoundTrip(CLEARED, b);
  }

  lemma SetTextKeepsWellFormed(m: Probe, field: nat, b: Bytes)
    requires WellFormed(m) && TextNumber(field) && Printable(b)
    ensures WellFormed(SetText(m, field, b))
  {}

  lemma SetVarintKeepsWellFormed(m: Probe, field: nat, v: nat)
    requires WellFormed(m) && VarintNumber(field)
    ensures WellFormed(SetVarint(m, field, v))
  {}

  lemma ApplyKeepsWellFormed(m: Probe, r: Record)
    requires WellFormed(m) && ValidRecord(r) && Apply(m, r).Some?
    ensures WellFormed(Apply(m, r).value)
  {
    if r.payload.Chunk? && TextNumber(r.field) {
      SetTextKeepsWellFormed(m, r.field, r.payload.bytes);
    } else if r.payload.Varint? && VarintNumber(r.field) {
      SetVarintKeepsWellFormed(m, r.field, r.payload.value);
    }
  }

  /** The parser only builds messages the printer can represent. */
  lemma ParseIsWellFormed(m: Probe, s: Bytes)
    requires WellFormed(m)
    ensures !ParseProbe(m, s).Failed? ==> WellFormed(ParseProbe(m, s).message)
  {
    forall m: Probe, r: Record {:trigger Apply(m, r)} |
      WellFormed(m) && ValidRecord(r) && Apply(m, r).Some?
      ensures WellFormed(Apply(m, r).value)
    {
      ApplyKeepsWellFormed(m, r);
    }
    ParseKeeps(Apply, WellFormed, m, s);
  }

  /** Whatever bytes are accepted, printing the result and parsing again changes nothing. */
  lemma Reparse(s: Bytes)
    requires ParseProbe(CLEARED, s).Complete?
    ensures ParseProbe(CLEARED, Serialize(ParseProbe(CLEARED, s).message)) == ParseProbe(CLEARED, s)
  {
    ParseIsWellFormed(CLEARED, s);
    RoundTrip(CLEARED, ParseProbe(CLEARED, s).message);
  }

  /** A named string has to be UTF-8; nothing else is asked of a record. */
  predicate Accepts(r: Record) {
    Known(r) && r.payload.Chunk? ==> IsUtf8(r.payload.bytes)
  }

  lemma ApplyAccepts(m: Probe, r: Record)
    ensures Apply(m, r).Some? <==> Accepts(r)
    ensures Apply(m, r).Some? ==> Apply(m, r).value.unknown == m.unknown + if Known(r) then [] else [r]
  {
    hide IsUtf8;
  }

  /** Accepted is what splits into records with UTF-8 in every named string; other records are kept in order. */
  lemma AcceptedInputs(m: Probe, s: Bytes)
    ensures ParseProbe(m, s).Complete? <==> RecordsOf(s).Some? && AllAccepted(RecordsOf(s).value, Accepts)
    ensures ParseProbe(m, s).Complete? ==>
            ParseProbe(m, s).message.unknown == m.unknown + Remaining(RecordsOf(s).value, Known)
  {
    forall m: Probe, r: Record {:trigger Apply(m, r)}
      ensures Apply(m, r).Some? <==> Accepts(r)
      ensures Apply(m, r).Some? ==> Apply(m, r).value.unknown == m.unknown + if Known(r) then [] else [r]
    {
      ApplyAccepts(m, r);
    }
    hide Apply, Known, Accepts;
    UnknownFields.AcceptedInputs(Apply, Known, Accepts, (m: Probe) => m.unknown, m, s);
  }

  /** Two printed messages back to back merge left to right ("Last One Wins"). */
  lemma ParseTwoSerialized(a: Probe, b: Probe)
    requires WellFormed(a) && WellFormed(b)
    ensures ParseProbe(CLEARED, Serialize(a) + Serialize(b)) == Complete(Merge(a, b))
  {
    ParseSerialized(CLEARED, a, Serialize(b));
    MergeIntoCleared(a);
    RoundTrip(a, b);
  }

  // ----- the fields on the wire -----

  /** Each string field by its tag, whatever the message and whatever follows; the last one read wins. */
  lemma TextByTag(m: Probe, b: Bytes, rest: Bytes)
    requires |b| < MAX_LENGTH && IsUtf8(b)
    ensures ParseProbe(m, TextBytes(0x0A, b) + rest) == ParseProbe(m.(uuid := b), rest)
    ensures ParseProbe(m, TextBytes(0x2A, b) + rest) == ParseProbe(m.(dstIpAddr := b), rest)
    ensures ParseProbe(m, TextBytes(0x32, b) + rest) == ParseProbe(m.(dstIpPort := b), rest)
    ensures ParseProbe(m, TextBytes(0x3A, b) + rest) == ParseProbe(m.(srcIpAddr := b), rest)
    ensures ParseProbe(m, TextBytes(0x42, b) + rest) == ParseProbe(m.(srcIpPort := b), rest)
    ensures ParseProbe(m, TextBytes(0x5A, b) + rest) == ParseProbe(m.(rawText := b), rest)
    ensures ParseProbe(m, TextBytes(0x62, b) + rest) == ParseProbe(m.(pid := Some(b)), rest)
    ensures ParseProbe(m, TextBytes(0x6A, b) + rest) == ParseProbe(m.(processName := Some(b)), rest)
  {
    hide IsUtf8, TextBytes, Parse;
    forall field: nat | TextNumber(field)
      ensures ParseProbe(m, TextBytes(8 * field + 2, b) + rest) == ParseProbe(SetText(m, field, b), rest)
    {
      RecordBytes(field, b, 0);
      ParseOne(Apply, m, Record(field, Chunk(b)), rest);
    }
    assert TextNumber(1) && TextNumber(5) && TextNumber(6) && TextNumber(7) && TextNumber(8);
    assert TextNumber(11) && TextNumber(12) && TextNumber(13);
  }

  /** A named string that is not UTF-8 ends the parse in an error. */
  lemma BadTextByTag(m: Probe, tag: Byte, b: Bytes, rest: Bytes)
    requires |b| < MAX_LENGTH && !IsUtf8(b) && tag in {0x0A, 0x2A, 0x32, 0x3A, 0x42, 0x5A, 0x62, 0x6A}
    ensures ParseProbe(m, TextBytes(tag, b) + rest) == Failed
  {
    hide IsUtf8, TextBytes, Parse;
    RecordBytes(tag / 8, b, 0);
    ParseOne(Apply, m, Record(tag / 8, Chunk(b)), rest);
  }

  /** Each number field by its tag: any 64-bit value is taken, cut to 32 bits or tested for zero. */
  lemma NumberByTag(m: Probe, v: nat, rest: Bytes)
    requires v < TWO_64
    ensures ParseProbe(m, NumberBytes(0x10, v) + rest) == ParseProbe(m.(requestType := ToInt32(v)), rest)
    ensures ParseProbe(m, NumberBytes(0x18, v) + rest) == ParseProbe(m.(applicationType := ToInt32(v)), rest)
    ensures ParseProbe(m, NumberBytes(0x20, v) + rest) == ParseProbe(m.(protocol := ToInt32(v)), rest)
    ensures ParseProbe(m, NumberBytes(0x48, v) + rest) == ParseProbe(m.(isRawText := v != 0), rest)
    ensures ParseProbe(m, NumberBytes(0x50, v) + rest) == ParseProbe(m.(uuidSub := Some(ToInt32(v))), rest)
  {
    hide ToInt32, NumberBytes, Parse;
    forall field: nat | VarintNumber(field)
      ensures ParseProbe(m, NumberBytes(8 * field, v) + rest) == ParseProbe(SetVarint(m, field, v), rest)
    {
      RecordBytes(field, [], v);
      ParseOne(Apply, m, Record(field, Varint(v)), rest);
    }
    assert VarintNumber(2) && VarintNumber(3) && VarintNumber(4) && VarintNumber(9) && VarintNumber(10);
  }

  /** What is printed, byte by byte: the fields in the order of their numbers, then the unknown records. */
  function Layout(b: Probe): Bytes {
    TextLayout(0x0A, b.uuid) + (IntLayout(0x10, b.requestType) + (IntLayout(0x18, b.applicationType) +
    (IntLayout(0x20, b.protocol) + (TextLayout(0x2A, b.dstIpAddr) + (TextLayout(0x32, b.dstIpPort) +
    (TextLayout(0x3A, b.srcIpAddr) + (TextLayout(0x42, b.srcIpPort) + (BoolLayout(0x48, b.isRawText) +
    (OptionalIntLayout(0x50, b.uuidSub) + (TextLayout(0x5A, b.rawText) + (OptionalTextLayout(0x62, b.pid) +
    (OptionalTextLayout(0x6A, b.processName) + EncodeAll(b.unknown)))))))))))))
  }

  function FieldLayout(b: Probe, k: nat): Bytes {
    if k == 1 then TextLayout(0x0A, b.uuid)
    else if k == 2 then IntLayout(0x10, b.requestType)
    else if k == 3 then IntLayout(0x18, b.applicationType)
    else if k == 4 then IntLayout(0x20, b.protocol)
    else if k == 5 then TextLayout(0x2A, b.dstIpAddr)
    else if k == 6 then TextLayout(0x32, b.dstIpPort)
    else if k == 7 then TextLayout(0x3A, b.srcIpAddr)
    else if k == 8 then TextLayout(0x42, b.srcIpPort)
    else if k == 9 then BoolLayout(0x48, b.isRawText)
    else if k == 10 then OptionalIntLayout(0x50, b.uuidSub)
    else if k == 11 then TextLayout(0x5A, b.rawText)
    else if k == 12 then OptionalTextLayout(0x62, b.pid)
    else if k == 13 then OptionalTextLayout(0x6A, b.processName)
    else if k == 14 then EncodeAll(b.unknown)
    else []
  }

  lemma FieldIs(b: Probe, k: nat)
    ensures EncodeAll(FieldRecords(b, k)) == FieldLayout(b, k)
  {
    hide EncodeAll, TextField, EnumField, BoolField, TextLayout, IntLayout, BoolLayout, TextBytes, NumberBytes;
    NoRecords();
    if k == 1 { TextIs(1, b.uuid); }
    else if k == 2 { IntIs(2, b.requestType); }
    else if k == 3 { IntIs(3, b.applicationType); }
    else if k == 4 { IntIs(4, b.protocol); }
    else if k == 5 { TextIs(5, b.dstIpAddr); }
    else if k == 6 { TextIs(6, b.dstIpPort); }
    else if k == 7 { TextIs(7, b.srcIpAddr); }
    else if k == 8 { TextIs(8, b.srcIpPort); }
    else if k == 9 { BoolIs(9, b.isRawText); }
    else if k == 10 { if b.uuidSub.Some? { IntIs(10, b.uuidSub.value); } }
    else if k == 11 { TextIs(11, b.rawText); }
    else if k == 12 { if b.pid.Some? { TextIs(12, b.pid.value); } }
    else if k == 13 { if b.processName.Some? { TextIs(13, b.processName.value); } }
  }

  lemma LayoutStep(b: Probe, k: nat)
    requires k <= LAST
    ensures EncodeAll(RecordsFrom(b, k)) == FieldLayout(b, k) + EncodeAll(RecordsFrom(b, k + 1))
  {
    hide EncodeAll, FieldRecords, FieldLayout;
    FieldIs(b, k);
    FieldStep(FieldRecords, LAST, b, k);
  }

  lemma SerializeIs(b: Probe)
    ensures Serialize(b) == Layout(b)
  {
    hide EncodeAll, FieldsFrom, TextLayout, IntLayout, BoolLayout, OptionalTextLayout, OptionalIntLayout;
    LayoutStep(b, 1); LayoutStep(b, 2); LayoutStep(b, 3); LayoutStep(b, 4); LayoutStep(b, 5);
    LayoutStep(b, 6); LayoutStep(b, 7); LayoutStep(b, 8); LayoutStep(b, 9); LayoutStep(b, 10);
    LayoutStep(b, 11); LayoutStep(b, 12); LayoutStep(b, 13); LayoutStep(b, 14);
    NoFields(FieldRecords, LAST, b);
    assert EncodeAll(b.unknown) + [] == EncodeAll(b.unknown);
  }

  // ----- when parsing is merging -----

  /** The named fields of `b` over m; unknown fields are appended. */
  function Overlay(m: Probe, b: Probe, fields: set<nat>): Probe {
    Probe(
      if 1 in fields then b.uuid else m.uuid,
      if 2 in fields then b.requestType else m.requestType,
      if 3 in fields then b.applicationType else m.applicationType,
      if 4 in fields then b.protocol else m.protocol,
      if 5 in fields then b.dstIpAddr else m.dstIpAddr,
      if 6 in fields then b.dstIpPort else m.dstIpPort,
      if 7 in fields then b.srcIpAddr else m.srcIpAddr,
      if 8 in fields then b.srcIpPort else m.srcIpPort,
      if 9 in fields then b.isRawText else m.isRawText,
      if 10 in fields then b.uuidSub else m.uuidSub,
      if 11 in fields then b.rawText else m.rawText,
      if 12 in fields then b.pid else m.pid,
      if 13 in fields then b.processName else m.processName,
      m.unknown + b.unknown)
  }

  lemma TextOverlay(m: Probe, b: Probe, fields: set<nat>, field: nat, x: Bytes)
    requires TextNumber(field)
    ensures SetText(Overlay(m, b, fields), field, x) == Overlay(m, SetText(b, field, x), fields + {field})
  {
  }

  lemma EnumOverlay(m: Probe, b: Probe, fields: set<nat>, field: nat, v: nat)
    requires field == 2 || field == 3 || field == 4
    ensures SetVarint(Overlay(m, b, fields), field, v) == Overlay(m, SetVarint(b, field, v), fields + {field})
  {
    hide ToInt32;
  }

  lemma VarintOverlay(m: Probe, b: Probe, fields: set<nat>, field: nat, v: nat)
    requires VarintNumber(field)
    ensures SetVarint(Overlay(m, b, fields), field, v) == Overlay(m, SetVarint(b, field, v), fields + {field})
  {
    hide ToInt32;
    if field <= 4 {
      EnumOverlay(m, b, fields, field, v);
    }
  }

  lemma OverlayStep(m: Probe, b: Probe, fields: set<nat>, r: Record)
    ensures Apply(Overlay(m, b, fields), r) ==
            match Apply(b, r) {
              case None => None
              case Some(b') => Some(Overlay(m, b', fields + FieldOf(r, Known)))
            }
  {
    hide SetText, SetVarint, IsUtf8;
    assert m.unknown + b.unknown + [r] == m.unknown + (b.unknown + [r]);
    assert fields + {} == fields;
    if r.payload.Chunk? && TextNumber(r.field) {
      hide Overlay;
      TextOverlay(m, b, fields, r.field, r.payload.bytes);
    } else if r.payload.Varint? && VarintNumber(r.field) {
      VarintOverlay(m, b, fields, r.field, r.payload.value);
    }
  }

  /** A named optional field is present. */
  predicate OptionalsPresent(b: Probe, fields: set<nat>) {
    (10 in fields ==> b.uuidSub.Some?) && (12 in fields ==> b.pid.Some?) && (13 in fields ==> b.processName.Some?)
  }

  /** What the input stands for and which fields it names. */
  lemma ParseIsOverlay(m: Probe, s: Bytes)
    requires ParseProbe(CLEARED, s).Complete?
    ensures RecordsOf(s).Some?
    ensures
      var b, fields := ParseProbe(CLEARED, s).message, FieldsOf(RecordsOf(s).value, Known);
      && ParseProbe(m, s) == Complete(Overlay(m, b, fields))
      && b == Overlay(CLEARED, b, fields)
      && OptionalsPresent(b, fields)
  {
    forall m: Probe, b: Probe, fields: set<nat>, r: Record {:trigger Apply(Overlay(m, b, fields), r)}
      ensures Apply(Overlay(m, b, fields), r) ==
              match Apply(b, r) {
                case None => None
                case Some(b') => Some(Overlay(m, b', fields + FieldOf(r, Known)))
              }
    {
      OverlayStep(m, b, fields, r);
    }
    forall b: Probe, fields: set<nat>, r: Record {:trigger Apply(b, r), OptionalsPresent(b, fields)} |
      OptionalsPresent(b, fields) && Apply(b, r).Some?
      ensures OptionalsPresent(Apply(b, r).value, fields + FieldOf(r, Known))
    {
      ApplyKeepsOptionals(b, fields, r);
    }
    OverlayNothing(m);
    OverlayNothing(CLEARED);
    ParseIsFold(Apply, m, s);
    ParseIsFold(Apply, CLEARED, s);
    var rs := RecordsOf(s).value;
    var fields := FieldsOf(rs, Known);
    hide Apply, Overlay, Known;
    FoldOver(Apply, Known, Overlay, m, CLEARED, {}, rs);
    FoldOver(Apply, Known, Overlay, CLEARED, CLEARED, {}, rs);
    FoldKeepsNamed(Apply, Known, OptionalsPresent, CLEARED, {}, rs);
    assert {} + fields == fields;
  }

  lemma OverlayNothing(m: Probe)
    ensures Overlay(m, CLEARED, {}) == m
  {
    assert m.unknown + [] == m.unknown;
  }

  lemma ApplyKeepsOptionals(b: Probe, fields: set<nat>, r: Record)
    requires OptionalsPresent(b, fields) && Apply(b, r).Some?
    ensures OptionalsPresent(Apply(b, r).value, fields + FieldOf(r, Known))
  {
    hide IsUtf8, ToInt32;
  }

  /** No field without presence that the input names and leaves at its default has another value in m. */
  predicate NoReset(m: Probe, b: Probe, fields: set<nat>) {
    && (1 in fields && b.uuid == [] ==> m.uuid == [])
    && (2 in fields && b.requestType == 0 ==> m.requestType == 0)
    && (3 in fields && b.applicationType == 0 ==> m.applicationType == 0)
    && (4 in fields && b.protocol == 0 ==> m.protocol == 0)
    && (5 in fields && b.dstIpAddr == [] ==> m.dstIpAddr == [])
    && (6 in fields && b.dstIpPort == [] ==> m.dstIpPort == [])
    && (7 in fields && b.srcIpAddr == [] ==> m.srcIpAddr == [])
    && (8 in fields && b.srcIpPort == [] ==> m.srcIpPort == [])
    && (9 in fields && !b.isRawText ==> !m.isRawText)
    && (11 in fields && b.rawText == [] ==> m.rawText == [])
  }

  lemma MergeIsOverlay(m: Probe, b: Probe, fields: set<nat>)
    requires b == Overlay(CLEARED, b, fields) && OptionalsPresent(b, fields)
    ensures Overlay(m, b, fields) == Merge(m, b) <==> NoReset(m, b, fields)
  {
    var o, g := Overlay(m, b, fields), Merge(m, b);
    assert o == g <==>
      && o.uuid == g.uuid && o.requestType == g.requestType && o.applicationType == g.applicationType
      && o.protocol == g.protocol && o.dstIpAddr == g.dstIpAddr && o.dstIpPort == g.dstIpPort
      && o.srcIpAddr == g.srcIpAddr && o.srcIpPort == g.srcIpPort && o.isRawText == g.isRawText
      && o.uuidSub == g.uuidSub && o.rawText == g.rawText && o.pid == g.pid && o.processName == g.processName;
  }

  /**
    Parsing accepted bytes onto a message is merging what they stand for exactly when they reset
    nothing: an explicitly written default overwrites on parse, while merging a default does nothing.
   */
  lemma ParseIsMergeExactly(m: Probe, s: Bytes)
    requires ParseProbe(CLEARED, s).Complete?
    ensures
      var b := ParseProbe(CLEARED, s).message;
      && ParseProbe(m, s).Complete?
      && RecordsOf(s).Some?
      && (ParseProbe(m, s) == Complete(Merge(m, b)) <==> NoReset(m, b, FieldsOf(RecordsOf(s).value, Known)))
  {
    hide Overlay, NoReset, Merge, OptionalsPresent;
    ParseIsOverlay(m, s);
    MergeIsOverlay(m, ParseProbe(CLEARED, s).message, FieldsOf(RecordsOf(s).value, Known));
  }

  /** The failing case at its smallest: one written zero. */
  lemma ExplicitDefaultOverwrites(m: Probe)
    requires m.requestType != 0
    ensures ParseProbe(CLEARED, [16, 0]) == Complete(CLEARED)
    ensures ParseProbe(m, [16, 0]) == Complete(m.(requestType := 0))
    ensures Merge(m, CLEARED) == m
  {
    var r := Record(2, Varint(0));
    assert EncodeRecord(r) + [] == [16, 0] by {
      assert EncodeVarint(16) == [16] && EncodeVarint(0) == [0];
    }
    ParseOne(Apply, m, r, []);
    ParseOne(Apply, CLEARED, r, []);
    assert m.unknown + [] == m.unknown;
  }
}
