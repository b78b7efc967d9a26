/**
  NetifePluginCommandRequest: a message with a repeated string field, whose parser reads runs of
  that field in a fast inner loop.
 */
module PluginCommand {
  import opened Wrappers
  import opened Wire
  import opened Utf8
  import opened Fields
  import opened NamedFields
  import opened UnknownFields

  datatype Command = Command(
    nameSpace: Bytes,
    commandPrefix: Bytes,
    params: seq<Bytes>,
    uuid: Option<Bytes>,
    uuidSub: Option<Int32>,
    unknown: seq<Record>)

  const CLEARED := Command([], [], [], None, None, [])

  // ----- what the parser does with one record -----

  predicate TextNumber(field: nat) {
    field in {1, 2, 3, 4}
  }

  predicate Known(r: Record) {
    (r.payload.Chunk? && TextNumber(r.field)) || (r.payload.Varint? && r.field == 5)
  }

  function SetText(m: Command, field: nat, b: Bytes): Command
    requires TextNumber(field)
  {
    if field == 1 then m.(nameSpace := b)
    else if field == 2 then m.(commandPrefix := b)
    else if field == 3 then m.(params := m.params + [b])
    else m.(uuid := Some(b))
  }

  function Apply(m: Command, r: Record): Option<Command> {
    if r.payload.Chunk? && TextNumber(r.field) then
      if IsUtf8(r.payload.bytes) then Some(SetText(m, r.field, r.payload.bytes)) else None
    else if r.payload.Varint? && r.field == 5 then
      Some(m.(uuidSub := Some(ToInt32(r.payload.value))))
    else Some(m.(unknown := m.unknown + [r]))
  }

  /** The parser that dispatches one record at a time. */
  function ParseCommand(m: Command, s: Bytes): Outcome<Command> {
    Parse(Apply, m, s)
  }

  // ----- what the printer writes, and merge -----

  function ParamRecords(params: seq<Bytes>): (rs: seq<Record>)
    ensures |rs| == |params|
  {
    seq(|params|, i requires 0 <= i < |params| => Record(3, Chunk(params[i])))
  }

  function FieldRecords(b: Command, k: nat): seq<Record> {
    if k == 1 then TextField(1, b.nameSpace)
    else if k == 2 then TextField(2, b.commandPrefix)
    else if k == 3 then ParamRecords(b.params)
    else if k == 4 then OptionalText(4, b.uuid)
    else if k == 5 then OptionalInt(5, b.uuidSub)
    else if k == 6 then b.unknown
    else []
  }

  const LAST := 6

  function RecordsFrom(b: Command, k: nat): seq<Record> {
    FieldsFrom(FieldRecords, LAST, b, k)
  }

  function Serialize(b: Command): Bytes {
    EncodeAll(RecordsFrom(b, 1))
  }

  /** Parameters are concatenated; the other fields merge as in every message. */
  function Merge(a: Command, b: Command): Command {
    Command(
      MergeText(a.nameSpace, b.nameSpace),
      MergeText(a.commandPrefix, b.commandPrefix),
      a.params + b.params,
      MergeOption(a.uuid, b.uuid),
      MergeOption(a.uuidSub, b.uuidSub),
      a.unknown + b.unknown)
  }

  predicate AllPrintable(params: seq<Bytes>) {
    forall i | 0 <= i < |params| :: Printable(params[i])
  }

  predicate WellFormed(m: Command) {
    && Printable(m.nameSpace) && Printable(m.commandPrefix)
    && AllPrintable(m.params)
    && PrintableOption(m.uuid)
    && Unnamed(m.unknown, Known)
  }

  // ----- the laws -----

  lemma FieldRecordsValid(b: Command, k: nat)
    requires WellFormed(b)
    ensures ValidRecords(FieldRecords(b, k))
  {
    hide IsUtf8;
  }

  lemma {:induction false} RecordsValid(b: Command, k: nat)
    requires WellFormed(b)
    ensures ValidRecords(RecordsFrom(b, k))
    decreases 7 - k
  {
    if k <= 6 {
      FieldRecordsValid(b, k);
      RecordsValid(b, k + 1);
    }
    hide FieldRecords;
    hide ValidRecord;
    hide WellFormed;
  }

  lemma FoldOne(m: Command, r: Record)
    ensures Fold(Apply, m, [r]) == Apply(m, r)
  {}

  lemma FoldText(m: Command, field: nat, b: Bytes)
    requires TextNumber(field) && IsUtf8(b)
    ensures Fold(Apply, m, TextField(field, b)) == Some(if b == [] then m else SetText(m, field, b))
    ensures Fold(Apply, m, OptionalText(field, Some(b))) == Some(SetText(m, field, b))
  {
    FoldOne(m, Record(field, Chunk(b)));
    hide IsUtf8;
  }

  /** Reading the printed parameters appends them in order. */
  lemma {:induction false} FoldParams(m: Command, params: seq<Bytes>)
    requires AllPrintable(params)
    ensures Fold(Apply, m, ParamRecords(params)) == Some(m.(params := m.params + params))
    decreases |params|
  {
    hide IsUtf8;
    var rs := ParamRecords(params);
    if params == [] {
      assert m.params + params == m.params;
    } else {
      var m' := m.(params := m.params + [params[0]]);
      assert rs[1..] == ParamRecords(params[1..]);
      FoldParams(m', params[1..]);
      assert m.params + [params[0]] + params[1..] == m.params + params;
    }
  }

  function Keep(m: Command, rs: seq<Record>): Command {
    m.(unknown := m.unknown + rs)
  }

  /** Unknown records pass through the switch untouched and in order. */
  lemma FoldUnknown(m: Command, rs: seq<Record>)
    requires Unnamed(rs, Known)
    ensures Fold(Apply, m, rs) == Some(m.(unknown := m.unknown + rs))
  {
    forall m: Command {:trigger Keep(m, [])}
      ensures Keep(m, []) == m
    {
      assert m.unknown + [] == m.unknown;
    }
    forall m: Command, a, b {:trigger Keep(Keep(m, a), b)}
      ensures Keep(Keep(m, a), b) == Keep(m, a + b)
    {
      assert m.unknown + a + b == m.unknown + (a + b);
    }
    FoldUnnamed(Apply, Known, Keep, m, rs);
  }

  function MergeField(m: Command, b: Command, k: nat): Command {
    if k == 1 then m.(nameSpace := MergeText(m.nameSpace, b.nameSpace))
    else if k == 2 then m.(commandPrefix := MergeText(m.commandPrefix, b.commandPrefix))
    else if k == 3 then m.(params := m.params + b.params)
    else if k == 4 then m.(uuid := MergeOption(m.uuid, b.uuid))
    else if k == 5 then m.(uuidSub := MergeOption(m.uuidSub, b.uuidSub))
    else if k == 6 then m.(unknown := m.unknown + b.unknown)
    else m
  }

  lemma FoldField(m: Command, b: Command, k: nat)
    requires WellFormed(b)
    ensures Fold(Apply, m, FieldRecords(b, k)) == Some(MergeField(m, b, k))
  {
    hide IsUtf8;
    if k == 1 { FoldText(m, 1, b.nameSpace); }
    else if k == 2 { FoldText(m, 2, b.commandPrefix); }
    else if k == 3 { FoldParams(m, b.params); }
    else if k == 4 { if b.uuid.Some? { FoldText(m, 4, b.uuid.value); } }
    else if k == 5 {
      if b.uuidSub.Some? {
        Int32RoundTrip(b.uuidSub.value);
        FoldOne(m, Record(5, Varint(SignExtend(b.uuidSub.value))));
      }
    }
    else if k == 6 { FoldUnknown(m, b.unknown); }
  }

  lemma FoldStep(m: Command, b: Command, k: nat)
    requires WellFormed(b) && k <= 6
    ensures Fold(Apply, m, RecordsFrom(b, k)) == Fold(Apply, MergeField(m, b, k), RecordsFrom(b, k + 1))
  {
    FoldField(m, b, k);
    FoldConcat(Apply, m, FieldRecords(b, k), RecordsFrom(b, k + 1));
  }

  lemma FoldRecords(m: Command, b: Command)
    requires WellFormed(b)
    ensures Fold(Apply, m, RecordsFrom(b, 1)) == Some(Merge(m, b))
  {
    var m1 := MergeField(m, b, 1);
    var m2 := MergeField(m1, b, 2);
    var m3 := MergeField(m2, b, 3);
    var m4 := MergeField(m3, b, 4);
    var m5 := MergeField(m4, b, 5);
    var m6 := MergeField(m5, b, 6);
    assert Fold(Apply, m6, RecordsFrom(b, 7)) == Some(m6);
    hide FieldRecords;
    hide RecordsFrom;
    hide Fold;
    hide WellFormed;
    FoldStep(m, b, 1);
    FoldStep(m1, b, 2);
    FoldStep(m2, b, 3);
    FoldStep(m3, b, 4);
    FoldStep(m4, b, 5);
    FoldStep(m5, b, 6);
  }

  /** Parsing what `b` prints, on top of any message and before any input, is merging `b` first. */
  lemma ParseSerialized(m: Command, b: Command, rest: Bytes)
    requires WellFormed(b)
    ensures ParseCommand(m, Serialize(b) + rest) == ParseCommand(Merge(m, b), rest)
  {
    RecordsValid(b, 1);
    ParseEncoded(Apply, m, RecordsFrom(b, 1), rest);
    FoldRecords(m, b);
  }

  lemma MergeIntoCleared(b: Command)
    ensures Merge(CLEARED, b) == b
  {
    assert [] + b.unknown == b.unknown && [] + b.params == b.params;
  }

  lemma RoundTrip(m: Command, b: Command)
    requires WellFormed(b)
    ensures ParseCommand(m, Serialize(b)) == Complete(Merge(m, b))
    ensures ParseCommand(CLEARED, Serialize(b)) == Complete(b)
  {
    assert Serialize(b) + [] == Serialize(b);
    ParseSerialized(m, b, []);
    ParseSerialized(CLEARED, b, []);
    MergeIntoCleared(b);
  }

  /** Two printed commands back to back: the parameters of the first, then those of the second. */
  lemma ParseTwoSerialized(a: Command, b: Command)
    requires WellFormed(a) && WellFormed(b)
    ensures ParseCommand(CLEARED, Serialize(a) + Serialize(b)) == Complete(Merge(a, b))
    ensures ParseCommand(CLEARED, Serialize(a) + Serialize(b)).message.params == a.params + b.params
  {
    ParseSerialized(CLEARED, a, Serialize(b));
    MergeIntoCleared(a);
    RoundTrip(a, b);
  }

  lemma ApplyKeepsWellFormed(m: Command, r: Record)
    requires WellFormed(m) && ValidRecord(r) && Apply(m, r).Some?
    ensures WellFormed(Apply(m, r).value)
  {
    hide IsUtf8;
  }

  lemma ParseIsWellFormed(m: Command, s: Bytes)
    requires WellFormed(m)
    ensures !ParseCommand(m, s).Failed? ==> WellFormed(ParseCommand(m, s).message)
  {
    forall m: Command, r: Record {:trigger Apply(m, r)} |
      WellFormed(m) && ValidRecord(r) && Apply(m, r).Some?
      ensures WellFormed(Apply(m, r).value)
    {
      ApplyKeepsWellFormed(m, r);
    }
    hide WellFormed;
    assert WellFormed(m);
    ParseKeeps(Apply, WellFormed, m, s);
  }

  lemma Reparse(s: Bytes)
    requires ParseCommand(CLEARED, s).Complete?
    ensures ParseCommand(CLEARED, Serialize(ParseCommand(CLEARED, s).message)) == ParseCommand(CLEARED, s)
  {
    ParseIsWellFormed(CLEARED, s);
    RoundTrip(CLEARED, ParseCommand(CLEARED, s).message);
  }

  predicate Accepts(r: Record) {
    Known(r) && r.payload.Chunk? ==> IsUtf8(r.payload.bytes)
  }

  lemma ApplyAccepts(m: Command, r: Record)
    ensures Apply(m, r).Some? <==> Accepts(r)
    ensures Apply(m, r).Some? ==> Apply(m, r).value.unknown == m.unknown + if Known(r) then [] else [r]
  {
    hide IsUtf8;
  }

  /** Accepted is what splits into records with UTF-8 in every named string; other records are kept in order. */
  lemma AcceptedInputs(m: Command, s: Bytes)
    ensures ParseCommand(m, s).Complete? <==> RecordsOf(s).Some? && AllAccepted(RecordsOf(s).value, Accepts)
    ensures ParseCommand(m, s).Complete? ==>
            ParseCommand(m, s).message.unknown == m.unknown + Remaining(RecordsOf(s).value, Known)
  {
    forall m: Command, r: Record {:trigger Apply(m, r)}
      ensures Apply(m, r).Some? <==> Accepts(r)
      ensures Apply(m, r).Some? ==> Apply(m, r).value.unknown == m.unknown + if Known(r) then [] else [r]
    {
      ApplyAccepts(m, r);
    }
    hide Apply, Known, Accepts;
    UnknownFields.AcceptedInputs(Apply, Known, Accepts, (m: Command) => m.unknown, m, s);
  }

  // ----- the fields on the wire -----

  /** Each field by its tag, whatever the message and whatever follows; parameters are appended. */
  lemma FieldByTag(m: Command, b: Bytes, v: nat, rest: Bytes)
    requires |b| < MAX_LENGTH && IsUtf8(b) && v < TWO_64
    ensures ParseCommand(m, TextBytes(0x0A, b) + rest) == ParseCommand(m.(nameSpace := b), rest)
    ensures ParseCommand(m, TextBytes(0x12, b) + rest) == ParseCommand(m.(commandPrefix := b), rest)
    ensures ParseCommand(m, TextBytes(0x1A, b) + rest) == ParseCommand(m.(params := m.params + [b]), rest)
    ensures ParseCommand(m, TextBytes(0x22, b) + rest) == ParseCommand(m.(uuid := Some(b)), rest)
    ensures ParseCommand(m, NumberBytes(0x28, v) + rest) == ParseCommand(m.(uuidSub := Some(ToInt32(v))), rest)
  {
    hide IsUtf8, ToInt32, TextBytes, NumberBytes, Parse;
    forall field: nat | TextNumber(field)
      ensures ParseCommand(m, TextBytes(8 * field + 2, b) + rest) == ParseCommand(SetText(m, field, b), rest)
    {
      RecordBytes(field, b, 0);
      ParseOne(Apply, m, Record(field, Chunk(b)), rest);
    }
    assert TextNumber(1) && TextNumber(2) && TextNumber(3) && TextNumber(4);
    RecordBytes(5, [], v);
    ParseOne(Apply, m, Record(5, Varint(v)), rest);
  }

  lemma BadTextByTag(m: Command, tag: Byte, b: Bytes, rest: Bytes)
    requires |b| < MAX_LENGTH && !IsUtf8(b) && tag in {0x0A, 0x12, 0x1A, 0x22}
    ensures ParseCommand(m, TextBytes(tag, b) + rest) == Failed
  {
    hide IsUtf8, TextBytes, Parse;
    RecordBytes(tag / 8, b, 0);
    ParseOne(Apply, m, Record(tag / 8, Chunk(b)), rest);
  }

  function ParamsLayout(params: seq<Bytes>): Bytes {
    if params == [] then [] else TextBytes(0x1A, params[0]) + ParamsLayout(params[1..])
  }

  /** What is printed, byte by byte. */
  function Layout(b: Command): Bytes {
    TextLayout(0x0A, b.nameSpace) + (TextLayout(0x12, b.commandPrefix) + (ParamsLayout(b.params) +
    (OptionalTextLayout(0x22, b.uuid) + (OptionalIntLayout(0x28, b.uuidSub) + EncodeAll(b.unknown)))))
  }

  lemma {:induction false} ParamsAre(params: seq<Bytes>)
    ensures EncodeAll(ParamRecords(params)) == ParamsLayout(params)
  {
    if params == [] {
      NoRecords();
    } else {
      RecordBytes(3, params[0], 0);
      ParamsAre(params[1..]);
      assert ParamRecords(params)[1..] == ParamRecords(params[1..]);
    }
  }

  lemma SerializeIs(b: Command)
    ensures Serialize(b) == Layout(b)
  {
    hide EncodeAll, FieldsFrom, TextField, TextLayout, TextBytes, NumberBytes, ParamsLayout, ParamRecords;
    TextIs(1, b.nameSpace);
    TextIs(2, b.commandPrefix);
    ParamsAre(b.params);
    if b.uuid.Some? { TextIs(4, b.uuid.value); }
    if b.uuidSub.Some? { IntIs(5, b.uuidSub.value); }
    NoRecords();
    FieldStep(FieldRecords, LAST, b, 1);
    FieldStep(FieldRecords, LAST, b, 2);
    FieldStep(FieldRecords, LAST, b, 3);
    FieldStep(FieldRecords, LAST, b, 4);
    FieldStep(FieldRecords, LAST, b, 5);
    FieldStep(FieldRecords, LAST, b, 6);
    NoFields(FieldRecords, LAST, b);
    assert EncodeAll(b.unknown) + [] == EncodeAll(b.unknown);
  }

  // ----- when parsing is merging -----

  /** The named fields of `b` over m; parameters and unknown fields are appended. */
  function Overlay(m: Command, b: Command, fields: set<nat>): Command {
    Command(
      if 1 in fields then b.nameSpace else m.nameSpace,
      if 2 in fields then b.commandPrefix else m.commandPrefix,
      m.params + b.params,
      if 4 in fields then b.uuid else m.uuid,
      if 5 in fields then b.uuidSub else m.uuidSub,
      m.unknown + b.unknown)
  }

  lemma OverlayStep(m: Command, b: Command, fields: set<nat>, r: Record)
    ensures Apply(Overlay(m, b, fields), r) ==
            match Apply(b, r) {
              case None => None
              case Some(b') => Some(Overlay(m, b', fields + FieldOf(r, Known)))
            }
  {
    hide IsUtf8, ToInt32;
    assert m.unknown + b.unknown + [r] == m.unknown + (b.unknown + [r]);
    assert fields + {} == fields;
    if r.payload.Chunk? {
      var x := r.payload.bytes;
      assert m.params + b.params + [x] == m.params + (b.params + [x]);
    }
  }

  lemma OverlayNothing(m: Command)
    ensures Overlay(m, CLEARED, {}) == m
  {
    assert m.unknown + [] == m.unknown && m.params + [] == m.params;
  }

  /** A named optional field is present. */
  predicate OptionalsPresent(b: Command, fields: set<nat>) {
    (4 in fields ==> b.uuid.Some?) && (5 in fields ==> b.uuidSub.Some?)
  }

  lemma ApplyKeepsOptionals(b: Command, fields: set<nat>, r: Record)
    requires OptionalsPresent(b, fields) && Apply(b, r).Some?
    ensures OptionalsPresent(Apply(b, r).value, fields + FieldOf(r, Known))
  {
    hide IsUtf8, ToInt32;
  }

  /** What the input stands for and which fields it names. */
  lemma ParseIsOverlay(m: Command, s: Bytes)
    requires ParseCommand(CLEARED, s).Complete?
    ensures RecordsOf(s).Some?
    ensures
      var b, fields := ParseCommand(CLEARED, s).message, FieldsOf(RecordsOf(s).value, Known);
      && ParseCommand(m, s) == Complete(Overlay(m, b, fields))
      && b == Overlay(CLEARED, b, fields)
      && OptionalsPresent(b, fields)
  {
    forall m: Command, b: Command, fields: set<nat>, r: Record {:trigger Apply(Overlay(m, b, fields), r)}
      ensures Apply(Overlay(m, b, fields), r) ==
              match Apply(b, r) {
                case None => None
                case Some(b') => Some(Overlay(m, b', fields + FieldOf(r, Known)))
              }
    {
      OverlayStep(m, b, fields, r);
    }
    forall b: Command, fields: set<nat>, r: Record {:trigger Apply(b, r), OptionalsPresent(b, fields)} |
      OptionalsPresent(b, fields) && Apply(b, r).Some?
      ensures OptionalsPresent(Apply(b, r).value, fields + FieldOf(r, Known))
    {
      ApplyKeepsOptionals(b, fields, r);
    }
    OverlayNothing(m);
    OverlayNothing(CLEARED);
    ParseIsFold(Apply, m, s);
    ParseIsFold(Apply, CLEARED, s);
    var rs := RecordsOf(s).value;
    var fields := FieldsOf(rs, Known);
    hide Apply, Overlay, Known;
    FoldOver(Apply, Known, Overlay, m, CLEARED, {}, rs);
    FoldOver(Apply, Known, Overlay, CLEARED, CLEARED, {}, rs);
    FoldKeepsNamed(Apply, Known, OptionalsPresent, CLEARED, {}, rs);
    assert {} + fields == fields;
  }

  /** No field without presence that the input names and leaves at its default has another value in m. */
  predicate NoReset(m: Command, b: Command, fields: set<nat>) {
    && (1 in fields && b.nameSpace == [] ==> m.nameSpace == [])
    && (2 in fields && b.commandPrefix == [] ==> m.commandPrefix == [])
  }

  lemma MergeIsOverlay(m: Command, b: Command, fields: set<nat>)
    requires b == Overlay(CLEARED, b, fields) && OptionalsPresent(b, fields)
    ensures Overlay(m, b, fields) == Merge(m, b) <==> NoReset(m, b, fields)
  {
    var o, g := Overlay(m, b, fields), Merge(m, b);
    assert o == g <==>
      o.nameSpace == g.nameSpace && o.commandPrefix == g.commandPrefix && o.uuid == g.uuid && o.uuidSub == g.uuidSub;
  }

  /** Parsing accepted bytes onto a message is merging what they stand for exactly when they reset nothing. */
  lemma ParseIsMergeExactly(m: Command, s: Bytes)
    requires ParseCommand(CLEARED, s).Complete?
    ensures
      var b := ParseCommand(CLEARED, s).message;
      && ParseCommand(m, s).Complete?
      && RecordsOf(s).Some?
      && (ParseCommand(m, s) == Complete(Merge(m, b)) <==> NoReset(m, b, FieldsOf(RecordsOf(s).value, Known)))
  {
    hide Overlay, NoReset, Merge, OptionalsPresent;
    ParseIsOverlay(m, s);
    MergeIsOverlay(m, ParseCommand(CLEARED, s).message, FieldsOf(RecordsOf(s).value, Known));
  }

  // ----- printing and measuring -----

  lemma ParamRecordsSnoc(params: seq<Bytes>, i: nat)
    requires i < |params|
    ensures EncodeAll(ParamRecords(params[..i + 1])) ==
            EncodeAll(ParamRecords(params[..i])) + EncodeAll([Record(3, Chunk(params[i]))])
  {
    assert ParamRecords(params[..i + 1]) == ParamRecords(params[..i]) + [Record(3, Chunk(params[i]))];
    EncodeAllConcat(ParamRecords(params[..i]), [Record(3, Chunk(params[i]))]);
  }

  lemma ParamsWhole(params: seq<Bytes>)
    ensures EncodeAll(ParamRecords(params[..0])) == [] && params[..|params|] == params
  {}

  method WriteParams(params: seq<Bytes>, target: Bytes) returns (out: Bytes)
    ensures out == target + EncodeAll(ParamRecords(params))
  {
    ParamsWhole(params);
    hide EncodeAll;
    hide ParamRecords;
    out := target;
    for i := 0 to |params|
      invariant out == target + EncodeAll(ParamRecords(params[..i]))
    {
      ParamRecordsSnoc(params, i);
      out := WritePresentText(3, params[i], out);
    }
  }

  /** One tag byte for each parameter, then the sizes of the strings. */
  method ParamsSize(params: seq<Bytes>) returns (n: nat)
    ensures n == |EncodeAll(ParamRecords(params))|
  {
    ParamsWhole(params);
    hide EncodeAll;
    hide ParamRecords;
    n := 1 * |params|;
    for i := 0 to |params|
      invariant n == |EncodeAll(ParamRecords(params[..i]))| + (|params| - i)
    {
      ParamRecordsSnoc(params, i);
      TextSize(3, params[i]);
      n := n + StringSize(params[i]);
    }
  }

  /** Fields before number k have been printed behind `start`. */
  ghost predicate PrintedTo(b: Command, k: nat, start: Bytes, target: Bytes) {
    PrintedUpTo(FieldRecords, LAST, b, k, start, target)
  }

  lemma FieldPrinted(b: Command, k: nat, start: Bytes, before: Bytes, after: Bytes)
    requires k <= LAST && PrintedTo(b, k, start, before) && after == before + EncodeAll(FieldRecords(b, k))
    ensures PrintedTo(b, k + 1, start, after)
  {
    hide FieldRecords, EncodeAll, PrintedUpTo;
    Printed(FieldRecords, LAST, b, k, start, before, after);
  }

  lemma Begin(b: Command, start: Bytes)
    ensures PrintedTo(b, 1, start, start) && EncodeAll([]) == []
  {
    NothingPrinted(FieldRecords, LAST, b, start);
    NoRecords();
  }

  lemma End(b: Command, start: Bytes, target: Bytes)
    requires PrintedTo(b, 7, start, target)
    ensures target == start + Serialize(b)
  {
    hide FieldRecords, EncodeAll, PrintedUpTo;
    AllPrinted(FieldRecords, LAST, b, start, target);
  }

  lemma SerializedSize(b: Command)
    ensures |Serialize(b)| ==
            FieldSize(FieldRecords, b, 1) + FieldSize(FieldRecords, b, 2) + FieldSize(FieldRecords, b, 3) +
            FieldSize(FieldRecords, b, 4) + FieldSize(FieldRecords, b, 5) + FieldSize(FieldRecords, b, 6)
  {
    NoFields(FieldRecords, LAST, b);
    hide EncodeAll, FieldsFrom, FieldRecords, FieldSize;
    FieldStep(FieldRecords, LAST, b, 1);
    FieldStep(FieldRecords, LAST, b, 2);
    FieldStep(FieldRecords, LAST, b, 3);
    FieldStep(FieldRecords, LAST, b, 4);
    FieldStep(FieldRecords, LAST, b, 5);
    FieldStep(FieldRecords, LAST, b, 6);
  }

  /** What each field of a printed command takes. */
  lemma FieldSizes(b: Command)
    ensures FieldSize(FieldRecords, b, 1) == TextFieldSize(b.nameSpace)
    ensures FieldSize(FieldRecords, b, 2) == TextFieldSize(b.commandPrefix)
    ensures FieldSize(FieldRecords, b, 3) == |EncodeAll(ParamRecords(b.params))|
    ensures FieldSize(FieldRecords, b, 4) == OptionalTextSize(b.uuid.Some?, if b.uuid.Some? then b.uuid.value else [])
    ensures FieldSize(FieldRecords, b, 5) == if b.uuidSub.None? then 0 else Int32Size(b.uuidSub.value) + 1
    ensures FieldSize(FieldRecords, b, 6) == |EncodeAll(b.unknown)|
  {
    TextSize(1, b.nameSpace);
    TextSize(2, b.commandPrefix);
    if b.uuid.Some? { TextSize(4, b.uuid.value); }
    if b.uuidSub.Some? { IntSize(5, b.uuidSub.value); }
    NoRecords();
    hide EncodeAll;
    hide StringSize;
    hide Int32Size;
    hide SignExtend;
  }

  // ----- the generated class -----

  predicate TextTag(tag: nat) {
    tag in {10, 18, 26, 34}
  }

  lemma TagsOfTheSwitch(tag: nat)
    ensures TextTag(tag) <==> tag % 8 == 2 && TextNumber(tag / 8)
    ensures tag == 40 <==> tag % 8 == 0 && tag / 8 == 5
  {}

  /** What is left to do once the tag of a string field has been read. */
  function AfterTextTag(m: Command, field: nat, s: Bytes): Outcome<Command>
    requires TextNumber(field)
  {
    match ReadChunk(s)
    case Fail => Failed
    case Got(b, k) => if IsUtf8(b) then ParseCommand(SetText(m, field, b), s[k..]) else Failed
  }

  lemma TurnText(m: Command, s: Bytes)
    requires s != [] && ReadTag(s).Got? && TextTag(ReadTag(s).value)
    ensures TextNumber(ReadTag(s).value / 8)
    ensures ParseCommand(m, s) == AfterTextTag(m, ReadTag(s).value / 8, s[ReadTag(s).used..])
  {
    hide IsUtf8;
    hide ReadChunk;
    hide SetText;
    TagsOfTheSwitch(ReadTag(s).value);
  }

  lemma TurnVarint(m: Command, s: Bytes)
    requires s != [] && ReadTag(s).Got? && ReadTag(s).value == 40
    ensures var rest := s[ReadTag(s).used..];
            ParseCommand(m, s) ==
            match ReadVarint64(rest)
            case Fail => Failed
            case Got(v, k) => ParseCommand(m.(uuidSub := Some(ToInt32(v))), rest[k..])
  {
    hide ReadVarint64;
    hide ReadChunk;
    hide ReadFixed;
    hide ToInt32;
    hide IsUtf8;
    assert 40 / 8 == 5 && 40 % 8 == 0;
  }

  lemma TurnUnknown(m: Command, s: Bytes)
    requires s != [] && ReadTag(s).Got? && !TextTag(ReadTag(s).value) && ReadTag(s).value != 40
    ensures ParseCommand(m, s) == PastUnnamed(Apply, Keep, m, ReadTag(s).value, s[ReadTag(s).used..])
  {
    hide ReadTag, ReadPayload, IsUtf8;
    TagsOfTheSwitch(ReadTag(s).value);
    TurnUnnamed(Apply, Keep, m, s, ReadTag(s).value, ReadTag(s).used);
  }

  lemma TurnWithoutTag(m: Command, s: Bytes)
    requires s != [] && ReadTag(s).Fail?
    ensures ParseCommand(m, s) == Failed
  {}

  /** `ExpectTag<26>`: the one-byte tag of params stands next. */
  lemma ExpectedTag(m: Command, s: Bytes)
    requires s != [] && s[0] == 26
    ensures ParseCommand(m, s) == AfterTextTag(m, 3, s[1..])
  {
    assert ReadTag(s) == Got(26, 1);
    TurnText(m, s);
  }

  class NetifePluginCommandRequest {
    var nameSpace: Bytes
    var commandPrefix: Bytes
    var params: seq<Bytes>
    var uuid: Option<Bytes>
    var uuidSub: Int32
    var hasUuidSub: bool
    var unknown: seq<Record>

    /** The message so far; `hasBits` is the local presence bit of uuid_sub. */
    ghost function Current(hasBits: bool): Command
      reads this
    {
      Command(nameSpace, commandPrefix, params, uuid,
              if hasUuidSub || hasBits then Some(uuidSub) else None, unknown)
    }

    ghost function Value(): Command
      reads this
    {
      Current(false)
    }

    constructor ()
      ensures Value() == CLEARED
    {
      nameSpace, commandPrefix, params, uuid := [], [], [], None;
      uuidSub, hasUuidSub, unknown := 0, false, [];
    }

    method Clear()
      modifies this
      ensures Value() == CLEARED
    {
      params, nameSpace, commandPrefix := [], [], [];
      if uuid.Some? { uuid := None; }
      uuidSub, hasUuidSub, unknown := 0, false, [];
    }

    /** Copying makes the two messages equal, also onto itself. */
    method CopyFrom(from: NetifePluginCommandRequest)
      modifies this
      ensures Value() == old(from.Value())
    {
      if from == this { return; }
      Clear();
      MergeIntoCleared(from.Value());
      MergeImpl(from);
    }

    method MergeImpl(from: NetifePluginCommandRequest)
      requires from != this
      modifies this
      ensures Value() == Merge(old(Value()), from.Value())
    {
      params := params + from.params;
      if from.nameSpace != [] { nameSpace := from.nameSpace; }
      if from.commandPrefix != [] { commandPrefix := from.commandPrefix; }
      if from.uuid.Some? { uuid := from.uuid; }
      if from.hasUuidSub { uuidSub, hasUuidSub := from.uuidSub, true; }
      unknown := unknown + from.unknown;
    }

    /** A singular string case of the switch. */
    method ParseText(field: nat, ptr: Bytes, ghost hasBits: bool) returns (next: Option<Bytes>)
      requires TextNumber(field) && field != 3
      modifies this`nameSpace, this`commandPrefix, this`uuid
      ensures match next
              case None => AfterTextTag(old(Current(hasBits)), field, ptr) == Failed
              case Some(rest) =>
                |rest| <= |ptr| &&
                AfterTextTag(old(Current(hasBits)), field, ptr) == ParseCommand(Current(hasBits), rest)
    {
      hide ReadChunk;
      hide IsUtf8;
      hide ParseCommand;
      match ReadChunk(ptr) {
        case Fail => return None;
        case Got(b, k) =>
          if field == 1 { nameSpace := b; }
          else if field == 2 { commandPrefix := b; }
          else { uuid := Some(b); }
          if !IsUtf8(b) { return None; }
          return Some(ptr[k..]);
      }
    }

    /**
      The repeated case: after one parameter, go on with the next as long as data is at hand and
      its one-byte tag follows. Whether data is at hand is up to the input stream; whatever it
      answers, the outcome is that of dispatching one record at a time.
     */
    method ParseParams(ptr: Bytes, ghost hasBits: bool) returns (next: Option<Bytes>)
      modifies this`params
      ensures match next
              case None => AfterTextTag(old(Current(hasBits)), 3, ptr) == Failed
              case Some(rest) =>
                |rest| <= |ptr| &&
                AfterTextTag(old(Current(hasBits)), 3, ptr) == ParseCommand(Current(hasBits), rest)
    {
      hide ReadChunk;
      hide IsUtf8;
      hide ParseCommand;
      var at := ptr;
      while true
        invariant |at| <= |ptr|
        invariant AfterTextTag(old(Current(hasBits)), 3, ptr) == AfterTextTag(Current(hasBits), 3, at)
        decreases |at|
      {
        match ReadChunk(at) {
          case Fail => return None;
          case Got(b, k) =>
            if !IsUtf8(b) { return None; }
            params := params + [b];
            at := at[k..];
        }
        var available := *;
        if at == [] || !available { return Some(at); }
        if at[0] != 26 { return Some(at); }
        ExpectedTag(Current(hasBits), at);
        at := at[1..];
      }
    }

    method UnknownFieldParse(tag: nat, ptr: Bytes, ghost hasBits: bool) returns (next: Option<Bytes>)
      modifies this`unknown
      ensures match ReadPayload(tag % 8, ptr)
              case Fail => next == None
              case Got(p, k) =>
                if tag / 8 == 0 then next == None
                else
                  && next == Some(ptr[k..])
                  && var m := old(Current(hasBits));
                     Current(hasBits) == m.(unknown := m.unknown + [Record(tag / 8, p)])
    {
      hide ReadPayload;
      var r, rest := ReadUnnamed(tag, ptr);
      if r.None? { return None; }
      unknown := unknown + [r.value];
      return Some(rest);
    }

    method ParseUuidSub(ptr: Bytes, ghost hasBits: bool) returns (next: Option<Bytes>)
      modifies this`uuidSub
      ensures match ReadVarint64(ptr)
              case Fail => next == None
              case Got(v, k) =>
                next == Some(ptr[k..]) && Current(true) == old(Current(hasBits)).(uuidSub := Some(ToInt32(v)))
    {
      hide ReadVarint64;
      hide ToInt32;
      match ReadVarint64(ptr) {
        case Fail => return None;
        case Got(v, k) =>
          uuidSub := ToInt32(v);
          return Some(ptr[k..]);
      }
    }

    /** The body of the loop: read a tag and run its case of the switch. */
    method ParseField(ptr: Bytes, hasBits: bool) returns (turn: Turn, next: Bytes, bits: bool)
      requires ptr != []
      modifies this
      ensures hasUuidSub == old(hasUuidSub)
      ensures match turn
              case Continue =>
                |next| < |ptr| && ParseCommand(old(Current(hasBits)), ptr) == ParseCommand(Current(bits), next)
              case Ended(tag) => ParseCommand(old(Current(hasBits)), ptr) == Stopped(Current(bits), tag, next)
              case Error => ParseCommand(old(Current(hasBits)), ptr) == Failed
    {
      ghost var m := Current(hasBits);
      assert TextTag(26);
      hide *;
      bits := hasBits;
      match ReadTag(ptr) {
        case Fail =>
          TurnWithoutTag(m, ptr);
          return Error, ptr, bits;
        case Got(tag, n) =>
          var at, after := ptr[n..], None;
          if tag == 26 {
            TagsOfTheSwitch(tag);
            TurnText(m, ptr);
            after := ParseParams(at, hasBits);
          } else if TextTag(tag) {
            TagsOfTheSwitch(tag);
            TurnText(m, ptr);
            after := ParseText(tag / 8, at, hasBits);
          } else if tag == 40 {
            TurnVarint(m, ptr);
            bits := true;
            after := ParseUuidSub(at, hasBits);
          } else {
            TurnUnknown(m, ptr);
            if tag == 0 || tag % 8 == 4 {
              return Ended(tag), at, bits;
            }
            after := UnknownFieldParse(tag, at, hasBits);
          }
          if after.None? { return Error, ptr, bits; }
          return Continue, after.value, bits;
      }
    }

    /** The whole parser agrees with one-record-at-a-time dispatch on every input. */
    method InternalParse(input: Bytes) returns (status: Status, ptr: Bytes)
      modifies this
      ensures match ParseCommand(old(Value()), input)
              case Complete(m) => status == ParsedAll && ptr == [] && Value() == m
              case Stopped(m, tag, rest) => status == EndTag(tag) && ptr == rest && Value() == m
              case Failed => status == ParseError
    {
      ghost var m0 := Value();
      var hasBits := false;
      ptr := input;
      while ptr != []
        invariant ParseCommand(m0, input) == ParseCommand(Current(hasBits), ptr)
        decreases |ptr|
      {
        var turn;
        turn, ptr, hasBits := ParseField(ptr, hasBits);
        if turn.Continue? { continue; }
        hasUuidSub := hasUuidSub || hasBits;
        return (if turn.Error? then ParseError else EndTag(turn.tag)), ptr;
      }
      hasUuidSub := hasUuidSub || hasBits;
      return ParsedAll, ptr;
    }

    method InternalSerialize(target: Bytes) returns (out: Bytes)
      ensures out == target + Serialize(Value())
    {
      ghost var b := Value();
      Begin(b, target);
      hide EncodeAll;
      hide PrintedTo;
      hide Serialize;
      hide ParamRecords;
      ghost var before := target;
      out := WriteText(1, nameSpace, target);
      FieldPrinted(b, 1, target, before, out); before := out;
      out := WriteText(2, commandPrefix, out);
      FieldPrinted(b, 2, target, before, out); before := out;
      out := WriteParams(params, out);
      FieldPrinted(b, 3, target, before, out); before := out;
      out := WriteOptionalText(4, uuid.Some?, if uuid.Some? then uuid.value else [], out);
      FieldPrinted(b, 4, target, before, out); before := out;
      out := WriteOptionalInt32(5, hasUuidSub, uuidSub, out);
      FieldPrinted(b, 5, target, before, out); before := out;
      if unknown != [] { out := WriteUnknown(unknown, out); }
      FieldPrinted(b, 6, target, before, out);
      End(b, target, out);
    }

    /** The precomputed size is the number of bytes printed, though it counts params first. */
    method ByteSizeLong() returns (totalSize: nat)
      ensures totalSize == |Serialize(Value())|
    {
      ghost var b := Value();
      FieldSizes(b);
      SerializedSize(b);
      NoRecords();
      hide FieldSize;
      hide Serialize;
      hide EncodeAll;
      hide StringSize;
      hide Int32Size;
      hide ParamRecords;
      totalSize := ParamsSize(params);
      totalSize := totalSize + TextFieldSize(nameSpace);
      totalSize := totalSize + TextFieldSize(commandPrefix);
      totalSize := totalSize + OptionalTextSize(uuid.Some?, if uuid.Some? then uuid.value else []);
      totalSize := totalSize + (if hasUuidSub then Int32Size(uuidSub) + 1 else 0);
      if unknown != [] {
        var n := UnknownSize(unknown);
        totalSize := totalSize + n;
      }
    }
  }
}
