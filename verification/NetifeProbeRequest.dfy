/**
  The generated class behind NetifeProbeRequest: its fields with the presence bits, and the
  methods that clear, merge, copy, print, measure and parse it, each proved against the
  values and laws of ProbeRequest.
 */
module NetifeProbeRequest {
  import opened Wrappers
  import opened Wire
  import opened Utf8
  import opened Fields
  import opened UnknownFields
  import opened ProbeRequest

  // ----- printing and measuring -----

  /** Fields before number k have been printed behind `start`. */
  ghost predicate PrintedTo(b: Probe, k: nat, start: Bytes, target: Bytes) {
    PrintedUpTo(FieldRecords, LAST, b, k, start, target)
  }

  lemma FieldPrinted(b: Probe, k: nat, start: Bytes, before: Bytes, after: Bytes)
    requires k <= LAST && PrintedTo(b, k, start, before) && after == before + EncodeAll(FieldRecords(b, k))
    ensures PrintedTo(b, k + 1, start, after)
  {
    hide FieldRecords, EncodeAll, PrintedUpTo;
    Printed(FieldRecords, LAST, b, k, start, before, after);
  }

  lemma Begin(b: Probe, start: Bytes)
    ensures PrintedTo(b, 1, start, start) && EncodeAll([]) == []
  {
    NothingPrinted(FieldRecords, LAST, b, start);
    NoRecords();
  }

  lemma End(b: Probe, start: Bytes, target: Bytes)
    requires PrintedTo(b, 15, start, target)
    ensures target == start + Serialize(b)
  {
    hide FieldRecords, EncodeAll, PrintedUpTo;
    AllPrinted(FieldRecords, LAST, b, start, target);
  }

  function SizeOf(b: Probe, k: nat): nat {
    FieldSize(FieldRecords, b, k)
  }

  lemma SizeStep(b: Probe, k: nat)
    requires k <= LAST
    ensures |EncodeAll(RecordsFrom(b, k))| == SizeOf(b, k) + |EncodeAll(RecordsFrom(b, k + 1))|
  {
    hide FieldRecords, EncodeAll;
    FieldStep(FieldRecords, LAST, b, k);
  }

  /** The length of a printed message, field by field. */
  lemma SerializedSize(b: Probe)
    ensures |Serialize(b)| ==
            SizeOf(b, 1) + SizeOf(b, 2) + SizeOf(b, 3) + SizeOf(b, 4) + SizeOf(b, 5) + SizeOf(b, 6) + SizeOf(b, 7) +
            SizeOf(b, 8) + SizeOf(b, 9) + SizeOf(b, 10) + SizeOf(b, 11) + SizeOf(b, 12) + SizeOf(b, 13) + SizeOf(b, 14)
  {
    NoFields(FieldRecords, LAST, b);
    assert |EncodeAll(RecordsFrom(b, 15))| == 0 && Serialize(b) == EncodeAll(RecordsFrom(b, 1)) by {
      hide FieldRecords, EncodeAll, FieldsFrom;
    }
    hide *;
    SizeStep(b, 1); SizeStep(b, 2); SizeStep(b, 3); SizeStep(b, 4); SizeStep(b, 5);
    SizeStep(b, 6); SizeStep(b, 7); SizeStep(b, 8); SizeStep(b, 9); SizeStep(b, 10);
    SizeStep(b, 11); SizeStep(b, 12); SizeStep(b, 13); SizeStep(b, 14);
  }

  /** What each field of a printed message takes. */
  lemma TextSizes(b: Probe)
    ensures SizeOf(b, 1) == TextFieldSize(b.uuid)
    ensures SizeOf(b, 5) == TextFieldSize(b.dstIpAddr)
    ensures SizeOf(b, 6) == TextFieldSize(b.dstIpPort)
    ensures SizeOf(b, 7) == TextFieldSize(b.srcIpAddr)
    ensures SizeOf(b, 8) == TextFieldSize(b.srcIpPort)
    ensures SizeOf(b, 11) == TextFieldSize(b.rawText)
  {
    TextSize(1, b.uuid);
    TextSize(5, b.dstIpAddr);
    TextSize(6, b.dstIpPort);
    TextSize(7, b.srcIpAddr);
    TextSize(8, b.srcIpPort);
    TextSize(11, b.rawText);
    NoRecords();
    hide EncodeAll;
    hide StringSize;
  }

  lemma IntSizes(b: Probe)
    ensures SizeOf(b, 2) == EnumFieldSize(b.requestType)
    ensures SizeOf(b, 3) == EnumFieldSize(b.applicationType)
    ensures SizeOf(b, 4) == EnumFieldSize(b.protocol)
    ensures SizeOf(b, 9) == if b.isRawText then 1 + 1 else 0
    ensures SizeOf(b, 10) == if b.uuidSub.None? then 0 else 1 + Int32Size(b.uuidSub.value)
  {
    IntSize(2, b.requestType);
    IntSize(3, b.applicationType);
    IntSize(4, b.protocol);
    IntSize(9, 1);
    assert Int32Size(1) == 1 && SignExtend(1) == 1;
    if b.uuidSub.Some? { IntSize(10, b.uuidSub.value); }
    NoRecords();
    hide EncodeAll;
    hide Int32Size;
    hide SignExtend;
  }

  lemma OptionalSizes(b: Probe)
    ensures SizeOf(b, 12) == OptionalTextSize(b.pid.Some?, if b.pid.Some? then b.pid.value else [])
    ensures SizeOf(b, 13) ==
            OptionalTextSize(b.processName.Some?, if b.processName.Some? then b.processName.value else [])
    ensures SizeOf(b, 14) == |EncodeAll(b.unknown)|
  {
    if b.pid.Some? { TextSize(12, b.pid.value); }
    if b.processName.Some? { TextSize(13, b.processName.value); }
    NoRecords();
    hide EncodeAll;
    hide StringSize;
  }

  /** The tags of the switch; below 128, comparing the low byte after `tag >> 3` is comparing the tag. */
  predicate TextTag(tag: nat) {
    tag in {10, 42, 50, 58, 66, 90, 98, 106}
  }

  predicate VarintTag(tag: nat) {
    tag in {16, 24, 32, 72, 80}
  }

  lemma TagsOfTheSwitch(tag: nat)
    ensures TextTag(tag) <==> tag % 8 == 2 && TextNumber(tag / 8)
    ensures VarintTag(tag) <==> tag % 8 == 0 && VarintNumber(tag / 8)
  {}

  // ----- one turn of the loop, by the kind of tag it finds -----

  lemma TurnText(m: Probe, s: Bytes)
    requires s != [] && ReadTag(s).Got? && TextTag(ReadTag(s).value)
    ensures var Got(tag, n) := ReadTag(s);
            ParseProbe(m, s) ==
            match ReadChunk(s[n..])
            case Fail => Failed
            case Got(b, k) => if IsUtf8(b) then ParseProbe(SetText(m, tag / 8, b), s[n..][k..]) else Failed
  {
    hide IsUtf8;
    hide ReadChunk;
    hide SetText;
    TagsOfTheSwitch(ReadTag(s).value);
  }

  lemma TurnVarint(m: Probe, s: Bytes)
    requires s != [] && ReadTag(s).Got? && VarintTag(ReadTag(s).value)
    ensures var Got(tag, n) := ReadTag(s);
            ParseProbe(m, s) ==
            match ReadVarint64(s[n..])
            case Fail => Failed
            case Got(v, k) => ParseProbe(SetVarint(m, tag / 8, v), s[n..][k..])
  {
    hide ReadVarint64;
    hide SetVarint;
    TagsOfTheSwitch(ReadTag(s).value);
  }

  lemma TurnUnknown(m: Probe, s: Bytes)
    requires s != [] && ReadTag(s).Got?
    requires !TextTag(ReadTag(s).value) && !VarintTag(ReadTag(s).value)
    ensures var Got(tag, n) := ReadTag(s);
            ParseProbe(m, s) ==
            if tag == 0 || tag % 8 == 4 then Stopped(m, tag, s[n..])
            else match ReadPayload(tag % 8, s[n..])
              case Fail => Failed
              case Got(p, k) =>
                if tag / 8 == 0 then Failed
                else ParseProbe(m.(unknown := m.unknown + [Record(tag / 8, p)]), s[n..][k..])
  {
    hide ReadTag, ReadPayload, IsUtf8;
    TagsOfTheSwitch(ReadTag(s).value);
    TurnUnnamed(Apply, Keep, m, s, ReadTag(s).value, ReadTag(s).used);
  }

  lemma TurnWithoutTag(m: Probe, s: Bytes)
    requires s != [] && ReadTag(s).Fail?
    ensures ParseProbe(m, s) == Failed
  {}

  // ----- the generated class -----

  /** The generated `Impl_` struct: every field, and the three bits of `_has_bits_[0]` in use. */
  datatype Impl = Impl(
    uuid: Bytes,
    requestType: Int32,
    applicationType: Int32,
    protocol: Int32,
    dstIpAddr: Bytes,
    dstIpPort: Bytes,
    srcIpAddr: Bytes,
    srcIpPort: Bytes,
    isRawText: bool,
    uuidSub: Int32,
    rawText: Bytes,
    pid: Bytes,
    processName: Bytes,
    hasPid: bool,
    hasProcessName: bool,
    hasUuidSub: bool)
  {
    /** `_internal_mutable_x()` of a string: an optional field becomes present. */
    function Mutable(field: nat): Impl {
      if field == 12 then this.(hasPid := true)
      else if field == 13 then this.(hasProcessName := true)
      else this
    }

    function StoreText(field: nat, b: Bytes): Impl
      requires TextNumber(field)
    {
      if field == 1 then this.(uuid := b)
      else if field == 5 then this.(dstIpAddr := b)
      else if field == 6 then this.(dstIpPort := b)
      else if field == 7 then this.(srcIpAddr := b)
      else if field == 8 then this.(srcIpPort := b)
      else if field == 11 then this.(rawText := b)
      else if field == 12 then this.(pid := b)
      else this.(processName := b)
    }

    function StoreVarint(field: nat, v: nat): Impl
      requires VarintNumber(field)
    {
      if field == 2 then this.(requestType := ToInt32(v))
      else if field == 3 then this.(applicationType := ToInt32(v))
      else if field == 4 then this.(protocol := ToInt32(v))
      else if field == 9 then this.(isRawText := v != 0)
      else this.(uuidSub := ToInt32(v))
    }

    /** `_has_bits_.Or(has_bits)` for the one bit the parser keeps in a local. */
    function Or(uuidSubBit: bool): Impl {
      this.(hasUuidSub := hasUuidSub || uuidSubBit)
    }

    /** An absent optional field holds its default. */
    predicate Valid() {
      (!hasPid ==> pid == []) && (!hasProcessName ==> processName == []) && (!hasUuidSub ==> uuidSub == 0)
    }

    /** The message a caller sees through the presence accessors. */
    function Value(unknown: seq<Record>): Probe {
      Probe(uuid, requestType, applicationType, protocol, dstIpAddr, dstIpPort, srcIpAddr, srcIpPort, isRawText,
            if hasUuidSub then Some(uuidSub) else None,
            rawText,
            if hasPid then Some(pid) else None,
            if hasProcessName then Some(processName) else None,
            unknown)
    }
  }

  // ----- merging, by groups of fields -----

  function WithTexts(a: Probe, b: Probe): Probe {
    a.(uuid := MergeText(a.uuid, b.uuid),
       dstIpAddr := MergeText(a.dstIpAddr, b.dstIpAddr),
       dstIpPort := MergeText(a.dstIpPort, b.dstIpPort),
       srcIpAddr := MergeText(a.srcIpAddr, b.srcIpAddr),
       srcIpPort := MergeText(a.srcIpPort, b.srcIpPort),
       rawText := MergeText(a.rawText, b.rawText))
  }

  function WithOptionalTexts(a: Probe, b: Probe): Probe {
    a.(pid := MergeOption(a.pid, b.pid), processName := MergeOption(a.processName, b.processName))
  }

  function WithEnums(a: Probe, b: Probe): Probe {
    a.(requestType := MergeEnum(a.requestType, b.requestType),
       applicationType := MergeEnum(a.applicationType, b.applicationType),
       protocol := MergeEnum(a.protocol, b.protocol))
  }

  function WithRest(a: Probe, b: Probe): Probe {
    a.(isRawText := a.isRawText || b.isRawText, uuidSub := MergeOption(a.uuidSub, b.uuidSub))
  }

  lemma MergeByGroups(a: Probe, b: Probe)
    ensures Merge(a, b) ==
            WithRest(WithEnums(WithOptionalTexts(WithTexts(a, b), b), b), b).(unknown := a.unknown + b.unknown)
  {
    hide MergeText, MergeEnum, MergeOption;
  }

  method MergeTexts(to: Impl, from: Impl, ghost u: seq<Record>) returns (i: Impl)
    requires to.Valid() && from.Valid()
    ensures i.Valid() && i.Value(u) == WithTexts(to.Value(u), from.Value(u))
  {
    hide MergeText;
    i := to.(uuid := MergeText(to.uuid, from.uuid),
             dstIpAddr := MergeText(to.dstIpAddr, from.dstIpAddr),
             dstIpPort := MergeText(to.dstIpPort, from.dstIpPort),
             srcIpAddr := MergeText(to.srcIpAddr, from.srcIpAddr),
             srcIpPort := MergeText(to.srcIpPort, from.srcIpPort),
             rawText := MergeText(to.rawText, from.rawText));
  }

  method MergeOptionalTexts(to: Impl, from: Impl, ghost u: seq<Record>) returns (i: Impl)
    requires to.Valid() && from.Valid()
    ensures i.Valid() && i.Value(u) == WithOptionalTexts(to.Value(u), from.Value(u))
  {
    i := to.(pid := if from.hasPid then from.pid else to.pid, hasPid := to.hasPid || from.hasPid);
    i := i.(processName := if from.hasProcessName then from.processName else i.processName,
            hasProcessName := i.hasProcessName || from.hasProcessName);
  }

  method MergeEnums(to: Impl, from: Impl, ghost u: seq<Record>) returns (i: Impl)
    requires to.Valid() && from.Valid()
    ensures i.Valid() && i.Value(u) == WithEnums(to.Value(u), from.Value(u))
  {
    hide MergeEnum;
    i := to.(requestType := MergeEnum(to.requestType, from.requestType),
             applicationType := MergeEnum(to.applicationType, from.applicationType),
             protocol := MergeEnum(to.protocol, from.protocol));
  }

  method MergeRest(to: Impl, from: Impl, ghost u: seq<Record>) returns (i: Impl)
    requires to.Valid() && from.Valid()
    ensures i.Valid() && i.Value(u) == WithRest(to.Value(u), from.Value(u))
  {
    i := to.(isRawText := to.isRawText || from.isRawText);
    i := i.(hasUuidSub := i.hasUuidSub || from.hasUuidSub,
            uuidSub := if from.hasUuidSub then from.uuidSub else i.uuidSub);
  }

  /** MergeImpl's field assignments, in its order: texts, optional texts, enums, bool, uuid_sub. */
  method MergeFields(to: Impl, from: Impl, ghost u: seq<Record>, ghost v: seq<Record>) returns (i: Impl)
    requires to.Valid() && from.Valid()
    ensures i.Valid() && i.Value(u + v) == Merge(to.Value(u), from.Value(v))
  {
    MergeByGroups(to.Value(u), from.Value(v));
    UnknownsApart(to, u, u + v);
    UnknownsApart(from, v, u + v);
    GroupsKeepUnknown(to.Value(u), from.Value(v), u + v);
    hide WithTexts, WithOptionalTexts, WithEnums, WithRest, Merge, Impl.Valid, Impl.Value;
    i := MergeTexts(to, from, u + v);
    i := MergeOptionalTexts(i, from, u + v);
    i := MergeEnums(i, from, u + v);
    i := MergeRest(i, from, u + v);
  }

  lemma UnknownsApart(i: Impl, u: seq<Record>, v: seq<Record>)
    ensures i.Value(v) == i.Value(u).(unknown := v)
    ensures i.Value(u).unknown == u
  {}

  lemma GroupsKeepUnknown(a: Probe, b: Probe, w: seq<Record>)
    ensures
      var c := b.(unknown := w);
      WithRest(WithEnums(WithOptionalTexts(WithTexts(a.(unknown := w), c), c), c), c) ==
      WithRest(WithEnums(WithOptionalTexts(WithTexts(a, b), b), b), b).(unknown := w)
  {
    hide MergeText, MergeEnum, MergeOption;
  }

  // ----- storing what was read -----

  lemma StoreTextValid(i: Impl, field: nat, b: Bytes, bits: bool)
    requires TextNumber(field) && i.Or(bits).Valid()
    ensures i.Mutable(field).Or(bits).Valid()
    ensures i.Mutable(field).StoreText(field, b).Or(bits).Valid()
  {}

  lemma StoreAddressSets(i: Impl, field: nat, b: Bytes, bits: bool, u: seq<Record>)
    requires field == 5 || field == 6 || field == 7 || field == 8
    ensures i.Mutable(field).StoreText(field, b).Or(bits).Value(u) == SetText(i.Or(bits).Value(u), field, b)
  {}

  lemma StoreOtherTextSets(i: Impl, field: nat, b: Bytes, bits: bool, u: seq<Record>)
    requires field == 1 || field == 11 || field == 12 || field == 13
    ensures i.Mutable(field).StoreText(field, b).Or(bits).Value(u) == SetText(i.Or(bits).Value(u), field, b)
  {}

  /** Storing through a mutable string sets the field, and makes it present if it is optional. */
  lemma StoreTextSets(i: Impl, field: nat, b: Bytes, bits: bool, u: seq<Record>)
    requires TextNumber(field)
    ensures i.Mutable(field).StoreText(field, b).Or(bits).Value(u) == SetText(i.Or(bits).Value(u), field, b)
  {
    hide Impl.Mutable, Impl.StoreText, Impl.Or, Impl.Value, SetText;
    if 5 <= field <= 8 {
      StoreAddressSets(i, field, b, bits, u);
    } else {
      StoreOtherTextSets(i, field, b, bits, u);
    }
  }

  lemma StoreVarintSets(i: Impl, field: nat, v: nat, bits: bool, u: seq<Record>)
    requires VarintNumber(field) && i.Or(bits).Valid()
    ensures i.Or(bits || field == 10).Valid()
    ensures i.StoreVarint(field, v).Or(bits || field == 10).Valid()
    ensures i.StoreVarint(field, v).Or(bits || field == 10).Value(u) == SetVarint(i.Or(bits).Value(u), field, v)
  {
    hide ToInt32;
  }

  class Message {
    var impl: Impl
    var unknown: seq<Record>

    ghost function Value(): Probe
      reads this
    {
      impl.Value(unknown)
    }

    ghost predicate Valid()
      reads this
    {
      impl.Valid()
    }

    constructor ()
      ensures Valid() && Value() == CLEARED
    {
      impl := Impl([], 0, 0, 0, [], [], [], [], false, 0, [], [], [], false, false, false);
      unknown := [];
    }

    method Clear()
      requires Valid()
      modifies this
      ensures Valid() && Value() == CLEARED
    {
      var i := impl;
      i := i.(uuid := [], dstIpAddr := [], dstIpPort := [], srcIpAddr := [], srcIpPort := [], rawText := []);
      if i.hasPid || i.hasProcessName {
        if i.hasPid { i := i.(pid := []); }
        if i.hasProcessName { i := i.(processName := []); }
      }
      i := i.(requestType := 0, applicationType := 0, protocol := 0, isRawText := false);
      i := i.(uuidSub := 0);
      i := i.(hasPid := false, hasProcessName := false, hasUuidSub := false);
      impl, unknown := i, [];
    }

    method MergeImpl(from: Message)
      requires from != this && Valid() && from.Valid()
      modifies this
      ensures Valid() && Value() == Merge(old(Value()), from.Value())
    {
      impl := MergeFields(impl, from.impl, unknown, from.unknown);
      unknown := unknown + from.unknown;
    }

    /** Copying makes the two messages equal, from any state, also onto itself. */
    method CopyFrom(from: Message)
      requires Valid() && from.Valid()
      modifies this
      ensures Valid() && Value() == old(from.Value())
    {
      if from == this { return; }
      Clear();
      MergeIntoCleared(from.Value());
      MergeImpl(from);
    }

    method InternalSerialize(target: Bytes) returns (out: Bytes)
      ensures out == target + Serialize(Value())
    {
      var i := impl;
      ghost var b := Value();
      Begin(b, target);
      hide EncodeAll;
      hide PrintedTo;
      hide Serialize;
      hide RecordsFrom;
      hide SignExtend;
      ghost var before := target;
      out := WriteText(1, i.uuid, target);
      FieldPrinted(b, 1, target, before, out); before := out;
      out := WriteEnum(2, i.requestType, out);
      FieldPrinted(b, 2, target, before, out); before := out;
      out := WriteEnum(3, i.applicationType, out);
      FieldPrinted(b, 3, target, before, out); before := out;
      out := WriteEnum(4, i.protocol, out);
      FieldPrinted(b, 4, target, before, out); before := out;
      out := WriteText(5, i.dstIpAddr, out);
      FieldPrinted(b, 5, target, before, out); before := out;
      out := WriteText(6, i.dstIpPort, out);
      FieldPrinted(b, 6, target, before, out); before := out;
      out := WriteText(7, i.srcIpAddr, out);
      FieldPrinted(b, 7, target, before, out); before := out;
      out := WriteText(8, i.srcIpPort, out);
      FieldPrinted(b, 8, target, before, out); before := out;
      out := WriteBool(9, i.isRawText, out);
      FieldPrinted(b, 9, target, before, out); before := out;
      out := WriteOptionalInt32(10, i.hasUuidSub, i.uuidSub, out);
      FieldPrinted(b, 10, target, before, out); before := out;
      out := WriteText(11, i.rawText, out);
      FieldPrinted(b, 11, target, before, out); before := out;
      out := WriteOptionalText(12, i.hasPid, i.pid, out);
      FieldPrinted(b, 12, target, before, out); before := out;
      out := WriteOptionalText(13, i.hasProcessName, i.processName, out);
      FieldPrinted(b, 13, target, before, out); before := out;
      if unknown != [] { out := WriteUnknown(unknown, out); }
      FieldPrinted(b, 14, target, before, out);
      End(b, target, out);
    }

    /** The precomputed size is the number of bytes printed. */
    method ByteSizeLong() returns (totalSize: nat)
      ensures totalSize == |Serialize(Value())|
    {
      var i := impl;
      ghost var b := Value();
      TextSizes(b);
      IntSizes(b);
      OptionalSizes(b);
      SerializedSize(b);
      NoRecords();
      hide SizeOf;
      hide Serialize;
      hide EncodeAll;
      hide StringSize;
      hide Int32Size;
      totalSize := 0;
      totalSize := totalSize + TextFieldSize(i.uuid);
      totalSize := totalSize + TextFieldSize(i.dstIpAddr);
      totalSize := totalSize + TextFieldSize(i.dstIpPort);
      totalSize := totalSize + TextFieldSize(i.srcIpAddr);
      totalSize := totalSize + TextFieldSize(i.srcIpPort);
      totalSize := totalSize + TextFieldSize(i.rawText);
      if i.hasPid || i.hasProcessName {
        totalSize := totalSize + OptionalTextSize(i.hasPid, i.pid);
        totalSize := totalSize + OptionalTextSize(i.hasProcessName, i.processName);
      }
      totalSize := totalSize + EnumFieldSize(i.requestType);
      totalSize := totalSize + EnumFieldSize(i.applicationType);
      totalSize := totalSize + EnumFieldSize(i.protocol);
      totalSize := totalSize + (if i.isRawText then 1 + 1 else 0);
      totalSize := totalSize + (if i.hasUuidSub then Int32Size(i.uuidSub) + 1 else 0);
      if unknown != [] {
        var n := UnknownSize(unknown);
        totalSize := totalSize + n;
      }
    }

    /** The message so far, with the local presence bit counted in. */
    ghost function Current(hasBits: bool): Probe
      reads this
    {
      impl.Or(hasBits).Value(unknown)
    }

    ghost predicate CurrentValid(hasBits: bool)
      reads this
    {
      impl.Or(hasBits).Valid()
    }

    /** UnknownFieldParse: append the record under `tag`, or fail. */
    method UnknownFieldParse(tag: nat, ptr: Bytes, ghost hasBits: bool) returns (next: Option<Bytes>)
      requires CurrentValid(hasBits)
      modifies this`unknown
      ensures CurrentValid(hasBits)
      ensures match ReadPayload(tag % 8, ptr)
              case Fail => next == None
              case Got(p, k) =>
                if tag / 8 == 0 then next == None
                else
                  && next == Some(ptr[k..])
                  && var m := old(Current(hasBits));
                     Current(hasBits) == m.(unknown := m.unknown + [Record(tag / 8, p)])
    {
      hide ReadPayload;
      var r, rest := ReadUnnamed(tag, ptr);
      if r.None? { return None; }
      unknown := unknown + [r.value];
      return Some(rest);
    }

    /** A string case of the switch: read, store, then check UTF-8. */
    method ParseText(field: nat, ptr: Bytes, ghost hasBits: bool) returns (next: Option<Bytes>)
      requires TextNumber(field) && CurrentValid(hasBits)
      modifies this`impl
      ensures CurrentValid(hasBits)
      ensures match ReadChunk(ptr)
              case Fail => next == None
              case Got(b, k) =>
                if IsUtf8(b) then next == Some(ptr[k..]) && Current(hasBits) == SetText(old(Current(hasBits)), field, b)
                else next == None
    {
      hide ReadChunk;
      hide IsUtf8;
      hide SetText;
      hide Impl.Mutable;
      hide Impl.StoreText;
      hide Impl.Or;
      hide Impl.Valid;
      hide Impl.Value;
      StoreTextValid(impl, field, [], hasBits);
      impl := impl.Mutable(field);
      match ReadChunk(ptr) {
        case Fail => return None;
        case Got(b, k) =>
          StoreTextValid(old(impl), field, b, hasBits);
          StoreTextSets(old(impl), field, b, hasBits, unknown);
          impl := impl.StoreText(field, b);
          if !IsUtf8(b) { return None; }
          return Some(ptr[k..]);
      }
    }

    /** A varint case of the switch; uuid_sub sets its presence in the local bits first. */
    method ParseVarint(field: nat, ptr: Bytes, hasBits: bool) returns (next: Option<Bytes>, bits: bool)
      requires VarintNumber(field) && CurrentValid(hasBits)
      modifies this`impl
      ensures CurrentValid(bits)
      ensures match ReadVarint64(ptr)
              case Fail => next == None
              case Got(v, k) => next == Some(ptr[k..]) && Current(bits) == SetVarint(old(Current(hasBits)), field, v)
    {
      hide ReadVarint64;
      hide SetVarint;
      hide Impl.StoreVarint;
      hide Impl.Or;
      hide Impl.Valid;
      hide Impl.Value;
      StoreVarintSets(impl, field, 0, hasBits, unknown);
      bits := hasBits || field == 10;
      match ReadVarint64(ptr) {
        case Fail => return None, bits;
        case Got(v, k) =>
          StoreVarintSets(impl, field, v, hasBits, unknown);
          impl := impl.StoreVarint(field, v);
          return Some(ptr[k..]), bits;
      }
    }

    /** The body of the loop: read a tag and run its case of the switch. */
    method ParseField(ptr: Bytes, hasBits: bool) returns (turn: Turn, next: Bytes, bits: bool)
      requires ptr != [] && CurrentValid(hasBits)
      modifies this
      ensures CurrentValid(bits)
      ensures match turn
              case Continue =>
                |next| < |ptr| && ParseProbe(old(Current(hasBits)), ptr) == ParseProbe(Current(bits), next)
              case Ended(tag) => ParseProbe(old(Current(hasBits)), ptr) == Stopped(Current(bits), tag, next)
              case Error => ParseProbe(old(Current(hasBits)), ptr) == Failed
    {
      ghost var m := Current(hasBits);
      hide *;
      bits := hasBits;
      match ReadTag(ptr) {
        case Fail =>
          TurnWithoutTag(m, ptr);
          return Error, ptr, bits;
        case Got(tag, n) =>
          var at, after := ptr[n..], None;
          if TextTag(tag) {
            TurnText(m, ptr);
            TagsOfTheSwitch(tag);
            after := ParseText(tag / 8, at, hasBits);
          } else if VarintTag(tag) {
            TurnVarint(m, ptr);
            TagsOfTheSwitch(tag);
            after, bits := ParseVarint(tag / 8, at, hasBits);
          } else {
            TurnUnknown(m, ptr);
            if tag == 0 || tag % 8 == 4 {
              return Ended(tag), at, bits;
            }
            after := UnknownFieldParse(tag, at, hasBits);
          }
          if after.None? { return Error, ptr, bits; }
          return Continue, after.value, bits;
      }
    }

    /**
      The dispatch loop; a pointer is the input from there on. The presence of uuid_sub is
      collected in a local and joined to the presence bits on every way out.
     */
    method InternalParse(input: Bytes) returns (status: Status, ptr: Bytes)
      requires Valid()
      modifies this
      ensures Valid()
      ensures match ParseProbe(old(Value()), input)
              case Complete(m) => status == ParsedAll && ptr == [] && Value() == m
              case Stopped(m, tag, rest) => status == EndTag(tag) && ptr == rest && Value() == m
              case Failed => status == ParseError
    {
      ghost var m0 := Value();
      var hasBits := false;
      ptr := input;
      while ptr != []
        invariant CurrentValid(hasBits)
        invariant ParseProbe(m0, input) == ParseProbe(Current(hasBits), ptr)
        decreases |ptr|
      {
        var turn;
        turn, ptr, hasBits := ParseField(ptr, hasBits);
        if turn.Continue? { continue; }
        impl := impl.Or(hasBits);
        return (if turn.Error? then ParseError else EndTag(turn.tag)), ptr;
      }
      impl := impl.Or(hasBits);
      return ParsedAll, ptr;
    }
  }
}
