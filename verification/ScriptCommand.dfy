/**
  NetifeScriptCommandRequest: a message with a map field. On the wire a map is a run of entry
  messages ("Maps" of the Protocol Buffers Encoding document), printed in hash order or, for
  deterministic serialization, in key order.
 */
module ScriptCommand {
  import opened Wrappers
  import opened Wire
  import opened Utf8
  import opened Fields
  import opened NamedFields
  import opened UnknownFields
  import Sets

  datatype Script = Script(
    scriptName: Bytes,
    exportFunction: Bytes,
    params: map<Bytes, Bytes>,
    unknown: seq<Record>)

  const CLEARED := Script([], [], map[], [])

  // ----- map entries -----

  datatype Entry = Entry(key: Bytes, value: Bytes)

  /** Unknown fields of an entry are dropped with the entry message; a missing half is empty. */
  function ApplyEntry(e: Entry, r: Record): Option<Entry> {
    if r.payload.Chunk? && r.field == 1 then
      if IsUtf8(r.payload.bytes) then Some(e.(key := r.payload.bytes)) else None
    else if r.payload.Chunk? && r.field == 2 then
      if IsUtf8(r.payload.bytes) then Some(e.(value := r.payload.bytes)) else None
    else Some(e)
  }

  function ParseEntry(s: Bytes): Option<Entry> {
    match Parse(ApplyEntry, Entry([], []), s)
    case Complete(e) => Some(e)
    case Stopped(_, _, _) => None
    case Failed => None
  }

  /** An entry always prints both halves, empty or not. */
  function EncodeEntry(key: Bytes, value: Bytes): Bytes {
    EncodeAll([Record(1, Chunk(key)), Record(2, Chunk(value))])
  }

  lemma EncodeEntryParts(key: Bytes, value: Bytes)
    ensures EncodeEntry(key, value) == EncodeRecord(Record(1, Chunk(key))) + EncodeRecord(Record(2, Chunk(value)))
    ensures |EncodeEntry(key, value)| == (1 + StringSize(key)) + (1 + StringSize(value))
  {
    var a, b := Record(1, Chunk(key)), Record(2, Chunk(value));
    assert [a] + [b] == [a, b];
    EncodeAllConcat([a], [b]);
    EncodeAllOne(a);
    EncodeAllOne(b);
    TextSize(1, key);
    TextSize(2, value);
  }

  lemma EntryRoundTrip(key: Bytes, value: Bytes)
    requires Printable(key) && Printable(value)
    ensures ParseEntry(EncodeEntry(key, value)) == Some(Entry(key, value))
  {
    var a, b := Record(1, Chunk(key)), Record(2, Chunk(value));
    var e0, e1, e2 := Entry([], []), Entry(key, []), Entry(key, value);
    assert ApplyEntry(e0, a) == Some(e1) && ApplyEntry(e1, b) == Some(e2);
    EncodeEntryParts(key, value);
    hide IsUtf8;
    hide EncodeRecord;
    ParseOne(ApplyEntry, e0, a, EncodeRecord(b));
    assert EncodeRecord(b) + [] == EncodeRecord(b);
    ParseOne(ApplyEntry, e1, b, []);
    assert Parse(ApplyEntry, e2, []) == Complete(e2);
  }

  // ----- what the parser does with one record -----

  predicate Known(r: Record) {
    r.payload.Chunk? && r.field in {1, 2, 3}
  }

  function Apply(m: Script, r: Record): Option<Script> {
    if r.payload.Chunk? && r.field == 1 then
      if IsUtf8(r.payload.bytes) then Some(m.(scriptName := r.payload.bytes)) else None
    else if r.payload.Chunk? && r.field == 2 then
      if IsUtf8(r.payload.bytes) then Some(m.(exportFunction := r.payload.bytes)) else None
    else if r.payload.Chunk? && r.field == 3 then
      match ParseEntry(r.payload.bytes)
      case None => None
      case Some(e) => Some(m.(params := m.params[e.key := e.value]))
    else Some(m.(unknown := m.unknown + [r]))
  }

  function ParseScript(m: Script, s: Bytes): Outcome<Script> {
    Parse(Apply, m, s)
  }

  // ----- what the printer writes, and merge -----

  /** An order in which the entries of a map may be visited: every key once. */
  ghost predicate IsOrder(order: seq<Bytes>, keys: set<Bytes>) {
    && (forall i | 0 <= i < |order| :: order[i] in keys)
    && (forall k | k in keys :: k in order)
    && (forall i, j | 0 <= i < j < |order| :: order[i] != order[j])
  }

  function EntryRecord(params: map<Bytes, Bytes>, k: Bytes): Record
    requires k in params
  {
    Record(3, Chunk(EncodeEntry(k, params[k])))
  }

  function EntryRecords(params: map<Bytes, Bytes>, order: seq<Bytes>): (rs: seq<Record>)
    requires forall i | 0 <= i < |order| :: order[i] in params
    ensures |rs| == |order|
  {
    seq(|order|, i requires 0 <= i < |order| => EntryRecord(params, order[i]))
  }

  function SerializeIn(b: Script, order: seq<Bytes>): Bytes
    requires forall i | 0 <= i < |order| :: order[i] in b.params
  {
    EncodeAll(TextField(1, b.scriptName) +
              (TextField(2, b.exportFunction) + (EntryRecords(b.params, order) + b.unknown)))
  }

  function Merge(a: Script, b: Script): Script {
    Script(
      MergeText(a.scriptName, b.scriptName),
      MergeText(a.exportFunction, b.exportFunction),
      a.params + b.params,
      a.unknown + b.unknown)
  }

  /** An entry fits a length prefix of its own. */
  predicate PrintableEntry(k: Bytes, v: Bytes) {
    Printable(k) && Printable(v) && |EncodeEntry(k, v)| < MAX_LENGTH
  }

  predicate WellFormed(m: Script) {
    && Printable(m.scriptName) && Printable(m.exportFunction)
    && (forall k | k in m.params :: PrintableEntry(k, m.params[k]))
    && Unnamed(m.unknown, Known)
  }

  // ----- the laws -----

  /** The entries of `params` named in `order`. */
  function Named(params: map<Bytes, Bytes>, order: seq<Bytes>): map<Bytes, Bytes> {
    map k | k in order && k in params :: params[k]
  }

  lemma {:induction false} FoldEntries(m: Script, params: map<Bytes, Bytes>, order: seq<Bytes>)
    requires forall i | 0 <= i < |order| :: order[i] in params && PrintableEntry(order[i], params[order[i]])
    ensures Fold(Apply, m, EntryRecords(params, order)) == Some(m.(params := m.params + Named(params, order)))
    decreases |order|
  {
    hide IsUtf8;
    hide ParseEntry;
    hide EncodeEntry;
    var rs := EntryRecords(params, order);
    if order == [] {
      assert m.params + Named(params, order) == m.params;
    } else {
      var k := order[0];
      EntryRoundTrip(k, params[k]);
      var m' := m.(params := m.params[k := params[k]]);
      assert Apply(m, rs[0]) == Some(m');
      assert rs[1..] == EntryRecords(params, order[1..]);
      FoldEntries(m', params, order[1..]);
      assert m'.params + Named(params, order[1..]) == m.params + Named(params, order);
    }
  }

  function Keep(m: Script, rs: seq<Record>): Script {
    m.(unknown := m.unknown + rs)
  }

  /** Unknown records pass through the switch untouched and in order. */
  lemma FoldUnknown(m: Script, rs: seq<Record>)
    requires Unnamed(rs, Known)
    ensures Fold(Apply, m, rs) == Some(m.(unknown := m.unknown + rs))
  {
    forall m: Script {:trigger Keep(m, [])}
      ensures Keep(m, []) == m
    {
      assert m.unknown + [] == m.unknown;
    }
    forall m: Script, a, b {:trigger Keep(Keep(m, a), b)}
      ensures Keep(Keep(m, a), b) == Keep(m, a + b)
    {
      assert m.unknown + a + b == m.unknown + (a + b);
    }
    FoldUnnamed(Apply, Known, Keep, m, rs);
  }

  lemma FoldText(m: Script, b: Bytes)
    requires IsUtf8(b)
    ensures Fold(Apply, m, TextField(1, b)) == Some(m.(scriptName := MergeText(m.scriptName, b)))
    ensures Fold(Apply, m, TextField(2, b)) == Some(m.(exportFunction := MergeText(m.exportFunction, b)))
  {
    hide IsUtf8;
    hide ParseEntry;
  }

  lemma OrderNamesAll(params: map<Bytes, Bytes>, order: seq<Bytes>)
    requires IsOrder(order, params.Keys)
    ensures Named(params, order) == params
  {}

  lemma FoldScript(m: Script, b: Script, order: seq<Bytes>)
    requires WellFormed(b) && IsOrder(order, b.params.Keys)
    ensures Fold(Apply, m, TextField(1, b.scriptName) +
              (TextField(2, b.exportFunction) + (EntryRecords(b.params, order) + b.unknown))) ==
            Some(Merge(m, b))
  {
    var m1 := m.(scriptName := MergeText(m.scriptName, b.scriptName));
    var m2 := m1.(exportFunction := MergeText(m.exportFunction, b.exportFunction));
    var m3 := m2.(params := m.params + b.params);
    var rs := EntryRecords(b.params, order);
    OrderNamesAll(b.params, order);
    FoldText(m, b.scriptName);
    FoldText(m1, b.exportFunction);
    FoldEntries(m2, b.params, order);
    FoldUnknown(m3, b.unknown);
    hide Fold;
    hide TextField;
    hide EntryRecords;
    FoldConcat(Apply, m, TextField(1, b.scriptName), TextField(2, b.exportFunction) + (rs + b.unknown));
    FoldConcat(Apply, m1, TextField(2, b.exportFunction), rs + b.unknown);
    FoldConcat(Apply, m2, rs, b.unknown);
  }

  lemma RecordsValid(b: Script, order: seq<Bytes>)
    requires WellFormed(b) && IsOrder(order, b.params.Keys)
    ensures ValidRecords(TextField(1, b.scriptName) +
              (TextField(2, b.exportFunction) + (EntryRecords(b.params, order) + b.unknown)))
  {
    hide IsUtf8;
    hide EncodeEntry;
    TextValid(1, b.scriptName);
    TextValid(2, b.exportFunction);
    var rs := EntryRecords(b.params, order);
    forall i | 0 <= i < |rs|
      ensures ValidRecord(rs[i])
    {
      assert PrintableEntry(order[i], b.params[order[i]]);
    }
  }

  /**
    In whatever order the entries are printed, parsing them on top of any message and before any
    input merges the message: shared keys are overridden, the others are kept.
   */
  lemma ParseSerialized(m: Script, b: Script, order: seq<Bytes>, rest: Bytes)
    requires WellFormed(b) && IsOrder(order, b.params.Keys)
    ensures ParseScript(m, SerializeIn(b, order) + rest) == ParseScript(Merge(m, b), rest)
  {
    RecordsValid(b, order);
    FoldScript(m, b, order);
    ParseEncoded(Apply, m,
      TextField(1, b.scriptName) + (TextField(2, b.exportFunction) + (EntryRecords(b.params, order) + b.unknown)),
      rest);
  }

  lemma MergeIntoCleared(b: Script)
    ensures Merge(CLEARED, b) == b
  {
    assert [] + b.unknown == b.unknown && map[] + b.params == b.params;
  }

  lemma RoundTrip(m: Script, b: Script, order: seq<Bytes>)
    requires WellFormed(b) && IsOrder(order, b.params.Keys)
    ensures ParseScript(m, SerializeIn(b, order)) == Complete(Merge(m, b))
    ensures ParseScript(CLEARED, SerializeIn(b, order)) == Complete(b)
  {
    assert SerializeIn(b, order) + [] == SerializeIn(b, order);
    ParseSerialized(m, b, order, []);
    ParseSerialized(CLEARED, b, order, []);
    MergeIntoCleared(b);
  }

  /** The keys of `a` and `b` after a merge, and where each value comes from. */
  lemma MergeOverridesSharedKeys(a: Script, b: Script, k: Bytes)
    ensures k in Merge(a, b).params <==> k in a.params || k in b.params
    ensures k in b.params ==> Merge(a, b).params[k] == b.params[k]
    ensures k in a.params && k !in b.params ==> Merge(a, b).params[k] == a.params[k]
  {}

  // ----- printing what was parsed -----

  /** Everything but the length of the entries: what the parser builds. */
  predicate Storable(m: Script) {
    && Printable(m.scriptName) && Printable(m.exportFunction)
    && (forall k | k in m.params :: Printable(k) && Printable(m.params[k]))
    && Unnamed(m.unknown, Known)
  }

  /** An entry prints both halves, so it may be longer than it came. */
  predicate EntryFits(params: map<Bytes, Bytes>, k: Bytes)
    requires k in params
  {
    |EncodeEntry(k, params[k])| < MAX_LENGTH
  }

  predicate EntriesFit(params: map<Bytes, Bytes>) {
    forall k | k in params :: EntryFits(params, k)
  }

  predicate StorableEntry(e: Entry) {
    Printable(e.key) && Printable(e.value)
  }

  lemma EntryIsStorable(s: Bytes)
    ensures ParseEntry(s).Some? ==> StorableEntry(ParseEntry(s).value)
  {
    hide IsUtf8;
    assert IsUtf8([]) by { EmptyIsUtf8(); }
    ParseKeeps(ApplyEntry, StorableEntry, Entry([], []), s);
  }

  lemma EmptyIsUtf8()
    ensures IsUtf8([])
  {}

  lemma ApplyKeepsStorable(m: Script, r: Record)
    requires Storable(m) && ValidRecord(r) && Apply(m, r).Some?
    ensures Storable(Apply(m, r).value)
  {
    hide IsUtf8, ParseEntry;
    if r.payload.Chunk? { EntryIsStorable(r.payload.bytes); }
  }

  lemma ParseIsStorable(m: Script, s: Bytes)
    requires Storable(m)
    ensures !ParseScript(m, s).Failed? ==> Storable(ParseScript(m, s).message)
  {
    forall m: Script, r: Record {:trigger Apply(m, r)} |
      Storable(m) && ValidRecord(r) && Apply(m, r).Some?
      ensures Storable(Apply(m, r).value)
    {
      ApplyKeepsStorable(m, r);
    }
    hide Storable;
    assert Storable(m);
    ParseKeeps(Apply, Storable, m, s);
  }

  /** The first entry in an order that does not fit. */
  lemma FirstUnfit(params: map<Bytes, Bytes>, order: seq<Bytes>) returns (j: nat)
    requires IsOrder(order, params.Keys) && !EntriesFit(params)
    ensures j < |order| && !EntryFits(params, order[j])
    ensures forall i | 0 <= i < j :: EntryFits(params, order[i])
  {
    hide EntryFits;
    var k :| k in params && !EntryFits(params, k);
    assert k in order;
    j := 0;
    while j < |order| && EntryFits(params, order[j])
      invariant j <= |order|
      invariant forall i | 0 <= i < j :: EntryFits(params, order[i])
    {
      j := j + 1;
    }
  }

  /** The entries before place j, as a message of their own. */
  function Before(b: Script, order: seq<Bytes>, j: nat): Script
    requires j <= |order|
  {
    b.(params := Named(b.params, order[..j]), unknown := [])
  }

  lemma BeforeIsWellFormed(b: Script, order: seq<Bytes>, j: nat)
    requires Storable(b) && IsOrder(order, b.params.Keys) && j <= |order|
    requires forall i | 0 <= i < j :: EntryFits(b.params, order[i])
    ensures WellFormed(Before(b, order, j)) && IsOrder(order[..j], Before(b, order, j).params.Keys)
  {
    hide IsUtf8, EncodeEntry;
  }

  lemma EntriesAround(params: map<Bytes, Bytes>, named: map<Bytes, Bytes>, order: seq<Bytes>, j: nat)
    requires j < |order| && forall i | 0 <= i < |order| :: order[i] in params
    requires forall i | 0 <= i < j :: order[i] in named && named[order[i]] == params[order[i]]
    ensures EncodeAll(EntryRecords(params, order)) ==
            EncodeAll(EntryRecords(named, order[..j])) +
            (EncodeRecord(EntryRecord(params, order[j])) + EncodeAll(EntryRecords(params, order[j + 1..])))
  {
    hide EncodeAll, EncodeRecord, EncodeEntry;
    var head, bad, tail := EntryRecords(named, order[..j]), EntryRecord(params, order[j]),
      EntryRecords(params, order[j + 1..]);
    assert EntryRecords(params, order) == head + ([bad] + tail);
    EncodeAllConcat(head, [bad] + tail);
    EncodeAllConcat([bad], tail);
    EncodeAllOne(bad);
  }

  lemma Regroup(a: Bytes, b: Bytes, head: Bytes, bad: Bytes, tail: Bytes, u: Bytes)
    ensures a + (b + ((head + (bad + tail)) + u)) == (a + (b + (head + []))) + (bad + (tail + u))
  {}

  lemma SplitAtEntry(b: Script, order: seq<Bytes>, j: nat) returns (rest: Bytes)
    requires IsOrder(order, b.params.Keys) && j < |order|
    requires IsOrder(order[..j], Before(b, order, j).params.Keys)
    ensures SerializeIn(b, order) ==
            SerializeIn(Before(b, order, j), order[..j]) + (EncodeRecord(EntryRecord(b.params, order[j])) + rest)
  {
    NoEntries(b.params);
    hide EncodeAll, EncodeRecord, EntryRecord, EntryRecords, TextField, SerializeIn;
    var p := Before(b, order, j);
    SerializedParts(b, order);
    SerializedParts(p, order[..j]);
    assert forall i | 0 <= i < j :: order[i] == order[..j][i];
    EntriesAround(b.params, p.params, order, j);
    var tail := EncodeAll(EntryRecords(b.params, order[j + 1..]));
    rest := tail + EncodeAll(b.unknown);
    Regroup(EncodeAll(TextField(1, b.scriptName)), EncodeAll(TextField(2, b.exportFunction)),
            EncodeAll(EntryRecords(p.params, order[..j])), EncodeRecord(EntryRecord(b.params, order[j])),
            tail, EncodeAll(b.unknown));
  }

  lemma BadChunkFails(m: Script, s: Bytes)
    requires s != [] && ReadTag(s).Got? && ReadTag(s).value == 26
    requires ReadChunk(s[ReadTag(s).used..]).Fail?
    ensures ParseScript(m, s) == Failed
  {
    hide ReadTag, ReadChunk, Apply;
    TurnKnown(m, s);
  }

  lemma UnfitIsRefused(m: Script, params: map<Bytes, Bytes>, k: Bytes, rest: Bytes)
    requires k in params && !EntryFits(params, k)
    ensures ParseScript(m, EncodeRecord(EntryRecord(params, k)) + rest) == Failed
  {
    hide EncodeEntry, ParseScript, ReadTag, ReadChunk, EncodeVarint;
    var entry := EncodeEntry(k, params[k]);
    var s := EncodeRecord(EntryRecord(params, k)) + rest;
    var more := EncodeVarint(|entry|) + (entry + rest);
    assert s == EncodeVarint(26) + more;
    TagRoundTrip(Record(3, Chunk([])), more);
    assert s[|EncodeVarint(26)|..] == more;
    LongChunkIsRefused(|entry|, entry + rest);
    BadChunkFails(m, s);
  }

  /**
    Printing the result of an accepted input, in any order, and parsing it again gives the same
    message exactly when every entry, with both its halves written, stays below 2 GiB.
   */
  lemma Reparse(s: Bytes, order: seq<Bytes>)
    requires ParseScript(CLEARED, s).Complete?
    requires IsOrder(order, ParseScript(CLEARED, s).message.params.Keys)
    ensures ParseScript(CLEARED, SerializeIn(ParseScript(CLEARED, s).message, order)) == ParseScript(CLEARED, s)
            <==> EntriesFit(ParseScript(CLEARED, s).message.params)
  {
    var b := ParseScript(CLEARED, s).message;
    assert Storable(CLEARED) by { EmptyIsUtf8(); }
    ParseIsStorable(CLEARED, s);
    if EntriesFit(b.params) {
      RoundTrip(CLEARED, b, order);
    } else {
      var j := FirstUnfit(b.params, order);
      BeforeIsWellFormed(b, order, j);
      var rest := SplitAtEntry(b, order, j);
      var p := Before(b, order, j);
      var bad := EncodeRecord(EntryRecord(b.params, order[j]));
      ParseSerialized(CLEARED, p, order[..j], bad + rest);
      UnfitIsRefused(Merge(CLEARED, p), b.params, order[j], rest);
    }
  }

  /** A named string has to be UTF-8, a map entry a message of its own. */
  predicate Accepts(r: Record) {
    Known(r) ==> if r.field == 3 then ParseEntry(r.payload.bytes).Some? else IsUtf8(r.payload.bytes)
  }

  lemma ApplyAccepts(m: Script, r: Record)
    ensures Apply(m, r).Some? <==> Accepts(r)
    ensures Apply(m, r).Some? ==> Apply(m, r).value.unknown == m.unknown + if Known(r) then [] else [r]
  {
    hide IsUtf8, ParseEntry;
  }

  /** Accepted is what splits into records with UTF-8 strings and well-formed entries; others are kept in order. */
  lemma AcceptedInputs(m: Script, s: Bytes)
    ensures ParseScript(m, s).Complete? <==> RecordsOf(s).Some? && AllAccepted(RecordsOf(s).value, Accepts)
    ensures ParseScript(m, s).Complete? ==>
            ParseScript(m, s).message.unknown == m.unknown + Remaining(RecordsOf(s).value, Known)
  {
    forall m: Script, r: Record {:trigger Apply(m, r)}
      ensures Apply(m, r).Some? <==> Accepts(r)
      ensures Apply(m, r).Some? ==> Apply(m, r).value.unknown == m.unknown + if Known(r) then [] else [r]
    {
      ApplyAccepts(m, r);
    }
    hide Apply, Known, Accepts;
    UnknownFields.AcceptedInputs(Apply, Known, Accepts, (m: Script) => m.unknown, m, s);
  }

  // ----- inputs below 2 GiB -----

  /** How long an entry prints. */
  function PrintedSize(e: Entry): nat {
    (1 + StringSize(e.key)) + (1 + StringSize(e.value))
  }

  /** Reading one record of n and then k bytes into an entry cannot lengthen its print by more than that. */
  lemma ApplyEntryGrows(e: Entry, r: Record, n: nat, k: nat)
    requires n >= 1 && (r.payload.Chunk? ==> k >= StringSize(r.payload.bytes))
    requires ApplyEntry(e, r).Some?
    ensures PrintedSize(ApplyEntry(e, r).value) <= PrintedSize(e) + n + k
  {
    hide IsUtf8, VarintSize;
  }

  lemma {:induction false} EntryGrows(e: Entry, s: Bytes)
    ensures Parse(ApplyEntry, e, s).Complete? ==> PrintedSize(Parse(ApplyEntry, e, s).message) <= PrintedSize(e) + |s|
    decreases |s|
  {
    hide ReadTag, ApplyEntry, ReadChunk, ReadVarint64, ReadFixed, PrintedSize, VarintSize;
    if s != [] && ReadTag(s).Got? {
      var tag, n := ReadTag(s).value, ReadTag(s).used;
      if tag != 0 && tag % 8 != 4 && tag / 8 != 0 && ReadPayload(tag % 8, s[n..]).Got? {
        var p, k := ReadPayload(tag % 8, s[n..]).value, ReadPayload(tag % 8, s[n..]).used;
        var r := Record(tag / 8, p);
        ChunkUses(s[n..]);
        if ApplyEntry(e, r).Some? {
          ApplyEntryGrows(e, r, n, k);
          EntryGrows(ApplyEntry(e, r).value, s[n..][k..]);
        }
      }
    }
  }

  /** An entry prints in at most four bytes more than its chunk. */
  lemma EntryPrintsShort(chunk: Bytes)
    requires ParseEntry(chunk).Some?
    ensures var e := ParseEntry(chunk).value; |EncodeEntry(e.key, e.value)| <= |chunk| + 4
  {
    var e := ParseEntry(chunk).value;
    EncodeEntryParts(e.key, e.value);
    assert PrintedSize(Entry([], [])) == 4;
    hide EncodeEntry;
    EntryGrows(Entry([], []), chunk);
  }

  /** A chunk within an input below 2 GiB leaves room for the four bytes: a long one has a long prefix. */
  lemma ChunkLeavesRoom(l: nat, used: nat, rest: nat)
    requires VarintSize(l) + l <= used && 1 + used + rest < MAX_LENGTH
    ensures l + 4 < MAX_LENGTH
  {
    Pow128Values();
    VarintSizeBounds(l, 0);
    VarintSizeBounds(l, 1);
    VarintSizeBounds(l, 2);
    VarintSizeBounds(l, 3);
    hide VarintSize;
    assert Pow128(1) == 128 && Pow128(2) == 0x4000 && Pow128(3) == 0x20_0000;
  }

  lemma ApplyKeepsFit(m: Script, r: Record, used: nat, rest: nat)
    requires EntriesFit(m.params) && Apply(m, r).Some? && 1 + used + rest < MAX_LENGTH
    requires r.payload.Chunk? ==> VarintSize(|r.payload.bytes|) + |r.payload.bytes| <= used
    ensures EntriesFit(Apply(m, r).value.params)
  {
    hide IsUtf8, ParseEntry, EncodeEntry, VarintSize;
    if r.payload.Chunk? && r.field == 3 {
      EntryPrintsShort(r.payload.bytes);
      ChunkLeavesRoom(|r.payload.bytes|, used, rest);
    }
  }

  lemma {:induction false} ParseKeepsFit(m: Script, s: Bytes)
    requires EntriesFit(m.params) && |s| < MAX_LENGTH
    ensures ParseScript(m, s).Complete? ==> EntriesFit(ParseScript(m, s).message.params)
    decreases |s|
  {
    hide ReadTag, Apply, ReadChunk, ReadVarint64, ReadFixed, EntriesFit, VarintSize;
    if s != [] && ReadTag(s).Got? {
      var tag, n := ReadTag(s).value, ReadTag(s).used;
      if tag != 0 && tag % 8 != 4 && tag / 8 != 0 && ReadPayload(tag % 8, s[n..]).Got? {
        var p, k := ReadPayload(tag % 8, s[n..]).value, ReadPayload(tag % 8, s[n..]).used;
        var r := Record(tag / 8, p);
        ChunkUses(s[n..]);
        if Apply(m, r).Some? {
          ApplyKeepsFit(m, r, k, |s[n..][k..]|);
          ParseKeepsFit(Apply(m, r).value, s[n..][k..]);
        }
      }
    }
  }

  /**
    Whatever input below 2 GiB is accepted, printing the result in any order and parsing it again
    gives the same message.
   */
  lemma ReparseBelowLimit(s: Bytes, order: seq<Bytes>)
    requires |s| < MAX_LENGTH && ParseScript(CLEARED, s).Complete?
    requires IsOrder(order, ParseScript(CLEARED, s).message.params.Keys)
    ensures ParseScript(CLEARED, SerializeIn(ParseScript(CLEARED, s).message, order)) == ParseScript(CLEARED, s)
  {
    ParseKeepsFit(CLEARED, s);
    Reparse(s, order);
  }

  // ----- and beyond -----

  /** What the parser makes of a lone entry that came without its key. */
  lemma KeylessEntry(v: Bytes)
    requires IsUtf8(v) && |v| < MAX_LENGTH - 6
    ensures
      var entry := EncodeRecord(Record(2, Chunk(v)));
      ParseScript(CLEARED, EncodeRecord(Record(3, Chunk(entry)))) == Complete(CLEARED.(params := map[[] := v]))
  {
    hide IsUtf8, EncodeRecord;
    var half := Record(2, Chunk(v));
    var entry := EncodeRecord(half);
    EncodeAllOne(half);
    TextSize(2, v);
    ShortVarint(|v|);
    assert entry + [] == entry;
    ParseOne(ApplyEntry, Entry([], []), half, []);
    assert ParseEntry(entry) == Some(Entry([], v)) by {
      assert Parse(ApplyEntry, Entry([], v), []) == Complete(Entry([], v));
    }
    var r := Record(3, Chunk(entry));
    var m := CLEARED.(params := map[[] := v]);
    assert CLEARED.params[[] := v] == map[[] := v];
    assert Apply(CLEARED, r) == Some(m);
    assert EncodeRecord(r) + [] == EncodeRecord(r);
    ParseOne(Apply, CLEARED, r, []);
    assert Parse(Apply, m, []) == Complete(m);
  }

  lemma ShortVarint(n: nat)
    requires n < MAX_LENGTH
    ensures VarintSize(n) <= 5
  {
    Pow128Values();
    assert Pow128(1) == 128 && Pow128(2) == 0x4000 && Pow128(3) == 0x20_0000;
    VarintSizeBounds(n, 0);
    VarintSizeBounds(n, 1);
    VarintSizeBounds(n, 2);
    VarintSizeBounds(n, 3);
    VarintSizeBounds(n, 4);
  }

  /** An accepted input whose entry does not fit: a value of 2^31 - 8 bytes without its key. */
  lemma UnfitInputExists() returns (s: Bytes)
    ensures ParseScript(CLEARED, s).Complete? && !EntriesFit(ParseScript(CLEARED, s).message.params)
  {
    var v: Bytes := seq(MAX_LENGTH - 8, _ => 97);
    AsciiIsUtf8(v);
    KeylessEntry(v);
    s := EncodeRecord(Record(3, Chunk(EncodeRecord(Record(2, Chunk(v))))));
    hide IsUtf8, EncodeEntry, EncodeRecord;
    var params: map<Bytes, Bytes> := map[[] := v];
    EncodeEntryParts([], v);
    VarintSizeBounds(|v|, 4);
    Pow128Values();
    assert !EntryFits(params, []);
  }

  // ----- the fields on the wire -----

  /** Each string field by its tag, and what an entry does. */
  lemma FieldByTag(m: Script, b: Bytes, rest: Bytes)
    requires |b| < MAX_LENGTH
    ensures ParseScript(m, TextBytes(0x0A, b) + rest) ==
              if IsUtf8(b) then ParseScript(m.(scriptName := b), rest) else Failed
    ensures ParseScript(m, TextBytes(0x12, b) + rest) ==
              if IsUtf8(b) then ParseScript(m.(exportFunction := b), rest) else Failed
    ensures ParseScript(m, TextBytes(0x1A, b) + rest) ==
              match ParseEntry(b) {
                case None => Failed
                case Some(e) => ParseScript(m.(params := m.params[e.key := e.value]), rest)
              }
  {
    hide IsUtf8, TextBytes, Parse, ParseEntry;
    RecordBytes(1, b, 0);
    RecordBytes(2, b, 0);
    RecordBytes(3, b, 0);
    ParseOne(Apply, m, Record(1, Chunk(b)), rest);
    ParseOne(Apply, m, Record(2, Chunk(b)), rest);
    ParseOne(Apply, m, Record(3, Chunk(b)), rest);
  }

  /** The last string that the records hold under this number, or the empty one. */
  function LastText(rs: seq<Record>, field: nat): Bytes {
    if rs == [] then []
    else
      var r := rs[|rs| - 1];
      if r.field == field && r.payload.Chunk? then r.payload.bytes else LastText(rs[..|rs| - 1], field)
  }

  /** Both halves of an entry have to be UTF-8; nothing else is asked of its records. */
  predicate EntryAccepts(r: Record) {
    r.payload.Chunk? && (r.field == 1 || r.field == 2) ==> IsUtf8(r.payload.bytes)
  }

  lemma {:induction false} FoldEntry(rs: seq<Record>)
    ensures Fold(ApplyEntry, Entry([], []), rs) ==
              if AllAccepted(rs, EntryAccepts) then Some(Entry(LastText(rs, 1), LastText(rs, 2))) else None
  {
    if rs != [] {
      var n := |rs| - 1;
      hide IsUtf8;
      FoldEntry(rs[..n]);
      assert rs == rs[..n] + [rs[n]];
      FoldConcat(ApplyEntry, Entry([], []), rs[..n], [rs[n]]);
      assert [rs[n]][1..] == [];
    }
  }

  /**
    What bytes are a map entry, for any order, repetition or absence of its halves and whatever else
    is among them: the last key and the last value count, a missing one is empty, and the rest is
    dropped.
   */
  lemma ParseEntryExactly(s: Bytes)
    ensures ParseEntry(s) ==
              if RecordsOf(s).Some? && AllAccepted(RecordsOf(s).value, EntryAccepts)
              then Some(Entry(LastText(RecordsOf(s).value, 1), LastText(RecordsOf(s).value, 2)))
              else None
  {
    ParseIsFold(ApplyEntry, Entry([], []), s);
    if RecordsOf(s).Some? { FoldEntry(RecordsOf(s).value); }
    hide AllAccepted, LastText, ApplyEntry, Parse, Fold;
  }

  function EntriesLayout(params: map<Bytes, Bytes>, order: seq<Bytes>): Bytes
    requires forall i | 0 <= i < |order| :: order[i] in params
  {
    if order == [] then []
    else
      var k := order[0];
      TextBytes(0x1A, TextBytes(0x0A, k) + TextBytes(0x12, params[k])) + EntriesLayout(params, order[1..])
  }

  lemma EntryIs(k: Bytes, v: Bytes)
    ensures EncodeEntry(k, v) == TextBytes(0x0A, k) + TextBytes(0x12, v)
  {
    EncodeEntryParts(k, v);
    RecordBytes(1, k, 0);
    RecordBytes(2, v, 0);
  }

  lemma {:induction false} EntriesAre(params: map<Bytes, Bytes>, order: seq<Bytes>)
    requires forall i | 0 <= i < |order| :: order[i] in params
    ensures EncodeAll(EntryRecords(params, order)) == EntriesLayout(params, order)
    decreases |order|
  {
    hide EncodeEntry, EncodeRecord, TextBytes;
    if order == [] {
      NoRecords();
    } else {
      EntryIs(order[0], params[order[0]]);
      RecordBytes(3, EncodeEntry(order[0], params[order[0]]), 0);
      EntriesAre(params, order[1..]);
      assert EntryRecords(params, order)[1..] == EntryRecords(params, order[1..]);
    }
  }

  /** What is printed in a given order of the entries, byte by byte. */
  lemma SerializeIs(b: Script, order: seq<Bytes>)
    requires forall i | 0 <= i < |order| :: order[i] in b.params
    ensures SerializeIn(b, order) ==
              TextLayout(0x0A, b.scriptName) + (TextLayout(0x12, b.exportFunction) +
              (EntriesLayout(b.params, order) + EncodeAll(b.unknown)))
  {
    hide EncodeAll, EntryRecords, TextField, TextLayout, EntriesLayout;
    TextIs(1, b.scriptName);
    TextIs(2, b.exportFunction);
    EntriesAre(b.params, order);
    var entries := EntryRecords(b.params, order);
    EncodeAllConcat(entries, b.unknown);
    EncodeAllConcat(TextField(2, b.exportFunction), entries + b.unknown);
    EncodeAllConcat(TextField(1, b.scriptName), TextField(2, b.exportFunction) + (entries + b.unknown));
  }

  // ----- when parsing is merging -----

  /** The named fields of `b` over m; entries override and unknown fields are appended. */
  function Overlay(m: Script, b: Script, fields: set<nat>): Script {
    Script(
      if 1 in fields then b.scriptName else m.scriptName,
      if 2 in fields then b.exportFunction else m.exportFunction,
      m.params + b.params,
      m.unknown + b.unknown)
  }

  lemma OverlayStep(m: Script, b: Script, fields: set<nat>, r: Record)
    ensures Apply(Overlay(m, b, fields), r) ==
            match Apply(b, r) {
              case None => None
              case Some(b') => Some(Overlay(m, b', fields + FieldOf(r, Known)))
            }
  {
    hide IsUtf8, ParseEntry;
    assert m.unknown + b.unknown + [r] == m.unknown + (b.unknown + [r]);
    assert fields + {} == fields;
    if r.payload.Chunk? && r.field == 3 && ParseEntry(r.payload.bytes).Some? {
      var e := ParseEntry(r.payload.bytes).value;
      assert (m.params + b.params)[e.key := e.value] == m.params + b.params[e.key := e.value];
    }
  }

  lemma OverlayNothing(m: Script)
    ensures Overlay(m, CLEARED, {}) == m
  {
    assert m.unknown + [] == m.unknown && m.params + map[] == m.params;
  }

  /** What the input stands for and which fields it names. */
  lemma ParseIsOverlay(m: Script, s: Bytes)
    requires ParseScript(CLEARED, s).Complete?
    ensures RecordsOf(s).Some?
    ensures
      var b, fields := ParseScript(CLEARED, s).message, FieldsOf(RecordsOf(s).value, Known);
      && ParseScript(m, s) == Complete(Overlay(m, b, fields))
      && b == Overlay(CLEARED, b, fields)
  {
    forall m: Script, b: Script, fields: set<nat>, r: Record {:trigger Apply(Overlay(m, b, fields), r)}
      ensures Apply(Overlay(m, b, fields), r) ==
              match Apply(b, r) {
                case None => None
                case Some(b') => Some(Overlay(m, b', fields + FieldOf(r, Known)))
              }
    {
      OverlayStep(m, b, fields, r);
    }
    OverlayNothing(m);
    OverlayNothing(CLEARED);
    ParseIsFold(Apply, m, s);
    ParseIsFold(Apply, CLEARED, s);
    var rs := RecordsOf(s).value;
    var fields := FieldsOf(rs, Known);
    hide Apply, Overlay, Known;
    FoldOver(Apply, Known, Overlay, m, CLEARED, {}, rs);
    FoldOver(Apply, Known, Overlay, CLEARED, CLEARED, {}, rs);
    assert {} + fields == fields;
  }

  /** No field without presence that the input names and leaves at its default has another value in m. */
  predicate NoReset(m: Script, b: Script, fields: set<nat>) {
    && (1 in fields && b.scriptName == [] ==> m.scriptName == [])
    && (2 in fields && b.exportFunction == [] ==> m.exportFunction == [])
  }

  lemma MergeIsOverlay(m: Script, b: Script, fields: set<nat>)
    requires b == Overlay(CLEARED, b, fields)
    ensures Overlay(m, b, fields) == Merge(m, b) <==> NoReset(m, b, fields)
  {
    var o, g := Overlay(m, b, fields), Merge(m, b);
    assert o == g <==>
      o.scriptName == g.scriptName && o.exportFunction == g.exportFunction;
  }

  /** Parsing accepted bytes onto a message is merging what they stand for exactly when they reset nothing. */
  lemma ParseIsMergeExactly(m: Script, s: Bytes)
    requires ParseScript(CLEARED, s).Complete?
    ensures
      var b := ParseScript(CLEARED, s).message;
      && ParseScript(m, s).Complete?
      && RecordsOf(s).Some?
      && (ParseScript(m, s) == Complete(Merge(m, b)) <==> NoReset(m, b, FieldsOf(RecordsOf(s).value, Known)))
  {
    hide Overlay, NoReset, Merge;
    ParseIsOverlay(m, s);
    MergeIsOverlay(m, ParseScript(CLEARED, s).message, FieldsOf(RecordsOf(s).value, Known));
  }

  // ----- the size does not depend on the order -----

  function EntriesSize(params: map<Bytes, Bytes>, order: seq<Bytes>): nat
    requires forall i | 0 <= i < |order| :: order[i] in params
  {
    if order == [] then 0
    else |EncodeRecord(EntryRecord(params, order[0]))| + EntriesSize(params, order[1..])
  }

  lemma {:induction false} EntriesSizeIsLength(params: map<Bytes, Bytes>, order: seq<Bytes>)
    requires forall i | 0 <= i < |order| :: order[i] in params
    ensures |EncodeAll(EntryRecords(params, order))| == EntriesSize(params, order)
  {
    hide EncodeRecord;
    if order != [] {
      assert EntryRecords(params, order)[1..] == EntryRecords(params, order[1..]);
      EntriesSizeIsLength(params, order[1..]);
    }
  }

  function Without(order: seq<Bytes>, j: nat): seq<Bytes>
    requires j < |order|
  {
    order[..j] + order[j + 1..]
  }

  lemma {:induction false} EntriesSizeWithout(params: map<Bytes, Bytes>, order: seq<Bytes>, j: nat)
    requires j < |order| && forall i | 0 <= i < |order| :: order[i] in params
    ensures EntriesSize(params, order) ==
            |EncodeRecord(EntryRecord(params, order[j]))| + EntriesSize(params, Without(order, j))
  {
    hide EncodeRecord;
    hide EntryRecord;
    if j == 0 {
      assert Without(order, 0) == order[1..];
    } else {
      assert Without(order, j)[1..] == Without(order[1..], j - 1);
      EntriesSizeWithout(params, order[1..], j - 1);
    }
  }

  lemma OrderWithout(order: seq<Bytes>, keys: set<Bytes>, j: nat)
    requires IsOrder(order, keys) && j < |order|
    ensures IsOrder(Without(order, j), keys - {order[j]})
  {
    forall k | k in keys - {order[j]}
      ensures k in Without(order, j)
    {
      var i :| 0 <= i < |order| && order[i] == k;
      if i < j { assert Without(order, j)[i] == k; } else { assert Without(order, j)[i - 1] == k; }
    }
  }

  lemma {:induction false} EntriesSizeAnyOrder(
      params: map<Bytes, Bytes>, keys: set<Bytes>, p: seq<Bytes>, q: seq<Bytes>)
    requires keys <= params.Keys && IsOrder(p, keys) && IsOrder(q, keys)
    ensures EntriesSize(params, p) == EntriesSize(params, q)
    decreases |p|
  {
    if p != [] {
      assert p[0] in q;
      var j :| 0 <= j < |q| && q[j] == p[0];
      OrderWithout(p, keys, 0);
      OrderWithout(q, keys, j);
      EntriesSizeWithout(params, p, 0);
      EntriesSizeWithout(params, q, j);
      EntriesSizeAnyOrder(params, keys - {p[0]}, Without(p, 0), Without(q, j));
    }
  }

  lemma SerializedParts(b: Script, order: seq<Bytes>)
    requires forall i | 0 <= i < |order| :: order[i] in b.params
    ensures SerializeIn(b, order) ==
            EncodeAll(TextField(1, b.scriptName)) +
            (EncodeAll(TextField(2, b.exportFunction)) +
            (EncodeAll(EntryRecords(b.params, order)) + EncodeAll(b.unknown)))
  {
    hide EncodeAll;
    hide EntryRecords;
    hide TextField;
    var rs := EntryRecords(b.params, order);
    EncodeAllConcat(TextField(1, b.scriptName), TextField(2, b.exportFunction) + (rs + b.unknown));
    EncodeAllConcat(TextField(2, b.exportFunction), rs + b.unknown);
    EncodeAllConcat(rs, b.unknown);
  }

  /** Hash order or key order: the printed bytes have the same length. */
  lemma SameLengthInAnyOrder(b: Script, p: seq<Bytes>, q: seq<Bytes>)
    requires IsOrder(p, b.params.Keys) && IsOrder(q, b.params.Keys)
    ensures |SerializeIn(b, p)| == |SerializeIn(b, q)|
  {
    SerializedParts(b, p);
    SerializedParts(b, q);
    EntriesSizeIsLength(b.params, p);
    EntriesSizeIsLength(b.params, q);
    EntriesSizeAnyOrder(b.params, b.params.Keys, p, q);
  }

  // ----- key order -----

  predicate KeyLe(a: Bytes, b: Bytes) {
    a == [] || (b != [] && (a[0] < b[0] || (a[0] == b[0] && KeyLe(a[1..], b[1..]))))
  }

  /** The first place where two keys differ, and a is the smaller there. */
  predicate SmallerAt(a: Bytes, b: Bytes, i: nat) {
    i < |a| && i < |b| && a[..i] == b[..i] && a[i] < b[i]
  }

  /** The order of `std::string`: a prefix comes first, and otherwise the smaller byte decides. */
  lemma {:induction false} KeyLeExactly(a: Bytes, b: Bytes)
    ensures KeyLe(a, b) <==> a <= b || exists i: nat :: SmallerAt(a, b, i)
  {
    if a != [] && b != [] && a[0] == b[0] {
      KeyLeExactly(a[1..], b[1..]);
      assert a <= b <==> a[1..] <= b[1..] by {
        assert a == [a[0]] + a[1..] && b == [b[0]] + b[1..];
      }
      forall i: nat
        ensures SmallerAt(a, b, i + 1) <==> SmallerAt(a[1..], b[1..], i)
      {
        SmallerBehind(a, b, i);
      }
      assert !SmallerAt(a, b, 0);
      if i: nat :| SmallerAt(a, b, i) {
        assert SmallerAt(a[1..], b[1..], i - 1);
      }
      if i: nat :| SmallerAt(a[1..], b[1..], i) {
        assert SmallerAt(a, b, i + 1);
      }
    } else if a != [] && b != [] {
      if a[0] < b[0] { assert SmallerAt(a, b, 0); }
      forall i: nat
        ensures SmallerAt(a, b, i) ==> i == 0
      {
        FirstDiffers(a, b, i);
      }
    }
  }

  lemma FirstDiffers(a: Bytes, b: Bytes, i: nat)
    requires a != [] && b != [] && a[0] != b[0]
    ensures SmallerAt(a, b, i) ==> i == 0
  {
    if 0 < i < |a| && i < |b| {
      assert a[..i][0] == a[0] && b[..i][0] == b[0];
    }
  }

  lemma SmallerBehind(a: Bytes, b: Bytes, i: nat)
    requires a != [] && b != [] && a[0] == b[0]
    ensures SmallerAt(a, b, i + 1) <==> SmallerAt(a[1..], b[1..], i)
  {
    if i < |a| - 1 && i < |b| - 1 {
      assert a[..i + 1] == [a[0]] + a[1..][..i] && b[..i + 1] == [b[0]] + b[1..][..i];
      if a[..i + 1] == b[..i + 1] {
        assert a[1..][..i] == a[..i + 1][1..] && b[1..][..i] == b[..i + 1][1..];
      }
    }
  }

  lemma {:induction false} KeyLeTotal(a: Bytes, b: Bytes)
    ensures KeyLe(a, b) || KeyLe(b, a)
    ensures KeyLe(a, b) && KeyLe(b, a) ==> a == b
  {
    if a != [] && b != [] {
      KeyLeTotal(a[1..], b[1..]);
      assert a == [a[0]] + a[1..] && b == [b[0]] + b[1..];
    }
  }

  lemma {:induction false} KeyLeTransitive(a: Bytes, b: Bytes, c: Bytes)
    requires KeyLe(a, b) && KeyLe(b, c)
    ensures KeyLe(a, c)
  {
    if a != [] && b != [] && c != [] && a[0] == b[0] == c[0] {
      KeyLeTransitive(a[1..], b[1..], c[1..]);
    }
  }

  ghost predicate Least(k: Bytes, keys: set<Bytes>) {
    k in keys && forall k' | k' in keys :: KeyLe(k, k')
  }

  lemma {:induction false} LeastExists(keys: set<Bytes>)
    requires keys != {}
    ensures exists k :: Least(k, keys)
    decreases |keys|
  {
    var x :| x in keys;
    KeyLeTotal(x, x);
    if keys == {x} {
      assert Least(x, keys);
    } else {
      assert keys - {x} != {};
      LeastExists(keys - {x});
      var y :| Least(y, keys - {x});
      KeyLeTotal(x, y);
      forall k | k in keys && KeyLe(x, y)
        ensures KeyLe(x, k)
      {
        if k != x { KeyLeTransitive(x, y, k); }
      }
      assert Least(if KeyLe(x, y) then x else y, keys);
    }
  }

  ghost predicate Sorted(order: seq<Bytes>) {
    forall i, j | 0 <= i < j < |order| :: KeyLe(order[i], order[j])
  }

  lemma FirstIsLeast(order: seq<Bytes>, keys: set<Bytes>)
    requires IsOrder(order, keys) && Sorted(order) && order != []
    ensures Least(order[0], keys)
  {
    KeyLeTotal(order[0], order[0]);
  }

  lemma SameFirst(keys: set<Bytes>, p: seq<Bytes>, q: seq<Bytes>)
    requires IsOrder(p, keys) && Sorted(p) && IsOrder(q, keys) && Sorted(q) && p != []
    ensures q != [] && p[0] == q[0]
  {
    hide KeyLe;
    assert p[0] in q;
    FirstIsLeast(p, keys);
    FirstIsLeast(q, keys);
    KeyLeTotal(p[0], q[0]);
  }

  lemma TailOrder(keys: set<Bytes>, p: seq<Bytes>)
    requires IsOrder(p, keys) && Sorted(p) && p != []
    ensures IsOrder(p[1..], keys - {p[0]}) && Sorted(p[1..])
  {
    hide KeyLe;
    OrderWithout(p, keys, 0);
    assert Without(p, 0) == p[1..];
  }

  /** Deterministic serialization: a map has one sorted order, so it prints one byte string. */
  lemma {:induction false} SortedOrderIsUnique(keys: set<Bytes>, p: seq<Bytes>, q: seq<Bytes>)
    requires IsOrder(p, keys) && Sorted(p) && IsOrder(q, keys) && Sorted(q)
    ensures p == q
    decreases |p| + |q|
  {
    hide *;
    if p != [] {
      SameFirst(keys, p, q);
      TailOrder(keys, p);
      TailOrder(keys, q);
      SortedOrderIsUnique(keys - {p[0]}, p[1..], q[1..]);
    } else if q != [] {
      SameFirst(keys, q, p);
    }
  }

  /** What printing a message may produce: its fields with the entries in some order, or in key order. */
  ghost predicate PrintOf(b: Script, deterministic: bool, s: Bytes) {
    exists order | IsOrder(order, b.params.Keys) :: (deterministic ==> Sorted(order)) && s == SerializeIn(b, order)
  }

  lemma IsPrint(b: Script, deterministic: bool, order: seq<Bytes>, target: Bytes, out: Bytes)
    requires IsOrder(order, b.params.Keys) && (deterministic ==> Sorted(order))
    requires out == target + SerializeIn(b, order)
    ensures target <= out && PrintOf(b, deterministic, out[|target|..])
  {
    hide SerializeIn, Sorted;
    assert out[|target|..] == SerializeIn(b, order);
  }

  /** Whatever the printer chose, parsing it on top of any message merges, and deterministic output is unique. */
  lemma PrintedIsParsed(m: Script, b: Script, deterministic: bool, s: Bytes, t: Bytes)
    requires WellFormed(b) && PrintOf(b, deterministic, s) && PrintOf(b, deterministic, t)
    ensures ParseScript(m, s) == Complete(Merge(m, b))
    ensures |s| == |t| && (deterministic ==> s == t)
  {
    hide SerializeIn, KeyLe, WellFormed;
    var p :| IsOrder(p, b.params.Keys) && (deterministic ==> Sorted(p)) && s == SerializeIn(b, p);
    var q :| IsOrder(q, b.params.Keys) && (deterministic ==> Sorted(q)) && t == SerializeIn(b, q);
    RoundTrip(m, b, p);
    SameLengthInAnyOrder(b, p, q);
    if deterministic {
      SortedOrderIsUnique(b.params.Keys, p, q);
    }
  }

  // ----- printing and measuring entries -----

  lemma EntryRecordsSnoc(params: map<Bytes, Bytes>, order: seq<Bytes>, k: Bytes)
    requires k in params && forall i | 0 <= i < |order| :: order[i] in params
    ensures EncodeAll(EntryRecords(params, order + [k])) ==
            EncodeAll(EntryRecords(params, order)) + EncodeRecord(EntryRecord(params, k))
  {
    assert EntryRecords(params, order + [k]) == EntryRecords(params, order) + [EntryRecord(params, k)];
    EncodeAllConcat(EntryRecords(params, order), [EntryRecord(params, k)]);
    EncodeAllOne(EntryRecord(params, k));
  }

  lemma NoEntries(params: map<Bytes, Bytes>)
    ensures EncodeAll(EntryRecords(params, [])) == [] && EncodeAll([]) == []
  {}

  /** `order` visits every key but those in `rest`, and the visited ones are final. */
  ghost predicate Visited(order: seq<Bytes>, keys: set<Bytes>, rest: set<Bytes>, sorted: bool) {
    && rest <= keys && IsOrder(order, keys - rest)
    && (sorted ==> Sorted(order) && forall i, k | 0 <= i < |order| && k in rest :: KeyLe(order[i], k))
  }

  lemma VisitedStep(order: seq<Bytes>, keys: set<Bytes>, rest: set<Bytes>, sorted: bool, k: Bytes)
    requires Visited(order, keys, rest, sorted) && k in rest && (sorted ==> Least(k, rest))
    ensures Visited(order + [k], keys, rest - {k}, sorted)
  {
    var next := order + [k];
    forall x | x in keys - (rest - {k})
      ensures x in next
    {
      if x != k { assert x in order; } else { assert next[|order|] == k; }
    }
  }

  lemma SingleIsSorted(order: seq<Bytes>, keys: set<Bytes>)
    requires IsOrder(order, keys)
    ensures |keys| <= 1 ==> Sorted(order)
  {
    if |order| > 1 {
      assert {order[0], order[1]} <= keys;
      Sets.SubsetSize({order[0], order[1]}, keys);
    }
  }

  /** One entry: tag, length, key and value. */
  method WriteEntry(params: map<Bytes, Bytes>, k: Bytes, target: Bytes) returns (out: Bytes)
    requires k in params
    ensures out == target + EncodeRecord(EntryRecord(params, k))
  {
    hide EncodeVarint;
    hide EncodeEntry;
    var entry := EncodeEntry(k, params[k]);
    out := target + EncodeVarint(26);
    out := out + EncodeVarint(|entry|);
    out := out + entry;
  }

  /** Visits the entries in some order, or in key order when that is asked for. */
  method WriteEntries(params: map<Bytes, Bytes>, deterministic: bool, target: Bytes)
      returns (out: Bytes, ghost order: seq<Bytes>)
    ensures IsOrder(order, params.Keys) && (deterministic ==> Sorted(order))
    ensures out == target + EncodeAll(EntryRecords(params, order))
  {
    NoEntries(params);
    hide EncodeAll;
    hide EncodeRecord;
    hide EntryRecord;
    hide EntryRecords;
    hide KeyLe;
    var rest := params.Keys;
    out, order := target, [];
    while rest != {}
      invariant Visited(order, params.Keys, rest, deterministic)
      invariant out == target + EncodeAll(EntryRecords(params, order))
      decreases |rest|
    {
      LeastExists(rest);
      var k :| k in rest && (deterministic ==> forall k' | k' in rest :: KeyLe(k, k'));
      out := WriteEntry(params, k, out);
      EntryRecordsSnoc(params, order, k);
      VisitedStep(order, params.Keys, rest, deterministic, k);
      order := order + [k];
      rest := rest - {k};
    }
    assert params.Keys - {} == params.Keys;
  }

  /** The map field: nothing for an empty map; a single entry needs no sorting. */
  method WriteParams(params: map<Bytes, Bytes>, deterministic: bool, target: Bytes)
      returns (out: Bytes, ghost order: seq<Bytes>)
    ensures IsOrder(order, params.Keys) && (deterministic ==> Sorted(order))
    ensures out == target + EncodeAll(EntryRecords(params, order))
  {
    NoEntries(params);
    hide EncodeAll, EntryRecords, KeyLe;
    out, order := target, [];
    if |params| != 0 {
      out, order := WriteEntries(params, deterministic && |params| > 1, out);
      SingleIsSorted(order, params.Keys);
    }
  }

  /** One tag byte for each entry, then a length prefix and both halves. */
  method EntriesSizeLong(params: map<Bytes, Bytes>) returns (n: nat, ghost order: seq<Bytes>)
    ensures IsOrder(order, params.Keys)
    ensures n == |EncodeAll(EntryRecords(params, order))|
  {
    NoEntries(params);
    hide EncodeAll;
    hide EncodeRecord;
    hide EntryRecord;
    hide EntryRecords;
    var rest := params.Keys;
    n, order := 1 * |params|, [];
    while rest != {}
      invariant Visited(order, params.Keys, rest, false)
      invariant n == |EncodeAll(EntryRecords(params, order))| + |rest|
      decreases |rest|
    {
      var k :| k in rest;
      var inner := (1 + StringSize(k)) + (1 + StringSize(params[k]));
      n := n + (VarintSize(inner) + inner);
      EntrySize(params, k);
      EntryRecordsSnoc(params, order, k);
      VisitedStep(order, params.Keys, rest, false, k);
      order := order + [k];
      rest := rest - {k};
    }
    assert params.Keys - {} == params.Keys;
  }

  lemma EntrySize(params: map<Bytes, Bytes>, k: Bytes)
    requires k in params
    ensures var inner := (1 + StringSize(k)) + (1 + StringSize(params[k]));
            |EncodeRecord(EntryRecord(params, k))| == 1 + VarintSize(inner) + inner
  {
    EncodeEntryParts(k, params[k]);
    VarintSizeIsLength(|EncodeEntry(k, params[k])|);
    assert |EncodeVarint(26)| == 1;
  }

  // ----- the generated class -----

  /** What is left to do once the tag of field 1, 2 or 3 has been read. */
  function AfterTag(m: Script, field: nat, s: Bytes): Outcome<Script> {
    match ReadChunk(s)
    case Fail => Failed
    case Got(b, k) =>
      match Apply(m, Record(field, Chunk(b)))
      case None => Failed
      case Some(m') => ParseScript(m', s[k..])
  }

  lemma TurnKnown(m: Script, s: Bytes)
    requires s != [] && ReadTag(s).Got? && ReadTag(s).value in {10, 18, 26}
    ensures ParseScript(m, s) == AfterTag(m, ReadTag(s).value / 8, s[ReadTag(s).used..])
  {
    hide ReadTag, ReadChunk, ReadPayload, Apply;
    PayloadIsChunk(s[ReadTag(s).used..]);
    assert ReadTag(s).value % 8 == 2;
  }

  lemma TurnUnknown(m: Script, s: Bytes)
    requires s != [] && ReadTag(s).Got? && ReadTag(s).value !in {10, 18, 26}
    ensures var Got(tag, n) := ReadTag(s);
            ParseScript(m, s) ==
            if tag == 0 || tag % 8 == 4 then Stopped(m, tag, s[n..])
            else match ReadPayload(tag % 8, s[n..])
              case Fail => Failed
              case Got(p, k) =>
                if tag / 8 == 0 then Failed
                else ParseScript(m.(unknown := m.unknown + [Record(tag / 8, p)]), s[n..][k..])
  {
    hide ReadTag, ReadPayload, IsUtf8, ParseEntry;
    TurnUnnamed(Apply, Keep, m, s, ReadTag(s).value, ReadTag(s).used);
  }

  lemma TurnWithoutTag(m: Script, s: Bytes)
    requires s != [] && ReadTag(s).Fail?
    ensures ParseScript(m, s) == Failed
  {}

  lemma ExpectedTag(m: Script, s: Bytes)
    requires s != [] && s[0] == 26
    ensures ParseScript(m, s) == AfterTag(m, 3, s[1..])
  {
    assert ReadTag(s) == Got(26, 1);
    TurnKnown(m, s);
  }

  class NetifeScriptCommandRequest {
    var scriptName: Bytes
    var exportFunction: Bytes
    var params: map<Bytes, Bytes>
    var unknown: seq<Record>

    ghost function Value(): Script
      reads this
    {
      Script(scriptName, exportFunction, params, unknown)
    }

    constructor ()
      ensures Value() == CLEARED
    {
      scriptName, exportFunction, params, unknown := [], [], map[], [];
    }

    method Clear()
      modifies this
      ensures Value() == CLEARED
    {
      params, scriptName, exportFunction, unknown := map[], [], [], [];
    }

    /** Copying makes the two messages equal, also onto itself. */
    method CopyFrom(from: NetifeScriptCommandRequest)
      modifies this
      ensures Value() == old(from.Value())
    {
      if from == this { return; }
      Clear();
      MergeIntoCleared(from.Value());
      MergeImpl(from);
    }

    method MergeImpl(from: NetifeScriptCommandRequest)
      requires from != this
      modifies this
      ensures Value() == Merge(old(Value()), from.Value())
    {
      params := params + from.params;
      if from.scriptName != [] { scriptName := from.scriptName; }
      if from.exportFunction != [] { exportFunction := from.exportFunction; }
      unknown := unknown + from.unknown;
    }

    /** A string case of the switch. */
    method ParseText(field: nat, ptr: Bytes) returns (next: Option<Bytes>)
      requires field == 1 || field == 2
      modifies this`scriptName, this`exportFunction
      ensures match next
              case None => AfterTag(old(Value()), field, ptr) == Failed
              case Some(rest) => |rest| <= |ptr| && AfterTag(old(Value()), field, ptr) == ParseScript(Value(), rest)
    {
      hide ReadChunk;
      hide IsUtf8;
      hide ParseScript;
      match ReadChunk(ptr) {
        case Fail => return None;
        case Got(b, k) =>
          if field == 1 { scriptName := b; } else { exportFunction := b; }
          if !IsUtf8(b) { return None; }
          return Some(ptr[k..]);
      }
    }

    /** The map case: entries are read in a fast loop, whatever the stream says about data at hand. */
    method ParseParams(ptr: Bytes) returns (next: Option<Bytes>)
      modifies this`params
      ensures match next
              case None => AfterTag(old(Value()), 3, ptr) == Failed
              case Some(rest) => |rest| <= |ptr| && AfterTag(old(Value()), 3, ptr) == ParseScript(Value(), rest)
    {
      hide ReadChunk;
      hide ParseEntry;
      hide ParseScript;
      var at := ptr;
      while true
        invariant |at| <= |ptr|
        invariant AfterTag(old(Value()), 3, ptr) == AfterTag(Value(), 3, at)
        decreases |at|
      {
        match ReadChunk(at) {
          case Fail => return None;
          case Got(b, k) =>
            var entry := ParseEntry(b);
            if entry.None? { return None; }
            params := params[entry.value.key := entry.value.value];
            at := at[k..];
        }
        var available := *;
        if at == [] || !available { return Some(at); }
        if at[0] != 26 { return Some(at); }
        ExpectedTag(Value(), at);
        at := at[1..];
      }
    }

    method UnknownFieldParse(tag: nat, ptr: Bytes) returns (next: Option<Bytes>)
      modifies this`unknown
      ensures match ReadPayload(tag % 8, ptr)
              case Fail => next == None
              case Got(p, k) =>
                if tag / 8 == 0 then next == None
                else
                  && next == Some(ptr[k..])
                  && var m := old(Value()); Value() == m.(unknown := m.unknown + [Record(tag / 8, p)])
    {
      hide ReadPayload;
      var r, rest := ReadUnnamed(tag, ptr);
      if r.None? { return None; }
      unknown := unknown + [r.value];
      return Some(rest);
    }

    /** The body of the loop: read a tag and run its case of the switch. */
    method ParseField(ptr: Bytes) returns (turn: Turn, next: Bytes)
      requires ptr != []
      modifies this
      ensures match turn
              case Continue => |next| < |ptr| && ParseScript(old(Value()), ptr) == ParseScript(Value(), next)
              case Ended(tag) => ParseScript(old(Value()), ptr) == Stopped(Value(), tag, next)
              case Error => ParseScript(old(Value()), ptr) == Failed
    {
      ghost var m := Value();
      hide *;
      match ReadTag(ptr) {
        case Fail =>
          TurnWithoutTag(m, ptr);
          return Error, ptr;
        case Got(tag, n) =>
          var at, after := ptr[n..], None;
          if tag == 26 {
            TurnKnown(m, ptr);
            after := ParseParams(at);
          } else if tag == 10 || tag == 18 {
            TurnKnown(m, ptr);
            after := ParseText(tag / 8, at);
          } else {
            TurnUnknown(m, ptr);
            if tag == 0 || tag % 8 == 4 {
              return Ended(tag), at;
            }
            after := UnknownFieldParse(tag, at);
          }
          if after.None? { return Error, ptr; }
          return Continue, after.value;
      }
    }

    method InternalParse(input: Bytes) returns (status: Status, ptr: Bytes)
      modifies this
      ensures match ParseScript(old(Value()), input)
              case Complete(m) => status == ParsedAll && ptr == [] && Value() == m
              case Stopped(m, tag, rest) => status == EndTag(tag) && ptr == rest && Value() == m
              case Failed => status == ParseError
    {
      ghost var m0 := Value();
      ptr := input;
      while ptr != []
        invariant ParseScript(m0, input) == ParseScript(Value(), ptr)
        decreases |ptr|
      {
        var turn;
        turn, ptr := ParseField(ptr);
        if turn.Continue? { continue; }
        return (if turn.Error? then ParseError else EndTag(turn.tag)), ptr;
      }
      return ParsedAll, ptr;
    }

    /**
      Behind what is already there comes a printed form of the message: the map in hash order, or
      in key order when the stream is deterministic and there is more than one entry.
     */
    method InternalSerialize(target: Bytes, deterministic: bool) returns (out: Bytes)
      ensures target <= out && PrintOf(Value(), deterministic, out[|target|..])
    {
      NoEntries(params);
      hide EncodeAll, EntryRecords, SerializeIn, KeyLe, Sorted, PrintOf;
      ghost var b := Value();
      ghost var order;
      out := WriteText(1, scriptName, target);
      out := WriteText(2, exportFunction, out);
      out, order := WriteParams(params, deterministic, out);
      if unknown != [] { out := WriteUnknown(unknown, out); }
      SerializedParts(b, order);
      IsPrint(b, deterministic, order, target, out);
    }

    /** The precomputed size is right for every order the printer may choose. */
    method ByteSizeLong() returns (totalSize: nat)
      ensures forall order | IsOrder(order, params.Keys) :: totalSize == |SerializeIn(Value(), order)|
    {
      ghost var b := Value();
      NoEntries(params);
      TextSize(1, scriptName);
      TextSize(2, exportFunction);
      hide EncodeAll;
      hide EntryRecords;
      hide SerializeIn;
      hide StringSize;
      ghost var order;
      totalSize, order := EntriesSizeLong(params);
      totalSize := totalSize + TextFieldSize(scriptName);
      totalSize := totalSize + TextFieldSize(exportFunction);
      if unknown != [] {
        var n := UnknownSize(unknown);
        totalSize := totalSize + n;
      }
      SerializedParts(b, order);
      forall q | IsOrder(q, params.Keys)
        ensures totalSize == |SerializeIn(b, q)|
      {
        SameLengthInAnyOrder(b, order, q);
      }
    }
  }
}
