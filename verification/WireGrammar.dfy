/**
  What byte sequences the wire format stands for, told without reading them: the bytes that are a
  varint and the number they carry, the bytes that are a record, and the inputs that are a run of
  records. The readers accept exactly these, canonical or not.
 */
module WireGrammar {
  import opened Wrappers
  import opened Wire

  // ----- varints -----

  /** Every byte but the last has its top bit set. */
  predicate IsVarint(b: Bytes) {
    b != [] && b[|b| - 1] < 128 && forall i | 0 <= i < |b| - 1 :: b[i] >= 128
  }

  /** Seven bits of each byte, the first the least significant. */
  function Number(b: Bytes): nat {
    if b == [] then 0 else Number(b[..|b| - 1]) + Pow128(|b| - 1) * (b[|b| - 1] % 128)
  }

  lemma {:induction false} NumberFirst(b: Bytes)
    requires b != []
    ensures Number(b) == b[0] % 128 + 128 * Number(b[1..])
  {
    var n := |b| - 1;
    if n == 0 {
      assert b[..0] == [] && b[1..] == [];
    } else {
      NumberFirst(b[..n]);
      assert b[..n][1..] == b[1..][..n - 1] && b[..n][0] == b[0];
      Distribute(Pow128(n - 1), b[n] % 128);
      assert Pow128(n) == 128 * Pow128(n - 1);
    }
  }

  lemma Distribute(p: nat, d: nat)
    ensures 128 * (p * d) == (128 * p) * d
  {
  }

  lemma {:induction false} VarintIsRead(s: Bytes, limit: nat, k: nat)
    requires 1 <= k <= limit && k <= |s| && IsVarint(s[..k])
    ensures DecodeVarint(s, limit) == Got(Number(s[..k]), k)
    decreases limit
  {
    NumberFirst(s[..k]);
    assert s[..k][1..] == s[1..][..k - 1];
    if s[0] >= 128 {
      ContinuedVarint(s[..k]);
      VarintIsRead(s[1..], limit - 1, k - 1);
    } else {
      ShortVarint(s[..k]);
      assert s[1..][..0] == [];
    }
  }

  lemma {:induction false} ReadIsVarint(s: Bytes, limit: nat)
    requires DecodeVarint(s, limit).Got?
    ensures var k := DecodeVarint(s, limit).used; IsVarint(s[..k]) && DecodeVarint(s, limit).value == Number(s[..k])
    decreases limit
  {
    var k := DecodeVarint(s, limit).used;
    NumberFirst(s[..k]);
    assert s[..k][1..] == s[1..][..k - 1];
    if s[0] >= 128 {
      ReadIsVarint(s[1..], limit - 1);
      ContinuedVarint(s[..k]);
    } else {
      assert s[1..][..0] == [];
    }
  }

  /** Reading succeeds exactly on a varint of at most `limit` bytes, overlong or not, and gives its number. */
  lemma DecodeVarintExactly(s: Bytes, limit: nat, v: nat, k: nat)
    ensures DecodeVarint(s, limit) == Got(v, k) <==>
              1 <= k <= limit && k <= |s| && IsVarint(s[..k]) && v == Number(s[..k])
  {
    if DecodeVarint(s, limit).Got? { ReadIsVarint(s, limit); }
    hide DecodeVarint, Number;
    if 1 <= k <= limit && k <= |s| && IsVarint(s[..k]) { VarintIsRead(s, limit, k); }
  }

  lemma ContinuedVarint(b: Bytes)
    requires b != [] && b[0] >= 128
    ensures IsVarint(b) <==> |b| > 1 && IsVarint(b[1..])
  {
    if |b| > 1 && IsVarint(b[1..]) {
      forall i | 0 <= i < |b| - 1
        ensures b[i] >= 128
      {
        if i > 0 { assert b[i] == b[1..][i - 1]; }
      }
    }
  }

  lemma ShortVarint(b: Bytes)
    requires b != [] && b[0] < 128
    ensures IsVarint(b) <==> |b| == 1
  {
  }

  /** The `int` that a 64-bit value is converted to is the one congruent to it. */
  lemma ToInt32Exactly(v: nat, x: Int32)
    ensures ToInt32(v) == x <==> (v - x) % TWO_32 == 0
  {
    var w := v % TWO_32;
    assert v == v / TWO_32 * TWO_32 + w;
    Congruent(v / TWO_32, w - x);
  }

  lemma Congruent(q: nat, d: int)
    ensures (q * TWO_32 + d) % TWO_32 == d % TWO_32
  {
  }

  // ----- records -----

  /** The bytes t are a tag, of at most five bytes, that names this field and wire type. */
  predicate IsTag(t: Bytes, tag: nat) {
    IsVarint(t) && |t| <= 5 && Number(t) % TWO_32 == tag
  }

  /** The bytes b carry this payload: numbers keep 64 bits, lengths stay below 2 GiB. */
  predicate IsPayload(b: Bytes, p: Payload) {
    match p
    case Varint(v) => IsVarint(b) && |b| <= 10 && Number(b) % TWO_64 == v
    case Fixed64(bits) => |b| == 8 && b == bits
    case Fixed32(bits) => |b| == 4 && b == bits
    case Chunk(bytes) =>
      && |bytes| < MAX_LENGTH
      && |bytes| < |b|
      && b[|b| - |bytes|..] == bytes
      && IsVarint(b[..|b| - |bytes|]) && |b| - |bytes| <= 5
      && Number(b[..|b| - |bytes|]) == |bytes|
  }

  lemma ReadTagExactly(s: Bytes, tag: nat, n: nat)
    ensures ReadTag(s) == Got(tag, n) <==> n <= |s| && IsTag(s[..n], tag)
  {
    match DecodeVarint(s, 5) {
      case Fail =>
        if n <= |s| { DecodeVarintExactly(s, 5, Number(s[..n]), n); }
      case Got(v, k) =>
        DecodeVarintExactly(s, 5, v, k);
        if n <= |s| { DecodeVarintExactly(s, 5, Number(s[..n]), n); }
    }
  }

  lemma ReadChunkExactly(s: Bytes, bytes: Bytes, k: nat)
    ensures ReadChunk(s) == Got(bytes, k) <==> k <= |s| && IsPayload(s[..k], Chunk(bytes))
  {
    hide DecodeVarint, Number, IsVarint;
    if k <= |s| && IsPayload(s[..k], Chunk(bytes)) {
      var n := k - |bytes|;
      assert s[..k][..n] == s[..n];
      DecodeVarintExactly(s, 5, |bytes|, n);
      assert s[n..k] == s[..k][n..];
    }
    if ReadChunk(s) == Got(bytes, k) {
      var r := DecodeVarint(s, 5);
      DecodeVarintExactly(s, 5, r.value, r.used);
      assert s[..k][..r.used] == s[..r.used];
      assert s[..k][r.used..] == s[r.used..k];
    }
  }

  lemma ReadVarint64Exactly(s: Bytes, v: nat, k: nat)
    ensures ReadVarint64(s) == Got(v, k) <==> k <= |s| && IsPayload(s[..k], Varint(v))
  {
    match DecodeVarint(s, 10) {
      case Fail =>
        if k <= |s| { DecodeVarintExactly(s, 10, Number(s[..k]), k); }
      case Got(w, n) =>
        DecodeVarintExactly(s, 10, w, n);
        if k <= |s| { DecodeVarintExactly(s, 10, Number(s[..k]), k); }
    }
  }

  /** A payload is read exactly where its bytes stand. */
  lemma ReadPayloadExactly(wireType: nat, s: Bytes, p: Payload, k: nat)
    ensures ReadPayload(wireType, s) == Got(p, k) <==>
              WireType(p) == wireType && k <= |s| && IsPayload(s[..k], p)
  {
    hide ReadVarint64, ReadChunk, IsVarint, Number;
    match p {
      case Varint(v) => ReadVarint64Exactly(s, v, k);
      case Fixed64(bits) =>
      case Chunk(bytes) => ReadChunkExactly(s, bytes, k);
      case Fixed32(bits) =>
    }
  }

  /** The bytes b are this record: a tag of n bytes and the payload behind it. */
  predicate IsRecord(b: Bytes, n: nat, r: Record) {
    n <= |b| && r.field > 0 && IsTag(b[..n], Tag(r)) && IsPayload(b[n..], r.payload)
  }

  /** The input is these records one behind the other, cut off after `cuts` bytes each, with tags of `tags` bytes. */
  predicate IsRun(s: Bytes, rs: seq<Record>, cuts: seq<nat>, tags: seq<nat>)
    decreases |rs|
  {
    && |cuts| == |tags| == |rs|
    && if rs == [] then s == []
       else
         && cuts[0] <= |s|
         && IsRecord(s[..cuts[0]], tags[0], rs[0])
         && IsRun(s[cuts[0]..], rs[1..], cuts[1..], tags[1..])
  }

  lemma RecordIsRead(s: Bytes, cut: nat, n: nat, r: Record)
    requires cut <= |s| && IsRecord(s[..cut], n, r)
    ensures ReadTag(s) == Got(Tag(r), n) && s != []
    ensures ReadPayload(WireType(r.payload), s[n..]) == Got(r.payload, cut - n)
    ensures Tag(r) / 8 == r.field && Tag(r) % 8 == WireType(r.payload)
  {
    hide IsTag, IsPayload, ReadTag, ReadPayload;
    assert s[..cut][..n] == s[..n];
    assert s[..cut][n..] == s[n..][..cut - n];
    ReadTagExactly(s, Tag(r), n);
    ReadPayloadExactly(WireType(r.payload), s[n..], r.payload, cut - n);
    TagIsNonempty(s[..n], Tag(r));
  }

  lemma TagIsNonempty(t: Bytes, tag: nat)
    requires IsTag(t, tag)
    ensures t != []
  {
  }

  lemma ReadIsRecord(s: Bytes, tag: nat, n: nat, p: Payload, k: nat)
    requires ReadTag(s) == Got(tag, n) && tag / 8 != 0 && ReadPayload(tag % 8, s[n..]) == Got(p, k)
    ensures n + k <= |s| && IsRecord(s[..n + k], n, Record(tag / 8, p))
  {
    hide IsTag, IsPayload, ReadTag, ReadPayload;
    ReadTagExactly(s, tag, n);
    ReadPayloadExactly(tag % 8, s[n..], p, k);
    assert s[..n + k][..n] == s[..n];
    assert s[..n + k][n..] == s[n..][..k];
    assert Tag(Record(tag / 8, p)) == tag;
  }

  /** A record in front of an input is the first one read. */
  lemma RecordInFront(s: Bytes, cut: nat, n: nat, r: Record)
    requires cut <= |s| && IsRecord(s[..cut], n, r)
    ensures 0 < cut
    ensures RecordsOf(s) ==
              match RecordsOf(s[cut..]) { case None => None case Some(rest) => Some([r] + rest) }
  {
    hide IsRecord, ReadTag, ReadPayload;
    RecordIsRead(s, cut, n, r);
    RecordIsNamed(s[..cut], n, r);
    assert s[n..][cut - n..] == s[cut..];
  }

  lemma {:induction false} RunIsRead(s: Bytes, rs: seq<Record>, cuts: seq<nat>, tags: seq<nat>)
    requires IsRun(s, rs, cuts, tags)
    ensures RecordsOf(s) == Some(rs)
    decreases |rs|
  {
    hide IsRecord, RecordsOf;
    if rs == [] {
      NoRecords();
    } else {
      RecordInFront(s, cuts[0], tags[0], rs[0]);
      RunIsRead(s[cuts[0]..], rs[1..], cuts[1..], tags[1..]);
      assert [rs[0]] + rs[1..] == rs;
    }
  }

  lemma RecordIsNamed(b: Bytes, n: nat, r: Record)
    requires IsRecord(b, n, r)
    ensures r.field > 0 && n <= |b|
  {
  }

  /** The first record of an input that is made of records. */
  lemma FirstRecord(s: Bytes) returns (cut: nat, n: nat, r: Record)
    requires s != [] && RecordsOf(s).Some?
    ensures 0 < cut <= |s| && IsRecord(s[..cut], n, r)
    ensures RecordsOf(s[cut..]).Some? && RecordsOf(s).value == [r] + RecordsOf(s[cut..]).value
  {
    hide IsRecord, ReadTag, ReadPayload;
    var t := ReadTag(s);
    var p := ReadPayload(t.value % 8, s[t.used..]);
    ReadIsRecord(s, t.value, t.used, p.value, p.used);
    cut, n, r := t.used + p.used, t.used, Record(t.value / 8, p.value);
    RecordInFront(s, cut, n, r);
  }

  lemma {:induction false} ReadIsRun(s: Bytes) returns (cuts: seq<nat>, tags: seq<nat>)
    requires RecordsOf(s).Some?
    ensures IsRun(s, RecordsOf(s).value, cuts, tags)
    decreases |s|
  {
    cuts, tags := [], [];
    if s != [] {
      hide IsRecord, RecordsOf;
      var cut, n, r := FirstRecord(s);
      var rest := RecordsOf(s[cut..]).value;
      cuts, tags := ReadIsRun(s[cut..]);
      RunInFront(s, cut, n, r, rest, cuts, tags);
      cuts, tags := [cut] + cuts, [n] + tags;
    } else {
      NoRecords();
    }
  }

  lemma NoRecords()
    ensures RecordsOf([]) == Some([])
  {
  }

  lemma RunInFront(s: Bytes, cut: nat, n: nat, r: Record, rest: seq<Record>, cuts: seq<nat>, tags: seq<nat>)
    requires cut <= |s| && IsRecord(s[..cut], n, r) && IsRun(s[cut..], rest, cuts, tags)
    ensures IsRun(s, [r] + rest, [cut] + cuts, [n] + tags)
  {
    hide IsRecord;
    assert ([r] + rest)[1..] == rest && ([cut] + cuts)[1..] == cuts && ([n] + tags)[1..] == tags;
  }

  /** Which inputs are made of records: exactly the runs of their bytes, canonical or not. */
  lemma RecordsOfExactly(s: Bytes, rs: seq<Record>)
    ensures RecordsOf(s) == Some(rs) <==> exists cuts, tags :: IsRun(s, rs, cuts, tags)
  {
    if RecordsOf(s) == Some(rs) {
      var cuts, tags := ReadIsRun(s);
    }
    forall cuts, tags | IsRun(s, rs, cuts, tags)
      ensures RecordsOf(s) == Some(rs)
    {
      RunIsRead(s, rs, cuts, tags);
    }
  }

  // ----- how the loop ends -----

  /** A tag that ends the loop: zero, or the end of a group. */
  predicate EndsLoop(tag: nat) {
    tag == 0 || tag % 8 == 4
  }

  /** The input is records, then at `at` a tag of n bytes that ends the loop. */
  ghost predicate StopsAt(s: Bytes, at: nat, n: nat, tag: nat) {
    && at + n <= |s|
    && RecordsOf(s[..at]).Some?
    && IsTag(s[at..at + n], tag) && EndsLoop(tag)
  }

  lemma {:induction false} StopsWhere<M>(
      apply: (M, Record) -> Option<M>, m: M, s: Bytes, rs: seq<Record>, at: nat, n: nat, tag: nat)
    requires StopsAt(s, at, n, tag) && RecordsOf(s[..at]) == Some(rs)
    ensures Parse(apply, m, s) ==
              match Fold(apply, m, rs) { case None => Failed case Some(m') => Stopped(m', tag, s[at + n..]) }
    decreases at
  {
    hide RecordsOf, ReadPayload, ReadTag, IsTag, IsRecord, Parse;
    if at == 0 {
      assert s[..0] == [] && s[0..n] == s[..n] && s[at + n..] == s[n..];
      NoRecords();
      EndTagStops(apply, m, s, n, tag);
    } else {
      var head := s[..at];
      var cut, k, r := FirstRecord(head);
      assert head[..cut] == s[..cut];
      RecordTurn(apply, m, s, cut, k, r);
      assert head[cut..] == s[cut..][..at - cut];
      assert s[cut..][at - cut..at - cut + n] == s[at..at + n];
      assert s[cut..][at - cut + n..] == s[at + n..];
      assert rs[1..] == RecordsOf(head[cut..]).value;
      match apply(m, r) {
        case None =>
        case Some(m') => StopsWhere(apply, m', s[cut..], rs[1..], at - cut, n, tag);
      }
    }
  }

  lemma EndTagStops<M>(apply: (M, Record) -> Option<M>, m: M, s: Bytes, n: nat, tag: nat)
    requires n <= |s| && IsTag(s[..n], tag) && EndsLoop(tag)
    ensures Parse(apply, m, s) == Stopped(m, tag, s[n..])
  {
    hide ReadTag, ReadPayload, IsTag;
    ReadTagExactly(s, tag, n);
    TagIsNonempty(s[..n], tag);
  }

  lemma Turn<M>(
      apply: (M, Record) -> Option<M>, m: M, s: Bytes, tag: nat, n: nat, p: Payload, k: nat, rest: Bytes)
    requires s != [] && ReadTag(s) == Got(tag, n) && !EndsLoop(tag) && tag / 8 != 0
    requires ReadPayload(tag % 8, s[n..]) == Got(p, k) && rest == s[n..][k..]
    ensures Parse(apply, m, s) ==
              match apply(m, Record(tag / 8, p)) { case None => Failed case Some(m') => Parse(apply, m', rest) }
  {
    hide ReadTag, ReadPayload;
  }

  /** One turn of the loop on a record, however its bytes are written. */
  lemma RecordTurn<M>(apply: (M, Record) -> Option<M>, m: M, s: Bytes, cut: nat, n: nat, r: Record)
    requires cut <= |s| && IsRecord(s[..cut], n, r)
    ensures Parse(apply, m, s) ==
              match apply(m, r) { case None => Failed case Some(m') => Parse(apply, m', s[cut..]) }
  {
    hide IsRecord, ReadTag, ReadPayload, Parse;
    RecordIsRead(s, cut, n, r);
    RecordIsNamed(s[..cut], n, r);
    assert s[n..][cut - n..] == s[cut..];
    Turn(apply, m, s, Tag(r), n, r.payload, cut - n, s[cut..]);
  }

  lemma {:induction false} WhereStopped<M>(apply: (M, Record) -> Option<M>, m: M, s: Bytes) returns (at: nat, n: nat)
    requires Parse(apply, m, s).Stopped?
    ensures StopsAt(s, at, n, Parse(apply, m, s).tag)
    decreases |s|
  {
    hide ReadPayload, ReadTag, IsTag, IsRecord, RecordsOf;
    var t := ReadTag(s);
    if EndsLoop(t.value) {
      at, n := 0, t.used;
      ReadTagExactly(s, t.value, n);
      NoRecords();
      assert s[..0] == [] && s[0..n] == s[..n];
    } else {
      var p := ReadPayload(t.value % 8, s[t.used..]);
      var r := Record(t.value / 8, p.value);
      var cut := t.used + p.used;
      ReadIsRecord(s, t.value, t.used, p.value, p.used);
      assert s[t.used..][p.used..] == s[cut..];
      at, n := WhereStopped(apply, apply(m, r).value, s[cut..]);
      assert s[cut..][at..at + n] == s[cut + at..cut + at + n];
      var head := s[..cut + at];
      assert head[..cut] == s[..cut] && head[cut..] == s[cut..][..at];
      RecordInFront(head, cut, t.used, r);
      at := cut + at;
    }
  }

  /**
    When the loop stops early: exactly at the first tag that is zero or ends a group, behind records
    that the switch accepts, with what they made of the message and with all that follows the tag.
   */
  lemma StopsExactly<M>(apply: (M, Record) -> Option<M>, m: M, s: Bytes)
    ensures Parse(apply, m, s).Stopped? <==>
              exists at: nat, n: nat, tag: nat ::
                StopsAt(s, at, n, tag) && Fold(apply, m, RecordsOf(s[..at]).value).Some?
    ensures forall at: nat, n: nat, tag: nat |
              StopsAt(s, at, n, tag) && Fold(apply, m, RecordsOf(s[..at]).value).Some? ::
              Parse(apply, m, s) == Stopped(Fold(apply, m, RecordsOf(s[..at]).value).value, tag, s[at + n..])
  {
    hide Parse, Fold;
    forall at: nat, n: nat, tag: nat |
      StopsAt(s, at, n, tag) && Fold(apply, m, RecordsOf(s[..at]).value).Some?
      ensures Parse(apply, m, s) == Stopped(Fold(apply, m, RecordsOf(s[..at]).value).value, tag, s[at + n..])
    {
      StopsWhere(apply, m, s, RecordsOf(s[..at]).value, at, n, tag);
    }
    if Parse(apply, m, s).Stopped? {
      var at, n := WhereStopped(apply, m, s);
      StopsWhere(apply, m, s, RecordsOf(s[..at]).value, at, n, Parse(apply, m, s).tag);
    }
  }
}
