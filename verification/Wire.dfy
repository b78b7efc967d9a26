/**
  The Protocol Buffers wire format ("Base 128 Varints", "Message Structure" and
  "Length-Delimited Records" of the Protocol Buffers Encoding document) and the tag
  loop every generated parser runs. A message is a sequence of records, each a tag
  followed by a payload whose shape depends on the wire type in the low three bits.
 */
module Wire {
  import opened Wrappers

  type Byte = b: int | 0 <= b < 256
  type Bytes = seq<Byte>
  type Int32 = x: int | -0x8000_0000 <= x < 0x8000_0000

  const TWO_32 := 0x1_0000_0000
  const TWO_64 := 0x1_0000_0000_0000_0000
  const MAX_FIELD := 0x2000_0000
  const MAX_LENGTH := 0x8000_0000

  /** A read from the front of a byte sequence: the value and the bytes it used. */
  datatype Scan<+T> = Fail | Got(value: T, used: nat)

  datatype Payload =
    | Varint(value: nat)
    | Fixed64(bits: Bytes)
    | Chunk(bytes: Bytes)
    | Fixed32(bits: Bytes)

  datatype Record = Record(field: nat, payload: Payload)

  /** How a parse ends: at the end of the input, at a zero or end-group tag, or in error. */
  datatype Outcome<+M> =
    | Complete(message: M)
    | Stopped(message: M, tag: nat, rest: Bytes)
    | Failed

  predicate ValidPayload(p: Payload) {
    match p
    case Varint(v) => v < TWO_64
    case Fixed64(b) => |b| == 8
    case Chunk(b) => |b| < MAX_LENGTH
    case Fixed32(b) => |b| == 4
  }

  predicate ValidRecord(r: Record) {
    1 <= r.field < MAX_FIELD && ValidPayload(r.payload)
  }

  predicate ValidRecords(rs: seq<Record>) {
    forall i | 0 <= i < |rs| :: ValidRecord(rs[i])
  }

  function WireType(p: Payload): (t: nat)
    ensures t in {0, 1, 2, 5}
  {
    match p
    case Varint(_) => 0
    case Fixed64(_) => 1
    case Chunk(_) => 2
    case Fixed32(_) => 5
  }

  // ----- integers -----

  /** The conversion of a 64-bit wire value to a C++ `int`: keep the low 32 bits. */
  function ToInt32(v: nat): Int32 {
    var w := v % TWO_32;
    if w < 0x8000_0000 then w else w - TWO_32
  }

  /** A negative `int` travels sign-extended to 64 bits. */
  function SignExtend(x: Int32): nat {
    if x >= 0 then x else x + TWO_64
  }

  lemma Int32RoundTrip(x: Int32)
    ensures SignExtend(x) < TWO_64
    ensures ToInt32(SignExtend(x)) == x
  {
    if x < 0 {
      assert (x + TWO_64) == (TWO_32 - 1) * TWO_32 + (x + TWO_32);
      assert (x + TWO_64) % TWO_32 == x + TWO_32;
    }
  }

  // ----- varints -----

  function EncodeVarint(n: nat): (s: Bytes)
    ensures |s| >= 1
  {
    if n < 128 then [n] else [n % 128 + 128] + EncodeVarint(n / 128)
  }

  /** Reads at most `limit` bytes; overlong encodings are accepted. */
  function DecodeVarint(s: Bytes, limit: nat): (r: Scan<nat>)
    ensures r.Got? ==> 1 <= r.used <= |s| && r.used <= limit
    decreases limit
  {
    if s == [] || limit == 0 then Fail
    else if s[0] < 128 then Got(s[0], 1)
    else match DecodeVarint(s[1..], limit - 1)
      case Fail => Fail
      case Got(v, k) => Got(v * 128 + (s[0] - 128), k + 1)
  }

  function VarintSize(n: nat): nat {
    if n < 128 then 1 else 1 + VarintSize(n / 128)
  }

  function Pow128(k: nat): (p: nat)
    ensures p >= 1
  {
    if k == 0 then 1 else 128 * Pow128(k - 1)
  }

  lemma Pow128Values()
    ensures Pow128(4) == 0x1000_0000
    ensures Pow128(5) == 0x8_0000_0000
    ensures Pow128(9) == 0x8000_0000_0000_0000
    ensures Pow128(10) > TWO_64
  {
    assert Pow128(3) == 0x20_0000;
    assert Pow128(5) == 0x8_0000_0000;
    assert Pow128(7) == 0x2_0000_0000_0000;
    assert Pow128(9) == 0x8000_0000_0000_0000;
  }

  /** Base 128 varints read back, whatever follows them. */
  lemma {:induction false} VarintRoundTrip(n: nat, limit: nat, rest: Bytes)
    requires limit > 0 && n < Pow128(limit)
    ensures DecodeVarint(EncodeVarint(n) + rest, limit) == Got(n, |EncodeVarint(n)|)
  {
    var s := EncodeVarint(n) + rest;
    if n >= 128 {
      assert s[0] == n % 128 + 128 && s[1..] == EncodeVarint(n / 128) + rest;
      assert Pow128(limit) == 128 * Pow128(limit - 1);
      VarintRoundTrip(n / 128, limit - 1, rest);
    }
  }

  /** A varint that needs more bytes than the limit is refused. */
  lemma {:induction false} VarintTooLong(n: nat, limit: nat, rest: Bytes)
    requires n >= Pow128(limit)
    ensures DecodeVarint(EncodeVarint(n) + rest, limit) == Fail
  {
    var s := EncodeVarint(n) + rest;
    if limit > 0 {
      assert Pow128(limit) == 128 * Pow128(limit - 1);
      assert s[0] == n % 128 + 128 && s[1..] == EncodeVarint(n / 128) + rest;
      VarintTooLong(n / 128, limit - 1, rest);
    }
  }

  lemma {:induction false} VarintSizeIsLength(n: nat)
    ensures |EncodeVarint(n)| == VarintSize(n)
  {
    if n >= 128 { VarintSizeIsLength(n / 128); }
  }

  /** A varint takes at least the bytes its value needs; overlong encodings take more. */
  lemma {:induction false} DecodeUses(s: Bytes, limit: nat)
    ensures DecodeVarint(s, limit).Got? ==> VarintSize(DecodeVarint(s, limit).value) <= DecodeVarint(s, limit).used
    decreases limit
  {
    if s != [] && limit > 0 && s[0] >= 128 {
      DecodeUses(s[1..], limit - 1);
      match DecodeVarint(s[1..], limit - 1) {
        case Fail =>
        case Got(v, k) =>
          var n := v * 128 + (s[0] - 128);
          assert n >= 128 ==> n / 128 == v;
      }
    }
  }

  /** A varint needs k + 1 bytes exactly when it lies in [128^k, 128^(k+1)). */
  lemma {:induction false} VarintSizeBounds(n: nat, k: nat)
    ensures VarintSize(n) == k + 1 <==> (k == 0 || Pow128(k) <= n) && n < Pow128(k + 1)
  {
    if n >= 128 && k > 0 {
      VarintSizeBounds(n / 128, k - 1);
    }
  }

  /** A negative `int` occupies the full ten bytes, which is what `EnumSize` and `Int32Size` charge. */
  lemma NegativeInt32TakesTenBytes(x: Int32)
    requires x < 0
    ensures |EncodeVarint(SignExtend(x))| == 10
  {
    Pow128Values();
    VarintSizeBounds(SignExtend(x), 9);
    VarintSizeIsLength(SignExtend(x));
  }

  // ----- tags and payloads -----

  function ReadTag(s: Bytes): (r: Scan<nat>)
    ensures r.Got? ==> 1 <= r.used <= |s| && r.value < TWO_32
  {
    match DecodeVarint(s, 5)
    case Fail => Fail
    case Got(v, k) => Got(v % TWO_32, k)
  }

  function ReadVarint64(s: Bytes): (r: Scan<nat>)
    ensures r.Got? ==> 1 <= r.used <= |s| && r.value < TWO_64
  {
    match DecodeVarint(s, 10)
    case Fail => Fail
    case Got(v, k) => Got(v % TWO_64, k)
  }

  /** A length prefix and that many bytes; lengths of 2 GiB and more are refused. */
  function ReadChunk(s: Bytes): (r: Scan<Bytes>)
    ensures r.Got? ==> r.used <= |s| && |r.value| < MAX_LENGTH
  {
    match DecodeVarint(s, 5)
    case Fail => Fail
    case Got(n, k) =>
      if n < MAX_LENGTH && k + n <= |s| then Got(s[k..k + n], k + n) else Fail
  }

  function ReadFixed(s: Bytes, n: nat): (r: Scan<Bytes>)
    ensures r.Got? ==> r.used <= |s| && |r.value| == n
  {
    if n <= |s| then Got(s[..n], n) else Fail
  }

  function ReadPayload(wireType: nat, s: Bytes): (r: Scan<Payload>)
    ensures r.Got? ==> r.used <= |s| && ValidPayload(r.value) && WireType(r.value) == wireType
  {
    if wireType == 0 then
      match ReadVarint64(s) case Fail => Fail case Got(v, k) => Got(Varint(v), k)
    else if wireType == 1 then
      match ReadFixed(s, 8) case Fail => Fail case Got(b, k) => Got(Fixed64(b), k)
    else if wireType == 2 then
      match ReadChunk(s) case Fail => Fail case Got(b, k) => Got(Chunk(b), k)
    else if wireType == 5 then
      match ReadFixed(s, 4) case Fail => Fail case Got(b, k) => Got(Fixed32(b), k)
    else Fail
  }

  /** A chunk takes its prefix and its bytes. */
  lemma ChunkUses(s: Bytes)
    ensures ReadChunk(s).Got? ==> VarintSize(|ReadChunk(s).value|) + |ReadChunk(s).value| <= ReadChunk(s).used
  {
    DecodeUses(s, 5);
    hide DecodeVarint, VarintSize;
  }

  lemma PayloadIsChunk(s: Bytes)
    ensures ReadPayload(2, s) ==
            match ReadChunk(s) case Fail => Fail case Got(b, k) => Got(Chunk(b), k)
  {
    hide ReadChunk, ReadVarint64, ReadFixed;
  }

  function EncodePayload(p: Payload): Bytes {
    match p
    case Varint(v) => EncodeVarint(v)
    case Fixed64(b) => b
    case Chunk(b) => EncodeVarint(|b|) + b
    case Fixed32(b) => b
  }

  function Tag(r: Record): nat {
    8 * r.field + WireType(r.payload)
  }

  function EncodeRecord(r: Record): (s: Bytes)
    ensures |s| >= 1
  {
    EncodeVarint(Tag(r)) + EncodePayload(r.payload)
  }

  function EncodeAll(rs: seq<Record>): Bytes {
    if rs == [] then [] else EncodeRecord(rs[0]) + EncodeAll(rs[1..])
  }

  lemma {:induction false} EncodeAllConcat(a: seq<Record>, b: seq<Record>)
    ensures EncodeAll(a + b) == EncodeAll(a) + EncodeAll(b)
  {
    if a == [] {
      assert a + b == b;
    } else {
      assert (a + b)[1..] == a[1..] + b;
      EncodeAllConcat(a[1..], b);
    }
  }

  lemma EncodeAllOne(r: Record)
    ensures EncodeAll([r]) == EncodeRecord(r)
  {
    assert EncodeAll([r][1..]) == [];
  }

  lemma TagRoundTrip(r: Record, rest: Bytes)
    requires ValidRecord(r)
    ensures ReadTag(EncodeVarint(Tag(r)) + rest) == Got(Tag(r), |EncodeVarint(Tag(r))|)
    ensures Tag(r) / 8 == r.field && Tag(r) % 8 == WireType(r.payload)
  {
    Pow128Values();
    VarintRoundTrip(Tag(r), 5, rest);
  }

  lemma ChunkRoundTrip(b: Bytes, rest: Bytes)
    requires |b| < MAX_LENGTH
    ensures ReadChunk(EncodeVarint(|b|) + b + rest) == Got(b, |EncodeVarint(|b|) + b|)
  {
    Pow128Values();
    hide EncodeVarint, DecodeVarint, Pow128;
    var prefix := EncodeVarint(|b|);
    VarintRoundTrip(|b|, 5, b + rest);
    var s := prefix + b + rest;
    assert s == prefix + (b + rest);
    assert s[|prefix|..|prefix| + |b|] == b;
  }

  /** A length of 2 GiB or more is refused, whatever follows. */
  lemma LongChunkIsRefused(n: nat, rest: Bytes)
    requires n >= MAX_LENGTH
    ensures ReadChunk(EncodeVarint(n) + rest) == Fail
  {
    Pow128Values();
    hide EncodeVarint, DecodeVarint, Pow128;
    if n < Pow128(5) {
      VarintRoundTrip(n, 5, rest);
    } else {
      VarintTooLong(n, 5, rest);
    }
  }

  lemma PayloadRoundTrip(p: Payload, rest: Bytes)
    requires ValidPayload(p)
    ensures ReadPayload(WireType(p), EncodePayload(p) + rest) == Got(p, |EncodePayload(p)|)
  {
    Pow128Values();
    hide EncodeVarint, DecodeVarint, Pow128, ReadChunk;
    match p {
      case Varint(v) => VarintRoundTrip(v, 10, rest);
      case Fixed64(b) => assert (b + rest)[..8] == b;
      case Chunk(b) => ChunkRoundTrip(b, rest);
      case Fixed32(b) => assert (b + rest)[..4] == b;
    }
  }

  // ----- the tag loop -----

  /** The `while (!ctx->Done(&ptr))` loop; `apply` is the body of the switch for one record. */
  function Parse<M>(apply: (M, Record) -> Option<M>, m: M, s: Bytes): Outcome<M>
    decreases |s|
  {
    if s == [] then Complete(m)
    else match ReadTag(s)
      case Fail => Failed
      case Got(tag, n) =>
        if tag == 0 || tag % 8 == 4 then Stopped(m, tag, s[n..])
        else match ReadPayload(tag % 8, s[n..])
          case Fail => Failed
          case Got(p, k) =>
            if tag / 8 == 0 then Failed
            else match apply(m, Record(tag / 8, p))
              case None => Failed
              case Some(m') => Parse(apply, m', s[n..][k..])
  }

  function Fold<M>(apply: (M, Record) -> Option<M>, m: M, rs: seq<Record>): Option<M> {
    if rs == [] then Some(m)
    else match apply(m, rs[0])
      case None => None
      case Some(m') => Fold(apply, m', rs[1..])
  }

  lemma {:induction false} FoldConcat<M>(apply: (M, Record) -> Option<M>, m: M, a: seq<Record>, b: seq<Record>)
    ensures Fold(apply, m, a + b) ==
            match Fold(apply, m, a) { case None => None case Some(m') => Fold(apply, m', b) }
  {
    if a == [] {
      assert a + b == b;
    } else {
      assert (a + b)[1..] == a[1..] + b;
      match apply(m, a[0]) {
        case None =>
        case Some(m') => FoldConcat(apply, m', a[1..], b);
      }
    }
  }

  /** One printed record is read back by one turn of the loop. */
  lemma ParseOne<M>(apply: (M, Record) -> Option<M>, m: M, r: Record, rest: Bytes)
    requires ValidRecord(r)
    ensures Parse(apply, m, EncodeRecord(r) + rest) ==
            match apply(m, r) { case None => Failed case Some(m') => Parse(apply, m', rest) }
  {
    hide ReadTag;
    hide ReadPayload;
    var t, p := EncodeVarint(Tag(r)), EncodePayload(r.payload);
    var s := EncodeRecord(r) + rest;
    assert s == t + (p + rest);
    TagRoundTrip(r, p + rest);
    assert s[|t|..] == p + rest;
    PayloadRoundTrip(r.payload, rest);
    assert (p + rest)[|p|..] == rest;
    assert Record(Tag(r) / 8, r.payload) == r;
  }

  /** Parsing printed records folds `apply` over them, then goes on with what follows. */
  lemma {:induction false} ParseEncoded<M>(apply: (M, Record) -> Option<M>, m: M, rs: seq<Record>, rest: Bytes)
    requires ValidRecords(rs)
    ensures Parse(apply, m, EncodeAll(rs) + rest) ==
            match Fold(apply, m, rs) { case None => Failed case Some(m') => Parse(apply, m', rest) }
    decreases |rs|
  {
    if rs == [] {
      assert EncodeAll(rs) + rest == rest;
    } else {
      var more := EncodeAll(rs[1..]) + rest;
      assert EncodeAll(rs) + rest == EncodeRecord(rs[0]) + more;
      ParseOne(apply, m, rs[0], more);
      match apply(m, rs[0]) {
        case None =>
        case Some(m') => ParseEncoded(apply, m', rs[1..], rest);
      }
    }
  }

  /** A property kept by the switch body is kept by the whole loop, on every input. */
  lemma {:induction false} ParseKeeps<M(!new)>(
      apply: (M, Record) -> Option<M>, keep: M -> bool, m: M, s: Bytes)
    requires forall m: M, r: Record {:trigger apply(m, r)} ::
               keep(m) && ValidRecord(r) && apply(m, r).Some? ==> keep(apply(m, r).value)
    requires keep(m)
    ensures !Parse(apply, m, s).Failed? ==> keep(Parse(apply, m, s).message)
    decreases |s|
  {
    if s != [] {
      match ReadTag(s) {
        case Fail =>
        case Got(tag, n) =>
          if tag != 0 && tag % 8 != 4 && tag / 8 != 0 {
            match ReadPayload(tag % 8, s[n..]) {
              case Fail =>
              case Got(p, k) =>
                var r := Record(tag / 8, p);
                assert ValidRecord(r);
                match apply(m, r) {
                  case None =>
                  case Some(m') => ParseKeeps(apply, keep, m', s[n..][k..]);
                }
            }
          }
      }
    }
  }

  // ----- a two-pass reading of the same loop -----

  /** The records of an input, if it is made of records from end to end. */
  function RecordsOf(s: Bytes): (rs: Option<seq<Record>>)
    decreases |s|
  {
    if s == [] then Some([])
    else match ReadTag(s)
      case Fail => None
      case Got(tag, n) =>
        if tag == 0 || tag % 8 == 4 || tag / 8 == 0 then None
        else match ReadPayload(tag % 8, s[n..])
          case Fail => None
          case Got(p, k) =>
            match RecordsOf(s[n..][k..])
            case None => None
            case Some(rest) => Some([Record(tag / 8, p)] + rest)
  }

  /** The one-pass loop completes exactly when splitting into records and folding both succeed. */
  lemma {:induction false} ParseIsFold<M>(apply: (M, Record) -> Option<M>, m: M, s: Bytes)
    ensures Parse(apply, m, s).Complete? <==>
            RecordsOf(s).Some? && Fold(apply, m, RecordsOf(s).value).Some?
    ensures Parse(apply, m, s).Complete? ==>
            Fold(apply, m, RecordsOf(s).value) == Some(Parse(apply, m, s).message)
    decreases |s|
  {
    if s != [] {
      match ReadTag(s) {
        case Fail =>
        case Got(tag, n) =>
          if tag != 0 && tag % 8 != 4 && tag / 8 != 0 {
            match ReadPayload(tag % 8, s[n..]) {
              case Fail =>
              case Got(p, k) =>
                var r := Record(tag / 8, p);
                match RecordsOf(s[n..][k..]) {
                  case None =>
                  case Some(rest) =>
                    assert ([r] + rest)[0] == r && ([r] + rest)[1..] == rest;
                }
                match apply(m, r) {
                  case None =>
                  case Some(m') => ParseIsFold(apply, m', s[n..][k..]);
                }
            }
          }
      }
    }
  }

  /** Printed records are the records of what was printed. */
  lemma {:induction false} RecordsRoundTrip(rs: seq<Record>)
    requires ValidRecords(rs)
    ensures RecordsOf(EncodeAll(rs)) == Some(rs)
  {
    if rs != [] {
      var r, more := rs[0], EncodeAll(rs[1..]);
      var t, p := EncodeVarint(Tag(r)), EncodePayload(r.payload);
      var s := EncodeAll(rs);
      assert s == t + (p + more);
      TagRoundTrip(r, p + more);
      assert s[|t|..] == p + more;
      PayloadRoundTrip(r.payload, more);
      assert (p + more)[|p|..] == more;
      RecordsRoundTrip(rs[1..]);
      assert [Record(Tag(r) / 8, r.payload)] + rs[1..] == rs;
    }
  }
}
