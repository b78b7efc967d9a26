/**
  What every message does with the records it has no field for, stated over the switch body of any
  message: as long as their payloads can be read they are accepted, and they pass through the parser
  untouched and in order.
 */
module UnknownFields {
  import opened Wrappers
  import opened Wire

  /** Records that can be printed and that the switch has no case for. */
  predicate Unnamed(rs: seq<Record>, known: Record -> bool) {
    forall i | 0 <= i < |rs| :: ValidRecord(rs[i]) && !known(rs[i])
  }

  /** The records the switch has no case for, in their order of arrival. */
  function Remaining(rs: seq<Record>, known: Record -> bool): seq<Record> {
    if rs == [] then []
    else (if known(rs[0]) then [] else [rs[0]]) + Remaining(rs[1..], known)
  }

  predicate AllAccepted(rs: seq<Record>, accepts: Record -> bool) {
    forall i | 0 <= i < |rs| :: accepts(rs[i])
  }

  /** Unnamed records are appended one after the other; `keep` is what appending does. */
  lemma {:induction false} FoldUnnamed<M(!new)>(
      apply: (M, Record) -> Option<M>, known: Record -> bool, keep: (M, seq<Record>) -> M, m: M, rs: seq<Record>)
    requires forall m: M, r: Record {:trigger apply(m, r)} :: !known(r) ==> apply(m, r) == Some(keep(m, [r]))
    requires forall m: M, a, b {:trigger keep(keep(m, a), b)} :: keep(keep(m, a), b) == keep(m, a + b)
    requires forall m: M {:trigger keep(m, [])} :: keep(m, []) == m
    requires Unnamed(rs, known)
    ensures Fold(apply, m, rs) == Some(keep(m, rs))
    decreases |rs|
  {
    if rs == [] {
      assert keep(m, []) == m;
    } else {
      assert apply(m, rs[0]) == Some(keep(m, [rs[0]]));
      FoldUnnamed(apply, known, keep, keep(m, [rs[0]]), rs[1..]);
      assert [rs[0]] + rs[1..] == rs;
    }
  }

  /** The switch body fails on what `accepts` excludes and keeps exactly what `known` does not name. */
  ghost predicate KeepsUnnamed<M(!new)>(
      apply: (M, Record) -> Option<M>, known: Record -> bool, accepts: Record -> bool, unknown: M -> seq<Record>)
  {
    forall m: M, r: Record {:trigger apply(m, r)} ::
      && (apply(m, r).Some? <==> accepts(r))
      && (apply(m, r).Some? ==> unknown(apply(m, r).value) == unknown(m) + if known(r) then [] else [r])
  }

  lemma {:induction false} FoldAccepts<M(!new)>(
      apply: (M, Record) -> Option<M>, known: Record -> bool, accepts: Record -> bool, unknown: M -> seq<Record>,
      m: M, rs: seq<Record>)
    requires KeepsUnnamed(apply, known, accepts, unknown)
    ensures Fold(apply, m, rs).Some? <==> AllAccepted(rs, accepts)
    ensures Fold(apply, m, rs).Some? ==> unknown(Fold(apply, m, rs).value) == unknown(m) + Remaining(rs, known)
    decreases |rs|
  {
    if rs != [] {
      assert AllAccepted(rs, accepts) <==> accepts(rs[0]) && AllAccepted(rs[1..], accepts) by {
        assert rs == [rs[0]] + rs[1..];
      }
      match apply(m, rs[0]) {
        case None =>
        case Some(m') => FoldAccepts(apply, known, accepts, unknown, m', rs[1..]);
      }
    }
  }

  /**
    Which inputs are accepted, and what becomes of the records nobody asked for: an input is
    accepted exactly when it splits into records the switch accepts, whatever the message started
    as; unnamed records, named numbers with another wire type among them, are kept behind the old
    ones in order.
   */
  lemma AcceptedInputs<M(!new)>(
      apply: (M, Record) -> Option<M>, known: Record -> bool, accepts: Record -> bool, unknown: M -> seq<Record>,
      m: M, s: Bytes)
    requires KeepsUnnamed(apply, known, accepts, unknown)
    ensures Parse(apply, m, s).Complete? <==> RecordsOf(s).Some? && AllAccepted(RecordsOf(s).value, accepts)
    ensures Parse(apply, m, s).Complete? ==>
            unknown(Parse(apply, m, s).message) == unknown(m) + Remaining(RecordsOf(s).value, known)
  {
    ParseIsFold(apply, m, s);
    hide KeepsUnnamed, AllAccepted;
    if RecordsOf(s).Some? {
      FoldAccepts(apply, known, accepts, unknown, m, RecordsOf(s).value);
    }
  }

  // ----- one turn of the loop on such a record -----

  /** What is left to do once a tag without a case has been read. */
  function PastUnnamed<M>(
      apply: (M, Record) -> Option<M>, keep: (M, seq<Record>) -> M, m: M, tag: nat, s: Bytes): Outcome<M>
  {
    if tag == 0 || tag % 8 == 4 then Stopped(m, tag, s)
    else match ReadPayload(tag % 8, s)
      case Fail => Failed
      case Got(p, k) =>
        if tag / 8 == 0 then Failed else Parse(apply, keep(m, [Record(tag / 8, p)]), s[k..])
  }

  lemma TurnUnnamed<M>(
      apply: (M, Record) -> Option<M>, keep: (M, seq<Record>) -> M, m: M, s: Bytes, tag: nat, n: nat)
    requires s != [] && ReadTag(s) == Got(tag, n)
    requires forall r: Record {:trigger apply(m, r)} | r.field == tag / 8 && WireType(r.payload) == tag % 8 ::
               apply(m, r) == Some(keep(m, [r]))
    ensures Parse(apply, m, s) == PastUnnamed(apply, keep, m, tag, s[n..])
  {
    hide ReadPayload, ReadTag;
    if tag != 0 && tag % 8 != 4 && tag / 8 != 0 {
      match ReadPayload(tag % 8, s[n..]) {
        case Fail =>
        case Got(p, k) =>
          var r := Record(tag / 8, p);
          assert apply(m, r) == Some(keep(m, [r]));
      }
    }
  }

  /** `UnknownFieldParse` reads the record under `tag`, or fails. */
  method ReadUnnamed(tag: nat, ptr: Bytes) returns (r: Option<Record>, next: Bytes)
    ensures match ReadPayload(tag % 8, ptr)
            case Fail => r == None
            case Got(p, k) => if tag / 8 == 0 then r == None else r == Some(Record(tag / 8, p)) && next == ptr[k..]
  {
    hide ReadPayload;
    if tag / 8 == 0 { return None, ptr; }
    match ReadPayload(tag % 8, ptr) {
      case Fail => return None, ptr;
      case Got(p, k) => return Some(Record(tag / 8, p)), ptr[k..];
    }
  }
}
