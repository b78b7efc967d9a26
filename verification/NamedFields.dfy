/**
  What parsing an input onto a message does in terms of the message the input stands for alone: the
  fields the input names come from there, the others stay. Stated over the switch body of any message.
 */
module NamedFields {
  import opened Wrappers
  import opened Wire

  /** The field a record is for, if the switch has a case for it. */
  function FieldOf(r: Record, known: Record -> bool): set<nat> {
    if known(r) then {r.field} else {}
  }

  /** The fields that some record names with the wire type of its case. */
  function FieldsOf(rs: seq<Record>, known: Record -> bool): set<nat> {
    if rs == [] then {} else FieldOf(rs[0], known) + FieldsOf(rs[1..], known)
  }

  /** One more record adds the field it names to those taken from `b`, and fails for `b` and m alike. */
  ghost predicate StepsOver<M(!new)>(
      apply: (M, Record) -> Option<M>, known: Record -> bool, overlay: (M, M, set<nat>) -> M)
  {
    forall m: M, b: M, fields: set<nat>, r: Record {:trigger apply(overlay(m, b, fields), r)} ::
      apply(overlay(m, b, fields), r) ==
        match apply(b, r) {
          case None => None
          case Some(b') => Some(overlay(m, b', fields + FieldOf(r, known)))
        }
  }

  lemma {:induction false} FoldOver<M(!new)>(
      apply: (M, Record) -> Option<M>, known: Record -> bool, overlay: (M, M, set<nat>) -> M,
      m: M, b: M, fields: set<nat>, rs: seq<Record>)
    requires StepsOver(apply, known, overlay)
    ensures Fold(apply, overlay(m, b, fields), rs) ==
            match Fold(apply, b, rs) {
              case None => None
              case Some(b') => Some(overlay(m, b', fields + FieldsOf(rs, known)))
            }
    decreases |rs|
  {
    if rs == [] {
      assert fields + {} == fields;
    } else {
      assert apply(overlay(m, b, fields), rs[0]) ==
             match apply(b, rs[0]) {
               case None => None
               case Some(b') => Some(overlay(m, b', fields + FieldOf(rs[0], known)))
             };
      match apply(b, rs[0]) {
        case None =>
        case Some(b') =>
          var more := fields + FieldOf(rs[0], known);
          FoldOver(apply, known, overlay, m, b', more, rs[1..]);
          assert more + FieldsOf(rs[1..], known) == fields + FieldsOf(rs, known);
      }
    }
  }

  /** What every record keeps between a message and the fields named so far holds at the end. */
  lemma {:induction false} FoldKeepsNamed<M(!new)>(
      apply: (M, Record) -> Option<M>, known: Record -> bool, keep: (M, set<nat>) -> bool,
      b: M, fields: set<nat>, rs: seq<Record>)
    requires forall b: M, fields: set<nat>, r: Record {:trigger apply(b, r), keep(b, fields)} ::
               keep(b, fields) && apply(b, r).Some? ==> keep(apply(b, r).value, fields + FieldOf(r, known))
    requires keep(b, fields) && Fold(apply, b, rs).Some?
    ensures keep(Fold(apply, b, rs).value, fields + FieldsOf(rs, known))
    decreases |rs|
  {
    if rs == [] {
      assert fields + {} == fields;
    } else {
      var b', more := apply(b, rs[0]).value, fields + FieldOf(rs[0], known);
      FoldKeepsNamed(apply, known, keep, b', more, rs[1..]);
      assert more + FieldsOf(rs[1..], known) == fields + FieldsOf(rs, known);
    }
  }
}
