/**
  Reference counting through AutoPtr handles. `Owners` is the ledger of who owns what: which handle
  points where, and how many references to each object are owned elsewhere (by raw pointers that
  have still to be released or handed to a handle).
 */
module AutoPtr {
  import opened Wrappers

  class RefCounted {
    var count: int
    var destroyed: bool

    /** A counted object starts with one reference, owned by whoever created it. */
    constructor ()
      ensures count == 1 && !destroyed
    {
      count, destroyed := 1, false;
    }

    method Duplicate()
      requires !destroyed
      modifies this`count
      ensures count == old(count) + 1
    {
      count := count + 1;
    }

    /** Gives up a reference; the object deletes itself with the last one. */
    method Release()
      requires !destroyed
      modifies this
      ensures count == old(count) - 1
      ensures destroyed <==> count == 0
    {
      count := count - 1;
      if count == 0 { destroyed := true; }
    }
  }

  // ----- counting the handles that point to an object -----

  ghost function Pointing(points: map<AutoPtr, RefCounted?>, o: RefCounted): set<AutoPtr> {
    set h | h in points && points[h] == o
  }

  ghost function Handles(points: map<AutoPtr, RefCounted?>, o: RefCounted): nat {
    |Pointing(points, o)|
  }

  /** Redirecting one handle takes one from its old object and gives one to its new object. */
  lemma Redirect(points: map<AutoPtr, RefCounted?>, h: AutoPtr, q: RefCounted?, o: RefCounted)
    requires h in points
    ensures Handles(points[h := q], o) == Handles(points, o) - One(points[h] == o) + One(q == o)
  {
    var before, after := Pointing(points, o), Pointing(points[h := q], o);
    var others := before - {h};
    assert before == if points[h] == o then others + {h} else others;
    assert after == if q == o then others + {h} else others;
  }

  lemma Join(points: map<AutoPtr, RefCounted?>, h: AutoPtr, q: RefCounted?, o: RefCounted)
    requires h !in points
    ensures Handles(points[h := q], o) == Handles(points, o) + One(q == o)
  {
    var before, after := Pointing(points, o), Pointing(points[h := q], o);
    assert after - {h} == before;
  }

  lemma RedirectAll(points: map<AutoPtr, RefCounted?>, h: AutoPtr, q: RefCounted?, objects: set<RefCounted>)
    requires h in points
    ensures forall o | o in objects ::
              Handles(points[h := q], o) == Handles(points, o) - One(points[h] == o) + One(q == o)
  {
    hide Handles;
    forall o | o in objects
      ensures Handles(points[h := q], o) == Handles(points, o) - One(points[h] == o) + One(q == o)
    {
      Redirect(points, h, q, o);
    }
  }

  /** A move costs each object what the receiving handle held before; also when a handle is moved onto itself. */
  lemma MoveAll(points: map<AutoPtr, RefCounted?>, h: AutoPtr, g: AutoPtr, objects: set<RefCounted>)
    requires h in points && g in points
    ensures forall o | o in objects ::
              Handles(points[h := points[g]][g := null], o) == Handles(points, o) - One(points[h] == o)
  {
    hide Handles;
    forall o | o in objects
      ensures Handles(points[h := points[g]][g := null], o) == Handles(points, o) - One(points[h] == o)
    {
      Redirect(points, h, points[g], o);
      Redirect(points[h := points[g]], g, null, o);
    }
  }

  lemma JoinAll(points: map<AutoPtr, RefCounted?>, h: AutoPtr, q: RefCounted?, objects: set<RefCounted>)
    requires h !in points
    ensures forall o | o in objects :: Handles(points[h := q], o) == Handles(points, o) + One(q == o)
  {
    hide Handles;
    forall o | o in objects
      ensures Handles(points[h := q], o) == Handles(points, o) + One(q == o)
    {
      Join(points, h, q, o);
    }
  }

  /** A new handle that takes over from another one costs no object anything. */
  lemma TakeOverAll(points: map<AutoPtr, RefCounted?>, h: AutoPtr, g: AutoPtr, objects: set<RefCounted>)
    requires h !in points && g in points
    ensures forall o | o in objects ::
              Handles(points[h := points[g]][g := null], o) == Handles(points, o)
  {
    hide Handles;
    forall o | o in objects
      ensures Handles(points[h := points[g]][g := null], o) == Handles(points, o)
    {
      Join(points, h, points[g], o);
      Redirect(points[h := points[g]], g, null, o);
    }
  }

  lemma Leave(points: map<AutoPtr, RefCounted?>, h: AutoPtr, o: RefCounted)
    requires h in points
    ensures Handles(points - {h}, o) == Handles(points, o) - One(points[h] == o)
  {
    var before, after := Pointing(points, o), Pointing(points - {h}, o);
    assert after == before - {h};
  }

  /** Two handles on one object account for two references. */
  lemma TwoHandles(points: map<AutoPtr, RefCounted?>, g: AutoPtr, h: AutoPtr, o: RefCounted)
    requires g != h && g in points && h in points && points[g] == points[h] == o
    ensures Handles(points, o) >= 2
  {
    var all := Pointing(points, o);
    assert all == {g, h} + (all - {g, h});
  }

  lemma OneHandle(points: map<AutoPtr, RefCounted?>, h: AutoPtr, o: RefCounted?)
    requires h in points && points[h] == o
    ensures o != null ==> Handles(points, o) >= 1
  {
    if o != null {
      var all := Pointing(points, o);
      assert all == {h} + (all - {h});
    }
  }

  /** The raw references after one has been handed to a handle. */
  ghost function Less(raw: map<RefCounted, nat>, p: RefCounted?): map<RefCounted, nat>
    requires p != null ==> p in raw && raw[p] > 0
  {
    if p == null then raw else raw[p := raw[p] - 1]
  }

  lemma NoHandle(points: map<AutoPtr, RefCounted?>, o: RefCounted)
    requires forall h | h in points :: points[h] != o
    ensures Handles(points, o) == 0
  {
    assert Pointing(points, o) == {};
  }

  class Owners {
    ghost var objects: set<RefCounted>
    ghost var points: map<AutoPtr, RefCounted?>
    ghost var raw: map<RefCounted, nat>

    ghost constructor ()
      ensures Valid() && objects == {} && points == map[] && raw == map[]
    {
      objects, points, raw := {}, map[], map[];
    }

    /**
      Every count is the number of handles plus the references owned elsewhere, and an object is
      destroyed exactly when that is zero.
     */
    ghost predicate Valid()
      reads this, objects, points.Keys
    {
      && raw.Keys == objects
      && (forall h | h in points :: h.ptr == points[h] && (h.ptr != null ==> h.ptr in objects))
      && (forall o | o in objects :: Balanced(o))
    }

    ghost predicate Balanced(o: RefCounted)
      reads this, o
    {
      && o in raw && o.count == Handles(points, o) + raw[o]
      && (o.destroyed <==> o.count == 0)
    }

    /** The ledger after the handles have been changed. */
    ghost method Repoint(after: map<AutoPtr, RefCounted?>)
      requires raw.Keys == objects
      requires forall h | h in after :: h.ptr == after[h] && (h.ptr != null ==> h.ptr in objects)
      requires forall o | o in objects :: o.count == Handles(after, o) + raw[o] && (o.destroyed <==> o.count == 0)
      modifies this`points
      ensures Valid() && points == after
    {
      hide Handles;
      points := after;
    }

    /** A new object comes with one reference nobody has wrapped in a handle yet. */
    ghost method Enter(o: RefCounted)
      requires Valid() && o !in objects && o.count == 1 && !o.destroyed
      modifies this
      ensures Valid() && points == old(points)
      ensures objects == old(objects) + {o} && raw == old(raw)[o := 1]
    {
      assert Handles(points, o) == 0 by { NoHandle(points, o); }
      hide Handles;
      objects, raw := objects + {o}, raw[o := 1];
    }
  }

  class AutoPtr {
    var ptr: RefCounted?

    /** `if (_ptr) _ptr->release()`. */
    method ReleaseHeld()
      requires ptr != null ==> !ptr.destroyed
      modifies ptr
      ensures ptr != null ==> ptr.count == old(ptr.count) - 1 && (ptr.destroyed <==> ptr.count == 0)
    {
      if ptr != null { ptr.Release(); }
    }

    /** `if (_ptr) _ptr->duplicate()`. */
    method DuplicateHeld()
      requires ptr != null ==> !ptr.destroyed
      modifies ptr
      ensures ptr != null ==> ptr.count == old(ptr.count) + 1 && !ptr.destroyed
    {
      if ptr != null { ptr.Duplicate(); }
    }

    /** `AutoPtr(C*)` takes over a raw reference. */
    constructor (p: RefCounted?, ghost w: Owners)
      requires w.Valid() && (p != null ==> p in w.objects && w.raw[p] > 0)
      modifies w
      ensures w.Valid() && ptr == p
      ensures w.objects == old(w.objects) && w.points == old(w.points)[this := p]
      ensures w.raw == Less(old(w.raw), p)
    {
      ptr := p;
      new;
      hide Handles;
      JoinAll(w.points, this, p, w.objects);
      w.raw := Less(w.raw, p);
      w.Repoint(w.points[this := p]);
    }

    /** The copy constructor shares the object. */
    constructor Copy(other: AutoPtr, ghost w: Owners)
      requires w.Valid() && other in w.points
      modifies w, w.objects
      ensures w.Valid() && ptr == other.ptr == old(other.ptr)
      ensures w.objects == old(w.objects) && w.raw == old(w.raw) && w.points == old(w.points)[this := ptr]
    {
      ptr := other.ptr;
      new;
      hide Handles;
      JoinAll(w.points, this, ptr, w.objects);
      OneHandle(w.points, other, ptr);
      DuplicateHeld();
      w.Repoint(w.points[this := ptr]);
    }

    /** `AutoPtr(C*, true)` shares an object with whoever owns the raw reference. */
    constructor Shared(p: RefCounted?, ghost w: Owners)
      requires w.Valid() && (p != null ==> p in w.objects && !p.destroyed)
      modifies w, w.objects
      ensures w.Valid() && ptr == p
      ensures w.objects == old(w.objects) && w.raw == old(w.raw) && w.points == old(w.points)[this := p]
    {
      ptr := p;
      new;
      hide Handles;
      JoinAll(w.points, this, p, w.objects);
      DuplicateHeld();
      w.Repoint(w.points[this := p]);
    }

    /** The move constructor takes the reference over and counts nothing. */
    constructor Move(other: AutoPtr, ghost w: Owners)
      requires w.Valid() && other in w.points
      modifies w, other
      ensures w.Valid() && ptr == old(other.ptr) && other.ptr == null
      ensures w.objects == old(w.objects) && w.raw == old(w.raw)
      ensures w.points == old(w.points)[this := ptr][other := null]
    {
      ptr := other.ptr;
      new;
      hide Handles;
      ghost var after := w.points[this := ptr][other := null];
      TakeOverAll(w.points, this, other, w.objects);
      other.ptr := null;
      w.Repoint(after);
    }

    /** The destructor gives the reference up. */
    method Destroy(ghost w: Owners)
      requires w.Valid() && this in w.points
      modifies w, w.objects
      ensures w.Valid()
      ensures w.objects == old(w.objects) && w.raw == old(w.raw) && w.points == old(w.points) - {this}
    {
      hide Handles;
      forall o | o in w.objects ensures Handles(w.points - {this}, o) == Handles(w.points, o) - One(ptr == o) {
        Leave(w.points, this, o);
      }
      OneHandle(w.points, this, ptr);
      ReleaseHeld();
      w.Repoint(w.points - {this});
    }

    /** Releases the object held and takes a raw reference over. */
    method ReleaseThenTake(p: RefCounted?, ghost w: Owners)
      requires w.Valid() && this in w.points && ptr != p
      requires p != null ==> p in w.objects && w.raw[p] > 0
      modifies this, w, w.objects
      ensures w.Valid() && ptr == p && w.objects == old(w.objects)
      ensures w.points == old(w.points)[this := p] && w.raw == Less(old(w.raw), p)
    {
      hide Handles;
      RedirectAll(w.points, this, p, w.objects);
      OneHandle(w.points, this, ptr);
      ReleaseHeld();
      ptr := p;
      w.raw := Less(w.raw, p);
      w.Repoint(w.points[this := p]);
    }

    /** Releases the object held and shares another one, or the same one if another reference keeps it alive. */
    method ReleaseThenShare(p: RefCounted?, ghost w: Owners)
      requires w.Valid() && this in w.points
      requires p != null ==> p in w.objects && !p.destroyed && (p == ptr ==> p.count >= 2)
      modifies this, w, w.objects
      ensures w.Valid() && ptr == p && w.objects == old(w.objects)
      ensures w.points == old(w.points)[this := p] && w.raw == old(w.raw)
    {
      hide Handles;
      RedirectAll(w.points, this, p, w.objects);
      OneHandle(w.points, this, ptr);
      ReleaseHeld();
      ptr := p;
      DuplicateHeld();
      w.Repoint(w.points[this := p]);
    }

    /** `assign(C*)` takes over a raw reference, unless it is to the object already held. */
    method AssignRaw(p: RefCounted?, ghost w: Owners)
      requires w.Valid() && this in w.points
      requires p != null && p != ptr ==> p in w.objects && w.raw[p] > 0
      modifies this, w, w.objects
      ensures w.Valid() && ptr == p && w.objects == old(w.objects)
      ensures w.points == old(w.points)[this := p]
      ensures w.raw == if p == old(ptr) then old(w.raw) else Less(old(w.raw), p)
    {
      assert ptr == p ==> w.points[this := p] == w.points;
      hide Handles, Less;
      if ptr != p {
        ReleaseThenTake(p, w);
      }
    }

    /** `assign(C*, true)` shares the object with the caller, who keeps the raw reference. */
    method AssignShared(p: RefCounted?, ghost w: Owners)
      requires w.Valid() && this in w.points
      requires p != null && p != ptr ==> p in w.objects && !p.destroyed
      modifies this, w, w.objects
      ensures w.Valid() && ptr == p
      ensures w.objects == old(w.objects) && w.raw == old(w.raw) && w.points == old(w.points)[this := p]
    {
      assert ptr == p ==> w.points[this := p] == w.points;
      hide Handles;
      if ptr != p {
        ReleaseThenShare(p, w);
      }
    }

    /**
      `assign(const AutoPtr&)` releases before it duplicates. When both handles share the object
      there are two references, so it survives the release.
     */
    method Assign(other: AutoPtr, ghost w: Owners)
      requires w.Valid() && this in w.points && other in w.points
      modifies this, w, w.objects
      ensures w.Valid() && ptr == old(other.ptr) && other.ptr == old(other.ptr)
      ensures w.objects == old(w.objects) && w.raw == old(w.raw) && w.points == old(w.points)[this := ptr]
    {
      assert other == this ==> w.points[this := ptr] == w.points;
      hide Handles;
      if other != this {
        OneHandle(w.points, other, other.ptr);
        if ptr != null && ptr == other.ptr { TwoHandles(w.points, this, other, ptr); }
        assert other.ptr != null ==> w.Balanced(other.ptr);
        ReleaseThenShare(other.ptr, w);
      }
    }

    /** `assign(const AutoPtr<Other>&)` compares the objects instead of the handles. */
    method AssignOther(other: AutoPtr, ghost w: Owners)
      requires w.Valid() && this in w.points && other in w.points
      modifies this, w, w.objects
      ensures w.Valid() && ptr == old(other.ptr) && other.ptr == old(other.ptr)
      ensures w.objects == old(w.objects) && w.raw == old(w.raw) && w.points == old(w.points)[this := ptr]
    {
      assert other.ptr == ptr ==> w.points[this := ptr] == w.points;
      hide Handles;
      if other.ptr != ptr {
        OneHandle(w.points, other, other.ptr);
        assert other.ptr != null ==> w.Balanced(other.ptr);
        ReleaseThenShare(other.ptr, w);
      }
    }

    method Reset(ghost w: Owners)
      requires w.Valid() && this in w.points
      modifies this, w, w.objects
      ensures w.Valid() && ptr == null
      ensures w.objects == old(w.objects) && w.raw == old(w.raw) && w.points == old(w.points)[this := null]
    {
      hide Handles;
      RedirectAll(w.points, this, null, w.objects);
      if ptr != null {
        OneHandle(w.points, this, ptr);
        ptr.Release();
        ptr := null;
      }
      w.Repoint(w.points[this := null]);
    }

    /**
      Move assignment. Moving a handle onto itself gives its reference up and leaves it empty;
      moving between handles on one object drops one of the two references.
     */
    method MoveAssign(other: AutoPtr, ghost w: Owners)
      requires w.Valid() && this in w.points && other in w.points
      modifies this, other, w, w.objects
      ensures w.Valid() && other.ptr == null
      ensures ptr == if other == this then null else old(other.ptr)
      ensures w.objects == old(w.objects) && w.raw == old(w.raw)
      ensures w.points == old(w.points)[this := old(other.ptr)][other := null]
    {
      hide Handles;
      ghost var p := other.ptr;
      ghost var moved := w.points[this := p][other := null];
      MoveAll(w.points, this, other, w.objects);
      OneHandle(w.points, this, ptr);
      ReleaseHeld();
      ptr := other.ptr;
      other.ptr := null;
      w.Repoint(moved);
    }

    method Swap(other: AutoPtr, ghost w: Owners)
      requires w.Valid() && this in w.points && other in w.points
      modifies this, other, w
      ensures w.Valid() && ptr == old(other.ptr) && other.ptr == old(ptr)
      ensures w.objects == old(w.objects) && w.raw == old(w.raw)
      ensures w.points == old(w.points)[this := ptr][other := other.ptr]
    {
      hide Handles;
      var p, q := ptr, other.ptr;
      ghost var half := w.points[this := q];
      RedirectAll(w.points, this, q, w.objects);
      RedirectAll(half, other, p, w.objects);
      ptr, other.ptr := q, p;
      w.Repoint(half[other := p]);
    }
  }

  // ----- raw references -----

  /** `duplicate` through a raw pointer: one more reference owned outside the handles. */
  method DuplicateRaw(o: RefCounted, ghost w: Owners)
    requires w.Valid() && o in w.objects && !o.destroyed
    modifies w, o
    ensures w.Valid() && w.objects == old(w.objects) && w.points == old(w.points)
    ensures w.raw == old(w.raw)[o := old(w.raw)[o] + 1]
  {
    hide Handles;
    assert w.Balanced(o);
    o.Duplicate();
    w.raw := w.raw[o := w.raw[o] + 1];
    w.Repoint(w.points);
  }

  /** `release` through a raw pointer, by whoever owns that reference. */
  method ReleaseRaw(o: RefCounted, ghost w: Owners)
    requires w.Valid() && o in w.objects && w.raw[o] > 0
    modifies w, o
    ensures w.Valid() && w.objects == old(w.objects) && w.points == old(w.points)
    ensures w.raw == old(w.raw)[o := old(w.raw)[o] - 1]
  {
    hide Handles;
    assert w.Balanced(o);
    o.Release();
    w.raw := w.raw[o := w.raw[o] - 1];
    w.Repoint(w.points);
  }

  // ----- programs on handles and raw references -----

  /** Objects go by the number of their creation; None is the null pointer. */
  type Ref = Option<nat>

  datatype Op =
    | NewObject
    | Wrap(p: Ref)
    | WrapShared(p: Ref)
    | CopyConstruct(i: nat)
    | MoveConstruct(i: nat)
    | Drop(i: nat)
    | AssignPointer(i: nat, p: Ref)
    | AssignPointerShared(i: nat, p: Ref)
    | CopyAssign(i: nat, j: nat)
    | ConvertAssign(i: nat, j: nat)
    | Move(i: nat, j: nat)
    | Exchange(i: nat, j: nat)
    | Clear(i: nat)
    | Duplicate(k: nat)
    | Release(k: nat)

  /** Where each live handle points, and how many references to each object the program owns itself. */
  datatype Ledger = Ledger(points: seq<Ref>, raw: seq<nat>)

  const NOTHING := Ledger([], [])

  function PointingAt(points: seq<Ref>, k: nat): nat {
    if points == [] then 0
    else One(points[|points| - 1] == Some(k)) + PointingAt(points[..|points| - 1], k)
  }

  /** The references to an object: handles and raw ones. */
  function References(l: Ledger, k: nat): nat
    requires k < |l.raw|
  {
    PointingAt(l.points, k) + l.raw[k]
  }

  predicate Alive(l: Ledger, p: Ref) {
    p.Some? ==> p.value < |l.raw| && References(l, p.value) > 0
  }

  predicate Owned(l: Ledger, p: Ref) {
    p.Some? ==> p.value < |l.raw| && l.raw[p.value] > 0
  }

  function Spent(raw: seq<nat>, p: Ref): seq<nat>
    requires p.Some? ==> p.value < |raw| && raw[p.value] > 0
  {
    if p.None? then raw else raw[p.value := raw[p.value] - 1]
  }

  /**
    What an operation does to the ledger. None is a program at fault: it names a handle that does
    not exist, gives away or releases a reference it does not own, or shares a dead object.
   */
  function Step(l: Ledger, op: Op): Option<Ledger> {
    var n := |l.points|;
    match op
    case NewObject => Some(l.(raw := l.raw + [1]))
    case Wrap(p) => if Owned(l, p) then Some(Ledger(l.points + [p], Spent(l.raw, p))) else None
    case WrapShared(p) => if Alive(l, p) then Some(l.(points := l.points + [p])) else None
    case CopyConstruct(i) => if i < n then Some(l.(points := l.points + [l.points[i]])) else None
    case MoveConstruct(i) => if i < n then Some(l.(points := l.points[i := None] + [l.points[i]])) else None
    case Drop(i) => if i < n then Some(l.(points := l.points[..i] + l.points[i + 1..])) else None
    case AssignPointer(i, p) =>
      if i >= n then None
      else if p == l.points[i] then Some(l)
      else if Owned(l, p) then Some(Ledger(l.points[i := p], Spent(l.raw, p)))
      else None
    case AssignPointerShared(i, p) =>
      if i < n && (p == l.points[i] || Alive(l, p)) then Some(l.(points := l.points[i := p])) else None
    case CopyAssign(i, j) => if i < n && j < n then Some(l.(points := l.points[i := l.points[j]])) else None
    case ConvertAssign(i, j) => if i < n && j < n then Some(l.(points := l.points[i := l.points[j]])) else None
    case Move(i, j) =>
      if i < n && j < n then Some(l.(points := l.points[i := l.points[j]][j := None])) else None
    case Exchange(i, j) =>
      if i < n && j < n then Some(l.(points := l.points[i := l.points[j]][j := l.points[i]])) else None
    case Clear(i) => if i < n then Some(l.(points := l.points[i := None])) else None
    case Duplicate(k) =>
      if Alive(l, Some(k)) then Some(l.(raw := l.raw[k := l.raw[k] + 1])) else None
    case Release(k) => if Owned(l, Some(k)) then Some(l.(raw := Spent(l.raw, Some(k)))) else None
  }

  function Execute(l: Ledger, ops: seq<Op>): Option<Ledger>
    decreases |ops|
  {
    if ops == [] then Some(l)
    else match Step(l, ops[0])
      case None => None
      case Some(m) => Execute(m, ops[1..])
  }

  // ----- the ledger and the heap agree -----

  predicate Known(p: Ref, n: nat) {
    p.Some? ==> p.value < n
  }

  function At(objs: seq<RefCounted>, p: Ref): RefCounted?
    requires Known(p, |objs|)
  {
    if p.None? then null else objs[p.value]
  }

  /** `hs` lists the live handles, each once. */
  ghost predicate Listed(hs: seq<AutoPtr>, points: map<AutoPtr, RefCounted?>) {
    && (forall i, j | 0 <= i < j < |hs| :: hs[i] != hs[j])
    && (forall h | h in hs :: h in points)
    && (forall h | h in points :: h in hs)
  }

  ghost predicate Created(objs: seq<RefCounted>, objects: set<RefCounted>) {
    && (forall i, j | 0 <= i < j < |objs| :: objs[i] != objs[j])
    && (forall o | o in objs :: o in objects)
    && (forall o | o in objects :: o in objs)
  }

  ghost predicate Agrees(l: Ledger, objs: seq<RefCounted>, hs: seq<AutoPtr>, objects: set<RefCounted>,
                         points: map<AutoPtr, RefCounted?>, raw: map<RefCounted, nat>) {
    && |objs| == |l.raw| && |hs| == |l.points| && Created(objs, objects) && Listed(hs, points)
    && (forall k | 0 <= k < |objs| :: objs[k] in raw && raw[objs[k]] == l.raw[k])
    && (forall i | 0 <= i < |hs| :: Known(l.points[i], |objs|) && points[hs[i]] == At(objs, l.points[i]))
  }

  ghost predicate Agreement(l: Ledger, objs: seq<RefCounted>, hs: seq<AutoPtr>, w: Owners)
    reads w
  {
    Agrees(l, objs, hs, w.objects, w.points, w.raw)
  }

  lemma AgreesRepointed(l: Ledger, objs: seq<RefCounted>, hs: seq<AutoPtr>, objects: set<RefCounted>,
                        points: map<AutoPtr, RefCounted?>, raw: map<RefCounted, nat>, i: nat, p: Ref)
    requires Agrees(l, objs, hs, objects, points, raw) && i < |hs| && Known(p, |objs|)
    ensures Agrees(l.(points := l.points[i := p]), objs, hs, objects, points[hs[i] := At(objs, p)], raw)
  {
  }

  lemma AgreesJoined(l: Ledger, objs: seq<RefCounted>, hs: seq<AutoPtr>, objects: set<RefCounted>,
                     points: map<AutoPtr, RefCounted?>, raw: map<RefCounted, nat>, h: AutoPtr, p: Ref)
    requires Agrees(l, objs, hs, objects, points, raw) && h !in points && Known(p, |objs|)
    ensures Agrees(l.(points := l.points + [p]), objs, hs + [h], objects, points[h := At(objs, p)], raw)
  {
  }

  lemma ListedLeft(hs: seq<AutoPtr>, points: map<AutoPtr, RefCounted?>, i: nat)
    requires Listed(hs, points) && i < |hs|
    ensures Listed(hs[..i] + hs[i + 1..], points - {hs[i]})
  {
    var rest := hs[..i] + hs[i + 1..];
    forall h | h in points - {hs[i]}
      ensures h in rest
    {
      var j :| 0 <= j < |hs| && hs[j] == h;
      assert rest[if j < i then j else j - 1] == h;
    }
  }

  lemma AgreesLeft(l: Ledger, objs: seq<RefCounted>, hs: seq<AutoPtr>, objects: set<RefCounted>,
                   points: map<AutoPtr, RefCounted?>, raw: map<RefCounted, nat>, i: nat)
    requires Agrees(l, objs, hs, objects, points, raw) && i < |hs|
    ensures Agrees(l.(points := l.points[..i] + l.points[i + 1..]), objs, hs[..i] + hs[i + 1..], objects,
                   points - {hs[i]}, raw)
  {
    hide Created;
    ListedLeft(hs, points, i);
    var rest, refs := hs[..i] + hs[i + 1..], l.points[..i] + l.points[i + 1..];
    forall j | 0 <= j < |rest|
      ensures rest[j] != hs[i] && Known(refs[j], |objs|) && points[rest[j]] == At(objs, refs[j])
    {
      var from := if j < i then j else j + 1;
      assert rest[j] == hs[from] && refs[j] == l.points[from];
    }
  }

  lemma AgreesRaw(l: Ledger, objs: seq<RefCounted>, hs: seq<AutoPtr>, objects: set<RefCounted>,
                  points: map<AutoPtr, RefCounted?>, raw: map<RefCounted, nat>, k: nat, n: nat)
    requires Agrees(l, objs, hs, objects, points, raw) && k < |objs|
    ensures Agrees(l.(raw := l.raw[k := n]), objs, hs, objects, points, raw[objs[k] := n])
  {
  }

  lemma AgreesCreated(l: Ledger, objs: seq<RefCounted>, hs: seq<AutoPtr>, objects: set<RefCounted>,
                      points: map<AutoPtr, RefCounted?>, raw: map<RefCounted, nat>, o: RefCounted)
    requires Agrees(l, objs, hs, objects, points, raw) && o !in objects
    ensures Agrees(l.(raw := l.raw + [1]), objs + [o], hs, objects + {o}, points, raw[o := 1])
  {
  }

  /** Counting handles in the heap is counting them in the ledger. */
  lemma {:induction false} HandlesAre(points: map<AutoPtr, RefCounted?>, hs: seq<AutoPtr>, refs: seq<Ref>,
                                      objs: seq<RefCounted>, objects: set<RefCounted>, k: nat)
    requires Listed(hs, points) && |hs| == |refs| && Created(objs, objects) && k < |objs|
    requires forall i | 0 <= i < |hs| :: Known(refs[i], |objs|) && points[hs[i]] == At(objs, refs[i])
    ensures Handles(points, objs[k]) == PointingAt(refs, k)
    decreases |hs|
  {
    if hs == [] {
      NoHandle(points, objs[k]);
    } else {
      var n := |hs| - 1;
      var h := hs[n];
      assert hs[..n] + hs[n + 1..] == hs[..n];
      forall g | g in points - {h}
        ensures g in hs[..n]
      {
        var j :| 0 <= j < |hs| && hs[j] == g;
      }
      HandlesAre(points - {h}, hs[..n], refs[..n], objs, objects, k);
      Leave(points, h, objs[k]);
    }
  }

  lemma CountIs(l: Ledger, objs: seq<RefCounted>, hs: seq<AutoPtr>, w: Owners, k: nat)
    requires w.Valid() && Agreement(l, objs, hs, w) && k < |objs|
    ensures objs[k].count == References(l, k)
    ensures objs[k].destroyed <==> References(l, k) == 0
  {
    hide Handles, PointingAt;
    assert w.Balanced(objs[k]);
    HandlesAre(w.points, hs, l.points, objs, w.objects, k);
  }

  // ----- single operations of a program -----

  method DoNewObject(objs: seq<RefCounted>, hs: seq<AutoPtr>, ghost l: Ledger, ghost w: Owners)
      returns (o: RefCounted)
    requires w.Valid() && Agreement(l, objs, hs, w)
    modifies w
    ensures w.Valid() && fresh(o) && w.objects == old(w.objects) + {o}
    ensures Agreement(Step(l, NewObject).value, objs + [o], hs, w)
  {
    hide Handles, Agrees;
    o := new RefCounted();
    AgreesCreated(l, objs, hs, w.objects, w.points, w.raw, o);
    w.Enter(o);
  }

  method DoWrap(objs: seq<RefCounted>, hs: seq<AutoPtr>, p: Ref, ghost l: Ledger, ghost w: Owners)
      returns (h: AutoPtr)
    requires w.Valid() && Agreement(l, objs, hs, w) && Step(l, Wrap(p)).Some?
    modifies w
    ensures w.Valid() && fresh(h) && w.objects == old(w.objects)
    ensures Agreement(Step(l, Wrap(p)).value, objs, hs + [h], w)
  {
    hide Handles;
    ghost var points, raw := w.points, w.raw;
    h := new AutoPtr(At(objs, p), w);
    AgreesJoined(l, objs, hs, w.objects, points, raw, h, p);
    if p.Some? {
      AgreesRaw(l.(points := l.points + [p]), objs, hs + [h], w.objects, w.points, raw, p.value, l.raw[p.value] - 1);
    }
  }

  method DoWrapShared(objs: seq<RefCounted>, hs: seq<AutoPtr>, p: Ref, ghost l: Ledger, ghost w: Owners)
      returns (h: AutoPtr)
    requires w.Valid() && Agreement(l, objs, hs, w) && Step(l, WrapShared(p)).Some?
    modifies w, w.objects
    ensures w.Valid() && fresh(h) && w.objects == old(w.objects)
    ensures Agreement(Step(l, WrapShared(p)).value, objs, hs + [h], w)
  {
    hide Handles;
    if p.Some? { CountIs(l, objs, hs, w, p.value); }
    ghost var points := w.points;
    h := new AutoPtr.Shared(At(objs, p), w);
    AgreesJoined(l, objs, hs, w.objects, points, w.raw, h, p);
  }

  method DoCopy(objs: seq<RefCounted>, hs: seq<AutoPtr>, i: nat, ghost l: Ledger, ghost w: Owners)
      returns (h: AutoPtr)
    requires w.Valid() && Agreement(l, objs, hs, w) && i < |hs|
    modifies w, w.objects
    ensures w.Valid() && fresh(h) && w.objects == old(w.objects)
    ensures Agreement(Step(l, CopyConstruct(i)).value, objs, hs + [h], w)
  {
    hide Handles;
    ghost var points := w.points;
    h := new AutoPtr.Copy(hs[i], w);
    AgreesJoined(l, objs, hs, w.objects, points, w.raw, h, l.points[i]);
  }

  method DoMoveConstruct(objs: seq<RefCounted>, hs: seq<AutoPtr>, i: nat, ghost l: Ledger, ghost w: Owners)
      returns (h: AutoPtr)
    requires w.Valid() && Agreement(l, objs, hs, w) && i < |hs|
    modifies w, hs[i]
    ensures w.Valid() && fresh(h) && w.objects == old(w.objects)
    ensures Agreement(Step(l, MoveConstruct(i)).value, objs, hs + [h], w)
  {
    hide Handles;
    ghost var points := w.points;
    h := new AutoPtr.Move(hs[i], w);
    AgreesJoined(l, objs, hs, w.objects, points, w.raw, h, l.points[i]);
    ghost var m := l.(points := l.points + [l.points[i]]);
    AgreesRepointed(m, objs, hs + [h], w.objects, points[h := At(objs, l.points[i])], w.raw, i, None);
    assert (l.points + [l.points[i]])[i := None] == l.points[i := None] + [l.points[i]];
    assert (hs + [h])[i] == hs[i];
  }

  method DoDrop(objs: seq<RefCounted>, hs: seq<AutoPtr>, i: nat, ghost l: Ledger, ghost w: Owners)
    requires w.Valid() && Agreement(l, objs, hs, w) && i < |hs|
    modifies w, w.objects
    ensures w.Valid() && w.objects == old(w.objects)
    ensures Agreement(Step(l, Drop(i)).value, objs, hs[..i] + hs[i + 1..], w)
  {
    hide Handles;
    AgreesLeft(l, objs, hs, w.objects, w.points, w.raw, i);
    hs[i].Destroy(w);
  }

  method DoAssignPointer(objs: seq<RefCounted>, hs: seq<AutoPtr>, i: nat, p: Ref, ghost l: Ledger, ghost w: Owners)
    requires w.Valid() && Agreement(l, objs, hs, w) && Step(l, AssignPointer(i, p)).Some?
    modifies w, w.objects, hs
    ensures w.Valid() && w.objects == old(w.objects)
    ensures Agreement(Step(l, AssignPointer(i, p)).value, objs, hs, w)
  {
    hide Handles;
    ghost var points, raw, held := w.points, w.raw, l.points[i];
    assert hs[i].ptr == At(objs, held);
    assert p == held <==> At(objs, p) == At(objs, held);
    hs[i].AssignRaw(At(objs, p), w);
    AgreesRepointed(l, objs, hs, w.objects, points, raw, i, p);
    assert l.points[i := held] == l.points;
    if p.Some? && p != held {
      AgreesRaw(l.(points := l.points[i := p]), objs, hs, w.objects, w.points, raw, p.value, l.raw[p.value] - 1);
    }
  }

  method DoAssignPointerShared(objs: seq<RefCounted>, hs: seq<AutoPtr>, i: nat, p: Ref,
                               ghost l: Ledger, ghost w: Owners)
    requires w.Valid() && Agreement(l, objs, hs, w) && Step(l, AssignPointerShared(i, p)).Some?
    modifies w, w.objects, hs
    ensures w.Valid() && w.objects == old(w.objects)
    ensures Agreement(Step(l, AssignPointerShared(i, p)).value, objs, hs, w)
  {
    hide Handles;
    if p.Some? && p != l.points[i] { CountIs(l, objs, hs, w, p.value); }
    AgreesRepointed(l, objs, hs, w.objects, w.points, w.raw, i, p);
    hs[i].AssignShared(At(objs, p), w);
  }

  /** Copy assignment, by handle or by object. */
  method DoCopyAssign(objs: seq<RefCounted>, hs: seq<AutoPtr>, i: nat, j: nat, converting: bool,
                      ghost l: Ledger, ghost w: Owners)
    requires w.Valid() && Agreement(l, objs, hs, w) && i < |hs| && j < |hs|
    modifies w, w.objects, hs
    ensures w.Valid() && w.objects == old(w.objects)
    ensures Agreement(l.(points := l.points[i := l.points[j]]), objs, hs, w)
  {
    hide Handles;
    AgreesRepointed(l, objs, hs, w.objects, w.points, w.raw, i, l.points[j]);
    assert hs[j].ptr == At(objs, l.points[j]);
    if converting { hs[i].AssignOther(hs[j], w); } else { hs[i].Assign(hs[j], w); }
  }

  method DoMove(objs: seq<RefCounted>, hs: seq<AutoPtr>, i: nat, j: nat, ghost l: Ledger, ghost w: Owners)
    requires w.Valid() && Agreement(l, objs, hs, w) && i < |hs| && j < |hs|
    modifies w, w.objects, hs
    ensures w.Valid() && w.objects == old(w.objects)
    ensures Agreement(Step(l, Move(i, j)).value, objs, hs, w)
  {
    hide Handles;
    var m := l.(points := l.points[i := l.points[j]]);
    assert hs[j].ptr == At(objs, l.points[j]);
    AgreesRepointed(l, objs, hs, w.objects, w.points, w.raw, i, l.points[j]);
    AgreesRepointed(m, objs, hs, w.objects, w.points[hs[i] := hs[j].ptr], w.raw, j, None);
    hs[i].MoveAssign(hs[j], w);
  }

  method DoExchange(objs: seq<RefCounted>, hs: seq<AutoPtr>, i: nat, j: nat, ghost l: Ledger, ghost w: Owners)
    requires w.Valid() && Agreement(l, objs, hs, w) && i < |hs| && j < |hs|
    modifies w, hs
    ensures w.Valid() && w.objects == old(w.objects)
    ensures Agreement(Step(l, Exchange(i, j)).value, objs, hs, w)
  {
    hide Handles;
    var m := l.(points := l.points[i := l.points[j]]);
    assert hs[j].ptr == At(objs, l.points[j]) && hs[i].ptr == At(objs, l.points[i]);
    AgreesRepointed(l, objs, hs, w.objects, w.points, w.raw, i, l.points[j]);
    AgreesRepointed(m, objs, hs, w.objects, w.points[hs[i] := hs[j].ptr], w.raw, j, l.points[i]);
    hs[i].Swap(hs[j], w);
  }

  method DoClear(objs: seq<RefCounted>, hs: seq<AutoPtr>, i: nat, ghost l: Ledger, ghost w: Owners)
    requires w.Valid() && Agreement(l, objs, hs, w) && i < |hs|
    modifies w, w.objects, hs
    ensures w.Valid() && w.objects == old(w.objects)
    ensures Agreement(Step(l, Clear(i)).value, objs, hs, w)
  {
    hide Handles;
    AgreesRepointed(l, objs, hs, w.objects, w.points, w.raw, i, None);
    hs[i].Reset(w);
  }

  method DoDuplicate(objs: seq<RefCounted>, hs: seq<AutoPtr>, k: nat, ghost l: Ledger, ghost w: Owners)
    requires w.Valid() && Agreement(l, objs, hs, w) && Step(l, Duplicate(k)).Some?
    modifies w, w.objects
    ensures w.Valid() && w.objects == old(w.objects)
    ensures Agreement(Step(l, Duplicate(k)).value, objs, hs, w)
  {
    hide Handles;
    CountIs(l, objs, hs, w, k);
    AgreesRaw(l, objs, hs, w.objects, w.points, w.raw, k, l.raw[k] + 1);
    DuplicateRaw(objs[k], w);
  }

  method DoRelease(objs: seq<RefCounted>, hs: seq<AutoPtr>, k: nat, ghost l: Ledger, ghost w: Owners)
    requires w.Valid() && Agreement(l, objs, hs, w) && Step(l, Release(k)).Some?
    modifies w, w.objects
    ensures w.Valid() && w.objects == old(w.objects)
    ensures Agreement(Step(l, Release(k)).value, objs, hs, w)
  {
    hide Handles;
    AgreesRaw(l, objs, hs, w.objects, w.points, w.raw, k, l.raw[k] - 1);
    ReleaseRaw(objs[k], w);
  }

  /** An operation on existing handles, its two operands possibly being the same handle. */
  method DoOnHandles(objs: seq<RefCounted>, hs: seq<AutoPtr>, op: Op, ghost l: Ledger, ghost w: Owners)
    requires w.Valid() && Agreement(l, objs, hs, w) && Step(l, op).Some?
    requires op.AssignPointer? || op.AssignPointerShared? || op.CopyAssign? || op.ConvertAssign? || op.Move? ||
             op.Exchange? || op.Clear?
    modifies w, w.objects, hs
    ensures w.Valid() && w.objects == old(w.objects)
    ensures Agreement(Step(l, op).value, objs, hs, w)
  {
    hide Handles, Agrees, Owners.Valid;
    SameLengths(l, objs, hs, w);
    match op {
      case AssignPointer(i, p) => DoAssignPointer(objs, hs, i, p, l, w);
      case AssignPointerShared(i, p) => DoAssignPointerShared(objs, hs, i, p, l, w);
      case CopyAssign(i, j) => DoCopyAssign(objs, hs, i, j, false, l, w);
      case ConvertAssign(i, j) => DoCopyAssign(objs, hs, i, j, true, l, w);
      case Move(i, j) => DoMove(objs, hs, i, j, l, w);
      case Exchange(i, j) => DoExchange(objs, hs, i, j, l, w);
      case Clear(i) => DoClear(objs, hs, i, l, w);
    }
  }

  lemma SameLengths(l: Ledger, objs: seq<RefCounted>, hs: seq<AutoPtr>, w: Owners)
    requires Agreement(l, objs, hs, w)
    ensures |objs| == |l.raw| && |hs| == |l.points|
  {
  }

  method Do(objs: seq<RefCounted>, hs: seq<AutoPtr>, op: Op, ghost l: Ledger, ghost w: Owners)
      returns (created: seq<RefCounted>, live: seq<AutoPtr>)
    requires w.Valid() && Agreement(l, objs, hs, w) && Step(l, op).Some?
    modifies w, w.objects, hs
    ensures w.Valid() && Agreement(Step(l, op).value, created, live, w)
    ensures forall h | h in live :: h in hs || fresh(h)
    ensures forall o | o in w.objects :: o in old(w.objects) || fresh(o)
  {
    hide Handles, Agrees, Owners.Valid, Step;
    SameLengths(l, objs, hs, w);
    StepInRange(l, op);
    created, live := objs, hs;
    if op.NewObject? {
      var o := DoNewObject(objs, hs, l, w);
      created := objs + [o];
    } else if op.Wrap? {
      var h := DoWrap(objs, hs, op.p, l, w);
      live := hs + [h];
    } else if op.WrapShared? {
      var h := DoWrapShared(objs, hs, op.p, l, w);
      live := hs + [h];
    } else if op.CopyConstruct? {
      var h := DoCopy(objs, hs, op.i, l, w);
      live := hs + [h];
    } else if op.MoveConstruct? {
      var h := DoMoveConstruct(objs, hs, op.i, l, w);
      live := hs + [h];
    } else if op.Drop? {
      DoDrop(objs, hs, op.i, l, w);
      live := hs[..op.i] + hs[op.i + 1..];
    } else if op.Duplicate? {
      DoDuplicate(objs, hs, op.k, l, w);
    } else if op.Release? {
      DoRelease(objs, hs, op.k, l, w);
    } else {
      DoOnHandles(objs, hs, op, l, w);
    }
  }

  lemma StepInRange(l: Ledger, op: Op)
    requires Step(l, op).Some?
    ensures op.CopyConstruct? || op.MoveConstruct? || op.Drop? ==> op.i < |l.points|
  {
  }

  /**
    Over any program on handles and raw references that gives away and releases only references
    it owns: no destroyed object is touched, every count is the number of handles plus the raw
    references, and an object is destroyed exactly when that is zero.
   */
  method Run(ops: seq<Op>) returns (objs: seq<RefCounted>, hs: seq<AutoPtr>)
    requires Execute(NOTHING, ops).Some?
    ensures
      var l := Execute(NOTHING, ops).value;
      && |objs| == |l.raw| && |hs| == |l.points|
      && (forall i | 0 <= i < |hs| :: Known(l.points[i], |objs|) && hs[i].ptr == At(objs, l.points[i]))
      && (forall k | 0 <= k < |objs| ::
            objs[k].count == References(l, k) && (objs[k].destroyed <==> References(l, k) == 0))
  {
    hide Handles, Agrees, Owners.Valid, Step, References;
    ghost var w := new Owners();
    ghost var l := NOTHING;
    objs, hs := [], [];
    NothingAgrees(w);
    for n := 0 to |ops|
      invariant w.Valid() && Agreement(l, objs, hs, w)
      invariant fresh(w) && (forall h | h in hs :: fresh(h)) && (forall o | o in w.objects :: fresh(o))
      invariant Execute(NOTHING, ops) == Execute(l, ops[n..])
    {
      assert ops[n..][0] == ops[n] && ops[n..][1..] == ops[n + 1..];
      assert forall h | h in hs :: fresh(h);
      assert forall i | 0 <= i < |hs| :: hs[i] in hs;
      objs, hs := Do(objs, hs, ops[n], l, w);
      l := Step(l, ops[n]).value;
    }
    Settled(l, objs, hs, w);
  }

  lemma NothingAgrees(w: Owners)
    requires w.objects == {} && w.points == map[] && w.raw == map[]
    ensures Agreement(NOTHING, [], [], w)
  {
  }

  lemma Settled(l: Ledger, objs: seq<RefCounted>, hs: seq<AutoPtr>, w: Owners)
    requires w.Valid() && Agreement(l, objs, hs, w)
    ensures |objs| == |l.raw| && |hs| == |l.points|
    ensures forall i | 0 <= i < |hs| :: Known(l.points[i], |objs|) && hs[i].ptr == At(objs, l.points[i])
    ensures forall k | 0 <= k < |objs| ::
              objs[k].count == References(l, k) && (objs[k].destroyed <==> References(l, k) == 0)
  {
    hide Handles;
    forall k | 0 <= k < |objs|
      ensures objs[k].count == References(l, k) && (objs[k].destroyed <==> References(l, k) == 0)
    {
      CountIs(l, objs, hs, w, k);
    }
  }

  lemma {:induction false} PointingAtNone(points: seq<Ref>, k: nat)
    ensures PointingAt(points, k) == 0 <==> Some(k) !in points
  {
    if points != [] {
      var n := |points| - 1;
      assert points == points[..n] + [points[n]];
      PointingAtNone(points[..n], k);
    }
  }

  // ----- what each operation does to the references -----

  lemma PointingAtOneMore(points: seq<Ref>, p: Ref, k: nat)
    ensures PointingAt(points + [p], k) == PointingAt(points, k) + One(p == Some(k))
  {
    assert (points + [p])[..|points|] == points;
  }

  lemma {:induction false} PointingAtUpdated(points: seq<Ref>, i: nat, p: Ref, k: nat)
    requires i < |points|
    ensures PointingAt(points[i := p], k) == PointingAt(points, k) - One(points[i] == Some(k)) + One(p == Some(k))
    decreases |points|
  {
    var n := |points| - 1;
    if i < n {
      PointingAtUpdated(points[..n], i, p, k);
      assert points[i := p][..n] == points[..n][i := p];
    } else {
      assert points[i := p][..n] == points[..n];
    }
  }

  lemma {:induction false} PointingAtDropped(points: seq<Ref>, i: nat, k: nat)
    requires i < |points|
    ensures PointingAt(points[..i] + points[i + 1..], k) == PointingAt(points, k) - One(points[i] == Some(k))
    decreases |points|
  {
    var n := |points| - 1;
    var rest := points[..i] + points[i + 1..];
    if i < n {
      PointingAtDropped(points[..n], i, k);
      assert rest[..n - 1] == points[..n][..i] + points[..n][i + 1..];
    } else {
      assert rest == points[..n];
    }
  }

  /** How many references object k gains or loses by an operation. */
  function Gain(l: Ledger, op: Op, k: nat): int
    requires Step(l, op).Some?
  {
    match op
    case NewObject => One(k == |l.raw|)
    case Wrap(_) => 0
    case WrapShared(p) => One(p == Some(k))
    case CopyConstruct(i) => One(l.points[i] == Some(k))
    case MoveConstruct(_) => 0
    case Drop(i) => 0 - One(l.points[i] == Some(k))
    case AssignPointer(i, p) => if p == l.points[i] then 0 else 0 - One(l.points[i] == Some(k))
    case AssignPointerShared(i, p) => One(p == Some(k)) - One(l.points[i] == Some(k))
    case CopyAssign(i, j) => One(l.points[j] == Some(k)) - One(l.points[i] == Some(k))
    case ConvertAssign(i, j) => One(l.points[j] == Some(k)) - One(l.points[i] == Some(k))
    case Move(i, _) => 0 - One(l.points[i] == Some(k))
    case Exchange(_, _) => 0
    case Clear(i) => 0 - One(l.points[i] == Some(k))
    case Duplicate(n) => One(n == k)
    case Release(n) => 0 - One(n == k)
  }

  /**
    Conservation: copies and shared constructions add a reference to what they point to, handles
    that go or are redirected take one from what they pointed to, and moves, exchanges and raw
    references handed to a handle neither create nor lose one.
   */
  lemma ReferencesConserved(l: Ledger, op: Op, k: nat)
    requires Step(l, op).Some? && k < |Step(l, op).value.raw|
    ensures References(Step(l, op).value, k) == (if k < |l.raw| then References(l, k) else PointingAt(l.points, k))
                                                + Gain(l, op, k)
  {
    hide PointingAt, Alive, Owned;
    if op.NewObject? || op.Duplicate? || op.Release? {
      hide *;
      RawConserved(l, op, k);
    } else if op.Wrap? || op.WrapShared? || op.CopyConstruct? || op.MoveConstruct? {
      hide *;
      ConstructionConserved(l, op, k);
    } else {
      hide *;
      AssignmentConserved(l, op, k);
    }
  }

  lemma RawConserved(l: Ledger, op: Op, k: nat)
    requires Step(l, op).Some? && k < |Step(l, op).value.raw|
    requires op.NewObject? || op.Duplicate? || op.Release?
    ensures References(Step(l, op).value, k) == (if k < |l.raw| then References(l, k) else PointingAt(l.points, k))
                                                + Gain(l, op, k)
  {
    hide PointingAt;
  }

  lemma ConstructionConserved(l: Ledger, op: Op, k: nat)
    requires Step(l, op).Some? && k < |Step(l, op).value.raw|
    requires op.Wrap? || op.WrapShared? || op.CopyConstruct? || op.MoveConstruct?
    ensures k < |l.raw| && References(Step(l, op).value, k) == References(l, k) + Gain(l, op, k)
  {
    hide PointingAt, Alive;
    if op.Wrap? || op.WrapShared? {
      PointingAtOneMore(l.points, op.p, k);
    } else if op.CopyConstruct? {
      PointingAtOneMore(l.points, l.points[op.i], k);
    } else {
      PointingAtUpdated(l.points, op.i, None, k);
      PointingAtOneMore(l.points[op.i := None], l.points[op.i], k);
    }
  }

  lemma AssignmentConserved(l: Ledger, op: Op, k: nat)
    requires Step(l, op).Some? && k < |Step(l, op).value.raw|
    requires op.Drop? || op.AssignPointer? || op.AssignPointerShared? || op.CopyAssign? || op.ConvertAssign? ||
             op.Move? || op.Exchange? || op.Clear?
    ensures k < |l.raw| && References(Step(l, op).value, k) == References(l, k) + Gain(l, op, k)
  {
    hide PointingAt, Alive;
    if op.Drop? {
      PointingAtDropped(l.points, op.i, k);
    } else if op.AssignPointer? || op.AssignPointerShared? {
      PointingAtUpdated(l.points, op.i, op.p, k);
    } else if op.Clear? {
      PointingAtUpdated(l.points, op.i, None, k);
    } else if op.Move? {
      PointingAtUpdated(l.points, op.i, l.points[op.j], k);
      PointingAtUpdated(l.points[op.i := l.points[op.j]], op.j, None, k);
    } else if op.Exchange? {
      PointingAtUpdated(l.points, op.i, l.points[op.j], k);
      PointingAtUpdated(l.points[op.i := l.points[op.j]], op.j, l.points[op.i], k);
    } else {
      PointingAtUpdated(l.points, op.i, l.points[op.j], k);
    }
  }

  /** Where handle h points after an operation between two handles; every other handle stays. */
  lemma HandlesAfter(l: Ledger, i: nat, j: nat, h: nat)
    requires i < |l.points| && j < |l.points| && h < |l.points|
    ensures Step(l, CopyAssign(i, j)).Some? && Step(l, ConvertAssign(i, j)).Some?
    ensures Step(l, Move(i, j)).Some? && Step(l, Exchange(i, j)).Some? && Step(l, Clear(i)).Some?
    ensures Step(l, CopyAssign(i, j)).value.points[h] == l.points[if h == i then j else h]
    ensures Step(l, ConvertAssign(i, j)).value.points[h] == l.points[if h == i then j else h]
    ensures Step(l, Exchange(i, j)).value.points[h] == l.points[if h == i then j else if h == j then i else h]
    ensures Step(l, Move(i, j)).value.points[h] ==
              if h == j then None else if h == i then l.points[j] else l.points[h]
    ensures Step(l, Clear(i)).value.points[h] == if h == i then None else l.points[h]
  {
  }

  /**
    Which operations a program may not do: those on a handle that is not there, those that take over
    or release a reference it does not own, and those that share an object with no reference left.
   */
  lemma FaultsExactly(l: Ledger, op: Op)
    ensures Step(l, op).None? <==>
      match op {
        case NewObject => false
        case Wrap(p) => p.Some? && (p.value >= |l.raw| || l.raw[p.value] == 0)
        case WrapShared(p) => p.Some? && (p.value >= |l.raw| || (p !in l.points && l.raw[p.value] == 0))
        case CopyConstruct(i) => i >= |l.points|
        case MoveConstruct(i) => i >= |l.points|
        case Drop(i) => i >= |l.points|
        case AssignPointer(i, p) =>
          i >= |l.points| || (p != l.points[i] && p.Some? && (p.value >= |l.raw| || l.raw[p.value] == 0))
        case AssignPointerShared(i, p) =>
          || i >= |l.points|
          || (p != l.points[i] && p.Some? && (p.value >= |l.raw| || (p !in l.points && l.raw[p.value] == 0)))
        case CopyAssign(i, j) => i >= |l.points| || j >= |l.points|
        case ConvertAssign(i, j) => i >= |l.points| || j >= |l.points|
        case Move(i, j) => i >= |l.points| || j >= |l.points|
        case Exchange(i, j) => i >= |l.points| || j >= |l.points|
        case Clear(i) => i >= |l.points|
        case Duplicate(k) => k >= |l.raw| || (Some(k) !in l.points && l.raw[k] == 0)
        case Release(k) => k >= |l.raw| || l.raw[k] == 0
      }
  {
    hide PointingAt;
    if (op.WrapShared? || op.AssignPointerShared?) && op.p.Some? {
      PointingAtNone(l.points, op.p.value);
    } else if op.Duplicate? {
      PointingAtNone(l.points, op.k);
    }
  }

  // ----- the dead stay dead -----

  /** An operation points handles only where handles point or where its operand does. */
  lemma StepPoints(l: Ledger, op: Op, x: Ref)
    requires x !in l.points && x.Some? && Step(l, op).Some?
    requires !((op.Wrap? || op.WrapShared? || op.AssignPointer? || op.AssignPointerShared?) && op.p == x)
    ensures x !in Step(l, op).value.points
  {
    hide Owned, Alive, Spent;
  }

  lemma StepRaw(l: Ledger, op: Op, k: nat)
    requires k < |l.raw| && l.raw[k] == 0 && Step(l, op).Some? && op != Duplicate(k)
    ensures k < |Step(l, op).value.raw| && Step(l, op).value.raw[k] == 0
  {
    hide References;
  }

  /** No operation of a program that keeps the rules brings a destroyed object back. */
  lemma DeadStaysDead(l: Ledger, op: Op, k: nat)
    requires k < |l.raw| && References(l, k) == 0 && Step(l, op).Some?
    ensures k < |Step(l, op).value.raw| && References(Step(l, op).value, k) == 0
  {
    hide PointingAt;
    var m := Step(l, op).value;
    PointingAtNone(l.points, k);
    StepRaw(l, op, k);
    StepPoints(l, op, Some(k));
    PointingAtNone(m.points, k);
  }

  /** When no handle and no raw reference is left every object has been destroyed. */
  lemma NothingLeaks(l: Ledger, objs: seq<RefCounted>, hs: seq<AutoPtr>, w: Owners)
    requires w.Valid() && Agreement(l, objs, hs, w) && hs == []
    requires forall k | 0 <= k < |l.raw| :: l.raw[k] == 0
    ensures forall o | o in w.objects :: o.destroyed
  {
    Settled(l, objs, hs, w);
  }
}
