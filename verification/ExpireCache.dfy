/**
  A cache whose entries expire some time after their last access: the data map and the strategy's
  two indexes are separate structures kept in step by events. Specified by a timed table from keys
  to the last value and the time of the last access.
 */
module ExpireCache {
  import opened Sets
  import opened Wrappers

  // ----- the timed table -----

  type Key = string

  datatype Entry<V> = Entry(value: V, last: int)

  /** `isElapsed` at time t. */
  predicate Expired(last: int, expire: int, t: int) {
    t - last >= expire
  }

  /** Nothing is added or changed; what was expired at the beginning is gone, and only what is expired at the end. */
  ghost predicate Purged<V>(before: map<Key, Entry<V>>, after: map<Key, Entry<V>>, expire: int, t0: int, t1: int) {
    && (forall k | k in after :: k in before && after[k] == before[k] && !Expired(before[k].last, expire, t0))
    && (forall k | k in before && k !in after :: Expired(before[k].last, expire, t1))
  }

  datatype Op<V> =
    | Put(key: Key, value: V, at: int)
    | Remove(key: Key)
    | Get(key: Key, result: Option<V>)
    | Has(key: Key, found: bool)
    | Clear
    | Measure(n: nat)
    | List(keys: set<Key>)
    | Purge

  /** What an operation that began at t0 and ended at t1 may do to the table and may answer. */
  ghost predicate OpStep<V>(
      op: Op<V>, before: map<Key, Entry<V>>, after: map<Key, Entry<V>>, expire: int, t0: int, t1: int) {
    match op
    case Put(k, v, at) => t0 <= at <= t1 && Purged(before[k := Entry(v, at)], after, expire, t0, t1)
    case Remove(k) => after == before - {k}
    case Get(k, Some(v)) =>
      && k in before && before[k].value == v && !Expired(before[k].last, expire, t0)
      && k in after && t0 <= after[k].last <= t1 && after == before[k := Entry(v, after[k].last)]
      && !Expired(after[k].last, expire, t1)
    case Get(k, None) => after == before - {k} && (k in before ==> Expired(before[k].last, expire, t1))
    case Has(k, found) =>
      && after == before
      && (found ==> k in before && !Expired(before[k].last, expire, t0))
      && (!found ==> k !in before || Expired(before[k].last, expire, t1))
    case Clear => after == map[]
    case Measure(n) => Purged(before, after, expire, t0, t1) && n == |after|
    case List(keys) => Purged(before, after, expire, t0, t1) && keys == after.Keys
    case Purge => Purged(before, after, expire, t0, t1)
  }

  // ----- the strategy's indexes -----

  /** An element of the time index; an iterator to it is modelled by the element itself. */
  datatype Node = Node(id: nat, time: int, key: Key)

  predicate SortedByTime(index: seq<Node>) {
    forall i, j | 0 <= i < j < |index| :: index[i].time <= index[j].time
  }

  /** Iterators are live as long as their element is in the index: no element occurs twice. */
  predicate Distinct(index: seq<Node>) {
    forall i, j | 0 <= i < j < |index| :: index[i].id != index[j].id
  }

  /** `multimap::insert`: behind every element that is not later. */
  function Inserted(index: seq<Node>, n: Node): seq<Node> {
    if index == [] || n.time < index[0].time then [n] + index
    else [index[0]] + Inserted(index[1..], n)
  }

  /** `multimap::erase`. */
  function Erased(index: seq<Node>, n: Node): seq<Node> {
    if index == [] then []
    else if index[0] == n then index[1..]
    else [index[0]] + Erased(index[1..], n)
  }

  lemma {:induction false} InsertedMembers(index: seq<Node>, n: Node)
    ensures forall x :: x in Inserted(index, n) <==> x == n || x in index
  {
    if index != [] && !(n.time < index[0].time) { InsertedMembers(index[1..], n); }
  }

  lemma InTail(index: seq<Node>, x: Node)
    requires index != [] && x in index[1..]
    ensures SortedByTime(index) ==> index[0].time <= x.time
    ensures Distinct(index) ==> index[0].id != x.id
  {
    var j :| 0 <= j < |index[1..]| && index[1..][j] == x;
    assert index[j + 1] == x;
  }

  lemma {:induction false} InsertedSorted(index: seq<Node>, n: Node)
    requires SortedByTime(index)
    ensures SortedByTime(Inserted(index, n))
  {
    if index != [] && !(n.time < index[0].time) {
      InsertedSorted(index[1..], n);
      InsertedMembers(index[1..], n);
      var r := Inserted(index[1..], n);
      forall i | 0 <= i < |r|
        ensures index[0].time <= r[i].time
      {
        assert r[i] in r;
        if r[i] != n { InTail(index, r[i]); }
      }
    }
  }

  lemma {:induction false} InsertedDistinct(index: seq<Node>, n: Node)
    requires Distinct(index) && forall i | 0 <= i < |index| :: index[i].id != n.id
    ensures Distinct(Inserted(index, n))
  {
    if index != [] && !(n.time < index[0].time) {
      InsertedDistinct(index[1..], n);
      InsertedMembers(index[1..], n);
      var r := Inserted(index[1..], n);
      forall i | 0 <= i < |r|
        ensures index[0].id != r[i].id
      {
        assert r[i] in r;
        if r[i] != n { InTail(index, r[i]); }
      }
    }
  }

  lemma {:induction false} ErasedMembers(index: seq<Node>, n: Node)
    requires Distinct(index)
    ensures forall x :: x in Erased(index, n) <==> x in index && x != n
  {
    if index != [] && index[0] != n {
      ErasedMembers(index[1..], n);
    } else if index != [] {
      forall x | x in index[1..]
        ensures x != n
      {
        var j :| 0 <= j < |index[1..]| && index[1..][j] == x;
        assert index[0].id != index[j + 1].id;
      }
    }
  }

  lemma {:induction false} ErasedOrder(index: seq<Node>, n: Node)
    requires SortedByTime(index) && Distinct(index)
    ensures SortedByTime(Erased(index, n)) && Distinct(Erased(index, n))
  {
    if index != [] && index[0] != n {
      ErasedOrder(index[1..], n);
      ErasedMembers(index[1..], n);
      var r := Erased(index[1..], n);
      forall i | 0 <= i < |r|
        ensures index[0].time <= r[i].time && index[0].id != r[i].id
      {
        assert r[i] in r;
        InTail(index, r[i]);
      }
    }
  }

  /** The key map and the time index are inverse to each other. */
  ghost predicate Inverse(keys: map<Key, Node>, index: seq<Node>) {
    && (forall k | k in keys :: keys[k].key == k && keys[k] in index)
    && (forall x | x in index :: x.key in keys && keys[x.key] == x)
  }

  ghost predicate IndexesOk(keys: map<Key, Node>, index: seq<Node>, nextId: nat) {
    && Inverse(keys, index) && SortedByTime(index) && Distinct(index)
    && forall x | x in index :: x.id < nextId
  }

  /** Inserting an element with a new identity. */
  lemma InsertedOrder(index: seq<Node>, n: Node)
    requires SortedByTime(index) && Distinct(index) && forall x | x in index :: x.id < n.id
    ensures SortedByTime(Inserted(index, n)) && Distinct(Inserted(index, n))
    ensures forall x :: x in Inserted(index, n) <==> x == n || x in index
  {
    forall i | 0 <= i < |index|
      ensures index[i].id != n.id
    {
      assert index[i] in index;
    }
    InsertedMembers(index, n);
    InsertedSorted(index, n);
    InsertedDistinct(index, n);
  }

  lemma InsertKeepsOk(keys: map<Key, Node>, index: seq<Node>, nextId: nat, time: int, key: Key)
    requires IndexesOk(keys, index, nextId) && key !in keys
    ensures var n := Node(nextId, time, key); IndexesOk(keys[key := n], Inserted(index, n), nextId + 1)
  {
    hide Inserted, SortedByTime, Distinct;
    InsertedOrder(index, Node(nextId, time, key));
  }

  lemma EraseKeepsOk(keys: map<Key, Node>, index: seq<Node>, nextId: nat, key: Key)
    requires IndexesOk(keys, index, nextId) && key in keys
    ensures IndexesOk(keys - {key}, Erased(index, keys[key]), nextId)
  {
    hide Erased, SortedByTime, Distinct;
    ErasedMembers(index, keys[key]);
    ErasedOrder(index, keys[key]);
  }

  /** Whether the old element goes before or after the new one comes. */
  lemma ReplaceKeepsOk(keys: map<Key, Node>, index: seq<Node>, nextId: nat, time: int, key: Key)
    requires IndexesOk(keys, index, nextId) && key in keys
    ensures var n := Node(nextId, time, key);
            IndexesOk(keys[key := n], Erased(Inserted(index, n), keys[key]), nextId + 1) &&
            IndexesOk(keys[key := n], Inserted(Erased(index, keys[key]), n), nextId + 1)
  {
    hide Inserted, Erased, SortedByTime, Distinct;
    var n := Node(nextId, time, key);
    InsertedOrder(index, n);
    ErasedMembers(Inserted(index, n), keys[key]);
    ErasedOrder(Inserted(index, n), keys[key]);
    ErasedMembers(index, keys[key]);
    ErasedOrder(index, keys[key]);
    InsertedOrder(Erased(index, keys[key]), n);
  }

  lemma LiveIterator(keys: map<Key, Node>, index: seq<Node>, nextId: nat, key: Key)
    requires IndexesOk(keys, index, nextId) && key in keys
    ensures keys[key] in index
  {
  }

  /** The system clock never goes back. */
  class Clock {
    var now: int

    method Read() returns (t: int)
      modifies this
      ensures old(now) <= t == now
    {
      var d := *;
      if d > 0 { now := now + d; }
      t := now;
    }
  }

  class AccessExpireStrategy {
    const expireTime: int
    const clock: Clock
    var keys: map<Key, Node>
    var keyIndex: seq<Node>
    // identity of the next element inserted in the index
    var nextId: nat

    constructor (expireTime: int, clock: Clock)
      requires expireTime >= 25000
      ensures Valid() && keys == map[] && this.expireTime == expireTime && this.clock == clock
    {
      this.expireTime, this.clock := expireTime, clock;
      keys, keyIndex, nextId := map[], [], 0;
    }

    ghost predicate Valid()
      reads this, clock
    {
      && expireTime >= 25000
      && IndexesOk(keys, keyIndex, nextId)
      && forall k | k in keys :: keys[k].time <= clock.now
    }

    /** An iterator may only be used while its element is in the index. */
    method IsElapsed(n: Node) returns (elapsed: bool)
      requires n in keyIndex
      modifies clock
      ensures old(clock.now) <= clock.now && elapsed == Expired(n.time, expireTime, clock.now)
    {
      var now := clock.Read();
      elapsed := now - n.time >= expireTime;
    }

    /** An element that was there before for the key leaves the index. */
    method OnAdd(key: Key)
      requires Valid()
      modifies this, clock
      ensures Valid() && old(clock.now) <= clock.now
      ensures key in keys && keys == old(keys)[key := keys[key]] && keys[key].time == clock.now
    {
      var now := clock.Read();
      var n := Node(nextId, now, key);
      if key in keys { ReplaceKeepsOk(keys, keyIndex, nextId, now, key); }
      else { InsertKeepsOk(keys, keyIndex, nextId, now, key); }
      hide IndexesOk, Inserted, Erased;
      keyIndex := Inserted(keyIndex, n);
      if key in keys { keyIndex := Erased(keyIndex, keys[key]); }
      keys := keys[key := n];
      nextId := nextId + 1;
    }

    method OnRemove(key: Key)
      requires Valid()
      modifies this`keys, this`keyIndex
      ensures Valid() && keys == old(keys) - {key}
    {
      if key in keys {
        EraseKeepsOk(keys, keyIndex, nextId, key);
        hide IndexesOk;
        hide Erased;
        keyIndex := Erased(keyIndex, keys[key]);
        keys := keys - {key};
      }
    }

    /** The default `onUpdate`. */
    method OnUpdate(key: Key)
      requires Valid()
      modifies this, clock
      ensures Valid() && old(clock.now) <= clock.now
      ensures key in keys && keys == old(keys)[key := keys[key]] && keys[key].time == clock.now
    {
      OnRemove(key);
      OnAdd(key);
    }

    /** An entry's element leaves the index and a new one, for now, takes its place. */
    method Renew(key: Key)
      requires Valid() && key in keys
      modifies this, clock
      ensures Valid() && old(clock.now) <= clock.now
      ensures key in keys && keys == old(keys)[key := keys[key]] && keys[key].time == clock.now
    {
      var it := keys[key];
      keyIndex := Erased(keyIndex, it);
      var now := clock.Read();
      ReplaceKeepsOk(keys, old(keyIndex), nextId, now, key);
      hide IndexesOk, Erased, Inserted;
      var n := Node(nextId, now, key);
      keyIndex := Inserted(keyIndex, n);
      keys := keys[key := n];
      nextId := nextId + 1;
    }

    /** A read access renews an entry that has not expired by then, and no other. */
    method OnGet(key: Key)
      requires Valid()
      modifies this, clock
      ensures Valid() && old(clock.now) <= clock.now
      ensures key !in old(keys) ==> keys == old(keys)
      ensures key in old(keys) ==> key in keys && keys == old(keys)[key := keys[key]]
      ensures key in old(keys) && Expired(old(keys)[key].time, expireTime, old(clock.now)) ==> keys == old(keys)
      ensures key in old(keys) ==>
                (keys == old(keys) && Expired(keys[key].time, expireTime, clock.now)) ||
                (keys[key].time == clock.now && !Expired(old(keys)[key].time, expireTime, old(clock.now)))
    {
      hide IndexesOk;
      if key in keys {
        assert keys[key] in keyIndex by { LiveIterator(keys, keyIndex, nextId, key); }
        var elapsed := IsElapsed(keys[key]);
        if !elapsed {
          Renew(key);
        }
      }
    }

    method OnClear()
      modifies this`keys, this`keyIndex
      requires Valid()
      ensures Valid() && keys == map[]
    {
      keys, keyIndex := map[], [];
    }

    method OnIsValid(key: Key) returns (isValid: bool)
      requires Valid()
      modifies clock
      ensures Valid() && old(clock.now) <= clock.now
      ensures isValid <==> key in keys && !Expired(keys[key].time, expireTime, clock.now)
    {
      if key in keys {
        var elapsed := IsElapsed(keys[key]);
        return !elapsed;
      }
      return false;
    }

    /** Collects keys from the early end of the index until one has not expired; the clock runs on meanwhile. */
    method OnReplace() returns (elemsToRemove: set<Key>)
      requires Valid()
      modifies clock
      ensures Valid() && old(clock.now) <= clock.now
      ensures forall k | k in elemsToRemove :: k in keys && Expired(keys[k].time, expireTime, clock.now)
      ensures forall k | k in keys && Expired(keys[k].time, expireTime, old(clock.now)) :: k in elemsToRemove
    {
      elemsToRemove := {};
      var it := 0;
      while it < |keyIndex|
        invariant 0 <= it <= |keyIndex| && Valid() && old(clock.now) <= clock.now
        invariant forall k | k in elemsToRemove :: k in keys && Expired(keys[k].time, expireTime, clock.now)
        invariant forall i | 0 <= i < it :: keyIndex[i].key in elemsToRemove
      {
        assert keyIndex[it] in keyIndex;
        var elapsed := IsElapsed(keyIndex[it]);
        if !elapsed { break; }
        elemsToRemove := elemsToRemove + {keyIndex[it].key};
        it := it + 1;
      }
      forall k | k in keys && Expired(keys[k].time, expireTime, old(clock.now))
        ensures k in elemsToRemove
      {
        var i :| 0 <= i < |keyIndex| && keyIndex[i] == keys[k];
      }
    }
  }

  /** The timed table a data map and a key map stand for. */
  ghost function TableOf<V>(data: map<Key, V>, keys: map<Key, Node>): map<Key, Entry<V>> {
    map k | k in data && k in keys :: Entry(data[k], keys[k].time)
  }

  lemma TableMinus<V>(data: map<Key, V>, keys: map<Key, Node>, gone: set<Key>)
    ensures TableOf(data - gone, keys - gone) == TableOf(data, keys) - gone
  {}

  lemma TablePut<V>(data: map<Key, V>, keys: map<Key, Node>, k: Key, v: V, n: Node)
    ensures TableOf(data[k := v], keys[k := n]) == TableOf(data, keys)[k := Entry(v, n.time)]
    ensures TableOf((data - {k})[k := v], (keys - {k})[k := n]) == TableOf(data, keys)[k := Entry(v, n.time)]
  {}

  lemma TableAt<V>(data: map<Key, V>, keys: map<Key, Node>, k: Key)
    requires data.Keys == keys.Keys
    ensures k in TableOf(data, keys) <==> k in data
    ensures k in data ==> TableOf(data, keys)[k] == Entry(data[k], keys[k].time)
  {}

  lemma MinusOne<A>(m: map<Key, A>, all: set<Key>, rest: set<Key>, k: Key)
    requires k in rest && rest <= all
    ensures m - (all - rest) - {k} == m - (all - (rest - {k}))
  {
    assert (all - rest) + {k} == all - (rest - {k});
  }

  lemma MinusAll<A>(m: map<Key, A>, all: set<Key>)
    ensures m - (all - all) == m && m - (all - {}) == m - all
  {
    assert all - {} == all;
  }

  lemma MinusAbsent<A>(m: map<Key, A>, k: Key)
    ensures k !in m ==> m - {k} == m
  {}

  lemma TablePurged<V>(data: map<Key, V>, keys: map<Key, Node>, gone: set<Key>, expire: int, t0: int, t1: int)
    requires data.Keys == keys.Keys
    requires forall k | k in gone :: k in keys && Expired(keys[k].time, expire, t1)
    requires forall k | k in keys && Expired(keys[k].time, expire, t0) :: k in gone
    ensures Purged(TableOf(data, keys), TableOf(data, keys) - gone, expire, t0, t1)
  {}

  class AccessExpireCache<V> {
    const strategy: AccessExpireStrategy
    const clock: Clock
    var data: map<Key, V>

    constructor (expireTime: int, clock: Clock)
      requires expireTime >= 25000
      ensures Valid() && Table() == map[] && fresh(strategy)
      ensures this.clock == clock && strategy.expireTime == expireTime
    {
      this.clock := clock;
      strategy := new AccessExpireStrategy(expireTime, clock);
      data := map[];
    }

    /** Every cached key is known to the strategy and the other way round. */
    ghost predicate Valid()
      reads this, strategy, clock
    {
      strategy.clock == clock && strategy.Valid() && data.Keys == strategy.keys.Keys
    }

    /** The timed table the two structures stand for. */
    ghost function Table(): map<Key, Entry<V>>
      reads this, strategy
    {
      TableOf(data, strategy.keys)
    }

    method DoRemove(key: Key)
      requires Valid()
      modifies this, strategy`keys, strategy`keyIndex
      ensures Valid() && data == old(data) - {key} && strategy.keys == old(strategy.keys) - {key}
    {
      MinusAbsent(data, key);
      MinusAbsent(strategy.keys, key);
      hide IndexesOk;
      if key in data {
        strategy.OnRemove(key);
        data := data - {key};
      }
    }

    method DoReplace()
      requires Valid()
      modifies this, strategy, clock
      ensures Valid() && old(clock.now) <= clock.now
      ensures Purged(old(Table()), Table(), strategy.expireTime, old(clock.now), clock.now)
    {
      var delMe := strategy.OnReplace();
      TablePurged(data, strategy.keys, delMe, strategy.expireTime, old(clock.now), clock.now);
      RemoveAll(delMe);
    }

    method RemoveAll(delMe: set<Key>)
      requires Valid()
      modifies this, strategy`keys, strategy`keyIndex
      ensures Valid() && Table() == old(Table()) - delMe
    {
      ghost var d, ks := data, strategy.keys;
      TableMinus(d, ks, delMe);
      MinusAll(d, delMe);
      MinusAll(ks, delMe);
      hide TableOf;
      hide IndexesOk;
      var rest := delMe;
      while rest != {}
        invariant Valid() && rest <= delMe
        invariant data == d - (delMe - rest) && strategy.keys == ks - (delMe - rest)
        decreases |rest|
      {
        var k :| k in rest;
        DoRemove(k);
        MinusOne(d, delMe, rest, k);
        MinusOne(ks, delMe, rest, k);
        rest := rest - {k};
      }
    }

    /** `add`: an existing entry is removed first. */
    method Add(key: Key, val: V) returns (ghost at: int)
      requires Valid()
      modifies this, strategy, clock
      ensures Valid() && old(clock.now) <= clock.now
      ensures OpStep(Put(key, val, at), old(Table()), Table(), strategy.expireTime, old(clock.now), clock.now)
    {
      hide TableOf;
      hide IndexesOk;
      ghost var d, ks := data, strategy.keys;
      DoRemove(key);
      strategy.OnAdd(key);
      at := clock.now;
      data := data[key := val];
      TablePut(d, ks, key, val, strategy.keys[key]);
      PutThenPurge(old(clock.now));
    }

    /** `update`: an existing entry is overwritten in place; either way its time starts anew. */
    method Update(key: Key, val: V) returns (ghost at: int)
      requires Valid()
      modifies this, strategy, clock
      ensures Valid() && old(clock.now) <= clock.now
      ensures OpStep(Put(key, val, at), old(Table()), Table(), strategy.expireTime, old(clock.now), clock.now)
    {
      hide TableOf;
      hide IndexesOk;
      ghost var d, ks := data, strategy.keys;
      if key !in data {
        strategy.OnAdd(key);
      } else {
        strategy.OnUpdate(key);
      }
      at := clock.now;
      data := data[key := val];
      TablePut(d, ks, key, val, strategy.keys[key]);
      PutThenPurge(old(clock.now));
    }

    /** The purge at the end of a call also removes what was expired when the call began. */
    method PutThenPurge(ghost began: int)
      requires Valid() && began <= clock.now
      modifies this, strategy, clock
      ensures Valid() && old(clock.now) <= clock.now
      ensures Purged(old(Table()), Table(), strategy.expireTime, began, clock.now)
    {
      hide TableOf;
      hide IndexesOk;
      DoReplace();
    }

    method RemoveKey(key: Key)
      requires Valid()
      modifies this, strategy, clock
      ensures Valid() && old(clock.now) <= clock.now
      ensures OpStep(Op<V>.Remove(key), old(Table()), Table(), strategy.expireTime, old(clock.now), clock.now)
    {
      TableMinus(data, strategy.keys, {key});
      DoRemove(key);
    }

    method HasKey(key: Key) returns (found: bool)
      requires Valid()
      modifies clock
      ensures Valid() && old(clock.now) <= clock.now
      ensures OpStep(Op<V>.Has(key, found), old(Table()), Table(), strategy.expireTime, old(clock.now), clock.now)
    {
      found := false;
      if key in data {
        found := strategy.OnIsValid(key);
      }
      assert Table() == old(Table());
    }

    /**
      `get` first lets the strategy renew the entry and then asks whether it is valid. An entry
      already expired when the call began is neither returned nor renewed.
     */
    method GetValue(key: Key) returns (result: Option<V>)
      requires Valid()
      modifies this, strategy, clock
      ensures Valid() && old(clock.now) <= clock.now
      ensures OpStep(Op.Get(key, result), old(Table()), Table(), strategy.expireTime, old(clock.now), clock.now)
    {
      hide TableOf;
      hide IndexesOk;
      result := None;
      ghost var d, ks := data, strategy.keys;
      TableMinus(d, ks, {key});
      TableAt(d, ks, key);
      MinusAbsent(Table(), key);
      if key in data {
        strategy.OnGet(key);
        TablePut(d, ks, key, d[key], strategy.keys[key]);
        var isValid := strategy.OnIsValid(key);
        if !isValid {
          DoRemove(key);
          assert strategy.keys == ks - {key};
        } else {
          result := Some(data[key]);
          assert d[key := d[key]] == d;
        }
      }
    }

    method ClearAll()
      requires Valid()
      modifies this, strategy, clock
      ensures Valid() && old(clock.now) <= clock.now
      ensures OpStep(Op<V>.Clear, old(Table()), Table(), strategy.expireTime, old(clock.now), clock.now)
    {
      strategy.OnClear();
      data := map[];
    }

    method Size() returns (n: nat)
      requires Valid()
      modifies this, strategy, clock
      ensures Valid() && old(clock.now) <= clock.now
      ensures OpStep(Op<V>.Measure(n), old(Table()), Table(), strategy.expireTime, old(clock.now), clock.now)
    {
      DoReplace();
      assert Table().Keys == data.Keys;
      n := |data|;
    }

    method GetAllKeys() returns (keys: set<Key>)
      requires Valid()
      modifies this, strategy, clock
      ensures Valid() && old(clock.now) <= clock.now
      ensures OpStep(Op<V>.List(keys), old(Table()), Table(), strategy.expireTime, old(clock.now), clock.now)
    {
      DoReplace();
      assert Table().Keys == data.Keys;
      keys := data.Keys;
    }

    method ForceReplace()
      requires Valid()
      modifies this, strategy, clock
      ensures Valid() && old(clock.now) <= clock.now
      ensures OpStep(Op<V>.Purge, old(Table()), Table(), strategy.expireTime, old(clock.now), clock.now)
    {
      DoReplace();
    }
  }

  // ----- whole runs -----

  /** An operation with the clock at its beginning and end. */
  datatype Event<V> = Event(op: Op<V>, began: int, ended: int)

  /** A run: tables[i] becomes tables[i + 1] by events[i], and time does not go back. */
  ghost predicate IsRun<V>(tables: seq<map<Key, Entry<V>>>, events: seq<Event<V>>, expire: int) {
    && |tables| == |events| + 1
    && (forall i | 0 <= i < |events| ::
          events[i].began <= events[i].ended &&
          OpStep(events[i].op, tables[i], tables[i + 1], expire, events[i].began, events[i].ended))
    && (forall i, j | 0 <= i < j < |events| :: events[i].ended <= events[j].began)
  }

  /** The key is absent, or present but expired by time t. */
  ghost predicate Dead<V>(table: map<Key, Entry<V>>, key: Key, expire: int, t: int) {
    key !in table || Expired(table[key].last, expire, t)
  }

  lemma DeadStays<V>(e: Event<V>, before: map<Key, Entry<V>>, after: map<Key, Entry<V>>, key: Key, expire: int)
    requires e.began <= e.ended && OpStep(e.op, before, after, expire, e.began, e.ended)
    requires Dead(before, key, expire, e.began) && !(e.op.Put? && e.op.key == key)
    ensures Dead(after, key, expire, e.ended)
    ensures e.op.Get? && e.op.key == key ==> e.op.result == None
    ensures e.op.Has? && e.op.key == key ==> !e.op.found
  {}

  /**
    Access never revives: once an entry has expired or gone, and as long as it is not put again,
    every later get and has of any run says so.
   */
  lemma {:induction false} ExpiredStaysExpired<V>(
      tables: seq<map<Key, Entry<V>>>, events: seq<Event<V>>, key: Key, expire: int, m: nat, n: nat)
    requires IsRun(tables, events, expire) && m <= n < |events|
    requires Dead(tables[m], key, expire, events[m].began)
    requires forall i | m <= i <= n :: !(events[i].op.Put? && events[i].op.key == key)
    ensures Dead(tables[n + 1], key, expire, events[n].ended)
    ensures events[n].op.Get? && events[n].op.key == key ==> events[n].op.result == None
    ensures events[n].op.Has? && events[n].op.key == key ==> !events[n].op.found
    decreases n
  {
    hide OpStep;
    if m < n {
      ExpiredStaysExpired(tables, events, key, expire, m, n - 1);
    }
    DeadStays(events[n], tables[n], tables[n + 1], key, expire);
  }

  lemma ValueStays<V>(e: Event<V>, before: map<Key, Entry<V>>, after: map<Key, Entry<V>>, key: Key, v: V, expire: int)
    requires e.began <= e.ended && OpStep(e.op, before, after, expire, e.began, e.ended)
    requires if e.op.Put? && e.op.key == key then e.op.value == v else key in before ==> before[key].value == v
    ensures key in after ==> after[key].value == v
    ensures e.op.Get? && e.op.key == key && e.op.result.Some? ==> e.op.result.value == v
  {}

  /** A value a get returns is the one put last: `m` is the last put of the key before the get `n`. */
  lemma {:induction false} GetReturnsLastPut<V>(
      tables: seq<map<Key, Entry<V>>>, events: seq<Event<V>>, key: Key, expire: int, m: nat, n: nat)
    requires IsRun(tables, events, expire) && m <= n < |events|
    requires events[m].op.Put? && events[m].op.key == key
    requires forall i | m < i <= n :: !(events[i].op.Put? && events[i].op.key == key)
    ensures key in tables[n + 1] ==> tables[n + 1][key].value == events[m].op.value
    ensures events[n].op.Get? && events[n].op.key == key && events[n].op.result.Some? ==>
              events[n].op.result.value == events[m].op.value
    decreases n
  {
    hide OpStep;
    if m < n {
      GetReturnsLastPut(tables, events, key, expire, m, n - 1);
    }
    ValueStays(events[n], tables[n], tables[n + 1], key, events[m].op.value, expire);
  }

  // ----- what the answers of a run must be, by the clock -----

  /** Puts the key or gets it successfully: the entry's time starts anew. */
  predicate Accesses<V>(op: Op<V>, key: Key) {
    (op.Put? && op.key == key) || (op.Get? && op.key == key && op.result.Some?)
  }

  predicate Drops<V>(op: Op<V>, key: Key) {
    (op.Remove? && op.key == key) || op.Clear?
  }

  /** The least time at which an access may have taken place. */
  function Earliest<V>(e: Event<V>): int {
    if e.op.Put? then e.op.at else e.began
  }

  function Latest<V>(e: Event<V>): int {
    if e.op.Put? then e.op.at else e.ended
  }

  /** Accessed by event m, neither accessed nor dropped since, and younger than `expire` until event n is over. */
  predicate HeldSince<V>(events: seq<Event<V>>, key: Key, expire: int, m: nat, n: nat) {
    && m < n < |events| && Accesses(events[m].op, key)
    && (forall i | m < i < n :: !Accesses(events[i].op, key) && !Drops(events[i].op, key))
    && events[n].ended < Earliest(events[m]) + expire
  }

  /** Dropped by event m, or last accessed by it and `expire` old when event n begins; not put since. */
  predicate GoneSince<V>(events: seq<Event<V>>, key: Key, expire: int, m: nat, n: nat) {
    && m < n < |events|
    && (forall i | m < i < n :: !(events[i].op.Put? && events[i].op.key == key))
    && (|| Drops(events[m].op, key)
        || (&& Accesses(events[m].op, key)
            && (forall i | m < i < n :: !Accesses(events[i].op, key))
            && events[n].began >= Latest(events[m]) + expire))
  }

  predicate NeverPut<V>(events: seq<Event<V>>, key: Key, n: nat) {
    n < |events| && forall i | 0 <= i < n :: !(events[i].op.Put? && events[i].op.key == key)
  }

  ghost predicate Held<V>(events: seq<Event<V>>, key: Key, expire: int, n: nat) {
    exists m: nat :: HeldSince(events, key, expire, m, n)
  }

  ghost predicate Gone<V>(events: seq<Event<V>>, key: Key, expire: int, n: nat) {
    NeverPut(events, key, n) || exists m: nat :: GoneSince(events, key, expire, m, n)
  }

  /** The value of an access. */
  function Carried<V>(op: Op<V>, key: Key): V
    requires Accesses(op, key)
  {
    if op.Put? then op.value else op.result.value
  }

  lemma AccessStep<V>(e: Event<V>, before: map<Key, Entry<V>>, after: map<Key, Entry<V>>, key: Key, expire: int)
    requires e.began <= e.ended && OpStep(e.op, before, after, expire, e.began, e.ended) && Accesses(e.op, key)
    ensures key in after ==>
              Earliest(e) <= after[key].last <= Latest(e) && after[key].value == Carried(e.op, key)
    ensures e.began <= Earliest(e) <= Latest(e) <= e.ended
    ensures e.ended < Earliest(e) + expire ==> key in after
  {
  }

  lemma QuietStep<V>(e: Event<V>, before: map<Key, Entry<V>>, after: map<Key, Entry<V>>, key: Key, expire: int)
    requires e.began <= e.ended && OpStep(e.op, before, after, expire, e.began, e.ended)
    requires !Accesses(e.op, key)
    ensures key in after ==> key in before && after[key] == before[key]
    ensures key in before && !Drops(e.op, key) && e.ended < before[key].last + expire ==> key in after
  {
  }

  lemma {:induction false} HeldInTable<V>(
      tables: seq<map<Key, Entry<V>>>, events: seq<Event<V>>, key: Key, expire: int, m: nat, i: nat, until: int)
    requires IsRun(tables, events, expire) && m <= i < |events| && Accesses(events[m].op, key)
    requires forall j | m < j <= i :: !Accesses(events[j].op, key) && !Drops(events[j].op, key)
    requires events[i].ended <= until < Earliest(events[m]) + expire
    ensures key in tables[i + 1]
    ensures Earliest(events[m]) <= tables[i + 1][key].last <= Latest(events[m])
    ensures tables[i + 1][key].value == Carried(events[m].op, key)
    decreases i
  {
    hide OpStep, Accesses, Drops, Carried;
    if m == i {
      AccessStep(events[m], tables[m], tables[m + 1], key, expire);
    } else {
      assert events[i - 1].ended <= events[i].began;
      HeldInTable(tables, events, key, expire, m, i - 1, until);
      QuietStep(events[i], tables[i], tables[i + 1], key, expire);
    }
  }

  /** What was accessed and not since has the time of that access, as long as it is there. */
  lemma {:induction false} AgeInTable<V>(
      tables: seq<map<Key, Entry<V>>>, events: seq<Event<V>>, key: Key, expire: int, m: nat, i: nat)
    requires IsRun(tables, events, expire) && m <= i < |events| && Accesses(events[m].op, key)
    requires forall j | m < j <= i :: !Accesses(events[j].op, key)
    ensures key in tables[i + 1] ==> tables[i + 1][key].last <= Latest(events[m])
    decreases i
  {
    hide OpStep, Accesses;
    if m == i {
      AccessStep(events[m], tables[m], tables[m + 1], key, expire);
    } else {
      AgeInTable(tables, events, key, expire, m, i - 1);
      QuietStep(events[i], tables[i], tables[i + 1], key, expire);
    }
  }

  lemma AbsentStep<V>(e: Event<V>, before: map<Key, Entry<V>>, after: map<Key, Entry<V>>, key: Key, expire: int)
    requires OpStep(e.op, before, after, expire, e.began, e.ended)
    requires Drops(e.op, key) || (key !in before && !(e.op.Put? && e.op.key == key))
    ensures key !in after
  {
  }

  /** Absent stays absent until put. */
  lemma {:induction false} AbsentInTable<V>(
      tables: seq<map<Key, Entry<V>>>, events: seq<Event<V>>, key: Key, expire: int, m: nat, n: nat)
    requires IsRun(tables, events, expire) && m <= n <= |events| && key !in tables[m]
    requires forall j | m <= j < n :: !(events[j].op.Put? && events[j].op.key == key)
    ensures key !in tables[n]
    decreases n
  {
    hide OpStep;
    if m < n {
      AbsentInTable(tables, events, key, expire, m, n - 1);
      AbsentStep(events[n - 1], tables[n - 1], tables[n], key, expire);
    }
  }

  lemma HeldWhenAsked<V>(
      tables: seq<map<Key, Entry<V>>>, events: seq<Event<V>>, key: Key, expire: int, m: nat, n: nat)
    requires IsRun(tables, events, expire) && HeldSince(events, key, expire, m, n)
    ensures key in tables[n] && events[n].ended < tables[n][key].last + expire
    ensures tables[n][key].value == Carried(events[m].op, key)
  {
    hide OpStep;
    assert events[n - 1].ended <= events[n].began;
    HeldInTable(tables, events, key, expire, m, n - 1, events[n].ended);
  }

  lemma GoneWhenAsked<V>(
      tables: seq<map<Key, Entry<V>>>, events: seq<Event<V>>, key: Key, expire: int, n: nat)
    requires IsRun(tables, events, expire) && tables[0] == map[] && Gone(events, key, expire, n)
    ensures key in tables[n] ==> events[n].began >= tables[n][key].last + expire
  {
    hide OpStep;
    if NeverPut(events, key, n) {
      AbsentInTable(tables, events, key, expire, 0, n);
    } else {
      var m: nat :| GoneSince(events, key, expire, m, n);
      if Drops(events[m].op, key) {
        AbsentStep(events[m], tables[m], tables[m + 1], key, expire);
        AbsentInTable(tables, events, key, expire, m + 1, n);
      } else {
        AgeInTable(tables, events, key, expire, m, n - 1);
      }
    }
  }

  lemma HeldAnswer<V>(e: Event<V>, before: map<Key, Entry<V>>, after: map<Key, Entry<V>>, key: Key, expire: int)
    requires e.began <= e.ended && OpStep(e.op, before, after, expire, e.began, e.ended)
    requires key in before && e.ended < before[key].last + expire
    ensures e.op.Get? && e.op.key == key ==> e.op.result == Some(before[key].value)
    ensures e.op.Has? && e.op.key == key ==> e.op.found
    ensures e.op.List? ==> key in e.op.keys
    ensures e.op.Measure? ==> key in after
  {
  }

  lemma GoneAnswer<V>(e: Event<V>, before: map<Key, Entry<V>>, after: map<Key, Entry<V>>, key: Key, expire: int)
    requires e.began <= e.ended && OpStep(e.op, before, after, expire, e.began, e.ended)
    requires key in before ==> e.began >= before[key].last + expire
    ensures e.op.Get? && e.op.key == key ==> e.op.result == None
    ensures e.op.Has? && e.op.key == key ==> !e.op.found
    ensures e.op.List? ==> key !in e.op.keys
    ensures e.op.Measure? ==> key !in after
  {
  }

  /**
    What was put or got less than `expire` before an operation is over, and not dropped since, is
    there for it: it is got with the value it then had, found, and listed.
   */
  lemma HeldIsAnswered<V>(
      tables: seq<map<Key, Entry<V>>>, events: seq<Event<V>>, key: Key, expire: int, m: nat, n: nat)
    requires IsRun(tables, events, expire) && HeldSince(events, key, expire, m, n)
    ensures events[n].op.Get? && events[n].op.key == key ==>
              events[n].op.result == Some(Carried(events[m].op, key))
    ensures events[n].op.Has? && events[n].op.key == key ==> events[n].op.found
    ensures events[n].op.List? ==> key in events[n].op.keys
  {
    hide OpStep;
    HeldWhenAsked(tables, events, key, expire, m, n);
    HeldAnswer(events[n], tables[n], tables[n + 1], key, expire);
  }

  /**
    What was dropped, or last put or got `expire` or more before an operation begins, and not put
    since, is not there for it; nor is what was never put.
   */
  lemma GoneIsAnswered<V>(
      tables: seq<map<Key, Entry<V>>>, events: seq<Event<V>>, key: Key, expire: int, n: nat)
    requires IsRun(tables, events, expire) && tables[0] == map[] && Gone(events, key, expire, n)
    ensures events[n].op.Get? && events[n].op.key == key ==> events[n].op.result == None
    ensures events[n].op.Has? && events[n].op.key == key ==> !events[n].op.found
    ensures events[n].op.List? ==> key !in events[n].op.keys
  {
    hide OpStep;
    GoneWhenAsked(tables, events, key, expire, n);
    GoneAnswer(events[n], tables[n], tables[n + 1], key, expire);
  }

  /** The size counts every key that is held, and no more than those not known to be gone. */
  lemma SizeBetween<V>(
      tables: seq<map<Key, Entry<V>>>, events: seq<Event<V>>, expire: int, n: nat, held: set<Key>, rest: set<Key>)
    requires IsRun(tables, events, expire) && tables[0] == map[] && n < |events| && events[n].op.Measure?
    requires forall k | k in held :: Held(events, k, expire, n)
    requires forall k | k !in rest :: Gone(events, k, expire, n)
    ensures |held| <= events[n].op.n <= |rest|
  {
    hide OpStep, Held, Gone;
    var after := tables[n + 1];
    forall k | k in held
      ensures k in after
    {
      HeldIsKept(tables, events, k, expire, n);
    }
    forall k | k in after
      ensures k in rest
    {
      if k !in rest {
        GoneWhenAsked(tables, events, k, expire, n);
        GoneAnswer(events[n], tables[n], after, k, expire);
      }
    }
    MeasureIs(events[n], tables[n], after, expire);
    SubsetSize(held, after.Keys);
    SubsetSize(after.Keys, rest);
  }

  lemma HeldIsKept<V>(tables: seq<map<Key, Entry<V>>>, events: seq<Event<V>>, key: Key, expire: int, n: nat)
    requires IsRun(tables, events, expire) && Held(events, key, expire, n) && events[n].op.Measure?
    ensures key in tables[n + 1]
  {
    hide OpStep;
    var m: nat :| HeldSince(events, key, expire, m, n);
    HeldWhenAsked(tables, events, key, expire, m, n);
    HeldAnswer(events[n], tables[n], tables[n + 1], key, expire);
  }

  lemma MeasureIs<V>(e: Event<V>, before: map<Key, Entry<V>>, after: map<Key, Entry<V>>, expire: int)
    requires OpStep(e.op, before, after, expire, e.began, e.ended) && e.op.Measure?
    ensures e.op.n == |after.Keys|
  {
  }

  lemma RunExtended<V>(tables: seq<map<Key, Entry<V>>>, events: seq<Event<V>>, expire: int,
                       after: map<Key, Entry<V>>, e: Event<V>)
    requires IsRun(tables, events, expire) && e.began <= e.ended
    requires OpStep(e.op, tables[|events|], after, expire, e.began, e.ended)
    requires events != [] ==> events[|events| - 1].ended <= e.began
    ensures IsRun(tables + [after], events + [e], expire)
  {
    hide OpStep;
    var es := events + [e];
    forall i | 0 <= i < |events|
      ensures events[i].ended <= e.began
    {
      if i < |events| - 1 { assert events[i].ended <= events[|events| - 1].began; }
    }
  }

  // ----- the cache under a client -----

  datatype Call<V> =
    | CallAdd(key: Key, value: V)
    | CallUpdate(key: Key, value: V)
    | CallRemove(key: Key)
    | CallGet(key: Key)
    | CallHas(key: Key)
    | CallClear
    | CallSize
    | CallGetAllKeys
    | CallForceReplace

  /** The table operation is one that this call may have been. */
  predicate Answers<V(==)>(call: Call<V>, op: Op<V>) {
    match call
    case CallAdd(k, v) => op.Put? && op.key == k && op.value == v
    case CallUpdate(k, v) => op.Put? && op.key == k && op.value == v
    case CallRemove(k) => op.Remove? && op.key == k
    case CallGet(k) => op.Get? && op.key == k
    case CallHas(k) => op.Has? && op.key == k
    case CallClear => op.Clear?
    case CallSize => op.Measure?
    case CallGetAllKeys => op.List?
    case CallForceReplace => op.Purge?
  }

  method Perform<V(==)>(cache: AccessExpireCache<V>, call: Call<V>) returns (ghost op: Op<V>)
    requires cache.Valid()
    modifies cache, cache.strategy, cache.clock
    ensures cache.Valid() && old(cache.clock.now) <= cache.clock.now && Answers(call, op)
    ensures OpStep(op, old(cache.Table()), cache.Table(), cache.strategy.expireTime,
                   old(cache.clock.now), cache.clock.now)
  {
    hide OpStep, IndexesOk, TableOf;
    match call {
      case CallAdd(k, v) =>
        ghost var at := cache.Add(k, v);
        op := Put(k, v, at);
      case CallUpdate(k, v) =>
        ghost var at := cache.Update(k, v);
        op := Put(k, v, at);
      case CallRemove(k) =>
        cache.RemoveKey(k);
        op := Op<V>.Remove(k);
      case CallGet(k) =>
        var result := cache.GetValue(k);
        op := Op.Get(k, result);
      case CallHas(k) =>
        var found := cache.HasKey(k);
        op := Op<V>.Has(k, found);
      case CallClear =>
        cache.ClearAll();
        op := Op<V>.Clear;
      case CallSize =>
        var n := cache.Size();
        op := Op<V>.Measure(n);
      case CallGetAllKeys =>
        var keys := cache.GetAllKeys();
        op := Op<V>.List(keys);
      case CallForceReplace =>
        cache.ForceReplace();
        op := Op<V>.Purge;
    }
  }

  /**
    Any sequence of calls, with any time passing before each, is a run of the timed table from the
    table at the beginning to the one at the end, and every answer is the run's.
   */
  method RunCalls<V(==)>(cache: AccessExpireCache<V>, calls: seq<Call<V>>)
      returns (ghost tables: seq<map<Key, Entry<V>>>, ghost events: seq<Event<V>>)
    requires cache.Valid()
    modifies cache, cache.strategy, cache.clock
    ensures cache.Valid() && IsRun(tables, events, cache.strategy.expireTime)
    ensures tables[0] == old(cache.Table()) && tables[|events|] == cache.Table()
    ensures |events| == |calls| && forall i | 0 <= i < |calls| :: Answers(calls[i], events[i].op)
    ensures forall i | 0 <= i < |events| :: old(cache.clock.now) <= events[i].began
  {
    hide OpStep, IndexesOk, TableOf;
    tables, events := [cache.Table()], [];
    ghost var start := cache.clock.now;
    for k := 0 to |calls|
      invariant cache.Valid() && IsRun(tables, events, cache.strategy.expireTime)
      invariant tables[0] == old(cache.Table()) && tables[|events|] == cache.Table()
      invariant |events| == k && forall i | 0 <= i < k :: Answers(calls[i], events[i].op)
      invariant start <= cache.clock.now && forall i | 0 <= i < k :: start <= events[i].began
      invariant k > 0 ==> events[k - 1].ended <= cache.clock.now
    {
      var now := cache.clock.Read();
      ghost var op := Perform(cache, calls[k]);
      ghost var e := Event(op, now, cache.clock.now);
      RunExtended(tables, events, cache.strategy.expireTime, cache.Table(), e);
      tables, events := tables + [cache.Table()], events + [e];
    }
  }
}
