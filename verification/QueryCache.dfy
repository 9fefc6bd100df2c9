/** The in-memory query cache: an ordered dictionary with a time to live and a size limit. It refines a timed map
    that never evicts, and its order is recency order. */
module QueryCaching {

  const CHECKED := 10

  datatype Option<T> = None | Some(value: T)

  datatype Item<V> = Item(key: string, data: V, ts: real)

  /** Entry of the map that never evicts: what was last set since the key was last invalidated. */
  datatype Entry<V> = Entry(data: V, ts: real)

  predicate UniqueKeys<V>(items: seq<Item<V>>) {
    forall i, j :: 0 <= i < j < |items| ==> items[i].key != items[j].key
  }

  predicate Holds<V>(items: seq<Item<V>>, key: string) {
    exists i :: 0 <= i < |items| && items[i].key == key
  }

  /** The position of a key, or |items|. */
  function Position<V>(items: seq<Item<V>>, key: string): (p: nat)
    ensures p <= |items|
    ensures p < |items| ==> items[p].key == key
    ensures forall i :: 0 <= i < p ==> items[i].key != key
  {
    if items == [] || items[0].key == key then 0 else 1 + Position(items[1..], key)
  }

  function RemoveAt<V>(items: seq<Item<V>>, i: nat): seq<Item<V>>
    requires i < |items|
  {
    items[..i] + items[i + 1..]
  }

  predicate Expired<V>(item: Item<V>, now: real, ttl: real) {
    now - item.ts >= ttl
  }

  /** The first expired item from i on among the oldest CHECKED, else the oldest. */
  function VictimFrom<V>(items: seq<Item<V>>, i: nat, now: real, ttl: real): (v: nat)
    requires i <= |items| && items != []
    ensures v < |items|
    decreases |items| - i
  {
    if i == |items| || i == CHECKED then 0
    else if Expired(items[i], now, ttl) then i
    else VictimFrom(items, i + 1, now, ttl)
  }

  function Evicted<V>(items: seq<Item<V>>, now: real, ttl: real): seq<Item<V>> {
    if items == [] then [] else RemoveAt(items, VictimFrom(items, 0, now, ttl))
  }

  /** del d[key], if it is there. */
  function Without<V>(items: seq<Item<V>>, key: string): seq<Item<V>> {
    var p := Position(items, key);
    if p < |items| then RemoveAt(items, p) else items
  }

  /** d[key] = value: an existing key keeps its place. */
  function Put<V>(items: seq<Item<V>>, key: string, data: V, ts: real): seq<Item<V>> {
    var p := Position(items, key);
    if p < |items| then items[p := Item(key, data, ts)] else items + [Item(key, data, ts)]
  }

  /** The victim is an expired item among the oldest ten, the first of them, or else the oldest item. */
  lemma {:induction false} VictimIsExpiredOrOldest<V>(items: seq<Item<V>>, i: nat, now: real, ttl: real)
    requires i <= |items| && i <= CHECKED && items != []
    requires forall k :: 0 <= k < i ==> !Expired(items[k], now, ttl)
    ensures var v := VictimFrom(items, i, now, ttl);
      || (v < CHECKED && Expired(items[v], now, ttl) && forall k :: 0 <= k < v ==> !Expired(items[k], now, ttl))
      || (v == 0 && forall k :: 0 <= k < |items| && k < CHECKED ==> !Expired(items[k], now, ttl))
    decreases |items| - i
  {
    if i < |items| && i < CHECKED && !Expired(items[i], now, ttl) {
      VictimIsExpiredOrOldest(items, i + 1, now, ttl);
    }
  }

  /** Every item is what the map that never evicts holds for its key. */
  ghost predicate Refines<V(!new)>(items: seq<Item<V>>, all: map<string, Entry<V>>) {
    forall i :: 0 <= i < |items| ==> items[i].key in all && all[items[i].key] == Entry(items[i].data, items[i].ts)
  }

  /** Items are ordered by the time of their last hit or of their last insertion while absent. */
  ghost predicate InRecencyOrder<V(!new)>(items: seq<Item<V>>, touched: map<string, nat>, clock: nat) {
    && (forall i :: 0 <= i < |items| ==> items[i].key in touched && touched[items[i].key] < clock)
    && (forall i, j :: 0 <= i < j < |items| ==> touched[items[i].key] < touched[items[j].key])
  }

  /** A live item is evicted only as the least recently used of all, with nothing expired among the oldest ten. */
  lemma LiveVictimIsLeastRecent<V(!new)>(items: seq<Item<V>>, touched: map<string, nat>, clock: nat, now: real, ttl: real)
    requires items != [] && InRecencyOrder(items, touched, clock)
    requires !Expired(items[VictimFrom(items, 0, now, ttl)], now, ttl)
    ensures var v := VictimFrom(items, 0, now, ttl);
      && (forall i :: 0 <= i < |items| && i != v ==> touched[items[v].key] < touched[items[i].key])
      && (forall i :: 0 <= i < |items| && i < CHECKED ==> !Expired(items[i], now, ttl))
  {
    VictimIsExpiredOrOldest(items, 0, now, ttl);
  }

  /** Item v is the one to go from a full cache: the first that is too old among the ten oldest, or, when those are all young, the
      one touched longest ago. */
  ghost predicate MustGo<V(!new)>(items: seq<Item<V>>, v: nat, touched: map<string, nat>, now: real, ttl: real) {
    && v < |items|
    && (if exists k :: 0 <= k < |items| && k < 10 && now - items[k].ts >= ttl
        then v < 10 && now - items[v].ts >= ttl && forall k :: 0 <= k < v ==> now - items[k].ts < ttl
        else forall k :: 0 <= k < |items| && k != v ==>
          items[v].key in touched && items[k].key in touched && touched[items[v].key] < touched[items[k].key])
  }

  ghost predicate LosesOne<V(!new)>(items: seq<Item<V>>, kept: seq<Item<V>>, v: nat, touched: map<string, nat>, now: real, ttl: real) {
    MustGo(items, v, touched, now, ttl) && kept == items[..v] + items[v + 1..]
  }

  /** Eviction takes out exactly the item that must go; the others stay in their order. */
  lemma EvictedIsOneLess<V(!new)>(items: seq<Item<V>>, touched: map<string, nat>, clock: nat, now: real, ttl: real) returns (v: nat)
    requires items != [] && UniqueKeys(items) && InRecencyOrder(items, touched, clock)
    ensures LosesOne(items, Evicted(items, now, ttl), v, touched, now, ttl)
    ensures forall key :: Holds(Evicted(items, now, ttl), key) <==> Holds(items, key) && key != items[v].key
  {
    v := VictimFrom(items, 0, now, ttl);
    VictimIsExpiredOrOldest(items, 0, now, ttl);
    RemoveUnique(items, v);
    forall key ensures Holds(Evicted(items, now, ttl), key) <==> Holds(items, key) && key != items[v].key {
      if key != items[v].key {
        RemoveHolds(items, v, key);
      }
    }
  }

  /** The items when a value for the key is put into kept: at its place if it is there, and last if not; nothing else moves. */
  ghost predicate PutInto<V(!new)>(kept: seq<Item<V>>, items: seq<Item<V>>, key: string, data: V, ts: real) {
    && |items| == (if Holds(kept, key) then |kept| else |kept| + 1)
    && (forall i :: 0 <= i < |kept| ==> items[i] == if kept[i].key == key then Item(key, data, ts) else kept[i])
    && (|items| > |kept| ==> items[|kept|] == Item(key, data, ts))
  }

  lemma PutIsPutInto<V(!new)>(items: seq<Item<V>>, key: string, data: V, ts: real)
    requires UniqueKeys(items)
    ensures PutInto(items, Put(items, key, data, ts), key, data, ts)
  {
    var p := Position(items, key);
    if p < |items| {
      forall i | 0 <= i < |items| ensures Put(items, key, data, ts)[i] == if items[i].key == key then Item(key, data, ts) else items[i] {
        assert items[i].key == key <==> i == p;
      }
    }
  }

  lemma RemoveUnique<V(!new)>(items: seq<Item<V>>, i: nat)
    requires i < |items| && UniqueKeys(items)
    ensures UniqueKeys(RemoveAt(items, i)) && !Holds(RemoveAt(items, i), items[i].key)
  {
  }

  lemma RemoveHolds<V(!new)>(items: seq<Item<V>>, i: nat, key: string)
    requires i < |items| && key != items[i].key
    ensures Holds(RemoveAt(items, i), key) <==> Holds(items, key)
  {
    var rest := RemoveAt(items, i);
    if Holds(items, key) {
      var k :| 0 <= k < |items| && items[k].key == key;
      assert rest[if k < i then k else k - 1].key == key;
    }
    if Holds(rest, key) {
      var k :| 0 <= k < |rest| && rest[k].key == key;
      assert items[if k < i then k else k + 1].key == key;
    }
  }

  lemma RemoveInOrder<V(!new)>(items: seq<Item<V>>, i: nat, all: map<string, Entry<V>>, touched: map<string, nat>, clock: nat)
    requires i < |items| && Refines(items, all) && InRecencyOrder(items, touched, clock)
    ensures Refines(RemoveAt(items, i), all) && InRecencyOrder(RemoveAt(items, i), touched, clock)
  {
  }

  lemma RemoveKeeps<V(!new)>(items: seq<Item<V>>, i: nat, all: map<string, Entry<V>>, touched: map<string, nat>, clock: nat)
    requires i < |items| && UniqueKeys(items) && Refines(items, all) && InRecencyOrder(items, touched, clock)
    ensures var rest := RemoveAt(items, i);
      UniqueKeys(rest) && Refines(rest, all) && InRecencyOrder(rest, touched, clock) && !Holds(rest, items[i].key)
    ensures forall key :: key != items[i].key ==> (Holds(RemoveAt(items, i), key) <==> Holds(items, key))
  {
    RemoveUnique(items, i);
    RemoveInOrder(items, i, all, touched, clock);
    forall key | key != items[i].key
      ensures Holds(RemoveAt(items, i), key) <==> Holds(items, key)
    {
      RemoveHolds(items, i, key);
    }
  }

  lemma OverwriteKeeps<V(!new)>(items: seq<Item<V>>, p: nat, data: V, ts: real, all: map<string, Entry<V>>,
      touched: map<string, nat>, clock: nat)
    requires UniqueKeys(items) && Refines(items, all) && InRecencyOrder(items, touched, clock) && p < |items|
    ensures var after := items[p := Item(items[p].key, data, ts)];
      UniqueKeys(after) && Refines(after, all[items[p].key := Entry(data, ts)]) && InRecencyOrder(after, touched, clock + 1)
  {
  }

  lemma InsertKeeps<V(!new)>(items: seq<Item<V>>, key: string, data: V, ts: real, all: map<string, Entry<V>>,
      touched: map<string, nat>, clock: nat)
    requires UniqueKeys(items) && Refines(items, all) && InRecencyOrder(items, touched, clock)
    requires forall i :: 0 <= i < |items| ==> items[i].key != key
    ensures var after := items + [Item(key, data, ts)];
      UniqueKeys(after) && Refines(after, all[key := Entry(data, ts)]) && InRecencyOrder(after, touched[key := clock], clock + 1)
  {
  }

  lemma PutKeeps<V(!new)>(items: seq<Item<V>>, key: string, data: V, ts: real, all: map<string, Entry<V>>,
      touched: map<string, nat>, clock: nat)
    requires UniqueKeys(items) && Refines(items, all) && InRecencyOrder(items, touched, clock)
    ensures UniqueKeys(Put(items, key, data, ts)) && Refines(Put(items, key, data, ts), all[key := Entry(data, ts)])
    ensures Holds(Put(items, key, data, ts), key)
    ensures InRecencyOrder(Put(items, key, data, ts), if Holds(items, key) then touched else touched[key := clock], clock + 1)
  {
    var p := Position(items, key);
    assert Put(items, key, data, ts)[p].key == key;
    if p < |items| {
      assert Holds(items, key);
      OverwriteKeeps(items, p, data, ts, all, touched, clock);
    } else {
      assert !Holds(items, key);
      InsertKeeps(items, key, data, ts, all, touched, clock);
    }
  }

  class QueryCache<V(!new)> {
    var items: seq<Item<V>>
    const maxSize: int
    const ttl: real
    var hits: nat
    var misses: nat
    ghost var all: map<string, Entry<V>>
    ghost var touched: map<string, nat>
    ghost var clock: nat

    ghost predicate Valid()
      reads this
    {
      && UniqueKeys(items) && Refines(items, all) && InRecencyOrder(items, touched, clock)
      && |items| <= Capacity(maxSize)
    }

    constructor (maxSize: int, ttl: real)
      ensures Valid() && items == [] && all == map[] && hits == misses == 0 && this.maxSize == maxSize && this.ttl == ttl
    {
      items, hits, misses := [], 0, 0;
      this.maxSize, this.ttl := maxSize, ttl;
      all, touched, clock := map[], map[], 0;
    }

    method EvictExpiredOrLru(now: real) returns (ghost v: nat)
      requires UniqueKeys(items)
      modifies this`items
      ensures items == Evicted(old(items), now, ttl)
      ensures if old(items) == [] then v == 0 && items == []
              else v < |old(items)| && items == old(items)[..v] + old(items)[v + 1..]
      // the first that is too old among the oldest ten, or else the oldest
      ensures forall k :: 0 <= k < v ==> now - old(items)[k].ts < ttl
      ensures v > 0 ==> v < 10 && now - old(items)[v].ts >= ttl
      ensures v == 0 && old(items) != [] && now - old(items)[0].ts < ttl ==>
        forall k :: 0 <= k < |old(items)| && k < 10 ==> now - old(items)[k].ts < ttl
    {
      var keysToCheck := if |items| < CHECKED then |items| else CHECKED;
      var i := 0;
      while i < keysToCheck
        invariant 0 <= i <= keysToCheck && items == old(items)
        invariant items != [] ==> VictimFrom(items, i, now, ttl) == VictimFrom(items, 0, now, ttl)
        invariant forall k :: 0 <= k < i ==> now - items[k].ts < ttl
      {
        if now - items[i].ts >= ttl {
          items := RemoveAt(items, i);
          return i;
        }
        i := i + 1;
      }
      v := 0;
      if items != [] {
        items := items[1..];
      }
    }

    /** del self.cache[key] for the item at a position. */
    method Remove(p: nat)
      requires Valid() && p < |items|
      modifies this`items
      ensures Valid() && items == RemoveAt(old(items), p) && !Holds(items, old(items)[p].key)
      ensures forall other :: other != old(items)[p].key ==> (Holds(items, other) <==> Holds(old(items), other))
    {
      RemoveKeeps(items, p, all, touched, clock);
      items := RemoveAt(items, p);
    }

    /** move_to_end for an item just taken out. */
    method Append(item: Item<V>)
      requires Valid() && !Holds(items, item.key) && |items| < Capacity(maxSize)
      requires item.key in all && all[item.key] == Entry(item.data, item.ts)
      modifies this`items, this`touched, this`clock
      ensures Valid() && items == old(items) + [item] && touched == old(touched)[item.key := old(clock)]
      ensures forall key :: Holds(items, key) <==> key == item.key || Holds(old(items), key)
    {
      MovedKeeps(items, item, all, touched, clock);
      items := items + [item];
      touched := touched[item.key := clock];
      clock := clock + 1;
    }

    /** A hit returns what the map that never evicts holds, and only while it is young. */
    method Get(key: string, now: real) returns (r: Option<V>)
      requires Valid()
      modifies this
      ensures Valid() && all == old(all)
      ensures r.Some? ==> key in all && r.value == all[key].data && now - all[key].ts < ttl
      ensures r.Some? <==> Holds(old(items), key) && key in all && now - all[key].ts < ttl
      ensures r.Some? ==> items != [] && items[|items| - 1].key == key && touched == old(touched)[key := old(clock)]
      ensures r.None? ==> touched == old(touched) && !Holds(items, key)
      ensures items == Without(old(items), key) + if r.Some? then [Item(key, all[key].data, all[key].ts)] else []
      ensures forall other :: other != key ==> (Holds(items, other) <==> Holds(old(items), other))
      ensures hits == old(hits) + (if r.Some? then 1 else 0) && misses == old(misses) + (if r.None? then 1 else 0)
    {
      var p := Position(items, key);
      if p < |items| {
        assert Holds(items, key);
        var item := items[p];
        Remove(p);
        if now - item.ts < ttl {
          Append(item);
          hits := hits + 1;
          return Some(item.data);
        }
      }
      misses := misses + 1;
      return None;
    }

    /** Makes room when the cache is full. */
    method MakeRoom(now: real) returns (ghost v: nat)
      requires Valid()
      modifies this`items
      ensures Valid() && items == (if |old(items)| >= maxSize then Evicted(old(items), now, ttl) else old(items))
      ensures |items| < Capacity(maxSize)
      ensures |old(items)| >= maxSize && old(items) != [] ==>
        LosesOne(old(items), items, v, touched, now, ttl)
    {
      v := 0;
      if |items| >= maxSize {
        if items != [] {
          v := EvictedIsOneLess(items, touched, clock, now, ttl);
          RemoveKeeps(items, VictimFrom(items, 0, now, ttl), all, touched, clock);
        }
        var _ := EvictExpiredOrLru(now);
      }
    }

    /** Stores the value; when full, one item is evicted first, even if the key is already there. */
    method Set(key: string, data: V, evictedAt: real, ts: real) returns (ghost v: nat, ghost kept: seq<Item<V>>)
      requires Valid()
      modifies this
      ensures Valid() && all == old(all)[key := Entry(data, ts)] && Holds(items, key)
      ensures kept == if |old(items)| >= maxSize then Evicted(old(items), evictedAt, ttl) else old(items)
      ensures items == Put(kept, key, data, ts)
      ensures touched == if Holds(kept, key) then old(touched) else old(touched)[key := old(clock)]
      ensures hits == old(hits) && misses == old(misses)
      // a full cache loses the one item that must go, and no other; the rest stay in order, the key at its place or last
      ensures |old(items)| >= maxSize && old(items) != [] ==> LosesOne(old(items), kept, v, old(touched), evictedAt, ttl)
      ensures PutInto(kept, items, key, data, ts)
    {
      v := MakeRoom(evictedAt);
      kept := items;
      PutIsPutInto(kept, key, data, ts);
      Store(key, data, ts);
    }

    /** self.cache[key] = ... when there is room. */
    method Store(key: string, data: V, ts: real)
      requires Valid() && |items| < Capacity(maxSize)
      modifies this`items, this`all, this`touched, this`clock
      ensures Valid() && all == old(all)[key := Entry(data, ts)] && Holds(items, key)
      ensures items == Put(old(items), key, data, ts)
      ensures touched == if Holds(old(items), key) then old(touched) else old(touched)[key := old(clock)]
    {
      PutKeeps(items, key, data, ts, all, touched, clock);
      touched := if Holds(items, key) then touched else touched[key := clock];
      clock := clock + 1;
      all := all[key := Entry(data, ts)];
      items := Put(items, key, data, ts);
    }

    method Invalidate(key: string)
      requires Valid()
      modifies this
      ensures Valid() && all == old(all) - {key} && !Holds(items, key)
      ensures items == Without(old(items), key) && touched == old(touched)
      ensures hits == old(hits) && misses == old(misses)
      ensures forall other :: other != key ==> (Holds(items, other) <==> Holds(old(items), other))
    {
      var p := Position(items, key);
      if p < |items| {
        RemoveKeeps(items, p, all, touched, clock);
        items := RemoveAt(items, p);
      }
      all := all - {key};
    }

    method Clear()
      requires Valid()
      modifies this
      ensures Valid() && items == [] && all == map[]
      ensures touched == old(touched) && hits == old(hits) && misses == old(misses)
    {
      items := [];
      all := map[];
    }
  }

  /** Even a limit below one leaves room for the key being set. */
  function Capacity(maxSize: int): int {
    if maxSize < 1 then 1 else maxSize
  }

  lemma MovedKeeps<V(!new)>(rest: seq<Item<V>>, item: Item<V>, all: map<string, Entry<V>>, touched: map<string, nat>, clock: nat)
    requires UniqueKeys(rest) && Refines(rest, all) && InRecencyOrder(rest, touched, clock) && !Holds(rest, item.key)
    requires item.key in all && all[item.key] == Entry(item.data, item.ts)
    ensures var items := rest + [item];
      UniqueKeys(items) && Refines(items, all) && InRecencyOrder(items, touched[item.key := clock], clock + 1)
    ensures forall key :: Holds(rest + [item], key) <==> key == item.key || Holds(rest, key)
  {
    forall i | 0 <= i < |rest| ensures rest[i].key != item.key {
      assert Holds(rest, rest[i].key);
    }
    forall key
      ensures Holds(rest + [item], key) <==> key == item.key || Holds(rest, key)
    {
      if Holds(rest, key) {
        var k :| 0 <= k < |rest| && rest[k].key == key;
        assert (rest + [item])[k].key == key;
      }
      assert (rest + [item])[|rest|] == item;
    }
  }
}
