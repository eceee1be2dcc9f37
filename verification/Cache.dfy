/** The result cache of internal/cache/cache.go: a hash map, a recency list and a reverse index
    from tables to keys that must agree. Times are given to the operations. */
module ResultCache {
  import opened Wrappers

  type Key = nat
  type Bytes = seq<int>

  datatype Entry = Entry(result: Bytes, tables: seq<string>, expiresAt: int)

  datatype Config = Config(maxEntries: int, ttl: int, maxSize: int)

  /** order lists the keys of the recency list, most recently used first. */
  datatype CacheState = CacheState(items: map<Key, Entry>, order: seq<Key>, index: map<string, set<Key>>)

  // ---------------------------------------------------------------- pieces

  /** The list without the keys in gone. */
  function Minus(order: seq<Key>, gone: set<Key>): (r: seq<Key>)
    ensures forall k :: k in r <==> k in order && k !in gone
    ensures |r| <= |order|
  {
    if order == [] then []
    else (if order[0] in gone then [] else [order[0]]) + Minus(order[1..], gone)
  }

  /** Keys still listed under table t once the entries of gone are taken out of their tables. */
  function Listed(st: CacheState, gone: set<Key>, t: string): set<Key>
    requires t in st.index && gone <= st.items.Keys
  {
    set k | k in st.index[t] && !(k in gone && t in st.items[k].tables)
  }

  /** removeElement for a set of keys: they leave the map, the list and the index sets of their
      own tables; an index set that becomes empty is dropped. */
  function RemoveKeys(st: CacheState, gone: set<Key>): CacheState
    requires gone <= st.items.Keys
  {
    CacheState(st.items - gone, Minus(st.order, gone),
               map t | t in st.index && Listed(st, gone, t) != {} :: Listed(st, gone, t))
  }

  /** updateTableIndex. */
  function IndexAdd(index: map<string, set<Key>>, tables: seq<string>, key: Key): (r: map<string, set<Key>>)
    ensures forall t :: t in r <==> t in index || t in tables
    ensures forall t, k :: t in r ==> (k in r[t] <==> (t in index && k in index[t]) || (k == key && t in tables))
    decreases |tables|
  {
    if tables == [] then index
    else
      var t := tables[0];
      IndexAdd(index[t := (if t in index then index[t] else {}) + {key}], tables[1..], key)
  }

  // ---------------------------------------------------------------- operations

  function GetStep(st: CacheState, key: Key, now: int): (CacheState, Option<Bytes>) {
    if key !in st.items then (st, None)
    else if now > st.items[key].expiresAt then (RemoveKeys(st, {key}), None)
    else (st.(order := [key] + Minus(st.order, {key})), Some(st.items[key].result))
  }

  predicate Accepts(cfg: Config, result: Bytes) {
    !(cfg.maxSize > 0 && |result| > cfg.maxSize)
  }

  /** evictOldest when the cache is full. */
  function Evicted(cfg: Config, st: CacheState): CacheState
    requires ValidOrder(st)
  {
    if cfg.maxEntries > 0 && |st.order| >= cfg.maxEntries && st.order != []
    then RemoveKeys(st, {st.order[|st.order| - 1]})
    else st
  }

  function SetStep(cfg: Config, st: CacheState, key: Key, result: Bytes, tables: seq<string>, now: int): CacheState
    requires ValidOrder(st)
  {
    var e := Entry(result, tables, now + cfg.ttl);
    if !Accepts(cfg, result) then st
    else if key in st.items then
      CacheState(st.items[key := e], [key] + Minus(st.order, {key}), IndexAdd(st.index, tables, key))
    else
      var st' := Evicted(cfg, st);
      CacheState(st'.items[key := e], [key] + st'.order, IndexAdd(st'.index, tables, key))
  }

  /** The live keys listed under a table. */
  function KeysOf(st: CacheState, table: string): set<Key> {
    if table in st.index then st.index[table] * st.items.Keys else {}
  }

  function InvalidateStep(st: CacheState, table: string): CacheState {
    if table !in st.index then st
    else
      var st' := RemoveKeys(st, KeysOf(st, table));
      st'.(index := st'.index - {table})
  }

  const Empty := CacheState(map[], [], map[])

  // ---------------------------------------------------------------- agreement of the three parts

  predicate Distinct(order: seq<Key>) {
    forall i, j :: 0 <= i < j < |order| ==> order[i] != order[j]
  }

  /** Map and list hold the same keys, each listed once. */
  ghost predicate Paired(st: CacheState) {
    Distinct(st.order) && forall k :: k in st.order <==> k in st.items
  }

  /** Every live entry is listed under all its tables, and no index set is empty. */
  ghost predicate Indexed(st: CacheState) {
    && (forall k, t :: k in st.items && t in st.items[k].tables ==> t in st.index && k in st.index[t])
    && (forall t :: t in st.index ==> st.index[t] != {})
  }

  predicate Bounded(cfg: Config, st: CacheState) {
    cfg.maxEntries > 0 ==> |st.order| <= cfg.maxEntries
  }

  ghost predicate Valid(cfg: Config, st: CacheState) {
    Paired(st) && Indexed(st) && Bounded(cfg, st)
  }

  lemma {:induction false} MinusDistinct(order: seq<Key>, gone: set<Key>)
    requires Distinct(order)
    ensures Distinct(Minus(order, gone))
  {
    if order != [] {
      assert Distinct(order[1..]);
      MinusDistinct(order[1..], gone);
    }
  }

  lemma {:induction false} MinusOne(order: seq<Key>, key: Key)
    requires Distinct(order)
    ensures |Minus(order, {key})| == |order| - if key in order then 1 else 0
    ensures key !in order ==> Minus(order, {key}) == order
  {
    if order != [] {
      assert Distinct(order[1..]);
      MinusOne(order[1..], key);
    }
  }

  /** Taking keys out of map and list alike. */
  lemma RemovePaired(st: CacheState, gone: set<Key>)
    requires Paired(st) && gone <= st.items.Keys
    ensures Paired(CacheState(st.items - gone, Minus(st.order, gone), map[]))
  {
    hide Minus;
    MinusDistinct(st.order, gone);
  }

  lemma RemoveIndexed(st: CacheState, gone: set<Key>)
    requires Indexed(st) && gone <= st.items.Keys
    ensures Indexed(RemoveKeys(st, gone))
  {
    hide Minus;
    var st' := RemoveKeys(st, gone);
    forall k, t | k in st'.items && t in st'.items[k].tables ensures t in st'.index && k in st'.index[t] {
      assert k in Listed(st, gone, t);
    }
  }

  lemma RemoveValid(cfg: Config, st: CacheState, gone: set<Key>)
    requires Valid(cfg, st) && gone <= st.items.Keys
    ensures Valid(cfg, RemoveKeys(st, gone))
  {
    hide Minus, Indexed, Distinct, Listed;
    RemovePaired(st, gone);
    RemoveIndexed(st, gone);
  }

  /** Moving or putting a key to the front. */
  lemma FrontPaired(items: map<Key, Entry>, order: seq<Key>, key: Key, e: Entry)
    requires Distinct(order) && key !in order && forall k :: k != key ==> (k in order <==> k in items)
    ensures Paired(CacheState(items[key := e], [key] + order, map[]))
  {}

  lemma AddIndexed(items: map<Key, Entry>, index: map<string, set<Key>>, key: Key, e: Entry)
    requires Indexed(CacheState(items, [], index))
    ensures Indexed(CacheState(items[key := e], [], IndexAdd(index, e.tables, key)))
  {
    hide IndexAdd;
    var r := IndexAdd(index, e.tables, key);
    forall t | t in r ensures r[t] != {} {
      if t in index {
        var k :| k in index[t];
        assert k in r[t];
      } else {
        assert key in r[t];
      }
    }
  }

  /** Whether map and list are paired, or the index complete, does not depend on the third part. */
  lemma PartsOnly(st: CacheState, items: map<Key, Entry>, order: seq<Key>, index: map<string, set<Key>>)
    ensures Paired(CacheState(items, order, map[])) ==> Paired(CacheState(items, order, index))
    ensures Indexed(CacheState(items, [], index)) ==> Indexed(CacheState(items, order, index))
    ensures Indexed(st) ==> Indexed(CacheState(st.items, [], st.index))
  {
    hide Distinct;
  }

  lemma GetValid(cfg: Config, st: CacheState, key: Key, now: int)
    requires Valid(cfg, st)
    ensures Valid(cfg, GetStep(st, key, now).0)
  {
    hide RemoveKeys, Minus, Indexed, Distinct;
    if key in st.items {
      if now > st.items[key].expiresAt {
        RemoveValid(cfg, st, {key});
      } else {
        MinusDistinct(st.order, {key});
        MinusOne(st.order, key);
        FrontPaired(st.items, Minus(st.order, {key}), key, st.items[key]);
        assert st.items[key := st.items[key]] == st.items;
        PartsOnly(st, st.items, [key] + Minus(st.order, {key}), st.index);
      }
    }
  }

  lemma EvictedValid(cfg: Config, st: CacheState)
    requires Valid(cfg, st)
    ensures var st' := Evicted(cfg, st);
            && Valid(cfg, st') && (cfg.maxEntries > 0 ==> |st'.order| < cfg.maxEntries)
            && (forall k :: k in st'.items ==> k in st.items && st'.items[k] == st.items[k])
  {
    hide Minus, Indexed, Distinct, Listed;
    if cfg.maxEntries > 0 && |st.order| >= cfg.maxEntries && st.order != [] {
      var last := st.order[|st.order| - 1];
      RemoveValid(cfg, st, {last});
      MinusOne(st.order, last);
    }
  }

  lemma SetValid(cfg: Config, st: CacheState, key: Key, result: Bytes, tables: seq<string>, now: int)
    requires Valid(cfg, st)
    ensures Valid(cfg, SetStep(cfg, st, key, result, tables, now))
  {
    hide Evicted, IndexAdd, Minus, Indexed, Distinct;
    if Accepts(cfg, result) {
      var e := Entry(result, tables, now + cfg.ttl);
      var moved := key in st.items;
      EvictedValid(cfg, st);
      var st' := if moved then st else Evicted(cfg, st);
      MinusDistinct(st.order, {key});
      MinusOne(st.order, key);
      var order := if moved then Minus(st.order, {key}) else st'.order;
      FrontPaired(st'.items, order, key, e);
      PartsOnly(st', st'.items, st'.order, st'.index);
      AddIndexed(st'.items, st'.index, key, e);
      PartsOnly(st', st'.items[key := e], [key] + order, IndexAdd(st'.index, tables, key));
    }
  }

  lemma InvalidateValid(cfg: Config, st: CacheState, table: string)
    requires Valid(cfg, st)
    ensures Valid(cfg, InvalidateStep(st, table))
  {
    hide Minus, Distinct, Listed;
    if table in st.index {
      var gone := KeysOf(st, table);
      RemoveValid(cfg, st, gone);
      var st' := RemoveKeys(st, gone);
      forall k | k in st'.items ensures table !in st'.items[k].tables {
        assert k !in st.index[table];
      }
    }
  }

  // ---------------------------------------------------------------- the cache as an object

  lemma {:induction false} MinusTwice(order: seq<Key>, a: set<Key>, b: set<Key>)
    ensures Minus(Minus(order, a), b) == Minus(order, a + b)
  {
    if order != [] {
      MinusTwice(order[1..], a, b);
      if order[0] !in a {
        assert ([order[0]] + Minus(order[1..], a))[1..] == Minus(order[1..], a);
      } else {
        assert [] + Minus(order[1..], a) == Minus(order[1..], a);
      }
    }
  }

  lemma {:induction false} MinusNone(order: seq<Key>)
    ensures Minus(order, {}) == order
  {
    if order != [] {
      MinusNone(order[1..]);
    }
  }

  /** Removing keys one after the other is removing them at once. */
  lemma RemoveMore(st: CacheState, gone: set<Key>, key: Key)
    requires gone <= st.items.Keys && key in st.items && key !in gone
    ensures key in RemoveKeys(st, gone).items
    ensures RemoveKeys(RemoveKeys(st, gone), {key}) == RemoveKeys(st, gone + {key})
  {
    hide Minus;
    MinusTwice(st.order, gone, {key});
    var a, b := RemoveKeys(RemoveKeys(st, gone), {key}), RemoveKeys(st, gone + {key});
    var mid := RemoveKeys(st, gone);
    assert a.items == b.items;
    forall t | t in st.index ensures t in mid.index ==> Listed(mid, {key}, t) == Listed(st, gone + {key}, t) {}
    forall t | t in st.index && t !in mid.index ensures Listed(st, gone + {key}, t) == {} {
      assert Listed(st, gone + {key}, t) <= Listed(st, gone, t);
    }
    assert a.index == b.index;
  }

  lemma RemoveNone(st: CacheState)
    requires Indexed(st)
    ensures RemoveKeys(st, {}) == st
  {
    MinusNone(st.order);
    forall t | t in st.index ensures Listed(st, {}, t) == st.index[t] {}
    assert st.items - {} == st.items;
    assert RemoveKeys(st, {}).index == st.index;
  }

  /** The index after removeElement has visited these tables. */
  function Cleaned(index: map<string, set<Key>>, tables: seq<string>, key: Key): map<string, set<Key>> {
    map t | t in index && !(t in tables && index[t] == {key}) :: if t in tables then index[t] - {key} else index[t]
  }

  lemma CleanedNone(index: map<string, set<Key>>, key: Key)
    ensures Cleaned(index, [], key) == index
  {}

  /** Visiting one more table. */
  lemma CleanedMore(index: map<string, set<Key>>, tables: seq<string>, i: nat, key: Key)
    requires i < |tables| && forall t :: t in index ==> index[t] != {}
    ensures var done, t := Cleaned(index, tables[..i], key), tables[i];
            Cleaned(index, tables[..i + 1], key) ==
              if t !in done then done else if done[t] - {key} == {} then done - {t} else done[t := done[t] - {key}]
  {
    var done, t := Cleaned(index, tables[..i], key), tables[i];
    var more := Cleaned(index, tables[..i + 1], key);
    assert forall u :: u in tables[..i + 1] <==> u in tables[..i] || u == t;
    if t in done {
      assert done[t] - {key} == {} <==> index[t] == {key};
      assert index[t] != {key} ==> more[t] == done[t] - {key};
    }
  }

  lemma CleanedIsListed(st: CacheState, key: Key)
    requires Indexed(st) && key in st.items
    ensures Cleaned(st.index, st.items[key].tables, key) == RemoveKeys(st, {key}).index
    ensures forall t :: t in st.index ==> st.index[t] != {}
  {
    hide Minus;
    var tables := st.items[key].tables;
    forall t | t in st.index
      ensures Listed(st, {key}, t) == if t in tables then st.index[t] - {key} else st.index[t]
      ensures Listed(st, {key}, t) == {} <==> t in tables && st.index[t] == {key}
    {
      assert t in tables ==> key in st.index[t];
    }
  }

  class Cache {
    const cfg: Config
    var items: map<Key, Entry>
    var evictList: seq<Key>
    var tableIndex: map<string, set<Key>>

    ghost function State(): CacheState
      reads this
    {
      CacheState(items, evictList, tableIndex)
    }

    constructor (cfg: Config)
      ensures this.cfg == cfg && State() == Empty && Valid(cfg, State())
    {
      this.cfg, items, evictList, tableIndex := cfg, map[], [], map[];
    }

    /** removeElement. */
    method RemoveElement(key: Key)
      requires Indexed(State()) && key in items
      modifies this
      ensures State() == RemoveKeys(old(State()), {key})
    {
      hide Minus, Indexed;
      CleanedIsListed(State(), key);
      var e := items[key];
      evictList := Minus(evictList, {key});
      items := items - {key};
      CleanIndex(e.tables, key);
    }

    /** The loop of removeElement over the entry's tables. */
    method CleanIndex(tables: seq<string>, key: Key)
      requires forall t :: t in tableIndex ==> tableIndex[t] != {}
      modifies this`tableIndex
      ensures tableIndex == Cleaned(old(tableIndex), tables, key)
    {
      hide Cleaned;
      CleanedNone(tableIndex, key);
      for i := 0 to |tables|
        invariant tableIndex == Cleaned(old(tableIndex), tables[..i], key)
        invariant forall t :: t in tableIndex ==> tableIndex[t] != {}
      {
        var t := tables[i];
        CleanedMore(old(tableIndex), tables, i, key);
        if t in tableIndex {
          var keys := tableIndex[t] - {key};
          if keys == {} {
            tableIndex := tableIndex - {t};
          } else {
            tableIndex := tableIndex[t := keys];
          }
        }
      }
      assert tables[..|tables|] == tables;
    }

    method Get(key: Key, now: int) returns (r: Option<Bytes>)
      requires Valid(cfg, State())
      modifies this
      ensures (State(), r) == GetStep(old(State()), key, now)
      ensures Valid(cfg, State())
    {
      hide Minus, Valid, RemoveKeys;
      GetValid(cfg, State(), key, now);
      ValidIndexed(cfg, State());
      if key !in items {
        return None;
      }
      var e := items[key];
      if now > e.expiresAt {
        RemoveElement(key);
        return None;
      }
      evictList := [key] + Minus(evictList, {key});
      return Some(e.result);
    }

    method Set(key: Key, result: Bytes, tables: seq<string>, now: int)
      requires Valid(cfg, State())
      modifies this
      ensures ValidOrder(old(State()))
      ensures State() == SetStep(cfg, old(State()), key, result, tables, now)
      ensures Valid(cfg, State())
    {
      hide Minus, Valid, IndexAdd, RemoveKeys;
      ValidIndexed(cfg, State());
      SetValid(cfg, State(), key, result, tables, now);
      if cfg.maxSize > 0 && |result| > cfg.maxSize {
        return;
      }
      var e := Entry(result, tables, now + cfg.ttl);
      if key in items {
        evictList := [key] + Minus(evictList, {key});
        items := items[key := e];
        UpdateTableIndex(key, tables);
        return;
      }
      if cfg.maxEntries > 0 && |evictList| >= cfg.maxEntries {
        EvictOldest();
      }
      evictList := [key] + evictList;
      items := items[key := e];
      UpdateTableIndex(key, tables);
    }

    method EvictOldest()
      requires Indexed(State()) && ValidOrder(State())
      modifies this
      ensures State() == if old(evictList) == [] then old(State())
                         else RemoveKeys(old(State()), {old(evictList)[|old(evictList)| - 1]})
    {
      if evictList != [] {
        RemoveElement(evictList[|evictList| - 1]);
      }
    }

    method UpdateTableIndex(key: Key, tables: seq<string>)
      modifies this`tableIndex
      ensures tableIndex == IndexAdd(old(tableIndex), tables, key)
    {
      for i := 0 to |tables|
        invariant IndexAdd(tableIndex, tables[i..], key) == IndexAdd(old(tableIndex), tables, key)
      {
        var t := tables[i];
        assert tables[i..][1..] == tables[i + 1..];
        tableIndex := tableIndex[t := (if t in tableIndex then tableIndex[t] else {}) + {key}];
      }
    }

    method InvalidateTable(table: string)
      requires Valid(cfg, State())
      modifies this
      ensures State() == InvalidateStep(old(State()), table)
      ensures Valid(cfg, State())
    {
      hide Minus, RemoveKeys, Valid, Indexed, ValidOrder, KeysOf;
      ghost var st := State();
      InvalidateValid(cfg, st, table);
      ValidIndexed(cfg, st);
      if table !in tableIndex {
        return;
      }
      RemoveNone(st);
      var todo := tableIndex[table];
      ghost var gone: set<Key> := {};
      NothingGone(st, table);
      while todo != {}
        invariant Valid(cfg, State()) && gone <= st.items.Keys && todo <= st.index[table]
        invariant State() == RemoveKeys(st, gone)
        invariant gone == KeysOf(st, table) - todo
        decreases |todo|
      {
        var key :| key in todo;
        GoneStep(st, table, gone, todo, key);
        RemoveKeysKeys(st, gone);
        todo := todo - {key};
        if key in items {
          RemoveMore(st, gone, key);
          ValidIndexed(cfg, State());
          RemoveValid(cfg, State(), {key});
          RemoveElement(key);
          gone := gone + {key};
        }
      }
      assert gone == KeysOf(st, table);
      tableIndex := tableIndex - {table};
    }

    method FlushAll()
      modifies this
      ensures State() == Empty && Valid(cfg, State())
    {
      items, evictList, tableIndex := map[], [], map[];
    }
  }

  lemma NothingGone(st: CacheState, table: string)
    requires table in st.index
    ensures KeysOf(st, table) - st.index[table] == {}
  {}

  /** Bookkeeping of the invalidation loop: the next key is removed if it is live. */
  lemma GoneStep(st: CacheState, table: string, gone: set<Key>, todo: set<Key>, key: Key)
    requires table in st.index && key in todo && todo <= st.index[table] && gone == KeysOf(st, table) - todo
    ensures key !in gone && (key in st.items <==> key in st.items.Keys - gone)
    ensures KeysOf(st, table) - (todo - {key}) == if key in st.items then gone + {key} else gone
  {}

  lemma RemoveKeysKeys(st: CacheState, gone: set<Key>)
    requires gone <= st.items.Keys
    ensures RemoveKeys(st, gone).items.Keys == st.items.Keys - gone
  {}

  predicate ValidOrder(st: CacheState) {
    forall k :: k in st.order ==> k in st.items
  }

  lemma ValidIndexed(cfg: Config, st: CacheState)
    requires Valid(cfg, st)
    ensures Indexed(st) && ValidOrder(st)
  {}
}
