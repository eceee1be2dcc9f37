/** The cache against its history: what a hit may return, and which key is evicted, told from the
    calls alone (internal/cache/cache.go). */
module CacheHistory {
  import opened Wrappers
  import opened ResultCache

  datatype Op =
    | Get(key: Key, now: int)
    | Set(key: Key, result: Bytes, tables: seq<string>, now: int)
    | Invalidate(table: string)
    | Flush

  ghost function Step(cfg: Config, st: CacheState, op: Op): (r: CacheState)
    requires Valid(cfg, st)
    ensures Valid(cfg, r)
  {
    match op
    case Get(key, now) => GetValid(cfg, st, key, now); GetStep(st, key, now).0
    case Set(key, result, tables, now) =>
      SetValid(cfg, st, key, result, tables, now); SetStep(cfg, st, key, result, tables, now)
    case Invalidate(table) => InvalidateValid(cfg, st, table); InvalidateStep(st, table)
    case Flush => Empty
  }

  /** The cache after the first n calls of a history. */
  ghost function After(cfg: Config, h: seq<Op>, n: nat): (r: CacheState)
    requires n <= |h|
    ensures Valid(cfg, r)
  {
    if n == 0 then Empty else Step(cfg, After(cfg, h, n - 1), h[n - 1])
  }

  // ---------------------------------------------------------------- the history specification

  /** The call is a Set of this key that is not refused for its size. */
  predicate Stores(cfg: Config, op: Op, key: Key) {
    op.Set? && op.key == key && Accepts(cfg, op.result)
  }

  function EntryOf(cfg: Config, op: Op): Entry
    requires op.Set?
  {
    Entry(op.result, op.tables, op.now + cfg.ttl)
  }

  /** The call ends the life of this entry: a flush, an invalidation of a table it names, or a look
      that finds it expired. */
  predicate Ends(op: Op, key: Key, e: Entry) {
    || op.Flush?
    || (op.Invalidate? && op.table in e.tables)
    || (op.Get? && op.key == key && op.now > e.expiresAt)
  }

  /** Call i is the last accepted Set of key before call n, it stored e, and no call since ended e. */
  ghost predicate Current(cfg: Config, h: seq<Op>, n: nat, i: nat, key: Key, e: Entry) {
    && i < n <= |h| && Stores(cfg, h[i], key) && e == EntryOf(cfg, h[i])
    && (forall j :: i < j < n ==> !Stores(cfg, h[j], key) && !Ends(h[j], key, e))
  }

  // ---------------------------------------------------------------- one call

  /** What one call does to the entry of one key. */
  lemma StepItem(cfg: Config, st: CacheState, op: Op, key: Key)
    requires Valid(cfg, st)
    ensures var st' := Step(cfg, st, op);
            if Stores(cfg, op, key) then key in st'.items && st'.items[key] == EntryOf(cfg, op)
            else key in st'.items ==>
                   key in st.items && st'.items[key] == st.items[key] && !Ends(op, key, st.items[key])
  {
    hide Minus, Distinct, IndexAdd, Listed;
    match op {
      case Get(_, _) =>
      case Set(_, _, _, _) => EvictedValid(cfg, st);
      case Invalidate(table) => InvalidatedItems(cfg, st, table);
      case Flush =>
    }
  }

  /** Every entry that names the table is dropped, the others stay unless listed under it. */
  lemma InvalidatedItems(cfg: Config, st: CacheState, table: string)
    requires Valid(cfg, st)
    ensures var st' := InvalidateStep(st, table);
            && (forall k :: k in st'.items ==> k in st.items && st'.items[k] == st.items[k])
            && (forall k :: k in st'.items ==> table !in st.items[k].tables)
            && (forall k :: k in st.items && !(table in st.index && k in st.index[table]) ==> k in st'.items)
  {
    hide Minus, Distinct, Listed;
  }

  // ---------------------------------------------------------------- hits

  /** Every live entry is the current one of its history. */
  lemma {:induction false} LiveIsCurrent(cfg: Config, h: seq<Op>, n: nat, key: Key) returns (i: nat)
    requires n <= |h| && key in After(cfg, h, n).items
    ensures Current(cfg, h, n, i, key, After(cfg, h, n).items[key])
  {
    hide Step, Valid, Stores, Ends, EntryOf;
    if n == 0 {
      assert false;
    } else {
      StepItem(cfg, After(cfg, h, n - 1), h[n - 1], key);
      if Stores(cfg, h[n - 1], key) {
        i := n - 1;
      } else {
        i := LiveIsCurrent(cfg, h, n - 1, key);
      }
    }
  }

  /** A hit returns the last accepted Set of its key, unexpired, and later than the last flush and
      than the last invalidation of each table that Set named. */
  lemma HitIsCurrent(cfg: Config, h: seq<Op>, n: nat, r: Bytes)
    requires n < |h| && h[n].Get? && GetStep(After(cfg, h, n), h[n].key, h[n].now).1 == Some(r)
    ensures exists i ::
              && 0 <= i < n && Stores(cfg, h[i], h[n].key) && h[i].result == r
              && h[n].now <= h[i].now + cfg.ttl
              && (forall j :: i < j < n ==> !Stores(cfg, h[j], h[n].key))
              && (forall j :: i < j < n ==> !h[j].Flush? && !(h[j].Invalidate? && h[j].table in h[i].tables))
  {
    var i := LiveIsCurrent(cfg, h, n, h[n].key);
  }

  /** A refused Set leaves the older result in place: a hit returns the result of the last Set of its
      key, of whatever size, if and only if that Set was accepted. */
  lemma HitIsLastSetExactly(cfg: Config, h: seq<Op>, n: nat, l: nat, r: Bytes)
    requires n < |h| && h[n].Get? && GetStep(After(cfg, h, n), h[n].key, h[n].now).1 == Some(r)
    requires l < n && h[l].Set? && h[l].key == h[n].key
    requires forall j :: l < j < n ==> !(h[j].Set? && h[j].key == h[n].key)
    ensures r == h[l].result <==> Accepts(cfg, h[l].result)
  {
    hide Minus, RemoveKeys, Valid, Step;
    var i := LiveIsCurrent(cfg, h, n, h[n].key);
    assert Accepts(cfg, h[l].result) ==> Stores(cfg, h[l], h[n].key);
  }

  /** A Set right before a Get of its key is what the Get returns, unexpired, if and only if the result is
      not longer than the limit, where a limit that is not positive is none; a longer one changes nothing. */
  lemma SetThenGet(cfg: Config, st: CacheState, key: Key, result: Bytes, tables: seq<string>, now: int, later: int)
    requires Valid(cfg, st)
    ensures var st' := Step(cfg, st, Set(key, result, tables, now));
            && (cfg.maxSize > 0 && |result| > cfg.maxSize ==> st' == st)
            && (!(cfg.maxSize > 0 && |result| > cfg.maxSize) ==>
                  GetStep(st', key, later).1 == if later <= now + cfg.ttl then Some(result) else None)
  {
    hide Minus, Valid, RemoveKeys;
    StepItem(cfg, st, Set(key, result, tables, now), key);
  }

  /** Such a hit: the older result comes back after a refused Set. */
  lemma OversizeSetKeepsOld()
    ensures var cfg := Config(1, 5, 1);
            var h := [Set(1, [7], [], 0), Set(1, [8, 8], [], 1), Get(1, 2)];
            GetStep(After(cfg, h, 2), 1, 2).1 == Some([7])
  {
    var cfg := Config(1, 5, 1);
    var h := [Set(1, [7], [], 0), Set(1, [8, 8], [], 1), Get(1, 2)];
    StepItem(cfg, After(cfg, h, 0), h[0], 1);
    assert After(cfg, h, 1) == Step(cfg, After(cfg, h, 0), h[0]);
    assert After(cfg, h, 2) == Step(cfg, After(cfg, h, 1), h[1]);
  }

  // ---------------------------------------------------------------- tables that do not change

  /** Nothing is listed under a table but live entries that name it. */
  ghost predicate Exact(st: CacheState) {
    forall t, k :: t in st.index && k in st.index[t] ==> k in st.items && t in st.items[k].tables
  }

  function TableSet(tables: seq<string>): set<string> {
    set t | t in tables
  }

  /** Accepted Sets of a key always name the same tables, in any order. */
  ghost predicate Consistent(cfg: Config, h: seq<Op>, tablesOf: Key -> set<string>) {
    forall i :: 0 <= i < |h| && h[i].Set? && Accepts(cfg, h[i].result) ==> TableSet(h[i].tables) == tablesOf(h[i].key)
  }

  ghost predicate Tabled(st: CacheState, tablesOf: Key -> set<string>) {
    forall k :: k in st.items ==> TableSet(st.items[k].tables) == tablesOf(k)
  }

  lemma RemoveExact(st: CacheState, gone: set<Key>)
    requires Exact(st) && gone <= st.items.Keys
    ensures Exact(RemoveKeys(st, gone))
  {
    hide Minus;
  }

  lemma EvictedExact(cfg: Config, st: CacheState)
    requires Exact(st) && Valid(cfg, st)
    ensures Exact(Evicted(cfg, st))
  {
    hide RemoveKeys, Exact, Distinct, Indexed;
    if cfg.maxEntries > 0 && |st.order| >= cfg.maxEntries && st.order != [] {
      RemoveExact(st, {st.order[|st.order| - 1]});
    }
  }

  lemma AddExact(items: map<Key, Entry>, order: seq<Key>, index: map<string, set<Key>>, key: Key, e: Entry)
    requires Exact(CacheState(items, [], index)) && (key in items ==> TableSet(items[key].tables) == TableSet(e.tables))
    ensures Exact(CacheState(items[key := e], order, IndexAdd(index, e.tables, key)))
  {
    hide IndexAdd;
    forall t | key in items && t in items[key].tables ensures t in e.tables {
      assert t in TableSet(items[key].tables);
    }
  }

  lemma ExactParts(st: CacheState)
    requires Exact(st)
    ensures Exact(CacheState(st.items, [], st.index))
  {}

  lemma StepTabled(cfg: Config, st: CacheState, op: Op, tablesOf: Key -> set<string>)
    requires Valid(cfg, st) && Tabled(st, tablesOf)
    requires op.Set? && Accepts(cfg, op.result) ==> TableSet(op.tables) == tablesOf(op.key)
    ensures Tabled(Step(cfg, st, op), tablesOf)
  {
    hide Step, Valid;
    forall k | k in Step(cfg, st, op).items ensures TableSet(Step(cfg, st, op).items[k].tables) == tablesOf(k) {
      StepItem(cfg, st, op, k);
    }
  }

  lemma SetExact(cfg: Config, st: CacheState, key: Key, result: Bytes, tables: seq<string>, now: int)
    requires Valid(cfg, st) && Exact(st)
    requires Accepts(cfg, result) && key in st.items ==> TableSet(tables) == TableSet(st.items[key].tables)
    ensures Exact(SetStep(cfg, st, key, result, tables, now))
  {
    hide Minus, Indexed, Distinct, RemoveKeys, IndexAdd, Exact, Evicted, TableSet;
    if Accepts(cfg, result) {
      EvictedValid(cfg, st);
      EvictedExact(cfg, st);
      var st' := if key in st.items then st else Evicted(cfg, st);
      ExactParts(st');
      var order := [key] + if key in st.items then Minus(st.order, {key}) else st'.order;
      AddExact(st'.items, order, st'.index, key, Entry(result, tables, now + cfg.ttl));
    }
  }

  lemma StepExact(cfg: Config, st: CacheState, op: Op, tablesOf: Key -> set<string>)
    requires Valid(cfg, st) && Exact(st) && Tabled(st, tablesOf)
    requires op.Set? && Accepts(cfg, op.result) ==> TableSet(op.tables) == tablesOf(op.key)
    ensures Exact(Step(cfg, st, op))
  {
    hide Minus, Valid, RemoveKeys, SetStep, TableSet;
    match op {
      case Get(key, now) =>
        if key in st.items && now > st.items[key].expiresAt {
          RemoveExact(st, {key});
        }
      case Set(key, result, tables, now) => SetExact(cfg, st, key, result, tables, now);
      case Invalidate(table) =>
        if table in st.index {
          RemoveExact(st, KeysOf(st, table));
        }
      case Flush =>
    }
  }

  lemma {:induction false} AfterExact(cfg: Config, h: seq<Op>, n: nat, tablesOf: Key -> set<string>)
    requires n <= |h| && Consistent(cfg, h, tablesOf)
    ensures Exact(After(cfg, h, n)) && Tabled(After(cfg, h, n), tablesOf)
  {
    hide Step, Valid;
    if n > 0 {
      AfterExact(cfg, h, n - 1, tablesOf);
      hide Exact, Tabled;
      StepTabled(cfg, After(cfg, h, n - 1), h[n - 1], tablesOf);
      StepExact(cfg, After(cfg, h, n - 1), h[n - 1], tablesOf);
    }
  }

  // ---------------------------------------------------------------- eviction

  /** The position of the last call that looked up or stored the key, or -1. */
  function LastUse(cfg: Config, h: seq<Op>, n: nat, key: Key): int
    requires n <= |h|
  {
    if n == 0 then -1
    else if Stores(cfg, h[n - 1], key) || (h[n - 1].Get? && h[n - 1].key == key) then n - 1
    else LastUse(cfg, h, n - 1, key)
  }

  /** The list runs from recent to old under a given time of use. */
  ghost predicate Recent(order: seq<Key>, use: Key -> int) {
    forall i, j :: 0 <= i < j < |order| ==> use(order[i]) > use(order[j])
  }

  lemma {:induction false} MinusRecent(order: seq<Key>, gone: set<Key>, use: Key -> int)
    requires Recent(order, use)
    ensures Recent(Minus(order, gone), use)
  {
    if order != [] {
      var rest := order[1..];
      assert forall i :: 0 <= i < |rest| ==> use(order[0]) > use(rest[i]);
      MinusRecent(rest, gone, use);
      var m := Minus(rest, gone);
      forall k | k in m ensures use(order[0]) > use(k) {
        assert k in rest;
      }
    }
  }

  /** The list after a call: some keys gone, and the key just used, if any, in front. */
  ghost predicate OrderStep(cfg: Config, st: CacheState, op: Op, after: seq<Key>, gone: set<Key>) {
    && after == (if (op.Get? || op.Set?) && Uses(cfg, st, op, op.key)
                 then [op.key] + Minus(st.order, gone) else Minus(st.order, gone))
    && (op.Get? || (op.Set? && Stores(cfg, op, op.key)) ==> op.key !in Minus(st.order, gone))
  }

  lemma GetOrder(cfg: Config, st: CacheState, key: Key, now: int)
    requires Valid(cfg, st)
    ensures OrderStep(cfg, st, Get(key, now), GetStep(st, key, now).0.order, if key in st.items then {key} else {})
  {
    hide Indexed, Distinct, Minus, Listed;
    MinusNone(st.order);
  }

  /** The key an accepted Set drops from its place in the list: its own, or the one it evicts. */
  function Displaced(cfg: Config, st: CacheState, key: Key): set<Key> {
    if key in st.items then {key}
    else if cfg.maxEntries > 0 && |st.order| >= cfg.maxEntries && st.order != [] then {st.order[|st.order| - 1]}
    else {}
  }

  lemma EvictedOrder(cfg: Config, st: CacheState, key: Key)
    requires Valid(cfg, st) && key !in st.items
    ensures Evicted(cfg, st).order == Minus(st.order, Displaced(cfg, st, key))
  {
    hide Indexed, Distinct, Minus, Listed;
    MinusNone(st.order);
  }

  lemma SetOrder(cfg: Config, st: CacheState, op: Op)
    requires Valid(cfg, st) && op.Set?
    ensures OrderStep(cfg, st, op, SetStep(cfg, st, op.key, op.result, op.tables, op.now).order,
                      if Accepts(cfg, op.result) then Displaced(cfg, st, op.key) else {})
  {
    hide Indexed, Distinct, Minus, Evicted, IndexAdd;
    MinusNone(st.order);
    if op.key !in st.items {
      EvictedOrder(cfg, st, op.key);
    }
  }

  lemma InvalidateOrder(cfg: Config, st: CacheState, table: string)
    requires Valid(cfg, st)
    ensures OrderStep(cfg, st, Invalidate(table), InvalidateStep(st, table).order, KeysOf(st, table))
  {
    hide Indexed, Distinct, Minus, Listed;
    MinusNone(st.order);
  }

  lemma StepOrder(cfg: Config, st: CacheState, op: Op) returns (gone: set<Key>)
    requires Valid(cfg, st)
    ensures OrderStep(cfg, st, op, Step(cfg, st, op).order, gone)
  {
    match op {
      case Get(key, now) =>
        hide OrderStep, GetStep;
        gone := if key in st.items then {key} else {};
        GetOrder(cfg, st, key, now);
      case Set(key, result, _, _) =>
        hide OrderStep, SetStep;
        gone := if Accepts(cfg, result) then Displaced(cfg, st, key) else {};
        SetOrder(cfg, st, op);
      case Invalidate(table) =>
        hide OrderStep, InvalidateStep;
        gone := KeysOf(st, table);
        InvalidateOrder(cfg, st, table);
      case Flush =>
        hide Minus;
        gone := st.items.Keys;
        MinusAll(st.order, gone);
    }
  }

  lemma {:induction false} MinusAll(order: seq<Key>, gone: set<Key>)
    requires forall k :: k in order ==> k in gone
    ensures Minus(order, gone) == []
  {
    if order != [] {
      MinusAll(order[1..], gone);
    }
  }

  /** The call is a hit on the key or an accepted Set of it. */
  predicate Uses(cfg: Config, st: CacheState, op: Op, key: Key) {
    || Stores(cfg, op, key)
    || (op.Get? && op.key == key && key in st.items && op.now <= st.items[key].expiresAt)
  }

  /** The recency list is sorted by the last call that used each key, so the key an insertion evicts
      is the one unused for longest. */
  lemma {:induction false} OrderIsRecency(cfg: Config, h: seq<Op>, n: nat)
    requires n <= |h|
    ensures Recent(After(cfg, h, n).order, (k: Key) => LastUse(cfg, h, n, k))
  {
    hide Step, Valid, Minus;
    if n > 0 {
      var st, op := After(cfg, h, n - 1), h[n - 1];
      OrderIsRecency(cfg, h, n - 1);
      var gone := StepOrder(cfg, st, op);
      MinusRecent(st.order, gone, (k: Key) => LastUse(cfg, h, n - 1, k));
      var kept := Minus(st.order, gone);
      forall k | k in kept ensures LastUse(cfg, h, n, k) == LastUse(cfg, h, n - 1, k) < n - 1 {
        LastUseBound(cfg, h, n - 1, k);
      }
    }
  }

  lemma {:induction false} LastUseBound(cfg: Config, h: seq<Op>, n: nat, key: Key)
    requires n <= |h|
    ensures -1 <= LastUse(cfg, h, n, key) < n
  {
    if n > 0 {
      LastUseBound(cfg, h, n - 1, key);
    }
  }

  /** The call removes the key: a flush, an invalidation of a table it is listed under, a look that
      finds it expired, or a new key that finds the cache full and this key at the end of the list. */
  predicate Drops(cfg: Config, st: CacheState, op: Op, key: Key)
    requires key in st.items
  {
    match op
    case Flush => true
    case Invalidate(table) => key in KeysOf(st, table)
    case Get(k, now) => k == key && now > st.items[key].expiresAt
    case Set(k, result, _, _) => Accepts(cfg, result) && k !in st.items && key in Displaced(cfg, st, k)
  }

  lemma StepDrops(cfg: Config, st: CacheState, op: Op, key: Key)
    requires Valid(cfg, st) && key in st.items
    ensures key !in Step(cfg, st, op).items <==> Drops(cfg, st, op, key)
  {
    hide Minus, Distinct, IndexAdd, Listed;
    match op {
      case Get(_, _) =>
      case Set(k, _, _, _) => EvictedValid(cfg, st);
      case Invalidate(table) => InvalidatedItems(cfg, st, table);
      case Flush =>
    }
  }

  /** The key has been used less recently than every other live key. */
  ghost predicate Oldest(cfg: Config, h: seq<Op>, n: nat, key: Key)
    requires n <= |h|
  {
    forall k :: k in After(cfg, h, n).items && k != key ==> LastUse(cfg, h, n, key) < LastUse(cfg, h, n, k)
  }

  lemma LastIsOldest(cfg: Config, h: seq<Op>, n: nat, key: Key)
    requires n <= |h| && key in After(cfg, h, n).items
    ensures var order := After(cfg, h, n).order;
            order != [] && (order[|order| - 1] == key <==> Oldest(cfg, h, n, key))
  {
    hide After, LastUse;
    OrderIsRecency(cfg, h, n);
    var order := After(cfg, h, n).order;
    var use := (k: Key) => LastUse(cfg, h, n, k);
    var m := |order| - 1;
    assert key in order;
    if order[m] == key {
      forall k | k in After(cfg, h, n).items && k != key ensures use(key) < use(k) {
        assert k in order;
        var i :| 0 <= i < |order| && order[i] == k;
        assert use(order[i]) > use(order[m]);
      }
    } else {
      var i :| 0 <= i < |order| && order[i] == key;
      assert use(order[i]) > use(order[m]);
      assert order[m] in After(cfg, h, n).items;
    }
  }

  /** When a live entry leaves the cache, over every sequence of calls and for every capacity: a call
      that neither flushes, nor invalidates a table the key is listed under, nor finds it expired
      removes it if and only if it stores a key that is not live while the list is full and every
      other live key has been used since this one was. */
  lemma EvictedExactly(cfg: Config, h: seq<Op>, n: nat, key: Key)
    requires n < |h| && key in After(cfg, h, n).items
    requires !h[n].Flush? && (h[n].Invalidate? ==> key !in KeysOf(After(cfg, h, n), h[n].table))
    requires h[n].Get? && h[n].key == key ==> h[n].now <= After(cfg, h, n).items[key].expiresAt
    ensures key !in After(cfg, h, n + 1).items <==>
            && h[n].Set? && Stores(cfg, h[n], h[n].key) && h[n].key !in After(cfg, h, n).items
            && 0 < cfg.maxEntries <= |After(cfg, h, n).order| && Oldest(cfg, h, n, key)
  {
    hide Step, Valid, KeysOf, LastUse, Oldest;
    StepDrops(cfg, After(cfg, h, n), h[n], key);
    LastIsOldest(cfg, h, n, key);
  }
}
