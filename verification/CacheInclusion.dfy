/** A larger cache never misses where a smaller one hits: the inclusion property of the recency
    list in internal/cache/cache.go, over whole histories. */
module CacheInclusion {
  import opened Wrappers
  import opened ResultCache
  import opened CacheHistory

  // ---------------------------------------------------------------- subsequences

  predicate Subseq(a: seq<Key>, b: seq<Key>)
    decreases |b|
  {
    || a == []
    || (b != [] && ((a[0] == b[0] && Subseq(a[1..], b[1..])) || Subseq(a, b[1..])))
  }

  lemma {:induction false} SubseqMembers(a: seq<Key>, b: seq<Key>)
    requires Subseq(a, b)
    ensures |a| <= |b| && forall k :: k in a ==> k in b
    decreases |b|
  {
    if a != [] {
      if a[0] == b[0] && Subseq(a[1..], b[1..]) {
        SubseqMembers(a[1..], b[1..]);
        assert a == [a[0]] + a[1..] && b == [b[0]] + b[1..];
      } else {
        SubseqMembers(a, b[1..]);
      }
    }
  }

  lemma SubseqCons(x: Key, a: seq<Key>, b: seq<Key>)
    requires Subseq(a, b)
    ensures Subseq([x] + a, [x] + b) && Subseq(a, [x] + b)
  {
    assert ([x] + a)[1..] == a && ([x] + b)[1..] == b;
  }

  lemma MinusFirst(order: seq<Key>, gone: set<Key>)
    requires order != []
    ensures Minus(order, gone) ==
            if order[0] in gone then Minus(order[1..], gone) else [order[0]] + Minus(order[1..], gone)
  {
    assert [] + Minus(order[1..], gone) == Minus(order[1..], gone);
  }

  /** Removing keys from both lists keeps the smaller a subsequence, and the larger loses at least
      as many. */
  lemma {:induction false} SubseqMinus(a: seq<Key>, b: seq<Key>, gone: set<Key>)
    requires Subseq(a, b)
    ensures Subseq(Minus(a, gone), Minus(b, gone))
    ensures |Minus(b, gone)| - |Minus(a, gone)| <= |b| - |a|
    decreases |b|
  {
    hide Minus;
    if a == [] {
      MinusNone(a);
      MinusSame(a, {}, gone);
    } else if a[0] == b[0] && Subseq(a[1..], b[1..]) {
      hide Subseq;
      SubseqMinus(a[1..], b[1..], gone);
      SubseqCons(a[0], Minus(a[1..], gone), Minus(b[1..], gone));
      MinusFirst(a, gone);
      MinusFirst(b, gone);
    } else {
      assert Subseq(a, b[1..]);
      hide Subseq;
      SubseqMinus(a, b[1..], gone);
      SubseqCons(b[0], Minus(a, gone), Minus(b[1..], gone));
      MinusFirst(b, gone);
    }
  }

  /** Removing keys from the smaller list alone. */
  lemma {:induction false} SubseqDrop(a: seq<Key>, b: seq<Key>, gone: set<Key>)
    requires Subseq(a, b)
    ensures Subseq(Minus(a, gone), b)
    decreases |b|
  {
    hide Minus;
    if a == [] {
      MinusNone(a);
      MinusSame(a, {}, gone);
    } else if a[0] == b[0] && Subseq(a[1..], b[1..]) {
      hide Subseq;
      SubseqDrop(a[1..], b[1..], gone);
      SubseqCons(b[0], Minus(a[1..], gone), b[1..]);
      MinusFirst(a, gone);
      assert b == [b[0]] + b[1..];
    } else {
      assert Subseq(a, b[1..]);
      hide Subseq;
      SubseqDrop(a, b[1..], gone);
      SubseqCons(b[0], Minus(a, gone), b[1..]);
      assert b == [b[0]] + b[1..];
    }
  }

  /** The last key of the larger list is the last of the smaller one, if it is there at all. */
  lemma {:induction false} SubseqLast(a: seq<Key>, b: seq<Key>)
    requires Subseq(a, b) && a != [] && Distinct(b) && b[|b| - 1] in a
    ensures a[|a| - 1] == b[|b| - 1]
    decreases |b|
  {
    assert Distinct(b[1..]);
    if a[0] == b[0] && Subseq(a[1..], b[1..]) {
      SubseqMembers(a[1..], b[1..]);
      if |a| > 1 {
        SubseqLast(a[1..], b[1..]);
      }
    } else {
      SubseqMembers(a, b[1..]);
      SubseqLast(a, b[1..]);
    }
  }

  // ---------------------------------------------------------------- two caches

  /** The same settings but for the capacity, which is positive in the small cache and no less, or
      unlimited, in the large one. */
  predicate Ordered(small: Config, large: Config) {
    && small.ttl == large.ttl && small.maxSize == large.maxSize && small.maxEntries > 0
    && (large.maxEntries <= 0 || small.maxEntries <= large.maxEntries)
  }

  /** The large cache may be longer by no more than the difference of the capacities. */
  predicate Slack(small: Config, large: Config, a: seq<Key>, b: seq<Key>) {
    large.maxEntries > 0 ==> |b| - |a| <= large.maxEntries - small.maxEntries
  }

  ghost predicate Agree(a: map<Key, Entry>, b: map<Key, Entry>) {
    forall k :: k in a && k in b ==> a[k] == b[k]
  }

  ghost predicate Included(small: Config, large: Config, a: CacheState, b: CacheState) {
    Subseq(a.order, b.order) && Slack(small, large, a.order, b.order) && Agree(a.items, b.items)
  }

  /** Live keys of the small cache are live in the large one. */
  lemma IncludedKeys(small: Config, large: Config, a: CacheState, b: CacheState)
    requires Valid(small, a) && Valid(large, b) && Included(small, large, a, b)
    ensures forall k :: k in a.items ==> k in b.items && a.items[k] == b.items[k]
  {
    hide Subseq, Distinct, Indexed;
    SubseqMembers(a.order, b.order);
    forall k | k in a.items ensures k in b.items {
      assert k in a.order;
    }
  }

  /** What a call does to entries it keeps does not depend on the capacity. */
  lemma StepAgree(small: Config, large: Config, a: CacheState, b: CacheState, op: Op)
    requires Ordered(small, large) && Valid(small, a) && Valid(large, b) && Agree(a.items, b.items)
    ensures Agree(Step(small, a, op).items, Step(large, b, op).items)
  {
    hide Step, Valid;
    var a', b' := Step(small, a, op), Step(large, b, op);
    forall k | k in a'.items && k in b'.items ensures a'.items[k] == b'.items[k] {
      StepItem(small, a, op, k);
      StepItem(large, b, op, k);
    }
  }

  // ---------------------------------------------------------------- the lists, call by call

  ghost predicate Lists(small: Config, large: Config, a: seq<Key>, b: seq<Key>) {
    Subseq(a, b) && Slack(small, large, a, b)
  }

  lemma GetLists(small: Config, large: Config, a: CacheState, b: CacheState, key: Key, now: int)
    requires Ordered(small, large) && Valid(small, a) && Valid(large, b) && Included(small, large, a, b)
    ensures Lists(small, large, GetStep(a, key, now).0.order, GetStep(b, key, now).0.order)
  {
    hide Subseq, Distinct, Indexed, Minus, Listed;
    IncludedKeys(small, large, a, b);
    if key in b.items {
      SubseqMinus(a.order, b.order, {key});
      SubseqCons(key, Minus(a.order, {key}), Minus(b.order, {key}));
      MinusOne(a.order, key);
      MinusOne(b.order, key);
    }
  }

  /** A key new to the small cache goes in front of both lists. */
  lemma InsertLists(small: Config, large: Config, a: CacheState, b: CacheState, key: Key)
    requires Ordered(small, large) && Valid(small, a) && Valid(large, b) && Included(small, large, a, b)
    requires key !in a.items
    ensures Lists(small, large, [key] + Evicted(small, a).order,
                  [key] + if key in b.items then Minus(b.order, {key}) else Evicted(large, b).order)
  {
    hide Subseq, Indexed, Minus, Listed, Distinct;
    var gone := if a.order != [] then {a.order[|a.order| - 1]} else {};
    var full := |a.order| >= small.maxEntries;
    MinusOne(a.order, key);
    MinusOne(b.order, key);
    if a.order != [] {
      MinusOne(a.order, a.order[|a.order| - 1]);
    }
    var a' := Evicted(small, a).order;
    assert a' == if full then Minus(a.order, gone) else a.order;
    if key in b.items {
      SubseqMinus(a.order, b.order, {key});
      SubseqDrop(a.order, Minus(b.order, {key}), gone);
      SubseqCons(key, a', Minus(b.order, {key}));
    } else if large.maxEntries > 0 && |b.order| >= large.maxEntries {
      assert full;
      BothEvict(a.order, b.order);
      SubseqCons(key, a', Evicted(large, b).order);
    } else {
      SubseqDrop(a.order, b.order, gone);
      SubseqCons(key, a', b.order);
    }
  }

  /** Both caches are full: each drops its own last key. */
  lemma BothEvict(a: seq<Key>, b: seq<Key>)
    requires Subseq(a, b) && Distinct(a) && Distinct(b) && a != [] && b != []
    ensures Subseq(Minus(a, {a[|a| - 1]}), Minus(b, {b[|b| - 1]}))
    ensures |Minus(a, {a[|a| - 1]})| == |a| - 1 && |Minus(b, {b[|b| - 1]})| == |b| - 1
  {
    hide Subseq, Minus, Distinct;
    var la, lb := a[|a| - 1], b[|b| - 1];
    SubseqMinus(a, b, {lb});
    MinusOne(a, la);
    MinusOne(b, lb);
    if lb in a {
      SubseqLast(a, b);
    } else {
      MinusOne(a, lb);
      SubseqDrop(a, Minus(b, {lb}), {la});
    }
  }

  lemma SetLists(small: Config, large: Config, a: CacheState, b: CacheState,
                 key: Key, result: Bytes, tables: seq<string>, now: int)
    requires Ordered(small, large) && Valid(small, a) && Valid(large, b) && Included(small, large, a, b)
    ensures Lists(small, large, SetStep(small, a, key, result, tables, now).order,
                  SetStep(large, b, key, result, tables, now).order)
  {
    hide Subseq, Distinct, Indexed, Minus, IndexAdd, Evicted;
    IncludedKeys(small, large, a, b);
    if key in a.items {
      SubseqMinus(a.order, b.order, {key});
      SubseqCons(key, Minus(a.order, {key}), Minus(b.order, {key}));
      MinusOne(a.order, key);
      MinusOne(b.order, key);
    } else {
      InsertLists(small, large, a, b, key);
    }
  }

  /** Only what is listed matters to a removal. */
  lemma {:induction false} MinusSame(order: seq<Key>, x: set<Key>, y: set<Key>)
    requires forall k :: k in order ==> (k in x <==> k in y)
    ensures Minus(order, x) == Minus(order, y)
  {
    if order != [] {
      MinusSame(order[1..], x, y);
    }
  }

  /** With exact indexes an invalidation removes the keys whose entries name the table. */
  lemma InvalidatedOrder(cfg: Config, st: CacheState, table: string, naming: set<Key>)
    requires Valid(cfg, st) && Exact(st)
    requires forall k :: k in st.items ==> (k in naming <==> table in st.items[k].tables)
    ensures InvalidateStep(st, table).order == Minus(st.order, naming)
  {
    hide Distinct, Listed, Minus;
    MinusSame(st.order, KeysOf(st, table), naming);
    MinusNone(st.order);
  }

  lemma InvalidateLists(small: Config, large: Config, a: CacheState, b: CacheState, table: string)
    requires Ordered(small, large) && Valid(small, a) && Valid(large, b) && Included(small, large, a, b)
    requires Exact(a) && Exact(b)
    ensures Lists(small, large, InvalidateStep(a, table).order, InvalidateStep(b, table).order)
  {
    hide Subseq, Minus, Exact, Valid, InvalidateStep;
    IncludedKeys(small, large, a, b);
    var naming := set k | k in b.items && table in b.items[k].tables;
    InvalidatedOrder(small, a, table, naming);
    InvalidatedOrder(large, b, table, naming);
    SubseqMinus(a.order, b.order, naming);
  }

  lemma StepIncluded(small: Config, large: Config, a: CacheState, b: CacheState, op: Op)
    requires Ordered(small, large) && Valid(small, a) && Valid(large, b) && Included(small, large, a, b)
    requires Exact(a) && Exact(b)
    ensures Included(small, large, Step(small, a, op), Step(large, b, op))
  {
    hide Subseq, Exact, Valid, Slack, Agree, InvalidateStep, SetStep, GetStep;
    StepAgree(small, large, a, b, op);
    match op {
      case Get(key, now) => GetLists(small, large, a, b, key, now);
      case Set(key, result, tables, now) => SetLists(small, large, a, b, key, result, tables, now);
      case Invalidate(table) => InvalidateLists(small, large, a, b, table);
      case Flush => EmptyIncluded(small, large);
    }
  }

  lemma EmptyIncluded(small: Config, large: Config)
    requires Ordered(small, large)
    ensures Included(small, large, Empty, Empty)
  {}

  /** Over every history in which a key always names the same tables, the recency list of the
      small cache is a subsequence of the large one's, with the same entries. */
  lemma {:induction false} Inclusion(small: Config, large: Config, h: seq<Op>, n: nat, tablesOf: Key -> set<string>)
    requires n <= |h| && Ordered(small, large) && Consistent(small, h, tablesOf)
    ensures Included(small, large, After(small, h, n), After(large, h, n))
  {
    hide Step, Valid, Exact, Included, Tabled;
    if n == 0 {
      EmptyIncluded(small, large);
    } else {
      Inclusion(small, large, h, n - 1, tablesOf);
      AfterExact(small, h, n - 1, tablesOf);
      AfterExact(large, h, n - 1, tablesOf);
      StepIncluded(small, large, After(small, h, n - 1), After(large, h, n - 1), h[n - 1]);
    }
  }

  /** So a look that hits in the small cache hits in the large one, with the same result. */
  lemma LargerNeverMisses(small: Config, large: Config, h: seq<Op>, n: nat, tablesOf: Key -> set<string>, r: Bytes)
    requires n < |h| && h[n].Get? && Ordered(small, large) && Consistent(small, h, tablesOf)
    requires GetStep(After(small, h, n), h[n].key, h[n].now).1 == Some(r)
    ensures GetStep(After(large, h, n), h[n].key, h[n].now).1 == Some(r)
  {
    hide Included, Minus, Valid, RemoveKeys;
    Inclusion(small, large, h, n, tablesOf);
    IncludedKeys(small, large, After(small, h, n), After(large, h, n));
  }

  // ---------------------------------------------------------------- changed tables

  /** A key is stored under one list of tables, then n other keys, then the key again under another
      list; then a table is invalidated and the key is looked up. */
  datatype Change = Change(key: Key, first: Bytes, before: seq<string>, second: Bytes, after: seq<string>,
                           table: string, now: int)

  function Changing(c: Change, n: nat): (h: seq<Op>)
    ensures |h| == n + 4 && h[0] == Set(c.key, c.first, c.before, c.now)
    ensures forall d :: 1 <= d <= n ==> h[d] == Set(c.key + d, [], [], c.now)
    ensures h[n + 1] == Set(c.key, c.second, c.after, c.now)
    ensures h[n + 2] == Invalidate(c.table) && h[n + 3] == Get(c.key, c.now)
  {
    [Set(c.key, c.first, c.before, c.now)] + seq(n, (d: nat) => Set(c.key + d + 1, [], [], c.now))
    + [Set(c.key, c.second, c.after, c.now), Invalidate(c.table), Get(c.key, c.now)]
  }

  /** The keys from k + m down to k. */
  function Down(k: Key, m: nat): (r: seq<Key>)
    ensures |r| == m + 1 && r[m] == k && forall x :: x in r <==> k <= x <= k + m
  {
    if m == 0 then [k] else [k + m] + Down(k, m - 1)
  }

  predicate Room(cfg: Config, m: nat) {
    cfg.maxEntries <= 0 || m <= cfg.maxEntries
  }

  lemma NewInFront(cfg: Config, st: CacheState, op: Op)
    requires Valid(cfg, st) && op.Set? && Accepts(cfg, op.result) && op.key !in st.items && Room(cfg, |st.order| + 1)
    ensures Step(cfg, st, op).order == [op.key] + st.order
  {
    hide IndexAdd, Minus, Indexed, Distinct;
  }

  /** As long as there is room, the list holds all keys, the first one last. */
  lemma {:induction false} FillsUp(cfg: Config, c: Change, n: nat, m: nat)
    requires m <= n && Room(cfg, m + 1) && Accepts(cfg, c.first)
    ensures After(cfg, Changing(c, n), m + 1).order == Down(c.key, m)
    decreases m
  {
    hide Step, Changing, Accepts, Down, Valid;
    var h := Changing(c, n);
    var st := After(cfg, h, m);
    DownStep(c.key, m);
    if m == 0 {
      NewInFront(cfg, st, h[0]);
      assert [c.key] + st.order == [c.key];
    } else {
      FillsUp(cfg, c, n, m - 1);
      OrderKeys(cfg, st);
      EmptyAccepted(cfg);
      NewInFront(cfg, st, h[m]);
    }
  }

  lemma DownStep(k: Key, m: nat)
    ensures Down(k, m) == if m == 0 then [k] else [k + m] + Down(k, m - 1)
  {}

  lemma EmptyAccepted(cfg: Config)
    ensures Accepts(cfg, [])
  {}

  lemma OrderKeys(cfg: Config, st: CacheState)
    requires Valid(cfg, st)
    ensures forall k :: k in st.order <==> k in st.items
  {}

  /** A full cache evicts the last key of its list to store a new one. */
  lemma LastGoes(cfg: Config, st: CacheState, op: Op, last: Key)
    requires Valid(cfg, st) && op.Set? && Accepts(cfg, op.result) && op.key !in st.items
    requires cfg.maxEntries > 0 && |st.order| == cfg.maxEntries && st.order[|st.order| - 1] == last
    ensures last !in Step(cfg, st, op).items
  {
    hide IndexAdd, Minus, Indexed, Distinct;
    OrderKeys(cfg, st);
  }

  /** While the key comes only new, the index is exact. */
  lemma {:induction false} FillsExact(cfg: Config, c: Change, n: nat, m: nat)
    requires m <= n && Accepts(cfg, c.first) && Room(cfg, m)
    ensures Exact(After(cfg, Changing(c, n), m + 1))
    decreases m
  {
    hide Exact, Changing, Accepts, SetStep, Valid;
    var h := Changing(c, n);
    var st := After(cfg, h, m);
    if m == 0 {
      EmptyExact();
    } else {
      FillsExact(cfg, c, n, m - 1);
      FillsUp(cfg, c, n, m - 1);
      OrderKeys(cfg, st);
    }
    SetExact(cfg, st, h[m].key, h[m].result, h[m].tables, h[m].now);
  }

  lemma EmptyExact()
    ensures Exact(Empty)
  {}

  /** A cache of n entries evicts the key in between, so its first tables forget it. */
  lemma SmallForgets(cfg: Config, c: Change, n: nat)
    requires n >= 1 && cfg.maxEntries == n && Accepts(cfg, c.first) && Accepts(cfg, c.second)
    ensures var st := After(cfg, Changing(c, n), n + 2);
            && c.key in st.items && st.items[c.key] == Entry(c.second, c.after, c.now + cfg.ttl) && Exact(st)
  {
    hide Valid, SetStep, Exact, Changing, Accepts, Step;
    var h := Changing(c, n);
    FillsUp(cfg, c, n, n - 1);
    var st := After(cfg, h, n);
    OrderKeys(cfg, st);
    EmptyAccepted(cfg);
    LastGoes(cfg, st, h[n], c.key);
    FillsExact(cfg, c, n, n);
    var full := After(cfg, h, n + 1);
    StepItem(cfg, full, h[n + 1], c.key);
    SetAgainExact(cfg, full, h[n + 1]);
  }

  lemma SetAgainExact(cfg: Config, st: CacheState, op: Op)
    requires Valid(cfg, st) && Exact(st) && op.Set? && op.key !in st.items
    ensures Exact(Step(cfg, st, op))
  {
    hide Valid, SetStep, Exact;
    SetExact(cfg, st, op.key, op.result, op.tables, op.now);
  }

  /** A cache with room for one more keeps the key, and keeps it listed under its first tables. */
  lemma LargeRemembers(cfg: Config, c: Change, n: nat)
    requires Room(cfg, n + 1) && Accepts(cfg, c.first) && c.table in c.before
    ensures var st := After(cfg, Changing(c, n), n + 2); c.table in st.index && c.key in st.index[c.table]
  {
    hide Valid, Step, Changing, Accepts;
    var h := Changing(c, n);
    FillsUp(cfg, c, n, n);
    var full := After(cfg, h, n + 1);
    OrderKeys(cfg, full);
    FirstStays(cfg, c, n, n);
    KeepsListing(cfg, full, h[n + 1], c.table);
  }

  lemma {:induction false} FirstStays(cfg: Config, c: Change, n: nat, m: nat)
    requires m <= n && Room(cfg, m + 1) && Accepts(cfg, c.first)
    ensures var st := After(cfg, Changing(c, n), m + 1);
            c.key in st.items && st.items[c.key].tables == c.before
    decreases m
  {
    hide Valid, Step, Changing, Accepts;
    var h := Changing(c, n);
    FillsUp(cfg, c, n, m);
    OrderKeys(cfg, After(cfg, h, m + 1));
    StepItem(cfg, After(cfg, h, m), h[m], c.key);
    if m > 0 {
      FirstStays(cfg, c, n, m - 1);
    }
  }

  /** A Set of a live key leaves it listed under its former tables. */
  lemma KeepsListing(cfg: Config, st: CacheState, op: Op, t: string)
    requires Valid(cfg, st) && op.Set? && op.key in st.items && t in st.items[op.key].tables
    ensures var st' := Step(cfg, st, op); t in st'.index && op.key in st'.index[t]
  {
    hide IndexAdd, Minus, Distinct;
  }

  lemma InvalidateDrops(st: CacheState, table: string, key: Key)
    requires table in st.index && key in st.index[table]
    ensures key !in InvalidateStep(st, table).items
  {
    hide Minus, Listed;
  }

  /** When a key changes its tables the property fails, at every capacity: for every key, every two
      results and every two lists of tables of which the first names a table the second does not,
      there is a look that hits in the small cache and misses in every larger one. */
  lemma ChangedTablesBreakInclusion(small: Config, large: Config, c: Change)
    requires Ordered(small, large) && small.maxEntries != large.maxEntries && small.ttl >= 0
    requires Accepts(small, c.first) && Accepts(small, c.second) && c.table in c.before && c.table !in c.after
    ensures var n: nat := small.maxEntries; var h := Changing(c, n);
            && h[n + 3] == Get(c.key, c.now)
            && GetStep(After(small, h, n + 3), c.key, c.now).1 == Some(c.second)
            && GetStep(After(large, h, n + 3), c.key, c.now).1 == None
  {
    hide Minus, Valid, RemoveKeys, Changing, SetStep;
    var n: nat := small.maxEntries;
    var h := Changing(c, n);
    SmallForgets(small, c, n);
    LargeRemembers(large, c, n);
    var s, l := After(small, h, n + 2), After(large, h, n + 2);
    InvalidatedItems(small, s, c.table);
    InvalidateDrops(l, c.table, c.key);
    assert After(small, h, n + 3) == Step(small, s, h[n + 2]);
    assert After(large, h, n + 3) == Step(large, l, h[n + 2]);
  }

  /** So naming the same tables is what inclusion needs: if a key may be stored under two lists that
      name different tables, in either order, then some history that stores it only under these
      two, and every other key under none, breaks it. */
  lemma SameTablesNeeded(small: Config, large: Config, key: Key, t1: seq<string>, t2: seq<string>)
    returns (h: seq<Op>, n: nat)
    requires Ordered(small, large) && small.maxEntries != large.maxEntries && small.ttl >= 0
    requires TableSet(t1) != TableSet(t2)
    ensures n < |h| && h[n] == Get(key, 0)
    ensures forall i :: 0 <= i < |h| && h[i].Set? ==>
              if h[i].key == key then h[i].tables == t1 || h[i].tables == t2 else h[i].tables == []
    ensures GetStep(After(small, h, n), key, 0).1.Some? && GetStep(After(large, h, n), key, 0).1.None?
  {
    hide After, GetStep, Changing;
    var t :| t in TableSet(t1) <==> t !in TableSet(t2);
    var c := if t in TableSet(t1) then Change(key, [], t1, [], t2, t, 0) else Change(key, [], t2, [], t1, t, 0);
    EmptyAccepted(small);
    ChangedTablesBreakInclusion(small, large, c);
    var cap: nat := small.maxEntries;
    h, n := Changing(c, cap), cap + 3;
    forall i | 0 <= i < |h| && h[i].Set?
      ensures if h[i].key == key then h[i].tables == t1 || h[i].tables == t2 else h[i].tables == []
    {
      if 1 <= i <= cap {
        assert h[i] == Set(key + i, [], [], 0);
      }
    }
  }
}
