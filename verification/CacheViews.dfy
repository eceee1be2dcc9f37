/** An unbounded cache is its history, key by key: over every sequence of calls of
    internal/cache/cache.go without a capacity, what the cache holds of a key, and under which tables
    it lists it, is told from the calls alone. */
module CacheViews {
  import opened Wrappers
  import opened ResultCache
  import opened CacheHistory

  /** What one key has: its live entry, and the tables it is listed under, some of them perhaps from
      earlier Sets. */
  datatype View = View(entry: Option<Entry>, listed: set<string>)

  /** The effect of a call on one key. */
  function StepView(cfg: Config, v: View, op: Op, key: Key): View {
    match op
    case Flush => View(None, {})
    case Get(k, now) =>
      if k == key && v.entry.Some? && now > v.entry.value.expiresAt
      then View(None, v.listed - TableSet(v.entry.value.tables)) else v
    case Set(k, result, tables, _) =>
      if Stores(cfg, op, key) then View(Some(EntryOf(cfg, op)), v.listed + TableSet(tables)) else v
    case Invalidate(t) => InvalidatedView(v, t)
  }

  function InvalidatedView(v: View, t: string): View {
    if t in v.listed && v.entry.Some? then View(None, v.listed - TableSet(v.entry.value.tables) - {t})
    else v.(listed := v.listed - {t})
  }

  /** What the history says of a key after n calls. */
  function ViewAfter(cfg: Config, h: seq<Op>, n: nat, key: Key): View
    requires n <= |h|
  {
    if n == 0 then View(None, {}) else StepView(cfg, ViewAfter(cfg, h, n - 1, key), h[n - 1], key)
  }

  predicate IsListed(st: CacheState, key: Key, t: string) {
    t in st.index && key in st.index[t]
  }

  /** What the cache holds of a key. */
  function ViewOf(st: CacheState, key: Key): View {
    View(if key in st.items then Some(st.items[key]) else None, set t | t in st.index && key in st.index[t])
  }

  // ---------------------------------------------------------------- one call

  lemma RemoveView(st: CacheState, gone: set<Key>, key: Key)
    requires gone <= st.items.Keys
    ensures ViewOf(RemoveKeys(st, gone), key) ==
            if key in gone then View(None, ViewOf(st, key).listed - TableSet(st.items[key].tables)) else ViewOf(st, key)
  {
    hide Minus;
    var a := ViewOf(RemoveKeys(st, gone), key).listed;
    var b := if key in gone then ViewOf(st, key).listed - TableSet(st.items[key].tables) else ViewOf(st, key).listed;
    forall t ensures t in a <==> t in b {
      assert t in st.index ==> (key in Listed(st, gone, t) <==> key in st.index[t] && !(key in gone && t in st.items[key].tables));
    }
  }

  lemma AddView(st: CacheState, key: Key, e: Entry, order: seq<Key>, other: Key)
    ensures ViewOf(CacheState(st.items[key := e], order, IndexAdd(st.index, e.tables, key)), other) ==
            if other == key then View(Some(e), ViewOf(st, key).listed + TableSet(e.tables)) else ViewOf(st, other)
  {
    hide IndexAdd;
    var r := IndexAdd(st.index, e.tables, key);
    var a := set t | t in r && other in r[t];
    var b := ViewOf(st, other).listed + if other == key then TableSet(e.tables) else {};
    forall t ensures t in a <==> t in b {
      assert t in r ==> (other in r[t] <==> IsListed(st, other, t) || (other == key && t in e.tables));
    }
    assert a == b;
  }

  lemma OrderIrrelevant(st: CacheState, order: seq<Key>, key: Key)
    ensures ViewOf(st.(order := order), key) == ViewOf(st, key)
  {}

  lemma SetView(cfg: Config, st: CacheState, op: Op, key: Key)
    requires cfg.maxEntries <= 0 && Valid(cfg, st) && op.Set?
    ensures ViewOf(SetStep(cfg, st, op.key, op.result, op.tables, op.now), key) == StepView(cfg, ViewOf(st, key), op, key)
  {
    hide Minus, IndexAdd, ViewOf, Valid, TableSet, RemoveKeys;
    if Accepts(cfg, op.result) {
      var order := [op.key] + if op.key in st.items then Minus(st.order, {op.key}) else st.order;
      AddView(st, op.key, EntryOf(cfg, op), order, key);
    }
  }

  lemma DropTable(st: CacheState, table: string, key: Key)
    ensures var v := ViewOf(st, key); ViewOf(st.(index := st.index - {table}), key) == v.(listed := v.listed - {table})
  {
    var a, b := ViewOf(st.(index := st.index - {table}), key).listed, ViewOf(st, key).listed - {table};
    assert forall t :: t in a <==> t in b;
  }

  lemma InvalidateView(st: CacheState, table: string, key: Key)
    ensures ViewOf(InvalidateStep(st, table), key) == InvalidatedView(ViewOf(st, key), table)
  {
    hide RemoveKeys;
    var v := ViewOf(st, key);
    if table in st.index {
      var gone := KeysOf(st, table);
      RemoveView(st, gone, key);
      assert key in gone <==> table in v.listed && v.entry.Some?;
      DropTable(RemoveKeys(st, gone), table, key);
    } else {
      assert v.listed - {table} == v.listed;
    }
  }

  lemma StepIsView(cfg: Config, st: CacheState, op: Op, key: Key)
    requires cfg.maxEntries <= 0 && Valid(cfg, st)
    ensures ViewOf(Step(cfg, st, op), key) == StepView(cfg, ViewOf(st, key), op, key)
  {
    match op {
      case Get(k, now) =>
        hide Minus, RemoveKeys, Valid;
        if k in st.items && now > st.items[k].expiresAt {
          RemoveView(st, {k}, key);
        } else if k in st.items {
          OrderIrrelevant(st, [k] + Minus(st.order, {k}), key);
        }
      case Set(_, _, _, _) =>
        hide SetStep, ViewOf, Valid;
        SetView(cfg, st, op, key);
      case Invalidate(table) =>
        hide InvalidateStep, ViewOf, Valid;
        InvalidateView(st, table, key);
      case Flush =>
    }
  }

  /** Over every history, an unbounded cache holds of each key exactly what the history says. */
  lemma {:induction false} AfterIsView(cfg: Config, h: seq<Op>, n: nat, key: Key)
    requires n <= |h| && cfg.maxEntries <= 0
    ensures ViewOf(After(cfg, h, n), key) == ViewAfter(cfg, h, n, key)
  {
    hide Step, StepView, Valid;
    if n > 0 {
      AfterIsView(cfg, h, n - 1, key);
      StepIsView(cfg, After(cfg, h, n - 1), h[n - 1], key);
    } else {
      assert ViewOf(Empty, key).listed == {};
    }
  }

  // ---------------------------------------------------------------- when a key is live

  /** Call i is the last accepted Set of key before call n, it stored e, and no call since was a flush,
      a look that found e expired, or the invalidation of a table the key was then listed under. */
  ghost predicate Standing(cfg: Config, h: seq<Op>, n: nat, i: nat, key: Key, e: Entry) {
    && i < n <= |h| && Stores(cfg, h[i], key) && e == EntryOf(cfg, h[i])
    && (forall j :: i < j < n ==> !Stores(cfg, h[j], key) && !Undone(cfg, h, j, key, e))
  }

  predicate Undone(cfg: Config, h: seq<Op>, j: nat, key: Key, e: Entry)
    requires j < |h|
  {
    || h[j].Flush?
    || (h[j].Get? && h[j].key == key && h[j].now > e.expiresAt)
    || (h[j].Invalidate? && h[j].table in ViewAfter(cfg, h, j, key).listed)
  }

  lemma {:induction false} StandingIsView(cfg: Config, h: seq<Op>, n: nat, key: Key, e: Entry)
    requires n <= |h|
    ensures ViewAfter(cfg, h, n, key).entry == Some(e) <==> exists i: nat :: Standing(cfg, h, n, i, key, e)
  {
    hide Standing, Undone;
    if n == 0 {
      forall i: nat ensures !Standing(cfg, h, n, i, key, e) {
        StandingBefore(cfg, h, n, i, key, e);
      }
    } else {
      StandingIsView(cfg, h, n - 1, key, e);
      if Stores(cfg, h[n - 1], key) {
        forall i: nat ensures Standing(cfg, h, n, i, key, e) <==> i == n - 1 && e == EntryOf(cfg, h[n - 1]) {
          StandingNow(cfg, h, n, i, key, e);
        }
        assert Standing(cfg, h, n, n - 1, key, e) <==> e == EntryOf(cfg, h[n - 1]);
      } else {
        ViewStands(cfg, h, n, key, e);
        var m := n - 1;
        if i: nat :| Standing(cfg, h, m, i, key, e) {
          StandingStep(cfg, h, n, i, key, e);
        }
        if i: nat :| Standing(cfg, h, n, i, key, e) {
          StandingStep(cfg, h, n, i, key, e);
        }
      }
    }
  }

  lemma ViewStands(cfg: Config, h: seq<Op>, n: nat, key: Key, e: Entry)
    requires 0 < n <= |h| && !Stores(cfg, h[n - 1], key)
    ensures ViewAfter(cfg, h, n, key).entry == Some(e) <==>
              ViewAfter(cfg, h, n - 1, key).entry == Some(e) && !Undone(cfg, h, n - 1, key, e)
  {
    hide TableSet;
    assert ViewAfter(cfg, h, n, key) == StepView(cfg, ViewAfter(cfg, h, n - 1, key), h[n - 1], key);
  }

  lemma StandingBefore(cfg: Config, h: seq<Op>, n: nat, i: nat, key: Key, e: Entry)
    requires n <= i
    ensures !Standing(cfg, h, n, i, key, e)
  {}

  lemma StandingNow(cfg: Config, h: seq<Op>, n: nat, i: nat, key: Key, e: Entry)
    requires 0 < n <= |h| && Stores(cfg, h[n - 1], key)
    ensures Standing(cfg, h, n, i, key, e) <==> i == n - 1 && e == EntryOf(cfg, h[n - 1])
  {}

  lemma StandingStep(cfg: Config, h: seq<Op>, n: nat, i: nat, key: Key, e: Entry)
    requires 0 < n <= |h| && !Stores(cfg, h[n - 1], key)
    ensures Standing(cfg, h, n, i, key, e) <==> Standing(cfg, h, n - 1, i, key, e) && !Undone(cfg, h, n - 1, key, e)
  {
    hide Undone, EntryOf;
    if Standing(cfg, h, n, i, key, e) {
      assert i < n - 1;
    }
  }

  /** An unbounded cache is its history: over every sequence of calls, a key is live with an entry if
      and only if its last accepted Set stored it and nothing has undone that since. */
  lemma UnboundedIsHistory(cfg: Config, h: seq<Op>, n: nat, key: Key, e: Entry)
    requires n <= |h| && cfg.maxEntries <= 0
    ensures key in After(cfg, h, n).items && After(cfg, h, n).items[key] == e
            <==> exists i: nat :: Standing(cfg, h, n, i, key, e)
  {
    hide Standing, ViewAfter, After;
    AfterIsView(cfg, h, n, key);
    StandingIsView(cfg, h, n, key, e);
  }
}
