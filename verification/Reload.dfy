/** DatabaseGroup.Reload of internal/proxy/dbgroup.go: replacing the writer and reader pools, the
    balancer's backends and the circuit breakers when the configuration changes. */
module Reload {
  import opened ConnPool
  import opened Balancer
  import opened Breaker

  /** The circuit breaker section of the configuration. */
  datatype Guard = Guard(enabled: bool, threshold: real, openDuration: int, halfOpenMax: int, windowSize: int)

  lemma CloseCloses(p: PoolState)
    ensures CloseStep(p).closed
  {}

  /** The pools a group refers to, among all ever created. */
  datatype Pools = Pools(pools: seq<PoolState>, writer: nat, readers: map<string, nat>)

  /** Each role has a pool of its own. */
  ghost predicate Apart(g: Pools) {
    && g.writer < |g.pools|
    && (forall a :: a in g.readers ==> g.readers[a] < |g.pools| && g.readers[a] != g.writer)
    && (forall a, b :: a in g.readers && b in g.readers && g.readers[a] == g.readers[b] ==> a == b)
  }

  /** No role refers to pool p any more. */
  ghost predicate Abandoned(g: Pools, p: nat) {
    p != g.writer && forall a :: a in g.readers ==> g.readers[a] != p
  }

  /** A new pool: open and empty, with the maximum and the timeouts of the configuration, and no minimum. */
  predicate OpenedWith(p: PoolState, cfg: ConnPool.Config) {
    && !p.closed && p.idle == [] && p.numOpen == 0 && p.tokens == 0
    && p.cfg == ConnPool.Config(0, cfg.max, cfg.idleTimeout, cfg.maxLifetime)
  }

  /** What a reload does to the pools: the writer pool is replaced when the credentials or its address
      changed; a reader pool is kept when the credentials did not change and its address stays. */
  ghost predicate Reloaded(cfg: ConnPool.Config, was: Pools, g: Pools, credsChanged: bool, writerMoved: bool, addrs: seq<string>)
    requires Apart(was) && Apart(g) && |was.pools| <= |g.pools|
  {
    && (if credsChanged || writerMoved
        then g.pools[was.writer] == CloseStep(was.pools[was.writer]) && |was.pools| <= g.writer && OpenedWith(g.pools[g.writer], cfg)
        else g.writer == was.writer && g.pools[g.writer] == was.pools[g.writer])
    && (forall a :: a in g.readers <==> a in addrs)
    && (forall a :: a in g.readers ==>
          if !credsChanged && a in was.readers then g.readers[a] == was.readers[a]
          else |was.pools| <= g.readers[a] && OpenedWith(g.pools[g.readers[a]], cfg))
    && (forall a :: a in was.readers ==>
          g.pools[was.readers[a]] ==
          if a in addrs then was.pools[was.readers[a]] else CloseStep(was.pools[was.readers[a]]))
  }

  /** A replaced pool that was open is left open exactly when new credentials replaced the pool of an
      address that stays. */
  lemma LeftOpen(cfg: ConnPool.Config, was: Pools, g: Pools, credsChanged: bool, writerMoved: bool, addrs: seq<string>, a: string)
    requires Apart(was) && Apart(g) && |was.pools| <= |g.pools| && Reloaded(cfg, was, g, credsChanged, writerMoved, addrs)
    requires a in was.readers && !was.pools[was.readers[a]].closed
    ensures Abandoned(g, was.readers[a]) && !g.pools[was.readers[a]].closed <==> credsChanged && a in addrs
  {
    hide CloseStep;
    CloseCloses(was.pools[was.readers[a]]);
    if a in addrs && !credsChanged {
      assert g.readers[a] == was.readers[a];
    }
  }

  // ---------------------------------------------------------------- the steps of a reload

  ghost predicate WriterReplaced(cfg: ConnPool.Config, was: Pools, g: Pools)
    requires Apart(was)
  {
    && |g.pools| == |was.pools| + 1 && g.writer == |was.pools| && g.readers == was.readers
    && OpenedWith(g.pools[g.writer], cfg)
    && forall p :: 0 <= p < |was.pools| ==> g.pools[p] == if p == was.writer then CloseStep(was.pools[p]) else was.pools[p]
  }

  /** Each new address has one pool: the old one when the credentials did not change, else a new one. */
  ghost predicate ReadersOpened(cfg: ConnPool.Config, was: Pools, pools: seq<PoolState>, updated: map<string, nat>, credsChanged: bool) {
    && was.pools <= pools
    && Apart(Pools(pools, was.writer, updated))
    && forall a :: a in updated ==>
         if !credsChanged && a in was.readers then updated[a] == was.readers[a]
         else |was.pools| <= updated[a] && OpenedWith(pools[updated[a]], cfg)
  }

  ghost predicate IsReader(readers: map<string, nat>, p: nat) {
    exists a :: a in readers && readers[a] == p
  }

  /** The pools of the readers in neither updated nor todo have been closed, and no other pool. */
  ghost predicate Removed(was: Pools, pools: seq<PoolState>, updated: map<string, nat>, todo: set<string>)
    requires Apart(was)
  {
    && |pools| == |was.pools|
    && (forall p :: 0 <= p < |pools| && !IsReader(was.readers, p) ==> pools[p] == was.pools[p])
    && forall a :: a in was.readers ==>
         var p := was.readers[a];
         pools[p] == if a in updated || a in todo then was.pools[p] else CloseStep(was.pools[p])
  }

  lemma AllToDo(was: Pools, updated: map<string, nat>)
    requires Apart(was)
    ensures Removed(was, was.pools, updated, was.readers.Keys)
  {}

  lemma RemoveOne(was: Pools, pools: seq<PoolState>, updated: map<string, nat>, todo: set<string>, a: string)
    requires Apart(was) && Removed(was, pools, updated, todo) && a in todo && a in was.readers
    ensures var p := was.readers[a];
            Removed(was, if a in updated then pools else pools[p := CloseStep(pools[p])], updated, todo - {a})
  {
    hide CloseStep;
  }

  ghost predicate Steps(cfg: ConnPool.Config, was: Pools, mid: Pools, pools: seq<PoolState>, updated: map<string, nat>, left: seq<PoolState>,
                        credsChanged: bool, writerMoved: bool)
    requires Apart(was)
  {
    && Apart(mid) && Apart(mid.(pools := pools))
    && (if credsChanged || writerMoved then WriterReplaced(cfg, was, mid) else mid == was)
    && ReadersOpened(cfg, mid, pools, updated, credsChanged)
    && Removed(mid.(pools := pools), left, updated, {})
  }

  lemma StepsWriter(cfg: ConnPool.Config, was: Pools, mid: Pools, pools: seq<PoolState>, updated: map<string, nat>, left: seq<PoolState>,
                    credsChanged: bool, writerMoved: bool)
    requires Apart(was) && Steps(cfg, was, mid, pools, updated, left, credsChanged, writerMoved)
    ensures |was.pools| <= |mid.pools| <= |left| && mid.writer < |left|
    ensures if credsChanged || writerMoved
            then left[was.writer] == CloseStep(was.pools[was.writer]) && |was.pools| <= mid.writer && OpenedWith(left[mid.writer], cfg)
            else mid.writer == was.writer && left[mid.writer] == was.pools[mid.writer]
  {
    hide CloseStep;
    assert !IsReader(mid.readers, was.writer) && !IsReader(mid.readers, mid.writer);
    assert pools[was.writer] == mid.pools[was.writer] && pools[mid.writer] == mid.pools[mid.writer];
  }

  lemma StepsKept(cfg: ConnPool.Config, was: Pools, mid: Pools, pools: seq<PoolState>, updated: map<string, nat>, left: seq<PoolState>,
                  credsChanged: bool, writerMoved: bool, a: string)
    requires Apart(was) && Steps(cfg, was, mid, pools, updated, left, credsChanged, writerMoved) && a in was.readers
    ensures was.readers[a] < |left|
    ensures left[was.readers[a]] ==
            if a in updated then was.pools[was.readers[a]] else CloseStep(was.pools[was.readers[a]])
  {
    hide CloseStep, ReadersOpened;
    var p := was.readers[a];
    assert mid.pools <= pools by {
      StepsWide(cfg, was, mid, pools, updated, left, credsChanged, writerMoved);
    }
    assert mid.pools[p] == was.pools[p] && pools[p] == mid.pools[p];
  }

  lemma StepsWide(cfg: ConnPool.Config, was: Pools, mid: Pools, pools: seq<PoolState>, updated: map<string, nat>, left: seq<PoolState>,
                  credsChanged: bool, writerMoved: bool)
    requires Apart(was) && Steps(cfg, was, mid, pools, updated, left, credsChanged, writerMoved)
    ensures mid.pools <= pools && |left| == |pools| && mid.readers == was.readers && |was.pools| <= |mid.pools|
    ensures Apart(Pools(left, mid.writer, updated))
  {
    hide CloseStep;
  }

  lemma StepsReader(cfg: ConnPool.Config, was: Pools, mid: Pools, pools: seq<PoolState>, updated: map<string, nat>, left: seq<PoolState>,
                    credsChanged: bool, writerMoved: bool, a: string)
    requires Apart(was) && Steps(cfg, was, mid, pools, updated, left, credsChanged, writerMoved) && a in updated
    ensures updated[a] < |left|
    ensures if !credsChanged && a in was.readers then updated[a] == was.readers[a]
            else |was.pools| <= updated[a] && OpenedWith(left[updated[a]], cfg)
  {
    hide CloseStep, WriterReplaced;
    StepsWide(cfg, was, mid, pools, updated, left, credsChanged, writerMoved);
    if credsChanged || a !in was.readers {
      assert |mid.pools| <= updated[a] && OpenedWith(pools[updated[a]], cfg);
      assert !IsReader(mid.readers, updated[a]);
    }
  }

  /** The three steps make a reload. */
  lemma StepsReload(cfg: ConnPool.Config, was: Pools, mid: Pools, pools: seq<PoolState>, updated: map<string, nat>, left: seq<PoolState>,
                    credsChanged: bool, writerMoved: bool, addrs: seq<string>)
    requires Apart(was) && Steps(cfg, was, mid, pools, updated, left, credsChanged, writerMoved)
    requires forall a :: a in updated <==> a in addrs
    ensures var g := Pools(left, mid.writer, updated);
            Apart(g) && |was.pools| <= |left| && Reloaded(cfg, was, g, credsChanged, writerMoved, addrs)
  {
    hide CloseStep, Steps, Apart;
    StepsWide(cfg, was, mid, pools, updated, left, credsChanged, writerMoved);
    StepsWriter(cfg, was, mid, pools, updated, left, credsChanged, writerMoved);
    forall a | a in updated
      ensures if !credsChanged && a in was.readers then updated[a] == was.readers[a]
              else updated[a] < |left| && |was.pools| <= updated[a] && OpenedWith(left[updated[a]], cfg)
    {
      StepsReader(cfg, was, mid, pools, updated, left, credsChanged, writerMoved, a);
    }
    forall a | a in was.readers
      ensures was.readers[a] < |left| && was.readers[a] < |was.pools|
      ensures left[was.readers[a]] == if a in addrs then was.pools[was.readers[a]] else CloseStep(was.pools[was.readers[a]])
    {
      StepsKept(cfg, was, mid, pools, updated, left, credsChanged, writerMoved, a);
      ReaderPool(was, a);
    }
  }

  lemma ReaderPool(g: Pools, a: string)
    requires Apart(g) && a in g.readers
    ensures g.readers[a] < |g.pools|
  {}

  lemma NoneOpened(cfg: ConnPool.Config, was: Pools, credsChanged: bool)
    requires Apart(was)
    ensures ReadersOpened(cfg, was, was.pools, map[], credsChanged)
  {}

  lemma StillApart(cfg: ConnPool.Config, was: Pools, pools: seq<PoolState>, updated: map<string, nat>, credsChanged: bool)
    requires Apart(was) && ReadersOpened(cfg, was, pools, updated, credsChanged)
    ensures Apart(was.(pools := pools))
  {}

  lemma FirstPool(cfg: ConnPool.Config)
    ensures var p := NewPool(cfg.(min := 0), 0, 0); OpenedWith(p, cfg) && Apart(Pools([p], 0, map[]))
  {}

  /** Readers opened for a group that had none. */
  lemma AllOpened(cfg: ConnPool.Config, was: Pools, pools: seq<PoolState>, updated: map<string, nat>)
    requires Apart(was) && was.readers == map[] && ReadersOpened(cfg, was, pools, updated, false)
    ensures Apart(Pools(pools, was.writer, updated)) && was.writer < |pools| && pools[was.writer] == was.pools[was.writer]
    ensures forall a :: a in updated ==> updated[a] < |pools| && OpenedWith(pools[updated[a]], cfg)
  {}

  lemma OpenKept(cfg: ConnPool.Config, was: Pools, pools: seq<PoolState>, updated: map<string, nat>, a: string)
    requires Apart(was) && ReadersOpened(cfg, was, pools, updated, false) && a in was.readers
    ensures ReadersOpened(cfg, was, pools, updated[a := was.readers[a]], false)
  {
    var p := was.readers[a];
    forall b | b in updated && updated[b] == p ensures b == a {}
  }

  lemma OpenNew(cfg: ConnPool.Config, was: Pools, pools: seq<PoolState>, updated: map<string, nat>, credsChanged: bool, a: string, p: PoolState)
    requires Apart(was) && ReadersOpened(cfg, was, pools, updated, credsChanged) && OpenedWith(p, cfg)
    requires credsChanged || a !in was.readers
    ensures ReadersOpened(cfg, was, pools + [p], updated[a := |pools|], credsChanged)
  {
    forall b | b in updated ensures updated[b] < |pools| {}
  }

  /** A new breaker runs with these settings; what is not positive takes its default. */
  ghost predicate Fits(cfg: Breaker.Config, guard: Guard) {
    && cfg.threshold == (if guard.threshold <= 0.0 then 0.5 else guard.threshold)
    && cfg.openDuration == (if guard.openDuration <= 0 then 10 else guard.openDuration)
    && cfg.halfOpenMax == (if guard.halfOpenMax <= 0 then 3 else guard.halfOpenMax)
    && cfg.windowSize == (if guard.windowSize <= 0 then 10 else guard.windowSize)
  }

  /** A breaker after a reload: the one that was there with the settings it had, or a new closed one. */
  twostate predicate Kept(new b: CircuitBreaker, was: CircuitBreaker?, guard: Guard)
    reads b
  {
    if was != null then b == was else fresh(b) && b.Valid() && b.Value() == Initial && Fits(b.cfg, guard)
  }

  class DatabaseGroup {
    /** Every pool ever created, by number; closed ones stay in the list. */
    var pools: seq<PoolState>
    var writer: nat
    var readers: map<string, nat>
    const balancer: RoundRobin
    var writerBreaker: CircuitBreaker?
    var readerBreakers: map<string, CircuitBreaker>

    ghost function Value(): Pools
      reads this`pools, this`writer, this`readers
    {
      Pools(pools, writer, readers)
    }

    ghost predicate Valid()
      reads this`pools, this`writer, this`readers
    {
      Apart(Value())
    }

    /** newDatabaseGroup: every address gets a pool and a healthy backend, and a breaker if they are
        enabled. */
    constructor (cfg: ConnPool.Config, addrs: seq<string>, guard: Guard)
      ensures Valid() && fresh(balancer) && OpenedWith(pools[writer], cfg)
      ensures forall a :: a in readers <==> a in addrs
      ensures forall a :: a in readers ==> OpenedWith(pools[readers[a]], cfg)
      ensures |balancer.backends| == |addrs|
      ensures forall i :: 0 <= i < |addrs| ==> balancer.backends[i].addr == addrs[i] && balancer.backends[i].healthy
      ensures writerBreaker != null <==> guard.enabled
      ensures forall a :: a in readerBreakers <==> guard.enabled && a in addrs
      ensures writerBreaker != null ==> Kept(writerBreaker, null, guard)
      ensures forall a :: a in readerBreakers ==> Kept(readerBreakers[a], null, guard)
    {
      hide ReadersOpened, Apart, NewPool;
      var b := new RoundRobin(addrs);
      pools, writer, readers := [NewPool(cfg.(min := 0), 0, 0)], 0, map[];
      balancer, writerBreaker, readerBreakers := b, null, map[];
      new;
      ghost var was := Value();
      FirstPool(cfg);
      var updated := OpenReaders(false, cfg, addrs);
      AllOpened(cfg, was, pools, updated);
      readers := updated;
      ReloadBreakers(guard, addrs);
    }

    /** pool.New with the minimum of zero that Reload configures: no connection is made, so it cannot fail. */
    method OpenPool(cfg: ConnPool.Config) returns (p: nat)
      modifies this`pools
      ensures p == |old(pools)| && pools == old(pools) + [NewPool(cfg.(min := 0), 0, 0)]
      ensures OpenedWith(pools[p], cfg)
    {
      p := |pools|;
      pools := pools + [NewPool(cfg.(min := 0), 0, 0)];
    }

    /** Reload. Afterwards the balancer routes to the addresses that have a pool, and each of them and
        the writer is guarded by a breaker exactly when breakers are enabled; a backend or breaker
        that was there is kept, whatever pool now stands behind it. */
    method Reload(credsChanged: bool, writerMoved: bool, cfg: ConnPool.Config, addrs: seq<string>, guard: Guard)
      requires Valid()
      modifies this, balancer`backends
      ensures Valid() && |old(pools)| <= |pools| && Reloaded(cfg, old(Value()), Value(), credsChanged, writerMoved, addrs)
      ensures |balancer.backends| == |addrs| && forall i :: 0 <= i < |addrs| ==> balancer.backends[i].addr == addrs[i]
      ensures forall i, j :: 0 <= i < |addrs| && IsLast(old(balancer.backends), |old(balancer.backends)|, addrs[i], j) ==>
                balancer.backends[i] == old(balancer.backends)[j]
      ensures forall i :: 0 <= i < |addrs| && (forall j :: 0 <= j < |old(balancer.backends)| ==> old(balancer.backends)[j].addr != addrs[i]) ==>
                fresh(balancer.backends[i]) && balancer.backends[i].healthy && balancer.backends[i].replayLSN == 0
      ensures writerBreaker != null <==> guard.enabled
      ensures forall a :: a in readerBreakers <==> guard.enabled && a in addrs
      ensures writerBreaker != null ==> Kept(writerBreaker, old(writerBreaker), guard)
      ensures forall a :: a in readerBreakers ==>
                Kept(readerBreakers[a], if a in old(readerBreakers) then old(readerBreakers)[a] else null, guard)
    {
      hide Reloaded, Apart;
      ReloadPools(credsChanged, writerMoved, cfg, addrs);
      balancer.UpdateBackends(addrs);
      ReloadBreakers(guard, addrs);
    }

    method ReloadPools(credsChanged: bool, writerMoved: bool, cfg: ConnPool.Config, addrs: seq<string>)
      requires Valid()
      modifies this`pools, this`writer, this`readers
      ensures Valid() && |old(pools)| <= |pools| && Reloaded(cfg, old(Value()), Value(), credsChanged, writerMoved, addrs)
    {
      hide Apart, WriterReplaced, ReadersOpened, Removed, Reloaded;
      ghost var was := Value();
      if credsChanged || writerMoved {
        ReplaceWriter(cfg);
      }
      ghost var mid := Value();
      var updated := OpenReaders(credsChanged, cfg, addrs);
      ghost var wide := pools;
      CloseRemoved(updated);
      StepsReload(cfg, was, mid, wide, updated, pools, credsChanged, writerMoved, addrs);
      readers := updated;
    }

    /** Enabling breakers creates the missing ones, with the settings of this reload; disabling them
        drops all. */
    method ReloadBreakers(guard: Guard, addrs: seq<string>)
      modifies this`writerBreaker, this`readerBreakers
      ensures (writerBreaker != null <==> guard.enabled)
      ensures forall a :: a in readerBreakers <==> guard.enabled && a in addrs
      ensures writerBreaker != null ==> Kept(writerBreaker, old(writerBreaker), guard)
      ensures forall a :: a in readerBreakers ==>
                Kept(readerBreakers[a], if a in old(readerBreakers) then old(readerBreakers)[a] else null, guard)
    {
      if guard.enabled {
        if writerBreaker == null {
          writerBreaker := new CircuitBreaker(guard.threshold, guard.openDuration, guard.halfOpenMax, guard.windowSize);
        }
        var updated: map<string, CircuitBreaker> := map[];
        for i := 0 to |addrs|
          invariant writerBreaker != null && Kept(writerBreaker, old(writerBreaker), guard) && readerBreakers == old(readerBreakers)
          invariant forall a :: a in updated <==> a in addrs[..i]
          invariant forall a :: a in updated ==>
                      Kept(updated[a], if a in old(readerBreakers) then old(readerBreakers)[a] else null, guard)
        {
          if addrs[i] in readerBreakers {
            updated := updated[addrs[i] := readerBreakers[addrs[i]]];
          } else {
            var b := new CircuitBreaker(guard.threshold, guard.openDuration, guard.halfOpenMax, guard.windowSize);
            updated := updated[addrs[i] := b];
          }
        }
        readerBreakers := updated;
      } else {
        writerBreaker := null;
        readerBreakers := map[];
      }
    }

    method ReplaceWriter(cfg: ConnPool.Config)
      requires Valid()
      modifies this`pools, this`writer
      ensures Valid() && WriterReplaced(cfg, old(Value()), Value())
    {
      hide CloseStep;
      pools := pools[writer := CloseStep(pools[writer])];
      writer := OpenPool(cfg);
    }

    /** The pools of the new reader addresses: kept ones and newly opened ones. */
    method OpenReaders(credsChanged: bool, cfg: ConnPool.Config, addrs: seq<string>) returns (updated: map<string, nat>)
      requires Valid()
      modifies this`pools
      ensures Valid() && ReadersOpened(cfg, old(Value()), pools, updated, credsChanged)
      ensures forall a :: a in updated <==> a in addrs
    {
      hide NewPool, ReadersOpened, Apart;
      ghost var was := Value();
      updated := map[];
      NoneOpened(cfg, was, credsChanged);
      for i := 0 to |addrs|
        invariant writer == was.writer && readers == was.readers
        invariant ReadersOpened(cfg, was, pools, updated, credsChanged)
        invariant forall a :: a in updated <==> a in addrs[..i]
      {
        ghost var before := pools;
        if !credsChanged && addrs[i] in readers {
          OpenKept(cfg, was, pools, updated, addrs[i]);
          updated := updated[addrs[i] := readers[addrs[i]]];
        } else {
          var p := OpenPool(cfg);
          OpenNew(cfg, was, before, updated, credsChanged, addrs[i], pools[p]);
          updated := updated[addrs[i] := p];
        }
      }
      StillApart(cfg, was, pools, updated, credsChanged);
    }

    /** Closes the pool of every reader address that is not in updated, and nothing else. */
    method CloseRemoved(updated: map<string, nat>)
      requires Valid()
      modifies this`pools
      ensures Valid() && Removed(old(Value()), pools, updated, {})
    {
      hide CloseStep, Removed;
      ghost var was := Value();
      var todo := readers.Keys;
      assert Removed(was, pools, updated, todo) by {
        AllToDo(was, updated);
      }
      while todo != {}
        invariant todo <= readers.Keys && Apart(was) && was == old(Value()) && |pools| == |was.pools|
        invariant Removed(was, pools, updated, todo)
        decreases |todo|
      {
        var a :| a in todo;
        RemoveOne(was, pools, updated, todo, a);
        if a !in updated {
          pools := pools[readers[a] := CloseStep(pools[readers[a]])];
        }
        todo := todo - {a};
      }
    }
  }
}
