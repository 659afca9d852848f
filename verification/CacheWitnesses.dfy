/** Runs that reach the bounds on how old a cached value can be. */
module CacheWitnesses {
  import opened Prelude
  import opened CacheService
  import opened CacheRuns

  /** Two processes with cold caches that share one Redis. */
  function TwoProcesses<V>(): World<V> {
    World("prod", map[], map[0 := Local(map[], 0, 0), 1 := Local(map[], 0, 0)], {0, 1}, map[], 0)
  }

  ghost predicate Leads<V>(c: Codec<V>, src: Source<V>, lim: Limits, w: World<V>, es: seq<Step>, t: World<V>) {
    ValidRun(c, src, lim, w, es) && After(c, src, lim, w, es) == t
  }

  lemma {:induction false} Extend<V(!new)>(c: Codec<V>, src: Source<V>, lim: Limits, w: World<V>, es: seq<Step>,
                                           t: World<V>, e: Step) returns (es': seq<Step>)
    requires Leads(c, src, lim, w, es, t) && Enabled(c, lim, t, e)
    ensures Leads(c, src, lim, w, es', Next(c, src, lim, t, e))
    decreases |es|
  {
    if es == [] {
      es' := [e];
      assert es'[1..] == [];
      assert Leads(c, src, lim, Next(c, src, lim, w, e), es'[1..], Next(c, src, lim, w, e));
    } else {
      var rest := Extend(c, src, lim, Next(c, src, lim, w, es[0]), es[1..], t, e);
      es' := [es[0]] + rest;
      assert es'[1..] == rest;
    }
  }

  /** The value v, read from the source at time 0, is in L2 until the deadline, and process 1 knows nothing of it. */
  ghost predicate InL2<V>(c: Codec<V>, w: World<V>, key: string, v: V, deadline: Option<int>) {
    && w.env == "prod" && w.locals.Keys == {0, 1} && w.redis == {0, 1} && w.calls == map[]
    && w.store == map[L2Key("prod", key) := L2Entry(c.encode(v), 0, deadline)]
    && w.locals[1].l1 == map[]
  }

  /** Process 0 reads v from the source at time 0 and stores it as late as it may. */
  lemma FirstCall<V(!new)>(c: Codec<V>, src: Source<V>, lim: Limits, key: string, ttl: nat, v: V)
    returns (es: seq<Step>, w: World<V>)
    requires src(key, 0) == Some(v) && TtlFits(lim, ttl)
    ensures Leads(c, src, lim, TwoProcesses(), es, w)
    ensures InL2(c, w, key, v, Deadline(ttl, lim.slack)) && w.clock == lim.slack
  {
    var start := TwoProcesses<V>();
    es, w := [], start;
    es := Extend(c, src, lim, start, es, w, Look(0, 0, SkipNone, key, ttl));
    w := Next(c, src, lim, w, Look(0, 0, SkipNone, key, ttl));
    es := Extend(c, src, lim, start, es, w, AskL2(0, false));
    w := Next(c, src, lim, w, AskL2(0, false));
    es := Extend(c, src, lim, start, es, w, Fetch(0, false));
    w := Next(c, src, lim, w, Fetch(0, false));
    es := Extend(c, src, lim, start, es, w, Tick(lim.slack));
    w := Next(c, src, lim, w, Tick(lim.slack));
    es := Extend(c, src, lim, start, es, w, StoreL1(0));
    w := Next(c, src, lim, w, StoreL1(0));
    es := Extend(c, src, lim, start, es, w, StoreL2(0, NoFault));
    w := Next(c, src, lim, w, StoreL2(0, NoFault));
  }

  /** Process 1 has found it there at `at` and has yet to copy it into its L1. */
  ghost predicate Copying<V>(c: Codec<V>, w: World<V>, key: string, ttl: nat, v: V, at: int) {
    && w.env == "prod" && w.locals.Keys == {0, 1} && w.redis == {0, 1}
    && w.calls == map[1 := Call(1, SkipNone, key, ttl, at, Refilling(c.encode(v), Some(v), 0, at))]
    && w.locals[1].l1 == map[]
  }

  /** Some time later process 1 finds the value in L2. */
  lemma SecondCall<V(!new)>(c: Codec<V>, src: Source<V>, lim: Limits, start: World<V>, es: seq<Step>, w: World<V>,
                            key: string, ttl: nat, v: V, deadline: Option<int>, wait: nat)
    returns (es': seq<Step>, w': World<V>)
    requires Usable(c) && TtlFits(lim, ttl) && Leads(c, src, lim, start, es, w) && InL2(c, w, key, v, deadline)
    requires deadline.Some? ==> w.clock + wait <= deadline.value
    ensures Leads(c, src, lim, start, es', w')
    ensures Copying(c, w', key, ttl, v, w'.clock) && w'.clock == w.clock + wait && w'.store == w.store
  {
    assert c.decode(c.encode(v)) == Some(v);
    es' := Extend(c, src, lim, start, es, w, Tick(wait));
    w' := Next(c, src, lim, w, Tick(wait));
    es' := Extend(c, src, lim, start, es', w', Look(1, 1, SkipNone, key, ttl));
    w' := Next(c, src, lim, w', Look(1, 1, SkipNone, key, ttl));
    es' := Extend(c, src, lim, start, es', w', AskL2(1, false));
    w' := Next(c, src, lim, w', AskL2(1, false));
  }

  /** The value is in the L1 of process 1, inserted at `at`. */
  ghost predicate InL1<V>(c: Codec<V>, w: World<V>, key: string, v: V, at: int) {
    && w.locals.Keys == {0, 1} && w.calls == map[]
    && w.locals[1].l1 == map[key := L1Entry(c.encode(v), 0, at)]
  }

  /** Process 1 copies it. */
  lemma CopyEnds<V(!new)>(c: Codec<V>, src: Source<V>, lim: Limits, start: World<V>, es: seq<Step>, w: World<V>,
                          key: string, ttl: nat, v: V, at: int, wait: nat)
    returns (es': seq<Step>, w': World<V>)
    requires Leads(c, src, lim, start, es, w) && Copying(c, w, key, ttl, v, at) && at <= w.clock
    requires w.clock + wait <= at + lim.slack
    ensures Leads(c, src, lim, start, es', w')
    ensures InL1(c, w', key, v, w'.clock) && w'.clock == w.clock + wait && w'.store == w.store && w'.env == w.env
  {
    es' := Extend(c, src, lim, start, es, w, Tick(wait));
    w' := Next(c, src, lim, w, Tick(wait));
    es' := Extend(c, src, lim, start, es', w', Refill(1));
    w' := Next(c, src, lim, w', Refill(1));
  }

  /** And it is served from there one millisecond before the entry ends. */
  lemma LastLook<V(!new)>(c: Codec<V>, src: Source<V>, lim: Limits, start: World<V>, es: seq<Step>, w: World<V>,
                          key: string, ttl: nat, v: V)
    returns (es': seq<Step>, w': World<V>)
    requires Usable(c) && TtlFits(lim, ttl)
    requires Leads(c, src, lim, start, es, w) && InL1(c, w, key, v, w.clock)
    ensures Leads(c, src, lim, start, es', w') && Enabled(c, lim, w', Look(2, 1, SkipNone, key, ttl))
    ensures w'.clock == w.clock + L1_LIFE - 1
    ensures var now := w'.clock;
      Do(c, src, lim, w', Look(2, 1, SkipNone, key, ttl)).1 == Value(Some(v), key, SkipNone, now, 0, now)
  {
    assert c.decode(c.encode(v)) == Some(v);
    es' := Extend(c, src, lim, start, es, w, Tick(L1_LIFE - 1));
    w' := Next(c, src, lim, w, Tick(L1_LIFE - 1));
  }

  /** For every lifetime and slack a value can be served one millisecond below the bound, whatever the source has given
      since. */
  lemma StalenessIsReached<V(!new)>(c: Codec<V>, src: Source<V>, slack: nat, key: string, ttl: nat, v: V)
    returns (es: seq<Step>, e: Step)
    requires Usable(c) && ttl > 0 && src(key, 0) == Some(v)
    ensures var lim := Limits(slack, Some(ttl));
      && ValidRun(c, src, lim, TwoProcesses(), es) && Enabled(c, lim, After(c, src, lim, TwoProcesses(), es), e)
      && var (_, a) := Do(c, src, lim, After(c, src, lim, TwoProcesses(), es), e);
         a.Value? && a.value == Some(v) && a.at - a.born == 1000 * ttl + 3_600_000 + 2 * slack - 1
  {
    var lim := Limits(slack, Some(ttl));
    var w;
    es, w := FirstCall(c, src, lim, key, ttl, v);
    es, w := SecondCall(c, src, lim, TwoProcesses(), es, w, key, ttl, v, Deadline(ttl, slack), ttl * MS);
    es, w := CopyEnds(c, src, lim, TwoProcesses(), es, w, key, ttl, v, w.clock, slack);
    es, w := LastLook(c, src, lim, TwoProcesses(), es, w, key, ttl, v);
    e := Look(2, 1, SkipNone, key, ttl);
  }

  /** A lifetime of zero means no expiry: the first value can be served however much later. */
  lemma ZeroTtlNeverExpires<V(!new)>(c: Codec<V>, src: Source<V>, slack: nat, key: string, v: V, later: nat)
    returns (es: seq<Step>, e: Step)
    requires Usable(c) && src(key, 0) == Some(v)
    ensures var lim := Limits(slack, None);
      && ValidRun(c, src, lim, TwoProcesses(), es) && Enabled(c, lim, After(c, src, lim, TwoProcesses(), es), e)
      && var (_, a) := Do(c, src, lim, After(c, src, lim, TwoProcesses(), es), e);
         a.Value? && a.value == Some(v) && a.at - a.born >= later
  {
    var lim := Limits(slack, None);
    var w;
    es, w := FirstCall(c, src, lim, key, 0, v);
    es, w := SecondCall(c, src, lim, TwoProcesses(), es, w, key, 0, v, None, later);
    e := Refill(1);
  }

  /** A deletion can go unnoticed as long as the bound on it allows: for one hour, and for the slack more if a copy was
      pending. */
  lemma DeletionBoundIsReached<V(!new)>(c: Codec<V>, src: Source<V>, lim: Limits, key: string, ttl: nat, v: V,
                                        copying: bool)
    returns (w: World<V>, es: seq<Step>, e: Step)
    requires Usable(c) && TtlFits(lim, ttl) && src(key, 0) == Some(v)
    ensures Inv(c, src, lim, w) && L2Key(w.env, key) !in w.store && (RefillPending(w, key) <==> copying)
    ensures ValidRun(c, src, lim, w, es) && Enabled(c, lim, After(c, src, lim, w, es), e)
    ensures var (_, a) := Do(c, src, lim, After(c, src, lim, w, es), e);
      a.Value? && a.key == key && a.born < w.clock - lim.slack && a.at == LastRefill(lim, w, key) + 3_600_000 - 1
  {
    var start := TwoProcesses<V>();
    var found, run;
    es, found := FirstCall(c, src, lim, key, ttl, v);
    run, found := SecondCall(c, src, lim, start, es, found, key, ttl, v, Deadline(ttl, lim.slack), 1);
    var deletion := Remove({L2Key("prod", key)});
    if copying {
      run := Extend(c, src, lim, start, run, found, deletion);
      w := Next(c, src, lim, found, deletion);
      assert w.calls[1].key == key;
      es, found := CopyEnds(c, src, lim, w, [], w, key, ttl, v, w.clock, lim.slack);
    } else {
      run, found := CopyEnds(c, src, lim, start, run, found, key, ttl, v, found.clock, 0);
      run := Extend(c, src, lim, start, run, found, deletion);
      w := Next(c, src, lim, found, deletion);
      es, found := [], w;
    }
    RunKeepsInv(c, src, lim, start, run);
    es, found := LastLook(c, src, lim, w, es, found, key, ttl, v);
    e := Look(2, 1, SkipNone, key, ttl);
  }
}
