/** Environments that share one Redis: their keys never meet, so neither sees what the other does. */
module CacheIsolation {
  import opened Prelude
  import opened KeyScan
  import opened CacheService
  import opened CacheRuns

  /* ---------- Keys ---------- */

  predicate NoColon(env: string) { ':' !in env }

  /** The text of an entry's key. */
  lemma KeySpelled(env: string, key: string)
    ensures L2Key(env, key) == env + ":cache:" + key
  {
  }

  lemma NotShorter(a: string, b: string, x: string, y: string)
    requires NoColon(b) && a + ":" + x == b + ":" + y
    ensures |b| <= |a|
  {
    assert (a + ":" + x)[|a|] == ':';
    assert forall i | 0 <= i < |b| :: (b + ":" + y)[i] == b[i];
  }

  /** Of two texts that begin with a name, a colon and something, the names are equal. */
  lemma NamesAgree(a: string, b: string, x: string, y: string)
    requires NoColon(a) && NoColon(b) && a + ":" + x == b + ":" + y
    ensures a == b && x == y
  {
    NotShorter(a, b, x, y);
    NotShorter(b, a, y, x);
    var s, t := a + ":" + x, b + ":" + y;
    assert s[..|a|] == a && t[..|b|] == b && s[|a| + 1..] == x && t[|b| + 1..] == y;
  }

  /** Two entries have the same key exactly if they are the same entry of the same environment. */
  lemma KeysApart(a: string, k: string, b: string, l: string)
    requires NoColon(a) && NoColon(b)
    ensures L2Key(a, k) == L2Key(b, l) <==> a == b && k == l
  {
    if L2Key(a, k) == L2Key(b, l) {
      NamesAgree(a, b, CacheKey(k), CacheKey(l));
      assert CacheKey(k)[6..] == k && CacheKey(l)[6..] == l;
    }
  }

  /** With colons in names they can meet. */
  lemma ColonsMeet()
    ensures L2Key("a", "b:cache:k") == L2Key("a:cache:b", "k")
  {
    assert "a" + ":" + ("cache:" + "b:cache:k") == "a:cache:b" + ":" + ("cache:" + "k");
  }

  /** Within an environment the cache's keys are those that begin with cache and a colon: other users of Redis keep out
      of its way by not doing so. */
  lemma CacheKeysApart(env: string, other: string, key: string)
    ensures PrefixKey(env, other) == L2Key(env, key) <==> other == "cache:" + key
  {
    var lead := env + ":";
    assert PrefixKey(env, other) == lead + other && L2Key(env, key) == lead + ("cache:" + key);
    assert (lead + other)[|lead|..] == other && (lead + ("cache:" + key))[|lead|..] == "cache:" + key;
  }

  /** A deletion's prefix is a prefix of an entry's key exactly if both are of one environment and the caller's prefix
      is a prefix of the caller's key. */
  lemma PrefixesApart(a: string, prefix: string, b: string, key: string)
    requires NoColon(a) && NoColon(b)
    ensures PrefixKey(a, CacheKey(prefix)) <= L2Key(b, key) <==> a == b && prefix <= key
  {
    if PrefixKey(a, CacheKey(prefix)) <= L2Key(b, key) {
      var rest := L2Key(b, key)[|PrefixKey(a, CacheKey(prefix))|..];
      assert a + ":" + (CacheKey(prefix) + rest) == L2Key(b, key);
      NamesAgree(a, b, CacheKey(prefix) + rest, CacheKey(key));
    }
    PrefixOfL2Key(b, prefix, key);
  }

  /* ---------- Single operations ---------- */

  predicate SameEntry(s: Store, t: Store, k: string) {
    (k in s <==> k in t) && (k in s ==> s[k] == t[k])
  }

  /** Storing in one environment leaves the entries of the other alone. */
  lemma DepositSpares(a: string, b: string, key: string, other: string, text: string, ttl: nat, t: Times,
                      fault: WriteFault, store: Store, local: Local)
    requires NoColon(a) && NoColon(b) && a != b
    ensures var (_, store', _) := Deposit(a, key, text, ttl, t, fault, Some(store), local);
      store'.Some? && SameEntry(store, store'.value, L2Key(b, other))
  {
    KeysApart(a, key, b, other);
  }

  /** An entry of another environment is not found. */
  lemma LookupIgnores(a: string, b: string, key: string, other: string, now: int, store: Store, e: L2Entry)
    requires NoColon(a) && NoColon(b) && a != b
    ensures L2Lookup(a, key, now, store[L2Key(b, other) := e]) == L2Lookup(a, key, now, store)
  {
    KeysApart(a, key, b, other);
  }

  /** Deleting by prefix in one environment, however far it gets, leaves the entries of the other alone. */
  lemma DeletionSpares(a: string, prefix: string, b: string, other: string, now: int, store: Store, keys: seq<string>)
    requires NoColon(a) && NoColon(b) && a != b && GlobFree(PrefixKey(a, CacheKey(prefix)))
    requires forall k <- keys :: GlobMatch(PrefixPattern(a, prefix), k)
    ensures SameEntry(store, DelKeys(store, now, keys).0, L2Key(b, other))
  {
    DelRemovesKeys(store, now, keys);
    LiteralPrefix(PrefixKey(a, CacheKey(prefix)), L2Key(b, other));
    PrefixesApart(a, prefix, b, other);
  }

  /* ---------- Steps ---------- */

  /** The worlds differ at most in the entries of other environments. */
  ghost predicate Agree<V>(w: World<V>, u: World<V>) {
    w == u.(store := w.store) && forall key: string :: SameEntry(w.store, u.store, L2Key(w.env, key))
  }

  lemma StepAgrees<V(!new)>(c: Codec<V>, src: Source<V>, lim: Limits, w: World<V>, u: World<V>, e: Step)
    requires Agree(w, u) && Enabled(c, lim, w, e)
    ensures Enabled(c, lim, u, e)
    ensures Do(c, src, lim, w, e).1 == Do(c, src, lim, u, e).1
    ensures Agree(Next(c, src, lim, w, e), Next(c, src, lim, u, e))
  {
    if e.AskL2? {
      AskAgrees(c, src, lim, w, u, e);
    } else {
      OtherStepAgrees(c, src, lim, w, u, e);
    }
  }

  lemma AskAgrees<V(!new)>(c: Codec<V>, src: Source<V>, lim: Limits, w: World<V>, u: World<V>, e: Step)
    requires Agree(w, u) && Enabled(c, lim, w, e) && e.AskL2?
    ensures Enabled(c, lim, u, e)
    ensures Do(c, src, lim, w, e).1 == Do(c, src, lim, u, e).1
    ensures Agree(Next(c, src, lim, w, e), Next(c, src, lim, u, e))
  {
    var key := w.calls[e.id].key;
    assert SameEntry(w.store, u.store, L2Key(w.env, key));
    assert L2Lookup(w.env, key, w.clock, w.store) == L2Lookup(w.env, key, w.clock, u.store);
  }

  lemma OtherStepAgrees<V(!new)>(c: Codec<V>, src: Source<V>, lim: Limits, w: World<V>, u: World<V>, e: Step)
    requires Agree(w, u) && Enabled(c, lim, w, e) && !e.AskL2?
    ensures Enabled(c, lim, u, e)
    ensures Do(c, src, lim, w, e).1 == Do(c, src, lim, u, e).1
    ensures Agree(Next(c, src, lim, w, e), Next(c, src, lim, u, e))
  {
  }

  /** The step deletes and spoils only keys that begin with its environment's name and a colon. */
  predicate Proper(env: string, e: Step) {
    && (e.Remove? ==> forall k <- e.keys :: env + ":" <= k)
    && (e.Garbage? ==> env + ":" <= e.key)
  }

  lemma ForeignKeyApart(a: string, b: string, key: string)
    requires NoColon(a) && NoColon(b) && a != b
    ensures !(a + ":" <= L2Key(b, key))
  {
    if a + ":" <= L2Key(b, key) {
      var rest := L2Key(b, key)[|a| + 1..];
      assert a + ":" + rest == L2Key(b, key);
      NamesAgree(a, b, rest, CacheKey(key));
    }
  }

  /** A step of one environment changes no entry of another. */
  lemma StepSpares<V(!new)>(c: Codec<V>, src: Source<V>, lim: Limits, w: World<V>, e: Step, b: string, key: string)
    requires NoColon(w.env) && NoColon(b) && w.env != b && Enabled(c, lim, w, e) && Proper(w.env, e)
    ensures SameEntry(w.store, Next(c, src, lim, w, e).store, L2Key(b, key))
  {
    ForeignKeyApart(w.env, b, key);
    if e.StoreL2? {
      KeysApart(w.env, w.calls[e.id].key, b, key);
    }
  }

  /* ---------- Two environments at once ---------- */

  /** A step of the first environment, or of the second. */
  datatype Turn = First(step: Step) | Second(step: Step)

  /** What the first environment does, left to itself. */
  function StepsOfFirst(ts: seq<Turn>): seq<Step> {
    if ts == [] then []
    else (if ts[0].First? then [ts[0].step] else []) + StepsOfFirst(ts[1..])
  }

  /** The two worlds hold the same store; a step of one carries its store over to the other. */
  predicate EnabledTurn<V>(c: Codec<V>, lim: Limits, w: World<V>, u: World<V>, t: Turn) {
    if t.First? then Enabled(c, lim, w, t.step) && Proper(w.env, t.step)
    else Enabled(c, lim, u, t.step) && Proper(u.env, t.step)
  }

  function NextTurn<V>(c: Codec<V>, src: Source<V>, src': Source<V>, lim: Limits, w: World<V>, u: World<V>,
                       t: Turn)
    : (World<V>, World<V>)
    requires EnabledTurn(c, lim, w, u, t)
  {
    if t.First? then
      var w' := Next(c, src, lim, w, t.step);
      (w', u.(store := w'.store))
    else
      var u' := Next(c, src', lim, u, t.step);
      (w.(store := u'.store), u')
  }

  predicate ValidTurns<V>(c: Codec<V>, src: Source<V>, src': Source<V>, lim: Limits, w: World<V>, u: World<V>,
                          ts: seq<Turn>)
    decreases |ts|
  {
    ts == [] || (EnabledTurn(c, lim, w, u, ts[0]) &&
                 var (w', u') := NextTurn(c, src, src', lim, w, u, ts[0]);
                 ValidTurns(c, src, src', lim, w', u', ts[1..]))
  }

  function AfterTurns<V>(c: Codec<V>, src: Source<V>, src': Source<V>, lim: Limits, w: World<V>, u: World<V>,
                         ts: seq<Turn>)
    : (World<V>, World<V>)
    requires ValidTurns(c, src, src', lim, w, u, ts)
    decreases |ts|
  {
    if ts == [] then (w, u)
    else
      var (w', u') := NextTurn(c, src, src', lim, w, u, ts[0]);
      AfterTurns(c, src, src', lim, w', u', ts[1..])
  }

  /** A turn of the second environment is not noticed in the first. */
  lemma OtherTurnAgrees<V(!new)>(c: Codec<V>, src: Source<V>, lim: Limits, w: World<V>, u: World<V>, alone: World<V>,
                                 e: Step)
    requires NoColon(w.env) && NoColon(u.env) && w.env != u.env && w.store == u.store && Agree(w, alone)
    requires Enabled(c, lim, u, e) && Proper(u.env, e)
    ensures Agree(w.(store := Next(c, src, lim, u, e).store), alone)
  {
    forall key: string ensures SameEntry(Next(c, src, lim, u, e).store, alone.store, L2Key(w.env, key)) {
      StepSpares(c, src, lim, u, e, w.env, key);
      assert SameEntry(w.store, alone.store, L2Key(w.env, key));
    }
  }

  /** What becomes of the first environment, left to itself, in a turn. */
  function NextAlone<V>(c: Codec<V>, src: Source<V>, lim: Limits, alone: World<V>, t: Turn): World<V>
    requires t.First? ==> Enabled(c, lim, alone, t.step)
  {
    if t.First? then Next(c, src, lim, alone, t.step) else alone
  }

  lemma TurnAgrees<V(!new)>(c: Codec<V>, src: Source<V>, src': Source<V>, lim: Limits, w: World<V>, u: World<V>,
                              alone: World<V>, t: Turn)
    requires NoColon(w.env) && NoColon(u.env) && w.env != u.env && w.store == u.store && Agree(w, alone)
    requires EnabledTurn(c, lim, w, u, t)
    ensures t.First? ==> Enabled(c, lim, alone, t.step)
    ensures var (w', u') := NextTurn(c, src, src', lim, w, u, t);
      && w'.env == w.env && u'.env == u.env && w'.store == u'.store
      && Agree(w', NextAlone(c, src, lim, alone, t))
  {
    if t.First? {
      StepAgrees(c, src, lim, w, alone, t.step);
    } else {
      OtherTurnAgrees(c, src', lim, w, u, alone, t.step);
    }
  }

  lemma {:induction false} TurnsAgree<V(!new)>(c: Codec<V>, src: Source<V>, src': Source<V>, lim: Limits,
                                               w: World<V>, u: World<V>, alone: World<V>, ts: seq<Turn>)
    requires NoColon(w.env) && NoColon(u.env) && w.env != u.env && w.store == u.store && Agree(w, alone)
    requires ValidTurns(c, src, src', lim, w, u, ts)
    ensures ValidRun(c, src, lim, alone, StepsOfFirst(ts))
    ensures Agree(AfterTurns(c, src, src', lim, w, u, ts).0, After(c, src, lim, alone, StepsOfFirst(ts)))
    decreases |ts|
  {
    if ts != [] {
      TurnAgrees(c, src, src', lim, w, u, alone, ts[0]);
      var (w', u') := NextTurn(c, src, src', lim, w, u, ts[0]);
      TurnsAgree(c, src, src', lim, w', u', NextAlone(c, src, lim, alone, ts[0]), ts[1..]);
      assert ts[0].First? ==> StepsOfFirst(ts)[1..] == StepsOfFirst(ts[1..]);
      assert ts[0].Second? ==> StepsOfFirst(ts) == StepsOfFirst(ts[1..]);
    }
  }

  /** However the steps of two environments over one Redis interleave, the first one fares as if it were alone: its
      steps are a run by themselves, which leads to the same caches, calls and entries, and whatever it does next is
      answered the same. */
  lemma EnvironmentsAreIsolated<V(!new)>(c: Codec<V>, src: Source<V>, src': Source<V>, lim: Limits,
                                         w: World<V>, u: World<V>, ts: seq<Turn>, e: Step)
    requires NoColon(w.env) && NoColon(u.env) && w.env != u.env && w.store == u.store
    requires ValidTurns(c, src, src', lim, w, u, ts) && Enabled(c, lim, AfterTurns(c, src, src', lim, w, u, ts).0, e)
    ensures ValidRun(c, src, lim, w, StepsOfFirst(ts))
    ensures var (w', alone) := (AfterTurns(c, src, src', lim, w, u, ts).0, After(c, src, lim, w, StepsOfFirst(ts)));
      && Agree(w', alone) && Enabled(c, lim, alone, e)
      && Do(c, src, lim, w', e).1 == Do(c, src, lim, alone, e).1
  {
    TurnsAgree(c, src, src', lim, w, u, w, ts);
    StepAgrees(c, src, lim, AfterTurns(c, src, src', lim, w, u, ts).0, After(c, src, lim, w, StepsOfFirst(ts)), e);
  }
}
