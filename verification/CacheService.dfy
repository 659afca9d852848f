/** The two-level cache: an in-process L1 whose entries live one hour, in front of a Redis L2 whose entries live
    as long as the caller says.

    Times are milliseconds.  Calls to Redis may fail; how they do is given by the caller as faults.  Every entry
    carries the instant at which the source was read for it; this is bookkeeping that no branch looks at. */
module CacheService {
  import opened Prelude
  import opened KeyScan

  const L1_LIFE: nat := 3_600_000
  const MS: nat := 1000

  datatype Codec<!T> = Codec(encode: T -> string, decode: string -> Option<T>)

  datatype L1Entry = L1Entry(text: string, born: int, insertedAt: int)

  datatype L2Entry = L2Entry(text: string, born: int, expiresAt: Option<int>)

  type Store = map<string, L2Entry>

  /** What a process keeps: its L1 and its counters. */
  datatype Local = Local(l1: map<string, L1Entry>, hits: nat, misses: nat)

  /** A call looks into the caches at `begin`, the source is read at `fetch`, and what it stores it stores at `store`. */
  datatype Times = Times(begin: int, fetch: int, store: int)

  datatype Faults = Faults(getFails: bool, set_: WriteFault)

  /* ---------- Keys and lifetimes ---------- */

  function CacheKey(key: string): string { "cache:" + key }

  function PrefixKey(env: string, key: string): string { env + ":" + key }

  function L2Key(env: string, key: string): string { PrefixKey(env, CacheKey(key)) }

  predicate L1Live(e: L1Entry, now: int) { now < e.insertedAt + L1_LIFE }

  predicate L2Live(e: L2Entry, now: int) { e.expiresAt.Some? ==> now <= e.expiresAt.value }

  function Deadline(ttlSeconds: nat, now: int): Option<int> {
    if ttlSeconds > 0 then Some(now + ttlSeconds * MS) else None
  }

  /* ---------- The specification of a lookup ---------- */

  datatype Consulted<+T> = Hit(value: T) | Failed | Miss

  function L1Lookup<T>(codec: Codec<T>, key: string, now: int, local: Local): Option<T> {
    if key in local.l1 && L1Live(local.l1[key], now) then codec.decode(local.l1[key].text) else None
  }

  function L2Lookup(env: string, key: string, now: int, store: Store): Option<L2Entry> {
    var k := L2Key(env, key);
    if k in store && L2Live(store[k], now) then Some(store[k]) else None
  }

  /** Looking into both levels; `store` is None if Redis is not configured. */
  function Consult<T>(codec: Codec<T>, env: string, key: string, t: Times, getFails: bool,
                      store: Option<Store>, local: Local): (Consulted<T>, Local)
  {
    var inL1 := L1Lookup(codec, key, t.begin, local);
    if inL1.Some? then (Hit(inL1.value), local.(hits := local.hits + 1))
    else if store.None? then (Miss, local.(misses := local.misses + 1))
    else if getFails then (Failed, local.(misses := local.misses + 1))
    else
      match L2Lookup(env, key, t.begin, store.value)
      case None => (Miss, local.(misses := local.misses + 1))
      case Some(e) =>
        match codec.decode(e.text)
        case None => (Miss, local.(hits := local.hits + 1))
        case Some(v) =>
          (Hit(v), local.(l1 := local.l1[key := L1Entry(e.text, e.born, t.store)], hits := local.hits + 2))
  }

  /** Storing a fetched value in both levels. */
  function Deposit(env: string, key: string, text: string, ttlSeconds: nat, t: Times, fault: WriteFault,
                   store: Option<Store>, local: Local): (bool, Option<Store>, Local)
  {
    var local' := local.(l1 := local.l1[key := L1Entry(text, t.fetch, t.store)]);
    if store.None? then (true, None, local')
    else
      var e := L2Entry(text, t.fetch, Deadline(ttlSeconds, t.store));
      var store' := if fault.NotApplied? then store.value else store.value[L2Key(env, key) := e];
      (fault.NoFault?, Some(store'), local')
  }

  datatype Outcome<+T> = Outcome(result: Result<T>, fetched: bool, store: Option<Store>, local: Local)

  /** `fetched` is what the source gives if it is asked. */
  function Lookup<T>(codec: Codec<T>, env: string, key: string, ttlSeconds: nat, t: Times, fetched: Result<T>,
                     faults: Faults, store: Option<Store>, local: Local): Outcome<T>
  {
    var (found, local1) := Consult(codec, env, key, t, faults.getFails, store, local);
    match found
    case Hit(v) => Outcome(Ok(v), false, store, local1)
    case Failed => Outcome(Err, false, store, local1)
    case Miss =>
      var local2 := local1.(misses := local1.misses + 1);
      match fetched
      case Err => Outcome(Err, true, store, local2)
      case Ok(v) =>
        var (ok, store', local') := Deposit(env, key, codec.encode(v), ttlSeconds, t, faults.set_, store, local2);
        Outcome(if ok then Ok(v) else Err, true, store', local')
  }

  /** The variant that never caches an absent value. */
  function LookupSkipNone<T>(codec: Codec<T>, env: string, key: string, ttlSeconds: nat, t: Times,
                             fetched: Result<Option<T>>, faults: Faults, store: Option<Store>, local: Local)
    : Outcome<Option<T>>
  {
    var (found, local1) := Consult(codec, env, key, t, faults.getFails, store, local);
    match found
    case Hit(v) => Outcome(Ok(Some(v)), false, store, local1)
    case Failed => Outcome(Err, false, store, local1)
    case Miss =>
      var local2 := local1.(misses := local1.misses + 1);
      match fetched
      case Err => Outcome(Err, true, store, local2)
      case Ok(None) => Outcome(Ok(None), true, store, local2)
      case Ok(Some(v)) =>
        var (ok, store', local') := Deposit(env, key, codec.encode(v), ttlSeconds, t, faults.set_, store, local2);
        Outcome(if ok then Ok(Some(v)) else Err, true, store', local')
  }

  /* ---------- Deleting by prefix ---------- */

  function Concat(pages: seq<seq<string>>): seq<string> {
    if pages == [] then [] else Concat(pages[..|pages| - 1]) + pages[|pages| - 1]
  }

  /** What DEL does: keys go one by one, and each that was there and alive counts. */
  function DelKeys(store: Store, now: int, keys: seq<string>): (Store, nat) {
    if keys == [] then (store, 0)
    else
      var (store', count) := DelKeys(store - {keys[0]}, now, keys[1..]);
      (store', count + if keys[0] in store && L2Live(store[keys[0]], now) then 1 else 0)
  }

  function KeySet(keys: seq<string>): set<string> {
    set k <- keys
  }

  function LiveKeys(store: Store, now: int): set<string> {
    set k <- store | L2Live(store[k], now)
  }

  function PrefixPattern(env: string, prefix: string): string {
    PrefixKey(env, CacheKey(prefix)) + "*"
  }

  /** What SCAN promises if nobody writes meanwhile: every live key that matches is on some page, perhaps on several,
      and only matching keys are. */
  ghost predicate ScanComplete(store: Store, now: int, pattern: string, pages: seq<seq<string>>) {
    forall k | k in LiveKeys(store, now) || k in Concat(pages) ::
      (k in LiveKeys(store, now) && GlobMatch(pattern, k) ==> k in Concat(pages))
      && (k in Concat(pages) ==> GlobMatch(pattern, k))
  }

  /* ---------- Redis ---------- */

  class Redis {
    const env: string
    var store: Store

    constructor (env: string)
      ensures this.env == env && store == map[]
    {
      this.env := env;
      store := map[];
    }

    method Get(key: string, now: int, fails: bool) returns (r: Result<Option<L2Entry>>)
      ensures r == if fails then Err else
        var k := PrefixKey(env, key); Ok(if k in store && L2Live(store[k], now) then Some(store[k]) else None)
    {
      if fails { return Err; }
      var prefixed := PrefixKey(env, key);
      if prefixed in store && L2Live(store[prefixed], now) {
        return Ok(Some(store[prefixed]));
      }
      return Ok(None);
    }

    method SetWithTtl(key: string, text: string, born: int, ttlSeconds: nat, now: int, fault: WriteFault)
      returns (ok: bool)
      modifies this
      ensures ok == fault.NoFault?
      ensures store == if fault.NotApplied? then old(store)
                       else old(store)[PrefixKey(env, key) := L2Entry(text, born, Deadline(ttlSeconds, now))]
    {
      if !fault.NotApplied? {
        if ttlSeconds > 0 {
          store := store[PrefixKey(env, key) := L2Entry(text, born, Some(now + ttlSeconds * MS))];
        } else {
          store := store[PrefixKey(env, key) := L2Entry(text, born, None)];
        }
      }
      ok := fault.NoFault?;
    }

    method Del(keys: seq<string>, now: int, fault: WriteFault) returns (r: Result<nat>)
      modifies this
      ensures store == if fault.NotApplied? then old(store) else DelKeys(old(store), now, keys).0
      ensures r == if fault.NoFault? then Ok(DelKeys(old(store), now, keys).1) else Err
    {
      var (store', count) := DelKeys(store, now, keys);
      if !fault.NotApplied? {
        store := store';
      }
      r := if fault.NoFault? then Ok(count) else Err;
    }

    /** Deletes the keys 100 at a time; the batch numbered `failAt` meets the fault, which ends the work. */
    method DeleteInBatches(keys: seq<string>, now: int, failAt: nat, fault: WriteFault) returns (r: Result<nat>)
      modifies this
      ensures store == DelKeys(old(store), now, keys[..Reached(failAt, fault, |keys|)]).0
      ensures r == if Fails(failAt, fault, |keys|) then Err else Ok(DelKeys(old(store), now, keys).1)
    {
      var deletedCount := 0;
      var done, batch := 0, 0;
      while done < |keys|
        invariant done == BatchEnd(batch, |keys|) && (fault.NoFault? || batch <= failAt)
        invariant (store, deletedCount) == DelKeys(old(store), now, keys[..done])
      {
        var end := BatchEnd(batch + 1, |keys|);
        assert keys[..end] == keys[..done] + keys[done..end];
        DelAppend(old(store), now, keys[..done], keys[done..end]);
        var deleted := Del(keys[done..end], now, if batch == failAt then fault else NoFault);
        if deleted.Err? {
          return Err;
        }
        deletedCount := deletedCount + deleted.value;
        done, batch := end, batch + 1;
      }
      assert keys[..done] == keys;
      return Ok(deletedCount);
    }
  }

  /* ---------- The cache ---------- */

  class Cache {
    const redis: Redis?
    var l1: map<string, L1Entry>
    var hits: nat
    var misses: nat

    constructor (redis: Redis?)
      ensures this.redis == redis && Here() == Local(map[], 0, 0)
    {
      this.redis := redis;
      l1, hits, misses := map[], 0, 0;
    }

    function Env(): string {
      if redis == null then "" else redis.env
    }

    ghost function Shared(): set<Redis> {
      if redis == null then {} else {redis}
    }

    function Here(): Local
      reads this
    {
      Local(l1, hits, misses)
    }

    ghost function There(): Option<Store>
      reads Shared()
    {
      if redis == null then None else Some(redis.store)
    }

    method Get(key: string, now: int, fails: bool) returns (r: Result<Option<L2Entry>>)
      modifies this
      ensures r == if redis == null then Ok(None) else if fails then Err else Ok(L2Lookup(Env(), key, now, redis.store))
      ensures l1 == old(l1)
      ensures r.Ok? && r.value.Some? ==> hits == old(hits) + 1 && misses == old(misses)
      ensures !(r.Ok? && r.value.Some?) ==> hits == old(hits) && misses == old(misses) + 1
    {
      if redis != null {
        r := redis.Get(CacheKey(key), now, fails);
        if r.Ok? && r.value.Some? {
          hits := hits + 1;
        } else {
          misses := misses + 1;
        }
      } else {
        misses := misses + 1;
        r := Ok(None);
      }
    }

    method SetWithTtl(key: string, text: string, born: int, ttlSeconds: nat, now: int, fault: WriteFault)
      returns (ok: bool)
      modifies Shared()
      ensures ok == (redis == null || fault.NoFault?)
      ensures redis != null ==> redis.store == if fault.NotApplied? then old(redis.store)
        else old(redis.store)[L2Key(Env(), key) := L2Entry(text, born, Deadline(ttlSeconds, now))]
    {
      ok := true;
      if redis != null {
        ok := redis.SetWithTtl(CacheKey(key), text, born, ttlSeconds, now, fault);
      }
    }

    method GetOrInsertWith<T>(codec: Codec<T>, key: string, ttlSeconds: nat, t: Times, fetched: Result<T>, faults: Faults)
      returns (r: Result<T>, asked: bool)
      modifies this, Shared()
      ensures Outcome(r, asked, There(), Here()) ==
        Lookup(codec, Env(), key, ttlSeconds, t, fetched, faults, old(There()), old(Here()))
    {
      asked := false;
      if key in l1 && L1Live(l1[key], t.begin) {
        var value := codec.decode(l1[key].text);
        if value.Some? {
          hits := hits + 1;
          return Ok(value.value), asked;
        }
      }
      var cached := Get(key, t.begin, faults.getFails);
      if cached.Err? {
        return Err, asked;
      }
      if cached.value.Some? {
        var value := codec.decode(cached.value.value.text);
        if value.Some? {
          l1 := l1[key := L1Entry(cached.value.value.text, cached.value.value.born, t.store)];
          hits := hits + 1;
          return Ok(value.value), asked;
        }
      }
      misses := misses + 1;
      asked := true;
      if fetched.Err? {
        return Err, asked;
      }
      var serialized := codec.encode(fetched.value);
      l1 := l1[key := L1Entry(serialized, t.fetch, t.store)];
      var ok := SetWithTtl(key, serialized, t.fetch, ttlSeconds, t.store, faults.set_);
      r := if ok then fetched else Err;
    }

    method GetOrInsertWithSkipNone<T>(codec: Codec<T>, key: string, ttlSeconds: nat, t: Times,
                                      fetched: Result<Option<T>>, faults: Faults)
      returns (r: Result<Option<T>>, asked: bool)
      modifies this, Shared()
      ensures Outcome(r, asked, There(), Here()) ==
        LookupSkipNone(codec, Env(), key, ttlSeconds, t, fetched, faults, old(There()), old(Here()))
      ensures r == Ok(None) ==> asked && fetched == Ok(None)
    {
      asked := false;
      if key in l1 && L1Live(l1[key], t.begin) {
        var value := codec.decode(l1[key].text);
        if value.Some? {
          hits := hits + 1;
          return Ok(Some(value.value)), asked;
        }
      }
      var cached := Get(key, t.begin, faults.getFails);
      if cached.Err? {
        return Err, asked;
      }
      if cached.value.Some? {
        var value := codec.decode(cached.value.value.text);
        if value.Some? {
          l1 := l1[key := L1Entry(cached.value.value.text, cached.value.value.born, t.store)];
          hits := hits + 1;
          return Ok(Some(value.value)), asked;
        }
      }
      misses := misses + 1;
      asked := true;
      if fetched.Err? {
        return Err, asked;
      }
      if fetched.value.Some? {
        var serialized := codec.encode(fetched.value.value);
        l1 := l1[key := L1Entry(serialized, t.fetch, t.store)];
        var ok := SetWithTtl(key, serialized, t.fetch, ttlSeconds, t.store, faults.set_);
        if !ok {
          return Err, asked;
        }
      }
      r := fetched;
    }

    /** `pages` are the replies of SCAN up to the one with cursor 0; the SCAN may fail, or the DEL of some batch, and
        a DEL that reports an error may have been applied.  Only L2 is cleared: entries in L1 stay. */
    method DeleteByPrefix(prefix: string, now: int, pages: seq<seq<string>>, scanFails: bool,
                          failAt: nat, fault: WriteFault) returns (r: Result<nat>)
      modifies Shared()
      ensures r.Ok? <==> redis == null || !(scanFails || Fails(failAt, fault, |Concat(pages)|))
      ensures redis == null ==> r == Ok(0)
      ensures redis != null && r.Ok? ==> (redis.store, r.value) == DelKeys(old(redis.store), now, Concat(pages))
      ensures redis != null && r.Err? ==>
        var reached := if scanFails then 0 else Reached(failAt, fault, |Concat(pages)|);
        redis.store == DelKeys(old(redis.store), now, Concat(pages)[..reached]).0
    {
      if redis == null { return Ok(0); }
      if scanFails {
        return Err;
      }
      var keysToDelete := ScannedKeys(pages);
      r := redis.DeleteInBatches(keysToDelete, now, failAt, fault);
      assert keysToDelete[..|keysToDelete|] == keysToDelete;
    }
  }

  /** The keys of all pages, in the order in which they come. */
  method ScannedKeys(pages: seq<seq<string>>) returns (keysToDelete: seq<string>)
    ensures keysToDelete == Concat(pages)
  {
    keysToDelete := [];
    for page := 0 to |pages|
      invariant keysToDelete == Concat(pages[..page])
    {
      keysToDelete := keysToDelete + pages[page];
      assert pages[..page + 1][..page] == pages[..page];
    }
    assert pages[..|pages|] == pages;
  }

  /** How many of `total` keys the first batches of 100 hold. */
  function BatchEnd(batches: nat, total: nat): (end: nat)
    ensures end <= total
  {
    if 100 * batches < total then 100 * batches else total
  }

  predicate Fails(failAt: nat, fault: WriteFault, total: nat) {
    !fault.NoFault? && 100 * failAt < total
  }

  /** How many keys are reached before the work ends. */
  function Reached(failAt: nat, fault: WriteFault, total: nat): (reached: nat)
    ensures reached <= total
  {
    if !Fails(failAt, fault, total) then total
    else BatchEnd(if fault.NotApplied? then failAt else failAt + 1, total)
  }

  /** A failure at some batch of 100 keys leaves that batch and the later ones, or only the later ones if it was applied
      all the same. */
  lemma ReachSpelled(failAt: nat, total: nat)
    requires 100 * failAt < total
    ensures Reached(failAt, NotApplied, total) == 100 * failAt
    ensures Reached(failAt, AppliedUnacked, total) == if 100 * failAt + 100 < total then 100 * failAt + 100 else total
    ensures forall n: nat :: Reached(n, NoFault, total) == total
  {
  }

  lemma {:induction false} DelAppend(store: Store, now: int, a: seq<string>, b: seq<string>)
    ensures var (store', count) := DelKeys(store, now, a);
      DelKeys(store, now, a + b) == (DelKeys(store', now, b).0, count + DelKeys(store', now, b).1)
    decreases |a|
  {
    if a == [] {
      assert a + b == b;
    } else {
      assert (a + b)[1..] == a[1..] + b;
      DelAppend(store - {a[0]}, now, a[1..], b);
    }
  }

  /** DEL removes exactly the given keys. */
  lemma {:induction false} DelRemovesKeys(store: Store, now: int, keys: seq<string>)
    ensures DelKeys(store, now, keys).0 == store - KeySet(keys)
    decreases |keys|
  {
    if keys != [] {
      DelRemovesKeys(store - {keys[0]}, now, keys[1..]);
      assert keys == [keys[0]] + keys[1..];
    }
  }

  /** Its reply counts each live key once, however often the key is given. */
  lemma {:induction false} DelCountsLiveKeys(store: Store, now: int, keys: seq<string>)
    ensures DelKeys(store, now, keys).1 == |LiveKeys(store, now) * KeySet(keys)|
    decreases |keys|
  {
    if keys == [] {
      assert LiveKeys(store, now) * KeySet(keys) == {};
    } else {
      DelCountsLiveKeys(store - {keys[0]}, now, keys[1..]);
      OneRemoved(store, now, keys);
      OneCounted(LiveKeys(store, now), keys[0], KeySet(keys[1..]));
    }
  }

  lemma OneRemoved(store: Store, now: int, keys: seq<string>)
    requires keys != []
    ensures KeySet(keys) == {keys[0]} + KeySet(keys[1..])
    ensures LiveKeys(store - {keys[0]}, now) == LiveKeys(store, now) - {keys[0]}
  {
    assert keys == [keys[0]] + keys[1..];
  }

  lemma OneCounted<T>(live: set<T>, key: T, rest: set<T>)
    ensures |live * ({key} + rest)| == |(live - {key}) * rest| + if key in live then 1 else 0
  {
    if key in live {
      assert live * ({key} + rest) == {key} + (live - {key}) * rest;
    } else {
      assert live * ({key} + rest) == (live - {key}) * rest;
    }
  }

  /** With a prefix free of glob characters and a complete scan, exactly the live keys with the prefix go, the rest
      stay as they are, and the count is the number of live keys removed. */
  lemma DeletesExactlyThePrefix(store: Store, now: int, env: string, prefix: string, pages: seq<seq<string>>)
    requires GlobFree(PrefixKey(env, CacheKey(prefix)))
    requires ScanComplete(store, now, PrefixPattern(env, prefix), pages)
    ensures var (store', count) := DelKeys(store, now, Concat(pages));
      var hit := set k <- LiveKeys(store, now) | PrefixKey(env, CacheKey(prefix)) <= k;
      && LiveKeys(store', now) == LiveKeys(store, now) - hit
      && (forall k <- store' :: k in store && store'[k] == store[k])
      && (forall k <- store | !(PrefixKey(env, CacheKey(prefix)) <= k) :: k in store')
      && count == |hit|
  {
    DelRemovesKeys(store, now, Concat(pages));
    DelCountsLiveKeys(store, now, Concat(pages));
    forall k ensures GlobMatch(PrefixPattern(env, prefix), k) <==> PrefixKey(env, CacheKey(prefix)) <= k {
      LiteralPrefix(PrefixKey(env, CacheKey(prefix)), k);
    }
    var hit := set k <- LiveKeys(store, now) | PrefixKey(env, CacheKey(prefix)) <= k;
    assert LiveKeys(store, now) * KeySet(Concat(pages)) == hit;
  }

  /** The cache key of an entry has the prefix exactly if its L2 key does: nothing of another key goes. */
  lemma PrefixOfL2Key(env: string, prefix: string, key: string)
    ensures PrefixKey(env, CacheKey(prefix)) <= L2Key(env, key) <==> prefix <= key
  {
    var lead := env + ":" + "cache:";
    assert PrefixKey(env, CacheKey(prefix)) == lead + prefix && L2Key(env, key) == lead + key;
    if prefix <= key {
      assert (lead + key)[..|lead + prefix|] == lead + key[..|prefix|];
    }
    if lead + prefix <= lead + key {
      assert key[..|prefix|] == (lead + key)[|lead|..|lead + prefix|] == prefix;
    }
  }
}
