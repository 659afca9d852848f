/** What holds over whole runs of several processes that share one Redis and whose calls overlap: every value served is
    one the source really gave, and it is not older than the lifetimes allow. */
module CacheRuns {
  import opened Prelude
  import opened CacheService

  /** The value of a key at the source, over time; None if the row does not exist. */
  type Source<!V> = (string, int) -> Option<V>

  /* ---------- Codecs ---------- */

  const NULL := "null"

  ghost predicate Sound<T(!new)>(c: Codec<T>) {
    forall v :: c.decode(c.encode(v)) == Some(v)
  }

  /** How an optional value is encoded: an absent one as null, a present one like the bare value. */
  function Optional<T>(c: Codec<T>): Codec<Option<T>> {
    Codec(
      (v: Option<T>) => match v case None => NULL case Some(x) => c.encode(x),
      text => if text == NULL then Some(None)
              else match c.decode(text) case None => None case Some(x) => Some(Some(x)))
  }

  /** The optional codec is sound exactly if no bare value encodes as null. */
  lemma OptionalSound<T(!new)>(c: Codec<T>)
    requires Sound(c)
    ensures Sound(Optional(c)) <==> forall v :: c.encode(v) != NULL
  {
    var o := Optional(c);
    if forall v :: c.encode(v) != NULL {
      forall v ensures o.decode(o.encode(v)) == Some(v) {
        match v
        case None =>
        case Some(x) => assert c.decode(c.encode(x)) == Some(x);
      }
    } else {
      var v :| c.encode(v) == NULL;
      assert o.decode(o.encode(Some(v))) == Some(None);
    }
  }

  /** A codec for bare values that keeps null apart. */
  ghost predicate Usable<T(!new)>(c: Codec<T>) {
    Sound(c) && c.decode(NULL) == None
  }

  /** What a text stands for: a value, an absent value, or nothing. */
  function Meaning<V>(c: Codec<V>, text: string): Option<Option<V>> {
    Optional(c).decode(text)
  }

  datatype Reader = Bare | OptionalReader | SkipNone

  /** What a reader takes a text for. */
  function DecodeFor<V>(c: Codec<V>, reader: Reader, text: string): Option<Option<V>> {
    if reader.OptionalReader? then Meaning(c, text)
    else match c.decode(text) case None => None case Some(v) => Some(Some(v))
  }

  lemma DecodedIsMeant<V(!new)>(c: Codec<V>, reader: Reader, text: string)
    requires Usable(c) && DecodeFor(c, reader, text).Some?
    ensures Meaning(c, text) == DecodeFor(c, reader, text)
  {
  }

  lemma EncodedMeans<V(!new)>(c: Codec<V>, v: Option<V>)
    requires Usable(c)
    ensures Meaning(c, Optional(c).encode(v)) == Some(v)
  {
    if v.Some? { assert c.decode(c.encode(v.value)) == Some(v.value); }
  }

  /* ---------- Calls that nobody interrupts ---------- */

  datatype Read = Read(reader: Reader, key: string, ttlSeconds: nat, times: Times, sourceFails: bool, faults: Faults)

  /** The outcome of the reader's method, with the value as an option whichever the reader. */
  function ReadOutcome<V>(c: Codec<V>, src: Source<V>, env: string, r: Read, store: Option<Store>, local: Local)
    : Outcome<Option<V>>
  {
    var fetched := if r.sourceFails then Err else Ok(src(r.key, r.times.fetch));
    match r.reader
    case Bare =>
      var bare := if fetched.Ok? && fetched.value.Some? then Ok(fetched.value.value) else Err;
      var o := Lookup(c, env, r.key, r.ttlSeconds, r.times, bare, r.faults, store, local);
      Outcome(if o.result.Ok? then Ok(Some(o.result.value)) else Err, o.fetched, o.store, o.local)
    case OptionalReader =>
      Lookup(Optional(c), env, r.key, r.ttlSeconds, r.times, fetched, r.faults, store, local)
    case SkipNone =>
      LookupSkipNone(c, env, r.key, r.ttlSeconds, r.times, fetched, r.faults, store, local)
  }

  /** A live L1 entry that says the row is absent. */
  predicate NullInL1(key: string, now: int, local: Local) {
    key in local.l1 && L1Live(local.l1[key], now) && local.l1[key].text == NULL
  }

  /** In the same state a present value served from the caches to one reader is served to the others, who leave the
      same state: always between the bare and the skip-none reader and from the optional one to both, and to the
      optional one exactly if its L1 does not say that the row is absent. */
  lemma ReadersAgree<V(!new)>(c: Codec<V>, src: Source<V>, env: string, r: Read, store: Option<Store>, local: Local,
                              v: V)
    requires Usable(c)
    ensures var bare := ReadOutcome(c, src, env, r.(reader := Bare), store, local);
      var optional := ReadOutcome(c, src, env, r.(reader := OptionalReader), store, local);
      var skipNone := ReadOutcome(c, src, env, r.(reader := SkipNone), store, local);
      && (Serves(bare, v) <==> Serves(skipNone, v)) && (Serves(bare, v) ==> bare == skipNone)
      && (Serves(optional, v) ==> bare == optional)
      && (Serves(bare, v) ==> (bare == optional <==> !NullInL1(r.key, r.times.begin, local)))
  {
  }

  predicate Serves<V(==)>(o: Outcome<Option<V>>, v: V) {
    o.result == Ok(Some(v)) && !o.fetched
  }

  /* ---------- The world ---------- */

  /** Where a call stands.  A value carries the instant of the source that it comes from, `born`, and the instant at
      which the call found or fetched it, `at`. */
  datatype Stage<+V> =
    | AskingL2
    | Refilling(text: string, value: Option<V>, born: int, at: int)
    | AskingSource
    | StoringL1(value: Option<V>, at: int)
    | StoringL2(value: Option<V>, at: int)

  datatype Call<+V> = Call(proc: nat, reader: Reader, key: string, ttlSeconds: nat, begun: int, stage: Stage<V>)

  /** `redis` says which processes have Redis configured; `calls` are those that have not returned. */
  datatype World<+V> = World(env: string, store: Store, locals: map<nat, Local>, redis: set<nat>,
                             calls: map<nat, Call<V>>, clock: int)

  /** `slack` bounds how long a call takes from finding or fetching a value to storing it; `maxTtl`, if given, bounds
      the lifetimes that readers ask for, in seconds, and says that all of them do. */
  datatype Limits = Limits(slack: nat, maxTtl: Option<nat>)

  datatype Step =
    | Tick(elapsed: nat)
    | Look(id: nat, proc: nat, reader: Reader, key: string, ttlSeconds: nat)
    | AskL2(id: nat, fails: bool)
    | Refill(id: nat)
    | Fetch(id: nat, fails: bool)
    | StoreL1(id: nat)
    | StoreL2(id: nat, fault: WriteFault)
    | Abandon(id: nat)
    | Evict(proc: nat, key: string)          // capacity eviction from an L1
    | Remove(keys: set<string>)              // deletions in L2
    | Garbage(key: string, entry: L2Entry)   // somebody stores a text that does not decode

  /** What a step answers: nothing yet, an error, or a value for a call by `reader` for `key` that began at `begun`. */
  datatype Answer<+V> =
    | Pending
    | Failure
    | Value(value: Option<V>, key: string, reader: Reader, begun: int, born: int, at: int)

  predicate InTime(lim: Limits, at: int, clock: int) { clock <= at + lim.slack }

  predicate TtlFits(lim: Limits, ttlSeconds: nat) {
    lim.maxTtl.Some? ==> 0 < ttlSeconds <= lim.maxTtl.value
  }

  predicate Enabled<V>(c: Codec<V>, lim: Limits, w: World<V>, e: Step) {
    match e
    case Tick(_) => true
    case Look(id, p, _, _, ttl) => id !in w.calls && p in w.locals && TtlFits(lim, ttl)
    case AskL2(id, _) => Active(w, id) && w.calls[id].stage.AskingL2?
    case Refill(id) =>
      Active(w, id) && w.calls[id].stage.Refilling? && InTime(lim, w.calls[id].stage.at, w.clock)
    case Fetch(id, _) => Active(w, id) && w.calls[id].stage.AskingSource?
    case StoreL1(id) => Active(w, id) && w.calls[id].stage.StoringL1? && InTime(lim, w.calls[id].stage.at, w.clock)
    case StoreL2(id, _) => Active(w, id) && w.calls[id].stage.StoringL2? && InTime(lim, w.calls[id].stage.at, w.clock)
    case Abandon(id) => id in w.calls
    case Evict(p, _) => p in w.locals
    case Remove(_) => true
    case Garbage(_, entry) => Meaning(c, entry.text) == None
  }

  predicate Active<V>(w: World<V>, id: nat) {
    id in w.calls && w.calls[id].proc in w.locals
  }

  function Returned<V>(w: World<V>, id: nat): World<V> {
    w.(calls := w.calls - {id})
  }

  function At<V>(w: World<V>, id: nat, stage: Stage<V>): World<V>
    requires id in w.calls
  {
    w.(calls := w.calls[id := w.calls[id].(stage := stage)])
  }

  function WithLocal<V>(w: World<V>, p: nat, local: Local): World<V> {
    w.(locals := w.locals[p := local])
  }

  /** The first step of a call: its look into L1, which may answer it. */
  function LookStep<V>(c: Codec<V>, w: World<V>, id: nat, p: nat, reader: Reader, key: string, ttl: nat)
    : (World<V>, Answer<V>)
    requires p in w.locals
  {
    var local := w.locals[p];
    var found := if key in local.l1 && L1Live(local.l1[key], w.clock) then DecodeFor(c, reader, local.l1[key].text)
                 else None;
    if found.Some? then
      (WithLocal(w, p, local.(hits := local.hits + 1)),
       Value(found.value, key, reader, w.clock, local.l1[key].born, w.clock))
    else (w.(calls := w.calls[id := Call(p, reader, key, ttl, w.clock, AskingL2)]), Pending)
  }

  /** The second step: its look into L2. */
  function AskL2Step<V>(c: Codec<V>, w: World<V>, id: nat, fails: bool): (World<V>, Answer<V>)
    requires Active(w, id)
  {
    var call := w.calls[id];
    var local := w.locals[call.proc];
    if call.proc !in w.redis then
      (At(WithLocal(w, call.proc, local.(misses := local.misses + 2)), id, AskingSource), Pending)
    else if fails then (Returned(WithLocal(w, call.proc, local.(misses := local.misses + 1)), id), Failure)
    else
      match L2Lookup(w.env, call.key, w.clock, w.store)
      case None => (At(WithLocal(w, call.proc, local.(misses := local.misses + 2)), id, AskingSource), Pending)
      case Some(e) =>
        match DecodeFor(c, call.reader, e.text)
        case None =>
          (At(WithLocal(w, call.proc, local.(hits := local.hits + 1, misses := local.misses + 1)), id, AskingSource),
           Pending)
        case Some(v) =>
          (At(WithLocal(w, call.proc, local.(hits := local.hits + 1)), id, Refilling(e.text, v, e.born, w.clock)),
           Pending)
  }

  function RefillStep<V>(w: World<V>, id: nat): (World<V>, Answer<V>)
    requires Active(w, id) && w.calls[id].stage.Refilling?
  {
    var Call(p, reader, key, _, begun, Refilling(text, v, born, at)) := w.calls[id];
    var local := w.locals[p];
    (Returned(WithLocal(w, p, local.(l1 := local.l1[key := L1Entry(text, born, w.clock)], hits := local.hits + 1)), id),
     Value(v, key, reader, begun, born, at))
  }

  function FetchStep<V>(src: Source<V>, w: World<V>, id: nat, fails: bool): (World<V>, Answer<V>)
    requires Active(w, id)
  {
    var call := w.calls[id];
    var v := src(call.key, w.clock);
    if fails || (call.reader.Bare? && v.None?) then (Returned(w, id), Failure)
    else if call.reader.SkipNone? && v.None? then
      (Returned(w, id), Value(None, call.key, call.reader, call.begun, w.clock, w.clock))
    else (At(w, id, StoringL1(v, w.clock)), Pending)
  }

  function StoreL1Step<V>(c: Codec<V>, w: World<V>, id: nat): (World<V>, Answer<V>)
    requires Active(w, id) && w.calls[id].stage.StoringL1?
  {
    var Call(p, _, key, _, _, StoringL1(v, at)) := w.calls[id];
    var local := w.locals[p];
    var local' := local.(l1 := local.l1[key := L1Entry(Optional(c).encode(v), at, w.clock)]);
    (At(WithLocal(w, p, local'), id, StoringL2(v, at)), Pending)
  }

  function StoreL2Step<V>(c: Codec<V>, w: World<V>, id: nat, fault: WriteFault): (World<V>, Answer<V>)
    requires Active(w, id) && w.calls[id].stage.StoringL2?
  {
    var Call(p, reader, key, ttl, begun, StoringL2(v, at)) := w.calls[id];
    var value := Value(v, key, reader, begun, at, at);
    if p !in w.redis then (Returned(w, id), value)
    else
      var e := L2Entry(Optional(c).encode(v), at, Deadline(ttl, w.clock));
      var store' := if fault.NotApplied? then w.store else w.store[L2Key(w.env, key) := e];
      (Returned(w.(store := store'), id), if fault.NoFault? then value else Failure)
  }

  /** A step and what it answers to the call's caller. */
  function Do<V>(c: Codec<V>, src: Source<V>, lim: Limits, w: World<V>, e: Step): (World<V>, Answer<V>)
    requires Enabled(c, lim, w, e)
  {
    match e
    case Tick(d) => (w.(clock := w.clock + d), Pending)
    case Look(id, p, reader, key, ttl) => LookStep(c, w, id, p, reader, key, ttl)
    case AskL2(id, fails) => AskL2Step(c, w, id, fails)
    case Refill(id) => RefillStep(w, id)
    case Fetch(id, fails) => FetchStep(src, w, id, fails)
    case StoreL1(id) => StoreL1Step(c, w, id)
    case StoreL2(id, fault) => StoreL2Step(c, w, id, fault)
    case Abandon(id) => (Returned(w, id), Pending)
    case Evict(p, key) => (WithLocal(w, p, w.locals[p].(l1 := w.locals[p].l1 - {key})), Pending)
    case Remove(keys) => (w.(store := w.store - keys), Pending)
    case Garbage(key, entry) => (w.(store := w.store[key := entry]), Pending)
  }

  function Next<V>(c: Codec<V>, src: Source<V>, lim: Limits, w: World<V>, e: Step): World<V>
    requires Enabled(c, lim, w, e)
  {
    Do(c, src, lim, w, e).0
  }

  predicate ValidRun<V>(c: Codec<V>, src: Source<V>, lim: Limits, w: World<V>, es: seq<Step>)
    decreases |es|
  {
    es == [] || (Enabled(c, lim, w, es[0]) && ValidRun(c, src, lim, Next(c, src, lim, w, es[0]), es[1..]))
  }

  function After<V>(c: Codec<V>, src: Source<V>, lim: Limits, w: World<V>, es: seq<Step>): World<V>
    requires ValidRun(c, src, lim, w, es)
    decreases |es|
  {
    if es == [] then w else After(c, src, lim, Next(c, src, lim, w, es[0]), es[1..])
  }

  predicate Cold<V>(w: World<V>) {
    w.store == map[] && w.calls == map[] && forall p <- w.locals :: w.locals[p].l1 == map[]
  }

  /* ---------- A call that nobody interrupts is the method ---------- */

  function Waited<V>(w: World<V>, now: int): World<V> { w.(clock := now) }

  /** Looking into both levels, with the value as an option whichever the reader. */
  function ConsultFor<V>(c: Codec<V>, reader: Reader, env: string, key: string, t: Times, getFails: bool,
                         store: Option<Store>, local: Local): (Consulted<Option<V>>, Local)
  {
    if reader.OptionalReader? then Consult(Optional(c), env, key, t, getFails, store, local)
    else
      var (found, local') := Consult(c, env, key, t, getFails, store, local);
      (match found case Hit(v) => Hit(Some(v)) case Failed => Failed case Miss => Miss, local')
  }

  /** The outcome of a read by what it found and what the source gave. */
  lemma OutcomeByCases<V(!new)>(c: Codec<V>, src: Source<V>, env: string, r: Read, store: Option<Store>, local: Local)
    ensures var (found, local1) := ConsultFor(c, r.reader, env, r.key, r.times, r.faults.getFails, store, local);
      var local2 := local1.(misses := local1.misses + 1);
      var v := src(r.key, r.times.fetch);
      ReadOutcome(c, src, env, r, store, local) ==
        match found
        case Hit(v) => Outcome(Ok(v), false, store, local1)
        case Failed => Outcome(Err, false, store, local1)
        case Miss =>
          if r.sourceFails || (r.reader.Bare? && v.None?) then Outcome(Err, true, store, local2)
          else if r.reader.SkipNone? && v.None? then Outcome(Ok(None), true, store, local2)
          else
            var (ok, store', local') := Deposit(env, r.key, Optional(c).encode(v), r.ttlSeconds, r.times, r.faults.set_,
                                                store, local2);
            Outcome(if ok then Ok(v) else Err, true, store', local')
  {
  }

  function L1Found<V>(c: Codec<V>, reader: Reader, key: string, now: int, local: Local): Option<Option<V>> {
    if key in local.l1 && L1Live(local.l1[key], now) then DecodeFor(c, reader, local.l1[key].text) else None
  }

  lemma ConsultByLevels<V(!new)>(c: Codec<V>, reader: Reader, env: string, key: string, t: Times, getFails: bool,
                                 store: Option<Store>, local: Local)
    ensures ConsultFor(c, reader, env, key, t, getFails, store, local) ==
      var inL1 := L1Found(c, reader, key, t.begin, local);
      if inL1.Some? then (Hit(inL1.value), local.(hits := local.hits + 1))
      else if store.None? then (Miss, local.(misses := local.misses + 1))
      else if getFails then (Failed, local.(misses := local.misses + 1))
      else
        match L2Lookup(env, key, t.begin, store.value)
        case None => (Miss, local.(misses := local.misses + 1))
        case Some(e) =>
          match DecodeFor(c, reader, e.text)
          case None => (Miss, local.(hits := local.hits + 1))
          case Some(v) =>
            (Hit(v), local.(l1 := local.l1[key := L1Entry(e.text, e.born, t.store)], hits := local.hits + 2))
  {
  }

  /** The second step, and a refill if it finds an entry. */
  function AsksAlone<V>(c: Codec<V>, w: World<V>, id: nat, r: Read): (World<V>, Answer<V>)
    requires Active(w, id)
  {
    var (w', a) := AskL2Step(c, w, id, r.faults.getFails);
    if a.Pending? && w'.calls[id].stage.Refilling? then RefillStep(Waited(w', r.times.store), id) else (w', a)
  }

  /** The first steps, up to a hit, a failure or a miss. */
  function LooksAlone<V>(c: Codec<V>, w: World<V>, id: nat, p: nat, r: Read): (World<V>, Answer<V>)
    requires id !in w.calls && p in w.locals
  {
    var (w', a) := LookStep(c, Waited(w, r.times.begin), id, p, r.reader, r.key, r.ttlSeconds);
    if a.Pending? then AsksAlone(c, w', id, r) else (w', a)
  }

  /** What the steps up to there find and leave behind. */
  predicate FoundAlone<V(==)>(w: World<V>, id: nat, p: nat, r: Read, found: Consulted<Option<V>>, local: Local,
                              w': World<V>, a: Answer<V>)
  {
    match found
    case Hit(v) => a.Value? && a.value == v && w' == w.(locals := w.locals[p := local], clock := w'.clock)
    case Failed => a == Failure && w' == w.(locals := w.locals[p := local], clock := w'.clock)
    case Miss =>
      && a == Pending
      && w' == w.(locals := w.locals[p := local.(misses := local.misses + 1)], clock := r.times.begin,
                  calls := w.calls[id := Call(p, r.reader, r.key, r.ttlSeconds, r.times.begin, AskingSource)])
  }

  lemma AsksAloneConsults<V(!new)>(c: Codec<V>, w: World<V>, id: nat, p: nat, r: Read)
    requires id !in w.calls && p in w.locals && L1Found(c, r.reader, r.key, r.times.begin, w.locals[p]).None?
    ensures var call := Call(p, r.reader, r.key, r.ttlSeconds, r.times.begin, AskingL2);
      var (w', a) := AsksAlone(c, w.(clock := r.times.begin, calls := w.calls[id := call]), id, r);
      var store := if p in w.redis then Some(w.store) else None;
      var (found, local) := ConsultFor(c, r.reader, w.env, r.key, r.times, r.faults.getFails, store, w.locals[p]);
      FoundAlone(w, id, p, r, found, local, w', a)
  {
    var store := if p in w.redis then Some(w.store) else None;
    ConsultByLevels(c, r.reader, w.env, r.key, r.times, r.faults.getFails, store, w.locals[p]);
    var call := Call(p, r.reader, r.key, r.ttlSeconds, r.times.begin, AskingL2);
    assert w.calls[id := call] - {id} == w.calls;
    var found := L2Lookup(w.env, r.key, r.times.begin, w.store);
    if found.Some? && DecodeFor(c, r.reader, found.value.text).Some? {
      var v := DecodeFor(c, r.reader, found.value.text).value;
      var stage := Refilling(found.value.text, v, found.value.born, r.times.begin);
      assert w.calls[id := call][id := call.(stage := stage)] - {id} == w.calls;
    }
  }

  lemma LooksAloneConsults<V(!new)>(c: Codec<V>, w: World<V>, id: nat, p: nat, r: Read)
    requires id !in w.calls && p in w.locals
    ensures var (w', a) := LooksAlone(c, w, id, p, r);
      var store := if p in w.redis then Some(w.store) else None;
      var (found, local) := ConsultFor(c, r.reader, w.env, r.key, r.times, r.faults.getFails, store, w.locals[p]);
      FoundAlone(w, id, p, r, found, local, w', a)
  {
    var store := if p in w.redis then Some(w.store) else None;
    if L1Found(c, r.reader, r.key, r.times.begin, w.locals[p]).None? {
      AsksAloneConsults(c, w, id, p, r);
    } else {
      ConsultByLevels(c, r.reader, w.env, r.key, r.times, r.faults.getFails, store, w.locals[p]);
    }
  }

  /** The last steps, from a miss on. */
  function FetchesAlone<V>(c: Codec<V>, src: Source<V>, w: World<V>, id: nat, r: Read): (World<V>, Answer<V>)
    requires Active(w, id)
  {
    var (w1, a1) := FetchStep(src, Waited(w, r.times.fetch), id, r.sourceFails);
    if !a1.Pending? then (w1, a1)
    else
      var (w2, _) := StoreL1Step(c, Waited(w1, r.times.store), id);
      StoreL2Step(c, w2, id, r.faults.set_)
  }

  lemma FetchesAloneDeposits<V(!new)>(c: Codec<V>, src: Source<V>, w: World<V>, id: nat, p: nat, r: Read)
    requires id !in w.calls && p in w.locals
    ensures var call := Call(p, r.reader, r.key, r.ttlSeconds, r.times.begin, AskingSource);
      var (w', a) := FetchesAlone(c, src, w.(calls := w.calls[id := call]), id, r);
      var v := src(r.key, r.times.fetch);
      if r.sourceFails || (r.reader.Bare? && v.None?) then w' == Waited(w, w'.clock) && a == Failure
      else if r.reader.SkipNone? && v.None? then w' == Waited(w, w'.clock) && SameAnswer(a, Ok(v))
      else
        var store := if p in w.redis then Some(w.store) else None;
        var (ok, store', local') := Deposit(w.env, r.key, Optional(c).encode(v), r.ttlSeconds, r.times, r.faults.set_,
                                            store, w.locals[p]);
        && w' == w.(store := store'.GetOr(w.store), locals := w.locals[p := local'], clock := r.times.store)
        && SameAnswer(a, if ok then Ok(v) else Err)
  {
    var call := Call(p, r.reader, r.key, r.ttlSeconds, r.times.begin, AskingSource);
    var v := src(r.key, r.times.fetch);
    var l1 := call.(stage := StoringL1(v, r.times.fetch));
    var l2 := call.(stage := StoringL2(v, r.times.fetch));
    assert w.calls[id := call] - {id} == w.calls;
    assert w.calls[id := call][id := l1][id := l2] - {id} == w.calls;
  }

  /** The steps of one call, one after another, at the given times. */
  function Alone<V>(c: Codec<V>, src: Source<V>, w: World<V>, id: nat, p: nat, r: Read): (World<V>, Answer<V>)
    requires id !in w.calls && p in w.locals
  {
    var (w', a) := LooksAlone(c, w, id, p, r);
    var (w'', a') := if a.Pending? && Active(w', id) then FetchesAlone(c, src, w', id, r) else (w', a);
    (Waited(w'', r.times.store), a')
  }

  predicate SameAnswer<V(==)>(a: Answer<V>, result: Result<Option<V>>) {
    match result
    case Ok(v) => a.Value? && a.value == v
    case Err => a == Failure
  }

  /** A call whose steps nobody interrupts answers what the reader's method does and leaves the same caches. */
  lemma AloneIsTheMethod<V(!new)>(c: Codec<V>, src: Source<V>, w: World<V>, id: nat, p: nat, r: Read)
    requires id !in w.calls && p in w.locals
    ensures var (w', a) := Alone(c, src, w, id, p, r);
      var o := ReadOutcome(c, src, w.env, r, if p in w.redis then Some(w.store) else None, w.locals[p]);
      && w' == w.(store := o.store.GetOr(w.store), locals := w.locals[p := o.local], clock := r.times.store)
      && SameAnswer(a, o.result)
  {
    var store := if p in w.redis then Some(w.store) else None;
    var (found, local) := ConsultFor(c, r.reader, w.env, r.key, r.times, r.faults.getFails, store, w.locals[p]);
    LooksAloneConsults(c, w, id, p, r);
    OutcomeByCases(c, src, w.env, r, store, w.locals[p]);
    if found.Miss? {
      MissedAlone(c, src, w, id, p, r, local.(misses := local.misses + 1));
    }
  }

  lemma MissedAlone<V(!new)>(c: Codec<V>, src: Source<V>, w: World<V>, id: nat, p: nat, r: Read, local: Local)
    requires id !in w.calls && p in w.locals
    requires LooksAlone(c, w, id, p, r) ==
      (w.(locals := w.locals[p := local], clock := r.times.begin,
          calls := w.calls[id := Call(p, r.reader, r.key, r.ttlSeconds, r.times.begin, AskingSource)]), Pending)
    ensures var (w', a) := Alone(c, src, w, id, p, r);
      var v := src(r.key, r.times.fetch);
      var now := r.times.store;
      if r.sourceFails || (r.reader.Bare? && v.None?) then
        w' == w.(locals := w.locals[p := local], clock := now) && a == Failure
      else if r.reader.SkipNone? && v.None? then
        w' == w.(locals := w.locals[p := local], clock := now) && SameAnswer(a, Ok(v))
      else
        var (ok, store', local') := Deposit(w.env, r.key, Optional(c).encode(v), r.ttlSeconds, r.times, r.faults.set_,
                                            if p in w.redis then Some(w.store) else None, local);
        && w' == w.(store := store'.GetOr(w.store), locals := w.locals[p := local'], clock := now)
        && SameAnswer(a, if ok then Ok(v) else Err)
  {
    FetchesAloneDeposits(c, src, w.(locals := w.locals[p := local], clock := r.times.begin), id, p, r);
  }

  /* ---------- The invariant: every entry is genuine and its lifetime is bounded ---------- */

  /** If the text stands for anything, then for what the source gave for the key at `born`. */
  predicate Genuine<V(==)>(c: Codec<V>, src: Source<V>, key: string, text: string, born: int) {
    Meaning(c, text).Some? ==> Meaning(c, text).value == src(key, born)
  }

  /** No instant at which an L2 entry is found is later than this after its birth. */
  function L2Age(lim: Limits): nat { lim.slack + lim.maxTtl.GetOr(0) * MS }

  /** No instant at which a value is found is this much later than its birth. */
  function MaxAge(lim: Limits): nat { L2Age(lim) + lim.slack + L1_LIFE }

  ghost predicate L1Fits<V>(c: Codec<V>, src: Source<V>, lim: Limits, clock: int, key: string, e: L1Entry) {
    && e.insertedAt <= clock
    && (Meaning(c, e.text).Some? ==>
          && Genuine(c, src, key, e.text, e.born)
          && e.born <= clock
          && (lim.maxTtl.Some? ==> e.insertedAt <= e.born + L2Age(lim) + lim.slack))
  }

  ghost predicate L2Fits<V>(c: Codec<V>, src: Source<V>, lim: Limits, clock: int, key: string, e: L2Entry) {
    Meaning(c, e.text).Some? ==>
      && Genuine(c, src, key, e.text, e.born)
      && e.born <= clock
      && (lim.maxTtl.Some? ==> e.expiresAt.Some? && e.expiresAt.value <= e.born + L2Age(lim))
  }

  ghost predicate CallFits<V>(c: Codec<V>, src: Source<V>, lim: Limits, clock: int, call: Call<V>) {
    && TtlFits(lim, call.ttlSeconds) && call.begun <= clock
    && match call.stage
       case AskingL2 => true
       case AskingSource => true
       case Refilling(text, v, born, at) =>
         && DecodeFor(c, call.reader, text) == Some(v) && src(call.key, born) == v && born <= at
         && call.begun <= at <= clock && (lim.maxTtl.Some? ==> at <= born + L2Age(lim))
       case StoringL1(v, at) => FetchFits(src, clock, call, v, at)
       case StoringL2(v, at) => FetchFits(src, clock, call, v, at)
  }

  ghost predicate FetchFits<V>(src: Source<V>, clock: int, call: Call<V>, v: Option<V>, at: int) {
    src(call.key, at) == v && call.begun <= at <= clock && (v.None? ==> call.reader.OptionalReader?)
  }

  ghost predicate LocalFits<V>(c: Codec<V>, src: Source<V>, lim: Limits, clock: int, local: Local) {
    forall key <- local.l1 :: L1Fits(c, src, lim, clock, key, local.l1[key])
  }

  ghost predicate StoreFits<V>(c: Codec<V>, src: Source<V>, lim: Limits, clock: int, env: string, store: Store) {
    forall key: string | L2Key(env, key) in store :: L2Fits(c, src, lim, clock, key, store[L2Key(env, key)])
  }

  ghost predicate LocalsFit<V>(c: Codec<V>, src: Source<V>, lim: Limits, clock: int, locals: map<nat, Local>) {
    forall p <- locals :: LocalFits(c, src, lim, clock, locals[p])
  }

  ghost predicate CallsFit<V>(c: Codec<V>, src: Source<V>, lim: Limits, clock: int, calls: map<nat, Call<V>>) {
    forall id <- calls :: CallFits(c, src, lim, clock, calls[id])
  }

  ghost predicate Inv<V>(c: Codec<V>, src: Source<V>, lim: Limits, w: World<V>) {
    && StoreFits(c, src, lim, w.clock, w.env, w.store)
    && LocalsFit(c, src, lim, w.clock, w.locals)
    && CallsFit(c, src, lim, w.clock, w.calls)
  }

  lemma L2KeyInjective(env: string, a: string, b: string)
    ensures L2Key(env, a) == L2Key(env, b) ==> a == b
  {
    var lead := env + ":" + "cache:";
    assert L2Key(env, a) == lead + a && L2Key(env, b) == lead + b;
    assert (lead + a)[|lead|..] == a && (lead + b)[|lead|..] == b;
  }

  lemma TickKeepsInv<V>(c: Codec<V>, src: Source<V>, lim: Limits, w: World<V>, elapsed: nat)
    requires Inv(c, src, lim, w)
    ensures Inv(c, src, lim, w.(clock := w.clock + elapsed))
  {
    var later := w.clock + elapsed;
    forall key: string | L2Key(w.env, key) in w.store
      ensures L2Fits(c, src, lim, later, key, w.store[L2Key(w.env, key)])
    {
      assert L2Fits(c, src, lim, w.clock, key, w.store[L2Key(w.env, key)]);
    }
    forall p <- w.locals ensures LocalFits(c, src, lim, later, w.locals[p]) {
      forall key <- w.locals[p].l1 ensures L1Fits(c, src, lim, later, key, w.locals[p].l1[key]) {
        assert L1Fits(c, src, lim, w.clock, key, w.locals[p].l1[key]);
      }
    }
    forall id <- w.calls ensures CallFits(c, src, lim, later, w.calls[id]) {
      assert CallFits(c, src, lim, w.clock, w.calls[id]);
    }
  }

  /** What a value handed to a caller is worth: the source gave it at `born`, and it was found or fetched between the
      call's beginning and now, before it was too old. */
  ghost predicate Served<V>(src: Source<V>, lim: Limits, clock: int, a: Answer<V>) {
    a.Value? ==>
      && src(a.key, a.born) == a.value
      && a.born <= a.at && a.begun <= a.at <= clock
      && (lim.maxTtl.Some? ==> a.at - a.born < MaxAge(lim))
  }

  lemma LookServes<V(!new)>(c: Codec<V>, src: Source<V>, lim: Limits, w: World<V>, e: Step)
    requires Usable(c) && Inv(c, src, lim, w) && Enabled(c, lim, w, e) && e.Look?
    ensures Inv(c, src, lim, Next(c, src, lim, w, e))
    ensures Served(src, lim, w.clock, Do(c, src, lim, w, e).1)
  {
    var local := w.locals[e.proc];
    assert LocalFits(c, src, lim, w.clock, local);
    if L1Found(c, e.reader, e.key, w.clock, local).Some? {
      DecodedIsMeant(c, e.reader, local.l1[e.key].text);
      assert L1Fits(c, src, lim, w.clock, e.key, local.l1[e.key]);
    }
  }

  lemma AskL2KeepsInv<V(!new)>(c: Codec<V>, src: Source<V>, lim: Limits, w: World<V>, e: Step)
    requires Usable(c) && Inv(c, src, lim, w) && Enabled(c, lim, w, e) && e.AskL2?
    ensures Inv(c, src, lim, Next(c, src, lim, w, e)) && !Do(c, src, lim, w, e).1.Value?
  {
    var call := w.calls[e.id];
    assert CallFits(c, src, lim, w.clock, call) && LocalFits(c, src, lim, w.clock, w.locals[call.proc]);
    var found := L2Lookup(w.env, call.key, w.clock, w.store);
    if found.Some? && DecodeFor(c, call.reader, found.value.text).Some? {
      DecodedIsMeant(c, call.reader, found.value.text);
      assert L2Fits(c, src, lim, w.clock, call.key, found.value);
    }
  }

  lemma RefillServes<V(!new)>(c: Codec<V>, src: Source<V>, lim: Limits, w: World<V>, e: Step)
    requires Usable(c) && Inv(c, src, lim, w) && Enabled(c, lim, w, e) && e.Refill?
    ensures Inv(c, src, lim, Next(c, src, lim, w, e))
    ensures Served(src, lim, w.clock, Do(c, src, lim, w, e).1)
  {
    var call := w.calls[e.id];
    assert CallFits(c, src, lim, w.clock, call) && LocalFits(c, src, lim, w.clock, w.locals[call.proc]);
    DecodedIsMeant(c, call.reader, call.stage.text);
  }

  lemma FetchServes<V(!new)>(c: Codec<V>, src: Source<V>, lim: Limits, w: World<V>, e: Step)
    requires Usable(c) && Inv(c, src, lim, w) && Enabled(c, lim, w, e) && e.Fetch?
    ensures Inv(c, src, lim, Next(c, src, lim, w, e))
    ensures Served(src, lim, w.clock, Do(c, src, lim, w, e).1)
  {
    assert CallFits(c, src, lim, w.clock, w.calls[e.id]);
  }

  lemma StoreL1KeepsInv<V(!new)>(c: Codec<V>, src: Source<V>, lim: Limits, w: World<V>, e: Step)
    requires Usable(c) && Inv(c, src, lim, w) && Enabled(c, lim, w, e) && e.StoreL1?
    ensures Inv(c, src, lim, Next(c, src, lim, w, e)) && Do(c, src, lim, w, e).1.Pending?
  {
    var call := w.calls[e.id];
    assert CallFits(c, src, lim, w.clock, call) && LocalFits(c, src, lim, w.clock, w.locals[call.proc]);
    EncodedMeans(c, call.stage.value);
  }

  lemma StoreL2Serves<V(!new)>(c: Codec<V>, src: Source<V>, lim: Limits, w: World<V>, e: Step)
    requires Usable(c) && Inv(c, src, lim, w) && Enabled(c, lim, w, e) && e.StoreL2?
    ensures Inv(c, src, lim, Next(c, src, lim, w, e))
    ensures Served(src, lim, w.clock, Do(c, src, lim, w, e).1)
  {
    var call, w' := w.calls[e.id], Next(c, src, lim, w, e);
    assert CallFits(c, src, lim, w.clock, call);
    EncodedMeans(c, call.stage.value);
    forall key: string | L2Key(w.env, key) in w'.store
      ensures L2Fits(c, src, lim, w.clock, key, w'.store[L2Key(w.env, key)])
    {
      L2KeyInjective(w.env, key, call.key);
      if key != call.key || w'.store == w.store {
        assert L2Fits(c, src, lim, w.clock, key, w.store[L2Key(w.env, key)]);
      }
    }
  }

  lemma OtherStepKeepsInv<V(!new)>(c: Codec<V>, src: Source<V>, lim: Limits, w: World<V>, e: Step)
    requires Inv(c, src, lim, w) && Enabled(c, lim, w, e)
    requires e.Abandon? || e.Evict? || e.Remove? || e.Garbage?
    ensures Inv(c, src, lim, Next(c, src, lim, w, e)) && Do(c, src, lim, w, e).1.Pending?
  {
    var w' := Next(c, src, lim, w, e);
    assert e.Evict? ==> LocalFits(c, src, lim, w.clock, w.locals[e.proc]);
    forall key: string | L2Key(w.env, key) in w'.store
      ensures L2Fits(c, src, lim, w.clock, key, w'.store[L2Key(w.env, key)])
    {
      if L2Key(w.env, key) in w.store {
        assert L2Fits(c, src, lim, w.clock, key, w.store[L2Key(w.env, key)]);
      }
    }
  }

  /** Every step keeps all entries and calls genuine and bounded, and so is the value that it hands over. */
  lemma StepServes<V(!new)>(c: Codec<V>, src: Source<V>, lim: Limits, w: World<V>, e: Step)
    requires Usable(c) && Inv(c, src, lim, w) && Enabled(c, lim, w, e)
    ensures Inv(c, src, lim, Next(c, src, lim, w, e)) && Served(src, lim, w.clock, Do(c, src, lim, w, e).1)
  {
    match e
    case Tick(d) => TickKeepsInv(c, src, lim, w, d);
    case Look(_, _, _, _, _) => LookServes(c, src, lim, w, e);
    case AskL2(_, _) => AskL2KeepsInv(c, src, lim, w, e);
    case Refill(_) => RefillServes(c, src, lim, w, e);
    case Fetch(_, _) => FetchServes(c, src, lim, w, e);
    case StoreL1(_) => StoreL1KeepsInv(c, src, lim, w, e);
    case StoreL2(_, _) => StoreL2Serves(c, src, lim, w, e);
    case _ => OtherStepKeepsInv(c, src, lim, w, e);
  }

  lemma {:induction false} RunKeepsInv<V(!new)>(c: Codec<V>, src: Source<V>, lim: Limits, w: World<V>, es: seq<Step>)
    requires Usable(c) && Inv(c, src, lim, w) && ValidRun(c, src, lim, w, es)
    ensures Inv(c, src, lim, After(c, src, lim, w, es)) && w.clock <= After(c, src, lim, w, es).clock
    decreases |es|
  {
    if es != [] {
      StepServes(c, src, lim, w, es[0]);
      RunKeepsInv(c, src, lim, Next(c, src, lim, w, es[0]), es[1..]);
    }
  }

  /* ---------- What readers can rely on ---------- */

  /** However the calls of all processes overlap: every value served in a run from cold caches is one the source really
      gave, and if lifetimes are bounded, it was found less than the longest lifetime, an L1 life and twice the slack
      after that. */
  lemma StalenessBound<V(!new)>(c: Codec<V>, src: Source<V>, lim: Limits, w: World<V>, es: seq<Step>, e: Step)
    requires Usable(c) && Cold(w) && ValidRun(c, src, lim, w, es) && Enabled(c, lim, After(c, src, lim, w, es), e)
    ensures var w' := After(c, src, lim, w, es); var (_, a) := Do(c, src, lim, w', e);
      && Served(src, lim, w'.clock, a)
      && (a.Value? && lim.maxTtl.Some? ==> a.at - a.born < 1000 * lim.maxTtl.value + 3_600_000 + 2 * lim.slack)
  {
    RunKeepsInv(c, src, lim, w, es);
    StepServes(c, src, lim, After(c, src, lim, w, es), e);
  }

  /** If the source never changes, caching is invisible: whatever overlaps, expires, is evicted, deleted or spoilt, and
      whoever stored the entry, a value served is exactly what the source would give. */
  lemma Transparent<V(!new)>(c: Codec<V>, fixed: string -> Option<V>, lim: Limits, w: World<V>, es: seq<Step>, e: Step)
    requires var src := (key: string, at: int) => fixed(key);
      && Usable(c) && Cold(w) && ValidRun(c, src, lim, w, es) && Enabled(c, lim, After(c, src, lim, w, es), e)
    ensures var src := (key: string, at: int) => fixed(key);
      var (_, a) := Do(c, src, lim, After(c, src, lim, w, es), e);
      a.Value? ==> a.value == fixed(a.key)
  {
    var src := (key: string, at: int) => fixed(key);
    StalenessBound(c, src, lim, w, es, e);
  }

  /** In any such run an absent value from the skip-none reader comes straight from the source, which the call itself
      asked, whatever the caches hold. */
  lemma SkipNoneIsFresh<V(!new)>(c: Codec<V>, src: Source<V>, lim: Limits, w: World<V>, es: seq<Step>, e: Step)
    requires Usable(c) && Cold(w) && ValidRun(c, src, lim, w, es) && Enabled(c, lim, After(c, src, lim, w, es), e)
    requires var (_, a) := Do(c, src, lim, After(c, src, lim, w, es), e);
      a.Value? && a.value.None? && a.reader.SkipNone?
    ensures var w' := After(c, src, lim, w, es); var (_, a) := Do(c, src, lim, w', e);
      e.Fetch? && a.begun <= a.born == w'.clock && src(a.key, w'.clock) == None
  {
    RunKeepsInv(c, src, lim, w, es);
    var w' := After(c, src, lim, w, es);
    StepServes(c, src, lim, w', e);
    AbsentOnlyFromSource(c, src, lim, w', e);
  }

  lemma AbsentOnlyFromSource<V(!new)>(c: Codec<V>, src: Source<V>, lim: Limits, w: World<V>, e: Step)
    requires Inv(c, src, lim, w) && Enabled(c, lim, w, e)
    ensures var (_, a) := Do(c, src, lim, w, e); a.Value? && a.reader.SkipNone? && a.value.None? ==> e.Fetch?
  {
    if e.Refill? || e.StoreL2? {
      assert CallFits(c, src, lim, w.clock, w.calls[e.id]);
    }
  }

  /* ---------- How long a deletion goes unnoticed ---------- */

  /** A call has found the key's entry in L2 and has yet to copy it into L1. */
  predicate RefillPending<V>(w: World<V>, key: string) {
    exists id <- w.calls :: w.calls[id].key == key && w.calls[id].stage.Refilling?
  }

  /** The last instant at which an entry that a deletion should have removed can still enter an L1. */
  function LastRefill<V>(lim: Limits, w: World<V>, key: string): int {
    w.clock + if RefillPending(w, key) then lim.slack else 0
  }

  /** Values born before `since` are in no L2 entry of the key and enter no L1 after `until`; no call is about to copy
      one into its L1, unless `copying`. */
  ghost predicate Purged<V>(c: Codec<V>, lim: Limits, w: World<V>, key: string, since: int, until: int, copying: bool) {
    && since + lim.slack <= w.clock
    && PurgedCaches(c, w, key, since, until)
    && (forall id <- w.calls | w.calls[id].key == key :: PurgedCall(lim, w.calls[id], since, until, copying))
  }

  predicate PurgedCaches<V>(c: Codec<V>, w: World<V>, key: string, since: int, until: int) {
    && (L2Key(w.env, key) in w.store ==> PurgedL2(c, w.store[L2Key(w.env, key)], since))
    && (forall p <- w.locals | key in w.locals[p].l1 :: PurgedL1(c, w.locals[p].l1[key], since, until))
  }

  predicate PurgedL2<V>(c: Codec<V>, e: L2Entry, since: int) {
    Meaning(c, e.text).Some? ==> e.born >= since
  }

  predicate PurgedL1<V>(c: Codec<V>, e: L1Entry, since: int, until: int) {
    Meaning(c, e.text).Some? && e.born < since ==> e.insertedAt <= until
  }

  predicate PurgedCall<V>(lim: Limits, call: Call<V>, since: int, until: int, copying: bool) {
    call.stage.Refilling? && call.stage.born < since ==> copying && call.stage.at + lim.slack <= until
  }

  lemma DeletionPurges<V(!new)>(c: Codec<V>, src: Source<V>, lim: Limits, w: World<V>, key: string)
    requires Usable(c) && Inv(c, src, lim, w) && L2Key(w.env, key) !in w.store
    ensures Purged(c, lim, w, key, w.clock - lim.slack, LastRefill(lim, w, key), RefillPending(w, key))
  {
    forall p <- w.locals | key in w.locals[p].l1 ensures w.locals[p].l1[key].insertedAt <= w.clock {
      assert LocalFits(c, src, lim, w.clock, w.locals[p]);
    }
    forall id <- w.calls ensures CallFits(c, src, lim, w.clock, w.calls[id]) {
    }
  }

  lemma PurgedStays<V(!new)>(c: Codec<V>, src: Source<V>, lim: Limits, w: World<V>, e: Step, key: string,
                             since: int, until: int, copying: bool)
    requires Usable(c) && Purged(c, lim, w, key, since, until, copying) && Enabled(c, lim, w, e)
    ensures Purged(c, lim, Next(c, src, lim, w, e), key, since, until, copying)
  {
    CachesStayPurged(c, src, lim, w, e, key, since, until, copying);
  }

  lemma CachesStayPurged<V(!new)>(c: Codec<V>, src: Source<V>, lim: Limits, w: World<V>, e: Step, key: string,
                                  since: int, until: int, copying: bool)
    requires Purged(c, lim, w, key, since, until, copying) && Enabled(c, lim, w, e)
    ensures PurgedCaches(c, Next(c, src, lim, w, e), key, since, until)
  {
  }

  lemma {:induction false} PurgedRun<V(!new)>(c: Codec<V>, src: Source<V>, lim: Limits, w: World<V>, es: seq<Step>,
                                              key: string, since: int, until: int, copying: bool)
    requires Usable(c) && Purged(c, lim, w, key, since, until, copying) && ValidRun(c, src, lim, w, es)
    ensures Purged(c, lim, After(c, src, lim, w, es), key, since, until, copying)
    decreases |es|
  {
    if es != [] {
      PurgedStays(c, src, lim, w, es[0], key, since, until, copying);
      PurgedRun(c, src, lim, Next(c, src, lim, w, es[0]), es[1..], key, since, until, copying);
    }
  }

  /** The step looks into an L1 that holds a live entry, readable for it, of a value born before `since`. */
  predicate LooksAtOld<V>(c: Codec<V>, w: World<V>, e: Step, since: int) {
    && e.Look? && e.proc in w.locals
    && L1Found(c, e.reader, e.key, w.clock, w.locals[e.proc]).Some?
    && w.locals[e.proc].l1[e.key].born < since
  }

  /** The step copies an entry born before `since` that it found in L2 earlier. */
  predicate CopiesOld<V>(w: World<V>, e: Step, since: int) {
    e.Refill? && e.id in w.calls && w.calls[e.id].stage.Refilling? && w.calls[e.id].stage.born < since
  }

  /** In a world in which the key has just been deleted from L2, at time d: whatever runs from there, a call for the key
      is served a value born more than the slack before d exactly if it looks into an L1 that still holds one, or
      copies one that it had found before; and one hour after d, or after the last such copy, no more.  If no copy was
      pending at d there is none. */
  lemma DeletionIsFelt<V(!new)>(c: Codec<V>, src: Source<V>, lim: Limits, w: World<V>, key: string,
                                es: seq<Step>, e: Step)
    requires Usable(c) && Inv(c, src, lim, w) && L2Key(w.env, key) !in w.store
    requires ValidRun(c, src, lim, w, es) && Enabled(c, lim, After(c, src, lim, w, es), e)
    requires var (_, a) := Do(c, src, lim, After(c, src, lim, w, es), e); a.Value? && a.key == key
    ensures var w' := After(c, src, lim, w, es); var (_, a) := Do(c, src, lim, w', e); var since := w.clock - lim.slack;
      && (a.born < since <==> LooksAtOld(c, w', e, since) || CopiesOld(w', e, since))
      && (a.born < since ==> a.at < LastRefill(lim, w, key) + 3_600_000)
      && (!RefillPending(w, key) ==> !CopiesOld(w', e, since))
  {
    var w', since := After(c, src, lim, w, es), w.clock - lim.slack;
    var until, copying := LastRefill(lim, w, key), RefillPending(w, key);
    DeletionPurges(c, src, lim, w, key);
    PurgedRun(c, src, lim, w, es, key, since, until, copying);
    OldValueComesFrom(c, src, lim, w', e, key, since, until, copying);
  }

  lemma OldValueComesFrom<V(!new)>(c: Codec<V>, src: Source<V>, lim: Limits, w: World<V>, e: Step, key: string,
                                   since: int, until: int, copying: bool)
    requires Usable(c) && Purged(c, lim, w, key, since, until, copying) && Enabled(c, lim, w, e)
    requires var (_, a) := Do(c, src, lim, w, e); a.Value? && a.key == key
    ensures var (_, a) := Do(c, src, lim, w, e);
      && (a.born < since <==> LooksAtOld(c, w, e, since) || CopiesOld(w, e, since))
      && (a.born < since ==> a.at < until + L1_LIFE)
      && (CopiesOld(w, e, since) ==> copying)
  {
    match e
    case Look(_, p, reader, _, _) =>
      DecodedIsMeant(c, reader, w.locals[p].l1[key].text);
      assert PurgedL1(c, w.locals[p].l1[key], since, until);
    case Refill(id) => assert PurgedCall(lim, w.calls[id], since, until, copying);
    case StoreL2(id, _) => assert w.calls[id].key == key;
    case _ =>
  }
}
