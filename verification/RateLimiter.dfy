/** The per-publisher limit on lead requests: fixed windows, opened by the first request after the previous window.

    Times are nanoseconds.  A request reads the clock before it takes the lock, so requests may be served out of
    order; a run is a sequence of requests in the order in which they are served. */
module RateLimiter {
  import opened Prelude

  const RATE_LIMIT_PER_HOUR: nat := 360
  const RATE_LIMIT_WINDOW_SECONDS: nat := 3600
  const SECOND: nat := 1_000_000_000
  const WINDOW: nat := RATE_LIMIT_WINDOW_SECONDS * SECOND

  datatype RateBucket = RateBucket(windowStart: int, count: nat)

  datatype Decision = Admitted | Limited(retryAfter: nat)

  function RateKey(publisher: string): string { "publisher:" + publisher }

  /** Whole seconds from start to now; a clock reading before start counts as zero. */
  function ElapsedSeconds(now: int, start: int): nat {
    if now < start then 0 else (now - start) / SECOND
  }

  /** The bucket that serves a request at `now`: a new one if there is none or its window is over. */
  function Current(b: Option<RateBucket>, now: int): RateBucket {
    if b.None? || ElapsedSeconds(now, b.value.windowStart) >= RATE_LIMIT_WINDOW_SECONDS then RateBucket(now, 0)
    else b.value
  }

  function Decide(b: Option<RateBucket>, now: int): Decision {
    var c := Current(b, now);
    if c.count < RATE_LIMIT_PER_HOUR then Admitted
    else
      var elapsed := ElapsedSeconds(now, c.windowStart);
      Limited(if elapsed <= RATE_LIMIT_WINDOW_SECONDS then RATE_LIMIT_WINDOW_SECONDS - elapsed else 0)
  }

  function Serve(b: Option<RateBucket>, now: int): RateBucket {
    var c := Current(b, now);
    if c.count < RATE_LIMIT_PER_HOUR then c.(count := c.count + 1) else c
  }

  type Buckets = map<string, RateBucket>

  function BucketOf(buckets: Buckets, publisher: string): Option<RateBucket> {
    var key := RateKey(publisher);
    if key in buckets then Some(buckets[key]) else None
  }

  function Served(buckets: Buckets, publisher: string, now: int): Buckets {
    buckets[RateKey(publisher) := Serve(BucketOf(buckets, publisher), now)]
  }

  lemma KeysDiffer(a: string, b: string)
    ensures RateKey(a) == RateKey(b) ==> a == b
  {
    assert RateKey(a)[10..] == a && RateKey(b)[10..] == b;
  }

  class Limiter {
    var buckets: Buckets

    constructor ()
      ensures buckets == map[]
    {
      buckets := map[];
    }

    function Bucket(publisher: string): Option<RateBucket>
      reads this
    {
      BucketOf(buckets, publisher)
    }

    method Check(publisher: string, now: int) returns (d: Decision)
      modifies this
      ensures d == Decide(old(Bucket(publisher)), now)
      ensures buckets == Served(old(buckets), publisher, now)
      ensures forall other: string | other != publisher :: Bucket(other) == old(Bucket(other))
    {
      var rateKey := RateKey(publisher);
      if rateKey !in buckets {
        buckets := buckets[rateKey := RateBucket(now, 0)];
      }
      var bucket := buckets[rateKey];
      if ElapsedSeconds(now, bucket.windowStart) >= RATE_LIMIT_WINDOW_SECONDS {
        bucket := RateBucket(now, 0);
      }
      if bucket.count >= RATE_LIMIT_PER_HOUR {
        var elapsed := ElapsedSeconds(now, bucket.windowStart);
        d := Limited(if elapsed <= RATE_LIMIT_WINDOW_SECONDS then RATE_LIMIT_WINDOW_SECONDS - elapsed else 0);
      } else {
        bucket := bucket.(count := bucket.count + 1);
        d := Admitted;
      }
      buckets := buckets[rateKey := bucket];
      forall other: string | other != publisher ensures RateKey(other) != rateKey {
        KeysDiffer(other, publisher);
      }
    }
  }

  /* ---------- Runs ---------- */

  /** One served request of a publisher: its clock reading, the window it fell in, and the outcome. */
  datatype Entry = Entry(now: int, start: int, admitted: bool)

  /** What a publisher's requests, served in this order, meet. */
  function Log(b: Option<RateBucket>, times: seq<int>): seq<Entry>
    decreases |times|
  {
    if times == [] then []
    else
      [Entry(times[0], Current(b, times[0]).windowStart, Decide(b, times[0]).Admitted?)]
      + Log(Some(Serve(b, times[0])), times[1..])
  }

  /** A bucket that requests have made. */
  predicate Used(b: Option<RateBucket>) {
    b.Some? ==> 1 <= b.value.count <= RATE_LIMIT_PER_HOUR
  }

  function AdmittedIn(log: seq<Entry>, start: int): nat {
    if log == [] then 0
    else (if log[0].admitted && log[0].start == start then 1 else 0) + AdmittedIn(log[1..], start)
  }

  /** `later` is the same window as `start`, or one that opens at least an hour after it. */
  predicate NotBefore(start: int, later: int) {
    later == start || later >= start + WINDOW
  }

  predicate AllNotBefore(start: int, log: seq<Entry>) {
    forall i | 0 <= i < |log| :: NotBefore(start, log[i].start)
  }

  predicate Forward(log: seq<Entry>) {
    forall i, j | 0 <= i < j < |log| :: NotBefore(log[i].start, log[j].start)
  }

  lemma ForwardCons(e: Entry, rest: seq<Entry>)
    requires Forward(rest) && AllNotBefore(e.start, rest)
    ensures Forward([e] + rest)
  {
    var log := [e] + rest;
    forall i, j | 0 <= i < j < |log| ensures NotBefore(log[i].start, log[j].start) {
      assert log[j] == rest[j - 1];
    }
  }

  /** In whatever order clock readings arrive, windows only move forward, by at least an hour. */
  lemma {:induction false} WindowsMoveForward(b: Option<RateBucket>, times: seq<int>)
    ensures Forward(Log(b, times)) && (b.Some? ==> AllNotBefore(b.value.windowStart, Log(b, times)))
    decreases |times|
  {
    if times != [] {
      var b' := Some(Serve(b, times[0]));
      WindowsMoveForward(b', times[1..]);
      ForwardCons(Log(b, times)[0], Log(b', times[1..]));
    }
  }

  /** Each window admits at most 360 requests, whatever their clock readings. */
  lemma {:induction false} WindowAdmitsAtMostLimit(b: Option<RateBucket>, times: seq<int>, start: int)
    requires Used(b)
    ensures AdmittedIn(Log(b, times), start) <= RATE_LIMIT_PER_HOUR
    ensures b.Some? && b.value.windowStart == start ==>
      AdmittedIn(Log(b, times), start) <= RATE_LIMIT_PER_HOUR - b.value.count
    ensures b.Some? && b.value.windowStart > start ==> AdmittedIn(Log(b, times), start) == 0
    decreases |times|
  {
    if times != [] {
      var log := Log(b, times);
      var b' := Some(Serve(b, times[0]));
      WindowAdmitsAtMostLimit(b', times[1..], start);
      assert log[1..] == Log(b', times[1..]);
    }
  }

  lemma {:induction false} RefusedFrom(b: Option<RateBucket>, times: seq<int>, i: nat)
    requires Used(b) && i < |times|
    ensures |Log(b, times)| == |times|
    ensures var log := Log(b, times); var start := log[i].start;
      !log[i].admitted <==>
        (if b.Some? && b.value.windowStart == start then b.value.count else 0) + AdmittedIn(log[..i], start) == 360
    decreases |times|
  {
    var log := Log(b, times);
    var b' := Some(Serve(b, times[0]));
    var rest := Log(b', times[1..]);
    LogLength(b', times[1..]);
    if i > 0 {
      RefusedFrom(b', times[1..], i - 1);
      assert log[i] == rest[i - 1] && log[..i][1..] == rest[..i - 1];
      WindowsMoveForward(b', times[1..]);
      assert NotBefore(b'.value.windowStart, rest[i - 1].start);
    }
  }

  lemma {:induction false} LogLength(b: Option<RateBucket>, times: seq<int>)
    ensures |Log(b, times)| == |times|
    decreases |times|
  {
    if times != [] { LogLength(Some(Serve(b, times[0])), times[1..]); }
  }

  /** A request is refused exactly if its window has admitted 360 requests before it, whatever its own clock reading. */
  lemma RefusedExactly(times: seq<int>, i: nat)
    requires i < |Log(None, times)|
    ensures var log := Log(None, times); !log[i].admitted <==> AdmittedIn(log[..i], log[i].start) == 360
  {
    LogLength(None, times);
    RefusedFrom(None, times, i);
  }

  /* ---------- The rate over any interval ---------- */

  /** No request is served more than `slack` after one with a later clock reading. */
  predicate AlmostOrdered(times: seq<int>, slack: nat) {
    forall i, j | 0 <= i < j < |times| :: times[i] <= times[j] + slack
  }

  function AdmittedBetween(log: seq<Entry>, from: int, until: int): nat {
    if log == [] then 0
    else (if log[0].admitted && from <= log[0].now < until then 1 else 0) + AdmittedBetween(log[1..], from, until)
  }

  function Ceil(n: nat, d: nat): nat
    requires d > 0
  {
    (n + d - 1) / d
  }

  /** How many windows can open from `first` on and before `hi`. */
  function Slots(first: int, hi: int): nat {
    if first >= hi then 0 else Ceil(hi - first, WINDOW)
  }

  lemma SlotsStep(first: int, hi: int)
    requires first < hi
    ensures Slots(first + WINDOW, hi) + 1 <= Slots(first, hi)
  {
    if first + WINDOW < hi {
      assert hi - first + WINDOW - 1 == (hi - (first + WINDOW) + WINDOW - 1) + WINDOW;
    }
  }

  lemma SlotsAntitone(a: int, b: int, hi: int)
    requires a <= b
    ensures Slots(b, hi) <= Slots(a, hi)
  {
  }

  /** The most that windows opening from `first` on can admit between from and hi.  A window open before from has spent
      one admission on its opening and lets the next one open after from only. */
  function Future(first: int, from: int, hi: int): nat {
    if first >= from then RATE_LIMIT_PER_HOUR * Slots(first, hi)
    else if Slots(from + 1, hi) < Slots(from, hi) then RATE_LIMIT_PER_HOUR * Slots(from, hi)
    else RATE_LIMIT_PER_HOUR * Slots(from, hi) + RATE_LIMIT_PER_HOUR - 1
  }

  /** The most that a publisher in state b can still be admitted between from and hi. */
  function Budget(b: Option<RateBucket>, from: int, hi: int): int {
    if b.None? then Future(from - 1, from, hi)
    else
      var s := b.value.windowStart;
      (if from - WINDOW < s < hi then RATE_LIMIT_PER_HOUR - b.value.count else 0) + Future(s + WINDOW, from, hi)
  }

  lemma BudgetStep(b: Option<RateBucket>, now: int, from: int, until: int, slack: nat)
    requires Used(b) && (b.Some? ==> b.value.windowStart <= now + slack)
    ensures (if Decide(b, now).Admitted? && from <= now < until then 1 else 0)
            + Budget(Some(Serve(b, now)), from, until + slack) <= Budget(b, from, until + slack)
  {
    var hi := until + slack;
    var c := Current(b, now);
    SlotsAntitone(from, from + 1, hi);
    if c.count == 0 {
      if from <= now < hi {
        SlotsStep(now, hi);
        SlotsAntitone(from, now, hi);
        if b.Some? { SlotsAntitone(b.value.windowStart + WINDOW, now, hi); }
      } else if from - WINDOW < now < from {
        SlotsAntitone(from + 1, now + WINDOW, hi);
        if b.Some? { SlotsAntitone(b.value.windowStart + WINDOW, now + WINDOW, hi); }
      } else if now >= from - WINDOW {
        SlotsAntitone(from, now + WINDOW, hi);
        if b.Some? { SlotsAntitone(b.value.windowStart + WINDOW, now + WINDOW, hi); }
      }
      SlotsDrop(from, hi);
    }
  }

  lemma SlotsDrop(from: int, hi: int)
    ensures Slots(from, hi) <= Slots(from + 1, hi) + 1
  {
  }

  lemma {:induction false} AdmittedWithinBudget(b: Option<RateBucket>, times: seq<int>, from: int, until: int, slack: nat)
    requires Used(b) && AlmostOrdered(times, slack)
    requires b.Some? ==> forall i | 0 <= i < |times| :: b.value.windowStart <= times[i] + slack
    ensures AdmittedBetween(Log(b, times), from, until) <= Budget(b, from, until + slack)
    decreases |times|
  {
    if times != [] {
      var b' := Some(Serve(b, times[0]));
      BudgetStep(b, times[0], from, until, slack);
      AdmittedWithinBudget(b', times[1..], from, until, slack);
      assert Log(b, times)[1..] == Log(b', times[1..]);
    }
  }

  /** The most that an interval of `length` nanoseconds admits: 360 for every hour begun and 359 more, unless the last
      hour has just begun. */
  function MostAdmitted(length: nat): nat {
    RATE_LIMIT_PER_HOUR * Ceil(length, WINDOW) + if length % WINDOW == 1 then 0 else RATE_LIMIT_PER_HOUR - 1
  }

  lemma FutureIsMost(from: int, length: nat)
    ensures Future(from - 1, from, from + length) <= MostAdmitted(length)
  {
  }

  /** The rate bound: requests that overtake each other by up to `slack` cost no more than a longer interval would. */
  lemma RateBound(times: seq<int>, from: int, length: nat, slack: nat)
    requires AlmostOrdered(times, slack)
    ensures AdmittedBetween(Log(None, times), from, from + length) <= MostAdmitted(length + slack)
  {
    AdmittedWithinBudget(None, times, from, from + length, slack);
    FutureIsMost(from, length + slack);
  }

  /** So no hour admits more than 719 requests. */
  lemma HourBound(times: seq<int>, from: int)
    requires AlmostOrdered(times, 0)
    ensures AdmittedBetween(Log(None, times), from, from + 3_600_000_000_000) <= 719
  {
    assert Ceil(WINDOW, WINDOW) == 1 && WINDOW % WINDOW == 0;
    RateBound(times, from, WINDOW, 0);
  }

  /** A publisher's requests that all read the clock at `now`. */
  function Burst(now: int, n: nat): seq<int> {
    if n == 0 then [] else [now] + Burst(now, n - 1)
  }

  /** One request inside a window that is not full. */
  lemma StepOfLog(b: RateBucket, times: seq<int>, b': RateBucket, from: int, until: int)
    requires times != [] && b.windowStart <= times[0] < b.windowStart + WINDOW && b.count < RATE_LIMIT_PER_HOUR
    requires b' == b.(count := b.count + 1)
    ensures AdmittedBetween(Log(Some(b), times), from, until)
      == (if from <= times[0] < until then 1 else 0) + AdmittedBetween(Log(Some(b'), times[1..]), from, until)
  {
    assert Serve(Some(b), times[0]) == b' && Decide(Some(b), times[0]).Admitted?;
    assert Log(Some(b), times)[1..] == Log(Some(b'), times[1..]);
  }

  lemma {:induction false} BurstAdmitted(b: RateBucket, now: int, n: nat, after: seq<int>, from: int, until: int)
    requires b.windowStart <= now < b.windowStart + WINDOW && b.count + n <= RATE_LIMIT_PER_HOUR && from <= now < until
    ensures AdmittedBetween(Log(Some(b), Burst(now, n) + after), from, until)
      == n + AdmittedBetween(Log(Some(b.(count := b.count + n)), after), from, until)
    decreases n
  {
    var times := Burst(now, n) + after;
    if n == 0 {
      assert times == after;
    } else {
      var b' := b.(count := b.count + 1);
      assert times[0] == now && times[1..] == Burst(now, n - 1) + after;
      StepOfLog(b, times, b', from, until);
      BurstAdmitted(b', now, n - 1, after, from, until);
    }
  }

  /** Requests before the interval do not count in it. */
  lemma {:induction false} BurstMissed(b: RateBucket, now: int, n: nat, after: seq<int>, from: int, until: int)
    requires b.windowStart <= now < b.windowStart + WINDOW && b.count + n <= RATE_LIMIT_PER_HOUR && now < from
    ensures AdmittedBetween(Log(Some(b), Burst(now, n) + after), from, until)
      == AdmittedBetween(Log(Some(b.(count := b.count + n)), after), from, until)
    decreases n
  {
    var times := Burst(now, n) + after;
    if n == 0 {
      assert times == after;
    } else {
      var b' := b.(count := b.count + 1);
      assert times[0] == now && times[1..] == Burst(now, n - 1) + after;
      StepOfLog(b, times, b', from, until);
      BurstMissed(b', now, n - 1, after, from, until);
    }
  }

  /** 360 requests at the beginning of each of the hours k to n. */
  function Hours(k: nat, n: nat): seq<int>
    decreases n - k
  {
    if k >= n then Burst(n * WINDOW, if k == n then RATE_LIMIT_PER_HOUR else 0)
    else Burst(k * WINDOW, RATE_LIMIT_PER_HOUR) + Hours(k + 1, n)
  }

  lemma HourAdmitted(b: RateBucket, k: nat, after: seq<int>, from: int, until: int)
    requires b.windowStart + WINDOW <= k * WINDOW && from <= k * WINDOW < until
    ensures AdmittedBetween(Log(Some(b), Burst(k * WINDOW, RATE_LIMIT_PER_HOUR) + after), from, until)
      == RATE_LIMIT_PER_HOUR
         + AdmittedBetween(Log(Some(RateBucket(k * WINDOW, RATE_LIMIT_PER_HOUR)), after), from, until)
  {
    var now := k * WINDOW;
    var times := Burst(now, RATE_LIMIT_PER_HOUR) + after;
    var rest := Burst(now, RATE_LIMIT_PER_HOUR - 1) + after;
    var b' := RateBucket(now, 1);
    assert times[0] == now && times[1..] == rest;
    assert Serve(Some(b), now) == b' && Decide(Some(b), now).Admitted?;
    assert Log(Some(b), times)[1..] == Log(Some(b'), rest);
    BurstAdmitted(b', now, RATE_LIMIT_PER_HOUR - 1, after, from, until);
  }

  lemma {:induction false} HoursAdmitted(b: RateBucket, k: nat, n: nat, from: int, until: int)
    requires k <= n && b.windowStart + WINDOW <= k * WINDOW && from <= k * WINDOW && n * WINDOW < until
    ensures AdmittedBetween(Log(Some(b), Hours(k, n)), from, until) == RATE_LIMIT_PER_HOUR * (n - k + 1)
    decreases n - k
  {
    if k == n {
      HourAdmitted(b, k, [], from, until);
      assert Burst(k * WINDOW, RATE_LIMIT_PER_HOUR) + [] == Hours(k, n);
    } else {
      HourAdmitted(b, k, Hours(k + 1, n), from, until);
      HoursAdmitted(RateBucket(k * WINDOW, RATE_LIMIT_PER_HOUR), k + 1, n, from, until);
    }
  }

  /** A run that opens a window, fills it in its last nanosecond, and fills the next n windows at once. */
  function BusyRun(n: nat): seq<int> {
    [0] + (Burst(WINDOW - 1, RATE_LIMIT_PER_HOUR - 1) + Hours(1, n))
  }

  lemma BusyRunAdmitted(n: nat, until: int)
    requires 1 <= n && n * WINDOW < until
    ensures AdmittedBetween(Log(None, BusyRun(n)), WINDOW - 1, until)
      == RATE_LIMIT_PER_HOUR * n + RATE_LIMIT_PER_HOUR - 1
    ensures AdmittedBetween(Log(None, BusyRun(n)), WINDOW, until) == RATE_LIMIT_PER_HOUR * n
  {
    var rest := Burst(WINDOW - 1, RATE_LIMIT_PER_HOUR - 1) + Hours(1, n);
    var b, full := RateBucket(0, 1), RateBucket(0, RATE_LIMIT_PER_HOUR);
    assert BusyRun(n)[1..] == rest && Serve(None, 0) == b;
    assert Log(None, BusyRun(n))[1..] == Log(Some(b), rest);
    BurstAdmitted(b, WINDOW - 1, RATE_LIMIT_PER_HOUR - 1, Hours(1, n), WINDOW - 1, until);
    BurstMissed(b, WINDOW - 1, RATE_LIMIT_PER_HOUR - 1, Hours(1, n), WINDOW, until);
    HoursAdmitted(full, 1, n, WINDOW - 1, until);
    HoursAdmitted(full, 1, n, WINDOW, until);
  }

  /** The bound is exact for orderly requests: for every interval some run in order reaches it. */
  lemma RateBoundIsReached(length: nat) returns (times: seq<int>, from: int)
    requires length >= 1
    ensures AlmostOrdered(times, 0)
    ensures AdmittedBetween(Log(None, times), from, from + length) == MostAdmitted(length)
  {
    var n := Ceil(length, WINDOW);
    times, from := BusyRun(n), if length % WINDOW == 1 then WINDOW else WINDOW - 1;
    assert n * WINDOW < from + length;
    BusyRunIsOrdered(n);
    BusyRunAdmitted(n, from + length);
  }

  /** In particular 719 requests in one hour. */
  lemma HourBoundIsReached()
    ensures AdmittedBetween(Log(None, BusyRun(1)), 3_599_999_999_999, 7_199_999_999_999) == 719
  {
    BusyRunAdmitted(1, WINDOW - 1 + WINDOW);
  }

  /** In order, and all between two instants. */
  predicate OrderedWithin(times: seq<int>, lo: int, hi: int) {
    AlmostOrdered(times, 0) && forall i | 0 <= i < |times| :: lo <= times[i] <= hi
  }

  lemma OrderedConcat(a: seq<int>, b: seq<int>, lo: int, mid: int, hi: int)
    requires OrderedWithin(a, lo, mid) && OrderedWithin(b, mid, hi) && lo <= mid <= hi
    ensures OrderedWithin(a + b, lo, hi)
  {
    var times := a + b;
    forall i, j | 0 <= i < j < |times| ensures times[i] <= times[j] {
      assert times[i] == if i < |a| then a[i] else b[i - |a|];
      assert times[j] == if j < |a| then a[j] else b[j - |a|];
    }
  }

  lemma {:induction false} BurstIsOrdered(now: int, n: nat)
    ensures OrderedWithin(Burst(now, n), now, now)
  {
    if n > 0 {
      BurstIsOrdered(now, n - 1);
      OrderedConcat([now], Burst(now, n - 1), now, now, now);
    }
  }

  lemma {:induction false} HoursAreOrdered(k: nat, n: nat)
    requires k <= n
    ensures OrderedWithin(Hours(k, n), k * WINDOW, n * WINDOW)
    decreases n - k
  {
    BurstIsOrdered(k * WINDOW, RATE_LIMIT_PER_HOUR);
    if k < n {
      HoursAreOrdered(k + 1, n);
      OrderedConcat(Burst(k * WINDOW, RATE_LIMIT_PER_HOUR), Hours(k + 1, n), k * WINDOW, (k + 1) * WINDOW, n * WINDOW);
    }
  }

  lemma BusyRunIsOrdered(n: nat)
    requires n >= 1
    ensures AlmostOrdered(BusyRun(n), 0)
  {
    var first, last := Burst(WINDOW - 1, RATE_LIMIT_PER_HOUR - 1), Hours(1, n);
    BurstIsOrdered(WINDOW - 1, RATE_LIMIT_PER_HOUR - 1);
    HoursAreOrdered(1, n);
    OrderedConcat(first, last, WINDOW - 1, WINDOW, n * WINDOW);
    OrderedConcat([0], first + last, 0, WINDOW - 1, n * WINDOW);
  }

  /* ---------- Many publishers ---------- */

  datatype Request = Request(publisher: string, now: int)

  /** What the requests of all publishers, served in this order, meet. */
  function LogAll(buckets: Buckets, rs: seq<Request>): seq<(string, Entry)>
    decreases |rs|
  {
    if rs == [] then []
    else
      var Request(p, now) := rs[0];
      var b := BucketOf(buckets, p);
      [(p, Entry(now, Current(b, now).windowStart, Decide(b, now).Admitted?))] + LogAll(Served(buckets, p, now), rs[1..])
  }

  function TimesOf(rs: seq<Request>, publisher: string): seq<int> {
    if rs == [] then []
    else (if rs[0].publisher == publisher then [rs[0].now] else []) + TimesOf(rs[1..], publisher)
  }

  function LogOf(log: seq<(string, Entry)>, publisher: string): seq<Entry> {
    if log == [] then []
    else (if log[0].0 == publisher then [log[0].1] else []) + LogOf(log[1..], publisher)
  }

  /** Whatever other publishers do in between, a publisher's requests meet what they would meet alone. */
  lemma {:induction false} PublishersAreIndependent(buckets: Buckets, rs: seq<Request>, publisher: string)
    ensures LogOf(LogAll(buckets, rs), publisher) == Log(BucketOf(buckets, publisher), TimesOf(rs, publisher))
    decreases |rs|
  {
    if rs != [] {
      var Request(p, now) := rs[0];
      KeysDiffer(p, publisher);
      PublishersAreIndependent(Served(buckets, p, now), rs[1..], publisher);
      var log, rest := LogAll(buckets, rs), LogAll(Served(buckets, p, now), rs[1..]);
      assert log[1..] == rest;
      assert LogOf(log, publisher) == (if p == publisher then [log[0].1] else []) + LogOf(rest, publisher);
      if p == publisher {
        assert TimesOf(rs, publisher) == [now] + TimesOf(rs[1..], publisher);
        assert TimesOf(rs, publisher)[1..] == TimesOf(rs[1..], publisher);
      } else {
        assert BucketOf(Served(buckets, p, now), publisher) == BucketOf(buckets, publisher);
        assert LogOf(log, publisher) == LogOf(rest, publisher);
        assert TimesOf(rs, publisher) == TimesOf(rs[1..], publisher);
      }
    }
  }

  /** So the rate bound holds for each publisher over every run of the limiter. */
  lemma PublisherRateBound(rs: seq<Request>, publisher: string, from: int, length: nat, slack: nat)
    requires AlmostOrdered(TimesOf(rs, publisher), slack)
    ensures AdmittedBetween(LogOf(LogAll(map[], rs), publisher), from, from + length)
      <= MostAdmitted(length + slack)
  {
    PublishersAreIndependent(map[], rs, publisher);
    RateBound(TimesOf(rs, publisher), from, length, slack);
  }

  /* ---------- Retry-After ---------- */

  /** A refused request is told exactly how long to wait, in whole seconds: the wait suffices and one second less
      does not, exactly if its clock was not read before the window opened. */
  lemma RetryAfterIsExact(b: Option<RateBucket>, now: int)
    requires Decide(b, now).Limited?
    ensures var r := Decide(b, now).retryAfter; var b' := Some(Serve(b, now));
      && (Decide(b', now + r * SECOND).Admitted? <==> now >= b'.value.windowStart)
      && Decide(b', now + (r - 1) * SECOND).Limited?
  {
    var s := Serve(b, now).windowStart;
    var r := Decide(b, now).retryAfter;
    if now >= s {
      var d := now - s;
      assert d == d / SECOND * SECOND + d % SECOND;
      assert r == RATE_LIMIT_WINDOW_SECONDS - d / SECOND;
    }
  }
}
