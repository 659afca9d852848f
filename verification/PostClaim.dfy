/** One lead row under concurrent POST requests: the conditional claim, the routing of the post, and the
    write-behind updates that land later.

    Every SQL statement is one atomic step.  A claim statement may land long after its sender stopped waiting
    for it; a queued update may be delayed for ever, or its two statements may run any number of times. */
module PostClaim {
  import opened Prelude

  /** The promise window, in the database's microseconds. */
  const PROMISE_WINDOW: int := 600_000_000
  /** One attempt and three retries. */
  const MAX_TRIES: nat := 4

  datatype Status = Processing | Test | PingAccepted | Sold | Rejected | Timeout | Error

  datatype Row = Row(postId: Option<string>, promise: Option<string>, createdAt: int,
                     status: Status, soldAt: Option<int>)

  /** An update on the write-behind queue; `winner` says that both campaign_id and buyer_id are given. */
  datatype LeadUpdate = LeadUpdate(status: Status, winner: bool, promise: Option<string>,
                                   postId: Option<string>, soldAt: bool, token: Option<string>)

  datatype Claim = Claim(worker: string, promise: string)

  datatype Sale = Sale(worker: string, postId: string)

  /** Where a request handler stands. */
  datatype Phase =
    | Claiming(promise: string, tries: nat)
    | Routing                    // its claim was acknowledged; the buyer has not answered
    | Refused                    // routing came back without a sale
    | Accepted(postId: string)   // the buyer accepted; the row is not written yet
    | Written(postId: string)    // the router has written the buyer's post id
    | Done
  {
    predicate Live() { !Claiming? && !Done? }
  }

  /** `written` says whether the router's write for the first sale has landed. */
  datatype State = State(row: Row, now: int, workers: map<string, Phase>, sent: multiset<Claim>,
                         queue: set<LeadUpdate>, sales: seq<Sale>, written: bool)

  datatype Event =
    | Tick(elapsed: nat)
    | Reping(newPromise: Option<string>)
    | Arrive(worker: string, promise: string)
    | Retry(worker: string)
    | Land(claim: Claim, acked: bool)
    | Fail(worker: string)
    | Refuse(worker: string, status: Option<Status>)
    | Release(worker: string, loaded: Status)
    | Accept(worker: string, postId: string)
    | Write(worker: string)
    | Finalise(worker: string)
    | EnqueuePing(update: LeadUpdate)
    | FlushSold(update: LeadUpdate)
    | FlushTail(update: LeadUpdate)
    | Drop(update: LeadUpdate)

  /* ---------- SQL statements ---------- */

  function Token(worker: string): string { "INPROG_" + worker }

  predicate TokenLike(s: string) { "INPROG_" <= s }

  predicate Free(row: Row) { row.postId == None || row.postId == Some("") }

  function ClaimStatement(row: Row, c: Claim, now: int): Row {
    if Free(row) && row.promise == Some(c.promise) && row.createdAt >= now - PROMISE_WINDOW
    then row.(postId := Some(Token(c.worker))) else row
  }

  function Coalesce<T>(new_: Option<T>, old_: Option<T>): Option<T> {
    if new_.Some? then new_ else old_
  }

  predicate SoldShaped(u: LeadUpdate) {
    u.status == Sold && (u.soldAt || u.winner)
  }

  /** The post id that an update writes if it writes one: a missing one is bound as the empty string. */
  function PostIdOf(u: LeadUpdate): string { u.postId.GetOr("") }

  /** The first statement of a queued update: the sale, guarded by the token if there is one. */
  function SoldStatement(row: Row, u: LeadUpdate, now: int): Row {
    if SoldShaped(u) && (u.token.Some? ==> row.postId == u.token) then
      row.(status := u.status, promise := Coalesce(u.promise, row.promise),
           postId := Some(PostIdOf(u)), soldAt := Some(now))
    else row
  }

  /** The second statement: with a token it clears the placeholder, without one it is the standard update. */
  function TailStatement(row: Row, u: LeadUpdate): Row {
    if u.token.Some? then
      if row.postId == u.token then row.(postId := Some("")) else row
    else
      row.(status := u.status, promise := Coalesce(u.promise, row.promise), postId := Some(PostIdOf(u)))
  }

  function ReleaseUpdate(worker: string, loaded: Status): LeadUpdate {
    LeadUpdate(loaded, false, None, Some(""), false, Some(Token(worker)))
  }

  function FinaliseUpdate(worker: string, postId: string): LeadUpdate {
    LeadUpdate(Sold, true, None, Some(postId), true, Some(Token(worker)))
  }

  /* ---------- Steps ---------- */

  predicate In(s: State, worker: string, phase: Phase) {
    worker in s.workers && s.workers[worker] == phase
  }

  predicate Enabled(s: State, e: Event) {
    match e
    case Tick(_) => true
    case Reping(_) => true
    case Arrive(w, _) => w !in s.workers
    case Retry(w) => w in s.workers && s.workers[w].Claiming? && s.workers[w].tries < MAX_TRIES
    case Land(c, _) => c in s.sent
    case Fail(w) => w in s.workers
    case Refuse(w, _) => In(s, w, Routing)
    case Release(w, _) => In(s, w, Refused)
    case Accept(w, _) => In(s, w, Routing)
    case Write(w) => w in s.workers && s.workers[w].Accepted?
    case Finalise(w) => w in s.workers && s.workers[w].Written?
    case EnqueuePing(u) => u.token.None?
    case FlushSold(u) => u in s.queue
    case FlushTail(u) => u in s.queue
    case Drop(u) => u in s.queue
  }

  function Next(s: State, e: Event): State
    requires Enabled(s, e)
  {
    match e
    case Tick(d) => s.(now := s.now + d)
    // A second ping with the same lead_id replaces the promise of the existing row.
    case Reping(p) => s.(row := s.row.(promise := p))
    case Arrive(w, p) => s.(workers := s.workers[w := Claiming(p, 1)], sent := s.sent + multiset{Claim(w, p)})
    case Retry(w) =>
      var Claiming(p, n) := s.workers[w];
      s.(workers := s.workers[w := Claiming(p, n + 1)], sent := s.sent + multiset{Claim(w, p)})
    case Land(c, acked) =>
      var row' := ClaimStatement(s.row, c, s.now);
      var heard := acked && c.worker in s.workers && s.workers[c.worker].Claiming?;
      var workers' := if heard then s.workers[c.worker := if row' != s.row then Routing else Done] else s.workers;
      s.(row := row', workers := workers', sent := s.sent - multiset{c})
    // A crash, a routing error, or giving up on the claim: nothing is enqueued.
    case Fail(w) => s.(workers := s.workers[w := Done])
    case Refuse(w, st) =>
      s.(row := s.row.(status := st.GetOr(s.row.status)), workers := s.workers[w := Refused])
    case Release(w, loaded) =>
      s.(workers := s.workers[w := Done], queue := s.queue + {ReleaseUpdate(w, loaded)})
    case Accept(w, pid) => s.(workers := s.workers[w := Accepted(pid)], sales := s.sales + [Sale(w, pid)])
    case Write(w) =>
      var pid := s.workers[w].postId;
      s.(row := s.row.(status := Sold, postId := Some(pid)), workers := s.workers[w := Written(pid)],
         written := true)
    case Finalise(w) =>
      s.(workers := s.workers[w := Done], queue := s.queue + {FinaliseUpdate(w, s.workers[w].postId)})
    case EnqueuePing(u) => s.(queue := s.queue + {u})
    case FlushSold(u) => s.(row := SoldStatement(s.row, u, s.now))
    case FlushTail(u) => s.(row := TailStatement(s.row, u))
    case Drop(u) => s.(queue := s.queue - {u})
  }

  predicate ValidRun(s: State, es: seq<Event>)
    decreases |es|
  {
    es == [] || (Enabled(s, es[0]) && ValidRun(Next(s, es[0]), es[1..]))
  }

  function After(s: State, es: seq<Event>): State
    requires ValidRun(s, es)
    decreases |es|
  {
    if es == [] then s else After(Next(s, es[0]), es[1..])
  }

  /* ---------- The invariant and the steps that keep it ---------- */

  /** Nobody has posted yet; the row is arbitrary and ping-side updates may be queued. */
  predicate Init(s: State) {
    s.workers == map[] && s.sent == multiset{} && s.sales == [] && !s.written &&
    forall u <- s.queue :: u.token.None?
  }

  predicate GoodPostId(pid: string) { pid != "" && !TokenLike(pid) }

  /** While somebody routes the lead, the row shows that worker's token. */
  ghost predicate HoldersOwnRow(s: State) {
    forall w <- s.workers ::
      && (s.workers[w].Live() && !s.workers[w].Written? ==> s.row.postId == Some(Token(w)))
      && (s.workers[w].Accepted? ==> !s.written && s.sales == [Sale(w, s.workers[w].postId)])
      && (s.workers[w].Written? ==> s.written && s.sales == [Sale(w, s.workers[w].postId)])
  }

  /** A sale stays visible: as the seller's token until the router's write, as the buyer's post id afterwards. */
  ghost predicate SaleShows(s: State) {
    && |s.sales| <= 1
    && (s.written ==> |s.sales| == 1)
    && (|s.sales| == 1 ==>
      var Sale(w, pid) := s.sales[0];
      && w in s.workers
      && !s.workers[w].Claiming? && !s.workers[w].Routing? && !s.workers[w].Refused?
      && (s.written ==> GoodPostId(pid) && s.row.postId == Some(pid) && s.row.status == Sold)
      && (!s.written ==> s.row.postId == Some(Token(w)) && forall u <- s.queue :: u.token != Some(Token(w))))
  }

  /** Only finished workers have updates in the queue, and only after the write does a sale travel there. */
  ghost predicate QueueIsSpent(s: State) {
    forall u <- s.queue | u.token.Some? ::
      && (exists w <- s.workers :: s.workers[w].Done? && u.token == Some(Token(w)))
      && (SoldShaped(u) ==> s.written)
  }

  ghost predicate Inv(s: State) {
    && HoldersOwnRow(s)
    && SaleShows(s)
    && QueueIsSpent(s)
    && forall c <- s.sent :: c.worker in s.workers
  }

  /** Somebody holds the lead or has sold it. */
  ghost predicate Busy(s: State) {
    s.sales != [] || exists w <- s.workers :: s.workers[w].Live()
  }

  function RowAfter(s: State, e: Event): Row
    requires Enabled(s, e)
  {
    Next(s, e).row
  }

  predicate Tokenless(e: Event) {
    (e.FlushSold? || e.FlushTail?) && e.update.token.None?
  }

  predicate TokensOnly(es: seq<Event>) {
    es == [] || (!Tokenless(es[0]) && TokensOnly(es[1..]))
  }

  /** The two things the protocol relies on: buyers answer with usable post ids, and the ping's own updates
      have drained before the lead is claimed (or at least change nothing that matters). */
  ghost predicate Harmless(s: State, e: Event)
    requires Enabled(s, e)
  {
    && (e.Write? ==> GoodPostId(s.workers[e.worker].postId))
    && (Tokenless(e) && Busy(s) ==>
      RowAfter(s, e).postId == s.row.postId && (s.written ==> RowAfter(s, e).status == Sold))
  }

  ghost predicate HarmlessRun(s: State, es: seq<Event>)
    requires ValidRun(s, es)
    decreases |es|
  {
    es == [] || (Harmless(s, es[0]) && HarmlessRun(Next(s, es[0]), es[1..]))
  }

  lemma TokenInjective(v: string, w: string)
    ensures Token(v) == Token(w) ==> v == w
  {
    assert Token(v)[7..] == v && Token(w)[7..] == w;
  }

  lemma TokenIsTokenLike(w: string)
    ensures TokenLike(Token(w)) && Token(w) != "" && !GoodPostId(Token(w))
  {
  }

  lemma InitEstablishes(s: State)
    requires Init(s)
    ensures Inv(s)
  {
  }

  /** Of two workers that route the lead unsold, both are the same worker. */
  lemma OneHolder(s: State, v: string, w: string)
    requires Inv(s) && v in s.workers && w in s.workers && s.workers[v].Live() && s.workers[w].Live()
    ensures v == w
  {
    TokenIsTokenLike(v);
    TokenIsTokenLike(w);
    if s.row.postId == Some(Token(v)) && s.row.postId == Some(Token(w)) {
      TokenInjective(v, w);
    }
  }

  /** A worker that is still routing, or was refused, has sold nothing, and nobody else has. */
  lemma HolderUnsold(s: State, w: string)
    requires Inv(s) && w in s.workers && (s.workers[w].Routing? || s.workers[w].Refused?)
    ensures s.sales == [] && !s.written
  {
    TokenIsTokenLike(w);
    if s.sales != [] && !s.written {
      TokenInjective(w, s.sales[0].worker);
    }
  }

  /** A lead that can be claimed is neither held nor sold. */
  lemma FreeMeansIdle(s: State)
    requires Inv(s) && Free(s.row)
    ensures !Busy(s) && s.sales == []
  {
    if s.sales != [] {
      TokenIsTokenLike(s.sales[0].worker);
    }
  }

  lemma LandKeepsInv(s: State, e: Event)
    requires Inv(s) && Enabled(s, e) && e.Land?
    ensures Inv(Next(s, e)) <==> Harmless(s, e)
  {
    var Land(c, acked) := e;
    var s' := Next(s, e);
    if s'.row != s.row {
      FreeMeansIdle(s);
      assert s'.row.postId == Some(Token(c.worker));
    }
    assert QueueIsSpent(s') by {
      forall u <- s'.queue | u.token.Some?
        ensures exists w <- s'.workers :: s'.workers[w].Done? && u.token == Some(Token(w))
      {
        var w :| w in s.workers && s.workers[w].Done? && u.token == Some(Token(w));
        assert w in s'.workers && s'.workers[w].Done?;
      }
    }
  }

  lemma QueueStaysSpent(s: State, s': State)
    requires QueueIsSpent(s) && s'.queue <= s.queue && (s.written ==> s'.written)
    requires forall w <- s.workers :: s.workers[w].Done? ==> w in s'.workers && s'.workers[w].Done?
    ensures QueueIsSpent(s')
  {
    forall u <- s'.queue | u.token.Some?
      ensures exists w <- s'.workers :: s'.workers[w].Done? && u.token == Some(Token(w))
    {
      var w :| w in s.workers && s.workers[w].Done? && u.token == Some(Token(w));
      assert w in s'.workers && s'.workers[w].Done?;
    }
  }

  lemma QuietStepKeepsInv(s: State, e: Event)
    requires Inv(s) && Enabled(s, e) && (e.Tick? || e.Reping? || e.EnqueuePing? || e.Drop?)
    ensures Inv(Next(s, e)) <==> Harmless(s, e)
  {
    var s' := Next(s, e);
    QueueStaysSpent(s, s'.(queue := s.queue * s'.queue));
  }

  lemma SendKeepsInv(s: State, e: Event)
    requires Inv(s) && Enabled(s, e) && (e.Arrive? || e.Retry?)
    ensures Inv(Next(s, e)) <==> Harmless(s, e)
  {
    var s' := Next(s, e);
    QueueStaysSpent(s, s');
    assert forall v <- s.workers :: v != e.worker ==> s'.workers[v] == s.workers[v];
    assert SaleShows(s');
  }

  lemma RefuseKeepsInv(s: State, e: Event)
    requires Inv(s) && Enabled(s, e) && e.Refuse?
    ensures Inv(Next(s, e)) <==> Harmless(s, e)
  {
    var Refuse(w, st) := e;
    HolderUnsold(s, w);
    QueueStaysSpent(s, Next(s, e));
  }

  lemma FailKeepsInv(s: State, e: Event)
    requires Inv(s) && Enabled(s, e) && e.Fail?
    ensures Inv(Next(s, e)) <==> Harmless(s, e)
  {
    var Fail(w) := e;
    QueueStaysSpent(s, Next(s, e));
  }

  /** A live worker's token is in no queued update. */
  lemma LiveTokenNotQueued(s: State, w: string, u: LeadUpdate)
    requires Inv(s) && w in s.workers && !s.workers[w].Done? && u in s.queue
    ensures u.token != Some(Token(w))
  {
    if u.token == Some(Token(w)) {
      var v :| v in s.workers && s.workers[v].Done? && u.token == Some(Token(v));
      TokenInjective(v, w);
    }
  }

  lemma ReleaseKeepsInv(s: State, e: Event)
    requires Inv(s) && Enabled(s, e) && e.Release?
    ensures Inv(Next(s, e)) <==> Harmless(s, e)
  {
    var Release(w, loaded) := e;
    HolderUnsold(s, w);
    var s' := Next(s, e);
    QueueStaysSpent(s, s'.(queue := s.queue));
    assert s'.workers[w].Done?;
  }

  lemma AcceptKeepsInv(s: State, e: Event)
    requires Inv(s) && Enabled(s, e) && e.Accept?
    ensures Inv(Next(s, e)) <==> Harmless(s, e)
  {
    var Accept(w, pid) := e;
    HolderUnsold(s, w);
    var s' := Next(s, e);
    forall v | v in s.workers && s.workers[v].Live() ensures v == w { OneHolder(s, v, w); }
    forall u <- s.queue ensures u.token != Some(Token(w)) { LiveTokenNotQueued(s, w, u); }
    QueueStaysSpent(s, s');
  }

  lemma WriteKeepsInvExactly(s: State, e: Event)
    requires Inv(s) && Enabled(s, e) && e.Write?
    ensures Inv(Next(s, e)) <==> Harmless(s, e)
  {
    var Write(w) := e;
    var s' := Next(s, e);
    forall v | v in s.workers && s.workers[v].Live() ensures v == w { OneHolder(s, v, w); }
    QueueStaysSpent(s, s');
    assert s'.sales == [Sale(w, s.workers[w].postId)];
  }

  lemma FinaliseKeepsInv(s: State, e: Event)
    requires Inv(s) && Enabled(s, e) && e.Finalise?
    ensures Inv(Next(s, e)) <==> Harmless(s, e)
  {
    var Finalise(w) := e;
    var s' := Next(s, e);
    QueueStaysSpent(s, s'.(queue := s.queue));
    assert s'.workers[w].Done?;
  }

  /** Once a sale is written, no update that carries a token changes the row. */
  lemma WrittenShutsOutTokens(s: State, u: LeadUpdate)
    requires Inv(s) && s.written && u in s.queue && u.token.Some?
    ensures SoldStatement(s.row, u, s.now) == s.row && TailStatement(s.row, u) == s.row
  {
    var w :| w in s.workers && s.workers[w].Done? && u.token == Some(Token(w));
    TokenIsTokenLike(w);
  }

  lemma FlushKeepsInvExactly(s: State, e: Event)
    requires Inv(s) && Enabled(s, e) && (e.FlushSold? || e.FlushTail?)
    ensures Inv(Next(s, e)) <==> Harmless(s, e)
  {
    var u, s' := e.update, Next(s, e);
    QueueStaysSpent(s, s');
    if u.token.Some? {
      if s.written {
        WrittenShutsOutTokens(s, u);
      } else if s'.row != s.row {
        var w :| w in s.workers && s.workers[w].Done? && u.token == Some(Token(w));
        TokenIsTokenLike(w);
        forall v | v in s.workers && s.workers[v].Live() ensures Token(v) != Token(w) { TokenInjective(v, w); }
        assert s.sales == [];
      }
    } else if Busy(s) {
      if s.sales == [] {
        var w :| w in s.workers && s.workers[w].Live();
      }
    }
  }

  /** Each step keeps the invariant exactly when it is harmless. */
  lemma StepKeepsInvExactly(s: State, e: Event)
    requires Inv(s) && Enabled(s, e)
    ensures Inv(Next(s, e)) <==> Harmless(s, e)
  {
    match e
    case Land(_, _) => LandKeepsInv(s, e);
    case Fail(_) => FailKeepsInv(s, e);
    case Refuse(_, _) => RefuseKeepsInv(s, e);
    case Release(_, _) => ReleaseKeepsInv(s, e);
    case Accept(_, _) => AcceptKeepsInv(s, e);
    case Write(_) => WriteKeepsInvExactly(s, e);
    case Finalise(_) => FinaliseKeepsInv(s, e);
    case FlushSold(_) => FlushKeepsInvExactly(s, e);
    case FlushTail(_) => FlushKeepsInvExactly(s, e);
    case Arrive(_, _) => SendKeepsInv(s, e);
    case Retry(_) => SendKeepsInv(s, e);
    case _ => QuietStepKeepsInv(s, e);
  }

  /* ---------- What holds over whole runs ---------- */

  lemma {:induction false} RunKeepsInv(s: State, es: seq<Event>)
    requires Inv(s) && ValidRun(s, es) && HarmlessRun(s, es)
    ensures Inv(After(s, es))
    decreases |es|
  {
    if es != [] {
      StepKeepsInvExactly(s, es[0]);
      RunKeepsInv(Next(s, es[0]), es[1..]);
    }
  }

  /** No double sale: at every point of a harmless run at most one worker holds the lead and at most one buyer
      has accepted it. */
  lemma NoDoubleSale(s: State, es: seq<Event>)
    requires Init(s) && ValidRun(s, es) && HarmlessRun(s, es)
    ensures var t := After(s, es);
      && |t.sales| <= 1
      && forall v, w | v in t.workers && w in t.workers && t.workers[v].Live() && t.workers[w].Live() :: v == w
  {
    InitEstablishes(s);
    RunKeepsInv(s, es);
    var t := After(s, es);
    forall v, w | v in t.workers && w in t.workers && t.workers[v].Live() && t.workers[w].Live() ensures v == w {
      OneHolder(t, v, w);
    }
  }

  /** Every queued update carries a token, and every accepted post id is usable. */
  ghost predicate Drained(s: State) {
    && (forall u <- s.queue :: u.token.Some?)
    && (forall w <- s.workers :: s.workers[w].Accepted? ==> GoodPostId(s.workers[w].postId))
  }

  /** No ping-side update joins the queue, and buyers answer with usable post ids. */
  predicate Disciplined(es: seq<Event>) {
    es == [] || (!es[0].EnqueuePing? && (es[0].Accept? ==> GoodPostId(es[0].postId)) && Disciplined(es[1..]))
  }

  lemma StaysDrained(s: State, e: Event)
    requires Drained(s) && Enabled(s, e) && !e.EnqueuePing? && (e.Accept? ==> GoodPostId(e.postId))
    ensures Drained(Next(s, e))
  {
  }

  lemma DrainedStepIsHarmless(s: State, e: Event)
    requires Drained(s) && Enabled(s, e)
    ensures Harmless(s, e)
  {
  }

  lemma {:induction false} DisciplinedIsHarmless(s: State, es: seq<Event>)
    requires Drained(s) && ValidRun(s, es) && Disciplined(es)
    ensures HarmlessRun(s, es)
    decreases |es|
  {
    if es != [] {
      StaysDrained(s, es[0]);
      DrainedStepIsHarmless(s, es[0]);
      DisciplinedIsHarmless(Next(s, es[0]), es[1..]);
    }
  }

  /** Sales are never forgotten, and nothing un-writes one. */
  lemma {:induction false} HistoryGrows(s: State, es: seq<Event>)
    requires ValidRun(s, es)
    ensures s.sales <= After(s, es).sales && (s.written ==> After(s, es).written)
    decreases |es|
  {
    if es != [] {
      HistoryGrows(Next(s, es[0]), es[1..]);
    }
  }

  /** A written sale is final: no delayed, repeated or reordered update ever disturbs it. */
  lemma SaleIsPermanent(s: State, es: seq<Event>)
    requires Inv(s) && s.written && ValidRun(s, es) && HarmlessRun(s, es)
    ensures var t := After(s, es);
      t.sales == s.sales && t.row.postId == Some(s.sales[0].postId) && t.row.status == Sold && !Free(t.row)
  {
    RunKeepsInv(s, es);
    HistoryGrows(s, es);
  }

  /** A queued update with another worker's token never disturbs the worker that holds the lead. */
  lemma DelayedUpdateSparesHolder(s: State, w: string, u: LeadUpdate)
    requires Inv(s) && w in s.workers && s.workers[w].Live() && u in s.queue && u.token.Some?
    ensures SoldStatement(s.row, u, s.now) == s.row && TailStatement(s.row, u) == s.row
  {
    if s.written {
      WrittenShutsOutTokens(s, u);
    } else {
      LiveTokenNotQueued(s, w, u);
    }
  }

  predicate WindowOver(s: State) { s.row.createdAt < s.now - PROMISE_WINDOW }

  /** In going from s to t nobody has come to hold the lead, and the new sales are by workers that held it in s. */
  ghost predicate NoNewHolder(s: State, t: State) {
    && (forall w <- t.workers | t.workers[w].Live() :: w in s.workers && s.workers[w].Live())
    && s.sales <= t.sales
    && (forall i | |s.sales| <= i < |t.sales| ::
          t.sales[i].worker in s.workers && s.workers[t.sales[i].worker].Live())
  }

  lemma StepAfterWindow(s: State, e: Event)
    requires WindowOver(s) && Enabled(s, e)
    ensures WindowOver(Next(s, e)) && NoNewHolder(s, Next(s, e))
  {
  }

  /** Once the ten minutes are over no worker gains the lead, whatever else happens; any further sale is made
      by a worker that already held it. */
  lemma {:induction false} NoClaimAfterWindow(s: State, es: seq<Event>)
    requires WindowOver(s) && ValidRun(s, es)
    ensures WindowOver(After(s, es)) && NoNewHolder(s, After(s, es))
    decreases |es|
  {
    if es != [] {
      StepAfterWindow(s, es[0]);
      NoClaimAfterWindow(Next(s, es[0]), es[1..]);
    }
  }

  /** The row shows the token of a worker that is gone and has left no release behind. */
  ghost predicate Orphaned(s: State, w: string) {
    && In(s, w, Done)
    && s.row.postId == Some(Token(w))
    && forall u <- s.queue :: u.token != Some(Token(w))
  }

  /** A handler that ends early leaves its lead orphaned exactly if the row shows its token, in whatever phase it
      is: that path enqueues no release. */
  lemma FailOrphansExactly(s: State, w: string)
    requires Inv(s) && w in s.workers && !s.workers[w].Done?
    ensures Orphaned(Next(s, Fail(w)), w) <==> s.row.postId == Some(Token(w))
  {
    forall u <- s.queue ensures u.token != Some(Token(w)) { LiveTokenNotQueued(s, w, u); }
  }

  /** A routing error after the claim is such an end. */
  lemma RoutingErrorOrphans(s: State, w: string)
    requires Inv(s) && w in s.workers && (s.workers[w].Routing? || s.workers[w].Refused? || s.workers[w].Accepted?)
    ensures Orphaned(Next(s, Fail(w)), w)
  {
    FailOrphansExactly(s, w);
  }

  /** A claim that landed unheard is lost: whatever ends the wait, be it a retry that reads as a duplicate or giving
      up, the lead is orphaned. */
  lemma UnheardClaimIsLost(s: State, w: string, e: Event)
    requires Inv(s) && w in s.workers && s.workers[w].Claiming? && s.row.postId == Some(Token(w))
    requires Enabled(s, e) && !Next(s, e).workers[w].Claiming?
    ensures Orphaned(Next(s, e), w)
  {
    forall u <- s.queue ensures u.token != Some(Token(w)) { LiveTokenNotQueued(s, w, u); }
    TokenIsTokenLike(w);
  }

  /** It comes to that at every try but the last: the claim lands, its acknowledgement is lost, the retry lands. */
  lemma LostAckOrphans(s: State, c: Claim, tries: nat)
    requires Inv(s) && s.sent[c] >= 1 && In(s, c.worker, Claiming(c.promise, tries)) && tries < MAX_TRIES
    requires ClaimStatement(s.row, c, s.now) != s.row
    ensures var es := [Land(c, false)] + [Retry(c.worker)] + [Land(c, true)];
      ValidRun(s, es) && Orphaned(After(s, es), c.worker)
  {
    var s1 := Next(s, Land(c, false));
    var s2 := Next(s1, Retry(c.worker));
    assert s1.row.postId == Some(Token(c.worker)) && s1.queue == s.queue && s1.workers == s.workers;
    assert c in s2.sent && s2.workers[c.worker].Claiming? && s2.row == s1.row;
    RunSnoc(s, [], Land(c, false));
    assert [] + [Land(c, false)] == [Land(c, false)];
    RunSnoc(s, [Land(c, false)], Retry(c.worker));
    RunSnoc(s, [Land(c, false)] + [Retry(c.worker)], Land(c, true));
    StepKeepsInvExactly(s, Land(c, false));
    StepKeepsInvExactly(s1, Retry(c.worker));
    UnheardClaimIsLost(s2, c.worker, Land(c, true));
  }

  /** An orphaned lead is lost for good: unless a token-less update runs, it is never claimed or sold again. */
  lemma {:induction false} OrphanIsPermanent(s: State, w: string, es: seq<Event>)
    requires Inv(s) && Orphaned(s, w) && ValidRun(s, es) && TokensOnly(es)
    ensures Orphaned(After(s, es), w) && After(s, es).sales == s.sales
    decreases |es|
  {
    if es != [] {
      OrphanStep(s, w, es[0]);
      StepKeepsInvExactly(s, es[0]);
      OrphanIsPermanent(Next(s, es[0]), w, es[1..]);
    }
  }

  /** The only step that frees an orphaned lead is a token-less update that writes an empty post id. */
  lemma OrphanReopenedExactly(s: State, w: string, e: Event)
    requires Inv(s) && Orphaned(s, w) && Enabled(s, e)
    ensures Free(Next(s, e).row) <==>
      Tokenless(e) && PostIdOf(e.update) == "" && (e.FlushSold? ==> SoldShaped(e.update))
  {
    TokenIsTokenLike(w);
    if e.Write? {
      TokenInjective(e.worker, w);
    }
  }

  lemma OrphanStep(s: State, w: string, e: Event)
    requires Inv(s) && Orphaned(s, w) && Enabled(s, e) && !Tokenless(e)
    ensures Orphaned(Next(s, e), w) && Next(s, e).sales == s.sales && Harmless(s, e)
  {
    TokenIsTokenLike(w);
    forall v | v in s.workers && s.workers[v].Live() ensures Token(v) != Token(w) {
      TokenInjective(v, w);
    }
  }

  /** The token-guarded finalisation never does anything: the router has already replaced the token by the
      buyer's post id, so a two-step sale leaves sold_at as it was. */
  lemma {:induction false} SoldAtNeverSetByPosts(s: State, es: seq<Event>)
    requires Inv(s) && ValidRun(s, es) && HarmlessRun(s, es)
    requires TokensOnly(es)
    ensures After(s, es).row.soldAt == s.row.soldAt
    decreases |es|
  {
    if es != [] {
      var e := es[0];
      StepKeepsInvExactly(s, e);
      if e.FlushSold? && s.written {
        WrittenShutsOutTokens(s, e.update);
      }
      SoldAtNeverSetByPosts(Next(s, e), es[1..]);
    }
  }

  /* ---------- Why the assumptions are needed ---------- */

  lemma {:induction false} RunConcat(s: State, a: seq<Event>, b: seq<Event>)
    requires ValidRun(s, a) && ValidRun(After(s, a), b)
    ensures ValidRun(s, a + b) && After(s, a + b) == After(After(s, a), b)
    decreases |a|
  {
    if a == [] {
      assert a + b == b;
    } else {
      assert (a + b)[1..] == a[1..] + b;
      RunConcat(Next(s, a[0]), a[1..], b);
    }
  }

  lemma RunSnoc(s: State, a: seq<Event>, e: Event)
    requires ValidRun(s, a) && Enabled(After(s, a), e)
    ensures ValidRun(s, a + [e]) && After(s, a + [e]) == Next(After(s, a), e)
  {
    var t := After(s, a);
    assert [e][1..] == [];
    assert ValidRun(t, [e]);
    RunConcat(s, a, [e]);
  }

  predicate Claimable(s: State, w: string, promise: string) {
    Free(s.row) && s.row.promise == Some(promise) && !WindowOver(s) && w !in s.workers
  }

  /** A request claims the lead. */
  function ClaimRun(w: string, promise: string): seq<Event> {
    [Arrive(w, promise)] + [Land(Claim(w, promise), true)]
  }

  /** And its buyer accepts. */
  function SaleRun(w: string, promise: string, pid: string): seq<Event> {
    ClaimRun(w, promise) + [Accept(w, pid)]
  }

  lemma ClaimableLeadSells(s: State, w: string, promise: string, pid: string)
    requires Claimable(s, w, promise)
    ensures var es := SaleRun(w, promise, pid);
      ValidRun(s, es) &&
      After(s, es) == s.(row := s.row.(postId := Some(Token(w))), workers := s.workers[w := Accepted(pid)],
                         sales := s.sales + [Sale(w, pid)])
  {
    var run := ClaimRun(w, promise);
    ClaimableLeadIsClaimed(s, w, promise);
    RunSnoc(s, run, Accept(w, pid));
    assert s.workers[w := Routing][w := Accepted(pid)] == s.workers[w := Accepted(pid)];
  }

  lemma ClaimableLeadIsClaimed(s: State, w: string, promise: string)
    requires Claimable(s, w, promise)
    ensures var es := ClaimRun(w, promise);
      ValidRun(s, es) &&
      After(s, es) == s.(row := s.row.(postId := Some(Token(w))), workers := s.workers[w := Routing])
  {
    var c := Claim(w, promise);
    var s1 := Next(s, Arrive(w, promise));
    assert ClaimStatement(s1.row, c, s1.now) != s1.row;
    RunSnoc(s, [], Arrive(w, promise));
    assert [] + [Arrive(w, promise)] == [Arrive(w, promise)];
    RunSnoc(s, [Arrive(w, promise)], Land(c, true));
    assert s.sent + multiset{c} - multiset{c} == s.sent;
    assert s.workers[w := Claiming(promise, 1)][w := Routing] == s.workers[w := Routing];
  }

  /** A refused lead goes back on sale: after the release lands, a second request claims and sells it. */
  lemma RefusedLeadSellsNext(s: State, v: string, w: string, promise: string, loaded: Status)
    requires Init(s) && Claimable(s, v, promise) && v != w
    ensures var es := [Arrive(v, promise)] + [Land(Claim(v, promise), true)] + [Refuse(v, None)] + [Release(v, loaded)]
                      + [FlushTail(ReleaseUpdate(v, loaded))] + SaleRun(w, promise, "sold");
      ValidRun(s, es) && After(s, es).sales == [Sale(w, "sold")]
  {
    var c := Claim(v, promise);
    assert ClaimStatement(s.row, c, s.now) != s.row;
    RunSnoc(s, [], Arrive(v, promise));
    var a := [Arrive(v, promise)];
    assert [] + a == a;
    RunSnoc(s, a, Land(c, true));
    RunSnoc(s, a + [Land(c, true)], Refuse(v, None));
    RunSnoc(s, a + [Land(c, true)] + [Refuse(v, None)], Release(v, loaded));
    var b := a + [Land(c, true)] + [Refuse(v, None)] + [Release(v, loaded)];
    RunSnoc(s, b, FlushTail(ReleaseUpdate(v, loaded)));
    ClaimableLeadSells(After(s, b + [FlushTail(ReleaseUpdate(v, loaded))]), w, promise, "sold");
    RunConcat(s, b + [FlushTail(ReleaseUpdate(v, loaded))], SaleRun(w, promise, "sold"));
  }

  /** From any state in which the lead is sold, a step that empties post_id before the window closes lets
      a second request sell it again. */
  lemma ReopenedLeadSellsTwice(s: State, e: Event, w: string, promise: string)
    requires |s.sales| == 1 && Enabled(s, e) && Claimable(Next(s, e), w, promise)
    ensures var es := [e] + SaleRun(w, promise, "resold"); ValidRun(s, es) && |After(s, es).sales| >= 2
  {
    RunSnoc(s, [], e);
    assert [] + [e] == [e];
    ClaimableLeadSells(Next(s, e), w, promise, "resold");
    RunConcat(s, [e], SaleRun(w, promise, "resold"));
  }

  /** The assumption on post ids is needed: a buyer that answers with an empty one leaves the lead for sale. */
  lemma EmptyPostIdSellsTwice(s: State, v: string, w: string, promise: string)
    requires Claimable(s, v, promise) && w !in s.workers && v != w && s.sales == []
    ensures var es := SaleRun(v, promise, "") + [Write(v)] + SaleRun(w, promise, "resold");
      ValidRun(s, es) && |After(s, es).sales| == 2
  {
    var a := SaleRun(v, promise, "");
    ClaimableLeadSells(s, v, promise, "");
    RunSnoc(s, a, Write(v));
    ClaimableLeadSells(After(s, a + [Write(v)]), w, promise, "resold");
    RunConcat(s, a + [Write(v)], SaleRun(w, promise, "resold"));
  }

  /** And a buyer that echoes the token revives the queued finalisation, whose second statement frees the lead. */
  lemma EchoedTokenSellsTwice(s: State, v: string, w: string, promise: string)
    requires Claimable(s, v, promise) && w !in s.workers && v != w && s.sales == []
    ensures var u := FinaliseUpdate(v, Token(v));
      var es := SaleRun(v, promise, Token(v)) + [Write(v)] + [Finalise(v)] + [FlushSold(u)] + [FlushTail(u)]
                + SaleRun(w, promise, "resold");
      ValidRun(s, es) && |After(s, es).sales| == 2
  {
    var u := FinaliseUpdate(v, Token(v));
    var a := SaleRun(v, promise, Token(v));
    ClaimableLeadSells(s, v, promise, Token(v));
    RunSnoc(s, a, Write(v));
    RunSnoc(s, a + [Write(v)], Finalise(v));
    RunSnoc(s, a + [Write(v)] + [Finalise(v)], FlushSold(u));
    RunSnoc(s, a + [Write(v)] + [Finalise(v)] + [FlushSold(u)], FlushTail(u));
    var b := a + [Write(v)] + [Finalise(v)] + [FlushSold(u)] + [FlushTail(u)];
    ClaimableLeadSells(After(s, b), w, promise, "resold");
    RunConcat(s, b, SaleRun(w, promise, "resold"));
  }
}
