/** When exactly a lead can be sold twice. */
module SaleLimits {
  import opened Prelude
  import opened PostClaim

  /** Whatever happens from s on, as long as no further ping-side update is enqueued and buyers answer with usable
      post ids, the lead is not sold twice. */
  ghost predicate SellsAtMostOnce(s: State) {
    forall es | ValidRun(s, es) && Disciplined(es) :: |After(s, es).sales| <= 1
  }

  /** Queued ping-side updates write no empty post id, and none that looks like a token while the lead is free. */
  predicate PingsSafe(s: State) {
    && (forall u <- s.queue :: PostIdOf(u) != "")
    && (Free(s.row) ==> forall u <- s.queue :: !TokenLike(PostIdOf(u)))
  }

  /** Before anybody has posted: the lead cannot be sold twice exactly if its window is over or the queued ping-side
      updates are safe. */
  lemma SellsOnceExactly(s: State)
    requires Init(s)
    ensures SellsAtMostOnce(s) <==> WindowOver(s) || PingsSafe(s)
  {
    if WindowOver(s) || PingsSafe(s) {
      forall es | ValidRun(s, es) && Disciplined(es) ensures |After(s, es).sales| <= 1 {
        if WindowOver(s) {
          NoClaimAfterWindow(s, es);
          NothingSold(s, After(s, es));
        } else if Free(s.row) {
          InitEstablishes(s);
          SafeRun(s, es);
        } else {
          ShutRun(s, es);
        }
      }
    } else if u :| u in s.queue && PostIdOf(u) == "" {
      var es := LatePingSellsTwice(s, u);
    } else {
      var u :| u in s.queue && TokenLike(PostIdOf(u));
      var es := TokenPingSellsTwice(s, u);
    }
  }

  /** If nobody held the lead and nobody has come to hold it, it is as unsold as before. */
  lemma NothingSold(s: State, t: State)
    requires Init(s) && NoNewHolder(s, t)
    ensures t.sales == []
  {
    if t.sales != [] {
      NewSaleHasHolder(s, t);
    }
  }

  lemma NewSaleHasHolder(s: State, t: State)
    requires NoNewHolder(s, t) && |s.sales| < |t.sales|
    ensures exists w :: w in s.workers
  {
    assert t.sales[|s.sales|].worker in s.workers;
  }

  /** A lead whose queued ping-side updates all carry usable post ids is sold at most once. */
  lemma DrainedLeadSellsOnce(s: State, es: seq<Event>)
    requires Init(s) && ValidRun(s, es) && Disciplined(es)
    requires forall u <- s.queue :: GoodPostId(PostIdOf(u))
    ensures |After(s, es).sales| <= 1
  {
    InitEstablishes(s);
    SafeRun(s, es);
  }

  /* ---------- The safe half: usable post ids ---------- */

  /** Every post id that may still be written is usable, and tokens look like tokens. */
  ghost predicate GoodIds(s: State) {
    && (forall u <- s.queue :: if u.token.Some? then TokenLike(u.token.value) else GoodPostId(PostIdOf(u)))
    && (forall w <- s.workers | s.workers[w].Accepted? :: GoodPostId(s.workers[w].postId))
  }

  /** The row shows a buyer's post id, and at most one worker can still sell the lead. */
  ghost predicate Locked(s: State) {
    && s.row.postId.Some? && GoodPostId(s.row.postId.value)
    && |s.sales| <= 1
    && (forall v <- s.workers, w <- s.workers | s.workers[v].Routing? && s.workers[w].Routing? :: v == w)
    && (s.sales != [] ==> forall w <- s.workers :: !s.workers[w].Routing?)
  }

  ghost predicate Safe(s: State) {
    GoodIds(s) && (Inv(s) || Locked(s))
  }

  predicate DisciplinedStep(e: Event) {
    !e.EnqueuePing? && (e.Accept? ==> GoodPostId(e.postId))
  }

  lemma GoodIdsStay(s: State, e: Event)
    requires GoodIds(s) && Enabled(s, e) && DisciplinedStep(e)
    ensures GoodIds(Next(s, e))
  {
  }

  lemma LockedStays(s: State, e: Event)
    requires Locked(s) && GoodIds(s) && Enabled(s, e) && DisciplinedStep(e)
    ensures Locked(Next(s, e))
  {
    if e.FlushSold? || e.FlushTail? {
      FlushKeepsLocked(s, e);
    } else {
      HandlerKeepsLocked(s, e);
    }
  }

  lemma FlushKeepsLocked(s: State, e: Event)
    requires Locked(s) && GoodIds(s) && Enabled(s, e) && (e.FlushSold? || e.FlushTail?)
    ensures Locked(Next(s, e))
  {
    var s' := Next(s, e);
    assert s' == s.(row := s'.row);
  }

  lemma HandlerKeepsLocked(s: State, e: Event)
    requires Locked(s) && GoodIds(s) && Enabled(s, e) && DisciplinedStep(e) && !e.FlushSold? && !e.FlushTail?
    ensures Locked(Next(s, e))
  {
    assert !Free(s.row);
    match e
    case Land(_, _) => assert Next(s, e).row == s.row;
    case Accept(w, _) => assert s.sales == [];
    case Write(w) => assert GoodPostId(s.workers[w].postId);
    case Refuse(_, _) => assert Next(s, e).row.postId == s.row.postId;
    case _ =>
  }

  /** A harmful step can only be a ping-side update, and it locks the lead. */
  lemma HarmLocks(s: State, e: Event)
    requires Inv(s) && GoodIds(s) && Enabled(s, e) && !Harmless(s, e)
    ensures Locked(Next(s, e))
  {
    var s' := Next(s, e);
    assert Tokenless(e) && s'.row != s.row && s'.row.postId == Some(PostIdOf(e.update));
    forall v <- s.workers, w <- s.workers | s.workers[v].Routing? && s.workers[w].Routing? ensures v == w {
      OneHolder(s, v, w);
    }
    forall w <- s.workers | s.workers[w].Routing? ensures s.sales == [] {
      HolderUnsold(s, w);
    }
  }

  lemma SafeStep(s: State, e: Event)
    requires Safe(s) && Enabled(s, e) && DisciplinedStep(e)
    ensures Safe(Next(s, e)) && |Next(s, e).sales| <= 1
  {
    GoodIdsStay(s, e);
    if !Inv(s) {
      LockedStays(s, e);
    } else if Harmless(s, e) {
      StepKeepsInvExactly(s, e);
    } else {
      HarmLocks(s, e);
    }
  }

  lemma {:induction false} SafeRun(s: State, es: seq<Event>)
    requires Safe(s) && ValidRun(s, es) && Disciplined(es)
    ensures Safe(After(s, es)) && |After(s, es).sales| <= 1
    decreases |es|
  {
    if es != [] {
      SafeStep(s, es[0]);
      SafeRun(Next(s, es[0]), es[1..]);
    }
  }

  /* ---------- The safe half: a row that is never free ---------- */

  /** The row shows some post id, nobody has claimed the lead, and no queued update empties the row. */
  ghost predicate Shut(s: State) {
    && !Free(s.row) && s.sales == []
    && (forall w <- s.workers :: s.workers[w].Claiming? || s.workers[w].Done?)
    && (forall u <- s.queue :: u.token.None? && PostIdOf(u) != "")
  }

  lemma {:induction false} ShutRun(s: State, es: seq<Event>)
    requires Shut(s) && ValidRun(s, es) && Disciplined(es)
    ensures After(s, es).sales == []
    decreases |es|
  {
    if es != [] {
      ShutStays(s, es[0]);
      ShutRun(Next(s, es[0]), es[1..]);
    }
  }

  lemma ShutStays(s: State, e: Event)
    requires Shut(s) && Enabled(s, e) && DisciplinedStep(e)
    ensures Shut(Next(s, e))
  {
    match e
    case FlushSold(u) => assert Next(s, e) == s.(row := SoldStatement(s.row, u, s.now));
    case FlushTail(u) => assert Next(s, e) == s.(row := TailStatement(s.row, u));
    case Land(_, _) => assert Next(s, e).row == s.row;
    case _ =>
  }

  /* ---------- The unsafe half: runs that sell twice ---------- */

  /** The run leads from s to t. */
  ghost predicate Leads(s: State, es: seq<Event>, t: State) {
    ValidRun(s, es) && Disciplined(es) && After(s, es) == t
  }

  lemma {:induction false} DisciplinedSnoc(es: seq<Event>, e: Event)
    requires Disciplined(es) && DisciplinedStep(e)
    ensures Disciplined(es + [e])
    decreases |es|
  {
    if es == [] {
      assert es + [e] == [e] && [e][1..] == [];
    } else {
      assert (es + [e])[1..] == es[1..] + [e];
      DisciplinedSnoc(es[1..], e);
    }
  }

  lemma Extend(s: State, es: seq<Event>, t: State, e: Event) returns (es': seq<Event>)
    requires Leads(s, es, t) && Enabled(t, e) && DisciplinedStep(e)
    ensures Leads(s, es', Next(t, e))
  {
    es' := es + [e];
    RunSnoc(s, es, e);
    DisciplinedSnoc(es, e);
  }

  /** A new request with the right promise claims a free lead whose window is open. */
  lemma ClaimsWith(s: State, es: seq<Event>, t: State, w: string, promise: string) returns (es': seq<Event>)
    requires Leads(s, es, t) && Claimable(t, w, promise)
    ensures Leads(s, es', t.(row := t.row.(postId := Some(Token(w))), workers := t.workers[w := Routing]))
  {
    var c := Claim(w, promise);
    es' := Extend(s, es, t, Arrive(w, promise));
    var t1 := Next(t, Arrive(w, promise));
    assert ClaimStatement(t1.row, c, t1.now) != t1.row;
    es' := Extend(s, es', t1, Land(c, true));
    assert t.sent + multiset{c} - multiset{c} == t.sent;
    assert t.workers[w := Claiming(promise, 1)][w := Routing] == t.workers[w := Routing];
  }

  /** After a fresh ping, whatever the promise was before. */
  lemma Claims(s: State, es: seq<Event>, t: State, w: string) returns (es': seq<Event>, t': State)
    requires Leads(s, es, t) && Free(t.row) && !WindowOver(t) && w !in t.workers
    ensures Leads(s, es', t')
    ensures t' == t.(row := t.row.(promise := Some("promise"), postId := Some(Token(w))),
                     workers := t.workers[w := Routing])
  {
    es' := Extend(s, es, t, Reping(Some("promise")));
    t' := Next(t, Reping(Some("promise")));
    es' := ClaimsWith(s, es', t', w, "promise");
    t' := t'.(row := t'.row.(postId := Some(Token(w))), workers := t'.workers[w := Routing]);
  }

  /** The claimant sells it. */
  lemma Sell(s: State, es: seq<Event>, t: State, w: string) returns (es': seq<Event>, t': State)
    requires Leads(s, es, t) && Free(t.row) && !WindowOver(t) && w !in t.workers
    ensures Leads(s, es', t')
    ensures t'.sales == t.sales + [Sale(w, "sold")] && t'.queue == t.queue && !WindowOver(t')
    ensures t'.workers == t.workers[w := Accepted("sold")]
  {
    es', t' := Claims(s, es, t, w);
    es' := Extend(s, es', t', Accept(w, "sold"));
    t' := Next(t', Accept(w, "sold"));
    assert t.workers[w := Routing][w := Accepted("sold")] == t.workers[w := Accepted("sold")];
  }

  /** Without draining: any queued ping-side update without a post id lets the lead sell twice while its window is
      open, whatever the row shows. */
  lemma LatePingSellsTwice(s: State, u: LeadUpdate) returns (es: seq<Event>)
    requires Init(s) && !WindowOver(s) && u in s.queue && PostIdOf(u) == ""
    ensures ValidRun(s, es) && Disciplined(es) && |After(s, es).sales| == 2
  {
    es := Extend(s, [], s, FlushTail(u));
    var t := Next(s, FlushTail(u));
    es, t := Sell(s, es, t, "v");
    es := Extend(s, es, t, FlushTail(u));
    t := Next(t, FlushTail(u));
    es, t := Sell(s, es, t, "w");
  }

  /** A ping-side update whose post id looks like a token does the same to a free lead: the release of the worker
      with that token frees the lead once more. */
  lemma TokenPingSellsTwice(s: State, u: LeadUpdate) returns (es: seq<Event>)
    requires Init(s) && !WindowOver(s) && Free(s.row) && u in s.queue && TokenLike(PostIdOf(u))
    ensures ValidRun(s, es) && Disciplined(es) && |After(s, es).sales| == 2
  {
    var x := PostIdOf(u)[7..];
    assert PostIdOf(u) == Token(x);
    var release := ReleaseUpdate(x, Error);
    var t;
    es, t := Claims(s, [], s, x);
    es := Extend(s, es, t, Refuse(x, None));
    t := Next(t, Refuse(x, None));
    es := Extend(s, es, t, Release(x, Error));
    t := Next(t, Release(x, Error));
    es := Extend(s, es, t, FlushTail(release));
    t := Next(t, FlushTail(release));
    es, t := Sell(s, es, t, x + "v");
    es := Extend(s, es, t, FlushTail(u));
    t := Next(t, FlushTail(u));
    es := Extend(s, es, t, FlushTail(release));
    t := Next(t, FlushTail(release));
    assert (x + "v")[|x|] != (x + "w")[|x|];
    es, t := Sell(s, es, t, x + "w");
  }

  /* ---------- Which answers of a buyer are safe ---------- */

  /** With the ping's updates drained, a buyer's answer ends the sale exactly if the window is over or the post id is
      neither empty, nor the seller's token, nor the token of an update still queued. */
  lemma AnswerEndsSaleExactly(s: State, v: string, pid: string)
    requires Inv(s) && In(s, v, Routing) && forall u <- s.queue :: u.token.Some?
    ensures SellsAtMostOnce(Next(s, Accept(v, pid))) <==>
      WindowOver(s) || (pid != "" && pid != Token(v) && forall u <- s.queue :: u.token != Some(pid))
  {
    HolderUnsold(s, v);
    var t := Next(s, Accept(v, pid));
    if WindowOver(s) || (pid != "" && pid != Token(v) && forall u <- s.queue :: u.token != Some(pid)) {
      AcceptSettles(s, v, pid);
      forall es | ValidRun(t, es) && Disciplined(es) ensures |After(t, es).sales| <= 1 {
        SettledRun(t, v, pid, es);
      }
    } else {
      var es := BadAnswerSellsTwice(s, v, pid);
    }
  }

  /** The lead is sold, and it stays so: nobody routes it, and its row is never free within the window. */
  ghost predicate Settled(s: State, v: string, pid: string) {
    && |s.sales| == 1
    && (forall w <- s.workers :: !s.workers[w].Routing?)
    && (WindowOver(s) || Kept(s, v, pid))
  }

  /** The row shows the seller's token or the answered post id, and no queued update matches what it shows. */
  ghost predicate Kept(s: State, v: string, pid: string) {
    pid != "" && pid != Token(v) && SellerKept(s, v, pid) && QueueKept(s, v, pid)
  }

  ghost predicate SellerKept(s: State, v: string, pid: string) {
    && v in s.workers
    && (s.row.postId == Some(Token(v)) || s.row.postId == Some(pid))
    && (forall w <- s.workers | w != v :: s.workers[w].Claiming? || s.workers[w].Done?)
    && (s.workers[v] == Accepted(pid) || s.workers[v] == Written(pid) || s.workers[v] == Done)
    && (s.workers[v].Written? ==> s.row.postId == Some(pid))
  }

  ghost predicate QueueKept(s: State, v: string, pid: string) {
    && (forall u <- s.queue :: u.token.Some? && u.token != Some(pid))
    && (s.row.postId != Some(pid) ==> forall u <- s.queue :: u.token != Some(Token(v)))
  }

  lemma AcceptSettles(s: State, v: string, pid: string)
    requires Inv(s) && In(s, v, Routing) && s.sales == [] && forall u <- s.queue :: u.token.Some?
    requires WindowOver(s) || (pid != "" && pid != Token(v) && forall u <- s.queue :: u.token != Some(pid))
    ensures Settled(Next(s, Accept(v, pid)), v, pid)
  {
    forall w <- s.workers | s.workers[w].Live() ensures w == v { OneHolder(s, v, w); }
    forall u <- s.queue ensures u.token != Some(Token(v)) { LiveTokenNotQueued(s, v, u); }
  }

  lemma SettledStays(s: State, v: string, pid: string, e: Event)
    requires Settled(s, v, pid) && Enabled(s, e) && DisciplinedStep(e)
    ensures Settled(Next(s, e), v, pid)
  {
    if WindowOver(s) {
      StepAfterWindow(s, e);
      NobodyRoutesLate(s, e);
    } else {
      KeptStays(s, v, pid, e);
    }
  }

  lemma NobodyRoutesLate(s: State, e: Event)
    requires WindowOver(s) && (forall w <- s.workers :: !s.workers[w].Routing?) && Enabled(s, e)
    ensures Next(s, e).sales == s.sales && forall w <- Next(s, e).workers :: !Next(s, e).workers[w].Routing?
  {
    match e
    case Land(c, _) => assert ClaimStatement(s.row, c, s.now) == s.row;
    case _ =>
  }

  lemma KeptStays(s: State, v: string, pid: string, e: Event)
    requires Kept(s, v, pid) && Enabled(s, e) && DisciplinedStep(e)
    ensures Kept(Next(s, e), v, pid) && Next(s, e).sales == s.sales
  {
    if e.FlushSold? || e.FlushTail? {
      FlushKeepsKept(s, v, pid, e);
    } else {
      HandlerKeepsKept(s, v, pid, e);
    }
  }

  lemma FlushKeepsKept(s: State, v: string, pid: string, e: Event)
    requires Kept(s, v, pid) && Enabled(s, e) && (e.FlushSold? || e.FlushTail?)
    ensures Next(s, e) == s
  {
    assert e.update.token.Some? && e.update.token != s.row.postId;
  }

  lemma HandlerKeepsKept(s: State, v: string, pid: string, e: Event)
    requires Kept(s, v, pid) && Enabled(s, e) && DisciplinedStep(e) && !e.FlushSold? && !e.FlushTail?
    ensures Kept(Next(s, e), v, pid) && Next(s, e).sales == s.sales
  {
    TokenIsTokenLike(v);
    assert !Free(s.row);
    SellerStaysKept(s, v, pid, e);
    QueueStaysKept(s, v, pid, e);
  }

  lemma SellerStaysKept(s: State, v: string, pid: string, e: Event)
    requires SellerKept(s, v, pid) && !Free(s.row) && Enabled(s, e) && !e.FlushSold? && !e.FlushTail?
    ensures SellerKept(Next(s, e), v, pid) && Next(s, e).sales == s.sales
    ensures Next(s, e).row.postId == if e.Write? then Some(pid) else s.row.postId
  {
    match e
    case Arrive(_, _) =>
    case Retry(_) =>
    case Land(_, _) => assert Next(s, e).row == s.row;
    case Fail(_) =>
    case Write(w) => assert w == v;
    case Finalise(w) => assert w == v;
    case _ =>
  }

  lemma QueueStaysKept(s: State, v: string, pid: string, e: Event)
    requires Kept(s, v, pid) && !Free(s.row) && Enabled(s, e) && DisciplinedStep(e)
    requires !e.FlushSold? && !e.FlushTail?
    requires Next(s, e).row.postId == if e.Write? then Some(pid) else s.row.postId
    ensures QueueKept(Next(s, e), v, pid)
  {
    if e.Finalise? {
      TokenInjective(e.worker, v);
    }
  }

  lemma {:induction false} SettledRun(s: State, v: string, pid: string, es: seq<Event>)
    requires Settled(s, v, pid) && ValidRun(s, es) && Disciplined(es)
    ensures |After(s, es).sales| == 1
    decreases |es|
  {
    if es != [] {
      SettledStays(s, v, pid, es[0]);
      SettledRun(Next(s, es[0]), v, pid, es[1..]);
    }
  }

  lemma BadAnswerSellsTwice(s: State, v: string, pid: string) returns (es: seq<Event>)
    requires Inv(s) && In(s, v, Routing) && !WindowOver(s) && s.sales == []
    requires pid == "" || pid == Token(v) || exists u <- s.queue :: u.token == Some(pid)
    ensures var t := Next(s, Accept(v, pid)); ValidRun(t, es) && Disciplined(es) && |After(t, es).sales| == 2
  {
    var t0 := Next(s, Accept(v, pid));
    es := Extend(t0, [], t0, Write(v));
    var t := Next(t0, Write(v));
    if pid == Token(v) {
      es := Extend(t0, es, t, Finalise(v));
      t := Next(t, Finalise(v));
      es := Extend(t0, es, t, FlushTail(FinaliseUpdate(v, pid)));
      t := Next(t, FlushTail(FinaliseUpdate(v, pid)));
    } else if pid != "" {
      var u :| u in s.queue && u.token == Some(pid);
      es := Extend(t0, es, t, FlushTail(u));
      t := Next(t, FlushTail(u));
    }
    var w := FreshName(t.workers.Keys);
    es, t := Sell(t0, es, t, w);
  }

  lemma FreshName(names: set<string>) returns (name: string)
    ensures name !in names
  {
    var n := LongerThanAll(names);
    name := seq(n, i => 'x');
  }

  lemma {:induction false} LongerThanAll(names: set<string>) returns (n: nat)
    ensures forall x <- names :: |x| < n
    decreases names
  {
    n := 0;
    if names != {} {
      var x :| x in names;
      n := LongerThanAll(names - {x});
      n := if |x| < n then n else |x| + 1;
    }
  }
}
