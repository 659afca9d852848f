/** On what terms a worker comes to hold a lead: its own claim, the promise that it arrived with, and at most four
    tries. */
module ClaimTerms {
  import opened Prelude
  import opened PostClaim

  /** The row can be taken with this promise now: nobody's post id is in it, the promise is its own, and it is at most
      ten minutes old. */
  predicate Takeable(row: Row, promise: string, now: int) {
    && (row.postId.None? || row.postId.value == "")
    && row.promise.Some? && row.promise.value == promise
    && now - row.createdAt <= 600_000_000
  }

  /** A claim that lands takes a row that is not its worker's already exactly if the row can be taken with the claim's
      promise; nothing but the post id changes then, and nothing at all otherwise.  Its worker, if it hears of it, goes
      on to route or is done accordingly. */
  lemma LandTakesExactly(s: State, c: Claim, acked: bool)
    requires c in s.sent && s.row.postId != Some("INPROG_" + c.worker)
    ensures var t := Next(s, Land(c, acked));
      && (t.row.postId == Some("INPROG_" + c.worker) <==> Takeable(s.row, c.promise, s.now))
      && (t.row != s.row <==> Takeable(s.row, c.promise, s.now))
      && t.row.promise == s.row.promise && t.row.createdAt == s.row.createdAt
      && t.row.status == s.row.status && t.row.soldAt == s.row.soldAt
      && (acked && c.worker in s.workers && s.workers[c.worker].Claiming? ==>
            t.workers[c.worker] == if Takeable(s.row, c.promise, s.now) then Routing else Done)
  {
  }

  /* ---------- Over runs ---------- */

  /** The worker has nothing yet: it has not arrived, waits for its claim with promise p, or is done; it has sold
      nothing, and all its claims carry p. */
  ghost predicate Asking(s: State, w: string, p: string) {
    && (w in s.workers ==> s.workers[w].Done? || (s.workers[w].Claiming? && s.workers[w].promise == p))
    && (forall c <- s.sent | c.worker == w :: c.promise == p)
    && (forall i | 0 <= i < |s.sales| :: s.sales[i].worker != w)
  }

  predicate ArrivesOnlyWith(es: seq<Event>, w: string, p: string) {
    forall i | 0 <= i < |es| && es[i].Arrive? && es[i].worker == w :: es[i].promise == p
  }

  /** At some point of the run a claim of w with promise p lands while the row can be taken with p. */
  predicate ClaimedDuring(s: State, es: seq<Event>, w: string, p: string)
    requires ValidRun(s, es)
    decreases |es|
  {
    es != [] && ((es[0] == Land(Claim(w, p), true) && Takeable(s.row, p, s.now))
                 || ClaimedDuring(Next(s, es[0]), es[1..], w, p))
  }

  lemma AskingStays(s: State, e: Event, w: string, p: string)
    requires Asking(s, w, p) && Enabled(s, e) && (e.Arrive? && e.worker == w ==> e.promise == p)
    requires !(e == Land(Claim(w, p), true) && Takeable(s.row, p, s.now))
    ensures Asking(Next(s, e), w, p)
  {
    if e.Land? {
      LandKeepsAsking(s, e, w, p);
    } else if e.Arrive? || e.Retry? {
      SendKeepsAsking(s, e, w, p);
    } else {
      OtherKeepsAsking(s, e, w, p);
    }
  }

  lemma LandKeepsAsking(s: State, e: Event, w: string, p: string)
    requires Asking(s, w, p) && Enabled(s, e) && e.Land?
    requires !(e == Land(Claim(w, p), true) && Takeable(s.row, p, s.now))
    ensures Asking(Next(s, e), w, p)
  {
    var t := Next(s, e);
    assert t.sales == s.sales && t.sent <= s.sent;
    if e.claim.worker == w {
      assert e.claim == Claim(w, p);
      assert !e.acked || t.row == s.row;
    }
  }

  lemma SendKeepsAsking(s: State, e: Event, w: string, p: string)
    requires Asking(s, w, p) && Enabled(s, e) && (e.Arrive? || e.Retry?)
    requires e.Arrive? && e.worker == w ==> e.promise == p
    ensures Asking(Next(s, e), w, p)
  {
    var t := Next(s, e);
    assert t.sales == s.sales;
    forall c <- t.sent | c.worker == w ensures c.promise == p {
      if c !in s.sent {
        assert e.worker == w;
      }
    }
  }

  lemma OtherKeepsAsking(s: State, e: Event, w: string, p: string)
    requires Asking(s, w, p) && Enabled(s, e) && !e.Land? && !e.Arrive? && !e.Retry?
    ensures Asking(Next(s, e), w, p)
  {
    var t := Next(s, e);
    assert t.sent == s.sent;
    assert e.Accept? ==> e.worker != w;
  }

  /** Unless its own claim lands while the row can be taken with the promise it arrived with, a worker gets nothing. */
  lemma {:induction false} NothingWithoutClaim(s: State, es: seq<Event>, w: string, p: string)
    requires Asking(s, w, p) && ValidRun(s, es) && ArrivesOnlyWith(es, w, p) && !ClaimedDuring(s, es, w, p)
    ensures Asking(After(s, es), w, p)
    decreases |es|
  {
    if es != [] {
      AskingStays(s, es[0], w, p);
      NothingWithoutClaim(Next(s, es[0]), es[1..], w, p);
    }
  }

  /** The worker routes, holds or has sold the lead. */
  predicate Got(s: State, w: string) {
    (w in s.workers && s.workers[w].Live()) || exists i :: 0 <= i < |s.sales| && s.sales[i].worker == w
  }

  lemma {:induction false} ArrivesOnce(s: State, es: seq<Event>, w: string)
    requires ValidRun(s, es) && w in s.workers
    ensures forall i | 0 <= i < |es| && es[i].Arrive? :: es[i].worker != w
    decreases |es|
  {
    if es != [] {
      ArrivesOnce(Next(s, es[0]), es[1..], w);
      assert forall i | 1 <= i < |es| :: es[i] == es[1..][i - 1];
    }
  }

  /** A worker arrives at most once, with one promise. */
  lemma {:induction false} OnePromise(s: State, es: seq<Event>, w: string) returns (p: string)
    requires ValidRun(s, es)
    ensures ArrivesOnlyWith(es, w, p)
    decreases |es|
  {
    if es == [] {
      p := "";
    } else if es[0].Arrive? && es[0].worker == w {
      p := es[0].promise;
      ArrivesOnce(Next(s, es[0]), es[1..], w);
      assert forall i | 1 <= i < |es| :: es[i] == es[1..][i - 1];
    } else {
      p := OnePromise(Next(s, es[0]), es[1..], w);
      assert forall i | 1 <= i < |es| :: es[i] == es[1..][i - 1];
    }
  }

  /** Whoever holds or has sold a lead has had its own claim land, with the one promise that it arrived with, while the
      row could be taken with that promise. */
  lemma HoldersClaimedOnTerms(s: State, es: seq<Event>, w: string) returns (p: string)
    requires Init(s) && ValidRun(s, es) && Got(After(s, es), w)
    ensures ArrivesOnlyWith(es, w, p) && ClaimedDuring(s, es, w, p)
  {
    p := OnePromise(s, es, w);
    if !ClaimedDuring(s, es, w, p) {
      NothingWithoutClaim(s, es, w, p);
    }
  }

  /** The row's promise is p at no point of the run. */
  predicate NeverPromised(s: State, es: seq<Event>, p: string)
    requires ValidRun(s, es)
    decreases |es|
  {
    s.row.promise != Some(p) && (es != [] ==> NeverPromised(Next(s, es[0]), es[1..], p))
  }

  lemma {:induction false} NeverClaimed(s: State, es: seq<Event>, w: string, p: string)
    requires ValidRun(s, es) && NeverPromised(s, es, p)
    ensures !ClaimedDuring(s, es, w, p)
    decreases |es|
  {
    if es != [] {
      NeverClaimed(Next(s, es[0]), es[1..], w, p);
    }
  }

  /** A worker that arrives with a promise that the row never has gets nothing, whatever else happens. */
  lemma WrongPromiseGetsNothing(s: State, es: seq<Event>, w: string, p: string)
    requires Init(s) && ValidRun(s, es) && NeverPromised(s, es, p) && Arrive(w, p) in es
    ensures !Got(After(s, es), w)
  {
    var q := OnePromise(s, es, w);
    var i :| 0 <= i < |es| && es[i] == Arrive(w, p);
    assert q == p;
    NeverClaimed(s, es, w, p);
    NothingWithoutClaim(s, es, w, p);
  }

  /* ---------- Retries ---------- */

  function SendsOf(es: seq<Event>, w: string): nat {
    if es == [] then 0
    else (if (es[0].Arrive? || es[0].Retry?) && es[0].worker == w then 1 else 0) + SendsOf(es[1..], w)
  }

  lemma {:induction false} SendsLeft(s: State, es: seq<Event>, w: string)
    requires ValidRun(s, es)
    ensures SendsOf(es, w) <= if w !in s.workers then 4
                              else if s.workers[w].Claiming? && s.workers[w].tries <= 4 then 4 - s.workers[w].tries
                              else 0
    decreases |es|
  {
    if es != [] {
      SendsLeft(Next(s, es[0]), es[1..], w);
    }
  }

  /** A request sends its claim at most four times. */
  lemma AtMostFourClaims(s: State, es: seq<Event>, w: string)
    requires Init(s) && ValidRun(s, es)
    ensures SendsOf(es, w) <= 4
  {
    SendsLeft(s, es, w);
  }

  /* ---------- What a queued update does to the row ---------- */

  /** Both statements of an update, one right after the other. */
  function Flushed(row: Row, u: LeadUpdate, now: int): Row {
    TailStatement(SoldStatement(row, u, now), u)
  }

  /** A token-less update writes status and post id and, if it gives one, the promise; a sale sets the time of sale as
      well.  An update with a token does nothing unless the row holds it; then a release just empties the post id, and a
      sale is recorded with its post id, which is emptied again if it is the token. */
  lemma UpdateOutcome(row: Row, u: LeadUpdate, now: int)
    ensures var r := Flushed(row, u, now); var sold := u.status == Sold && (u.soldAt || u.winner);
      && r.createdAt == row.createdAt
      && (u.token.None? ==>
            && r.status == u.status && r.postId == Some(if u.postId.Some? then u.postId.value else "")
            && r.promise == (if u.promise.Some? then u.promise else row.promise)
            && r.soldAt == (if sold then Some(now) else row.soldAt))
      && (u.token.Some? && row.postId != u.token ==> r == row)
      && (u.token.Some? && row.postId == u.token && !sold ==> r == row.(postId := Some("")))
      && (u.token.Some? && row.postId == u.token && sold ==>
            && r.status == Sold && r.soldAt == Some(now)
            && r.promise == (if u.promise.Some? then u.promise else row.promise)
            && r.postId == Some(if u.postId == u.token || u.postId.None? then "" else u.postId.value))
  {
  }

  /** Had the row still shown the token, the finalisation would have recorded the sale. */
  lemma FinaliseWouldRecord(row: Row, w: string, pid: string, now: int)
    requires row.postId == Some("INPROG_" + w) && pid != "INPROG_" + w
    ensures var r := Flushed(row, FinaliseUpdate(w, pid), now);
      r.status == Sold && r.soldAt == Some(now) && r.postId == Some(pid) && r.promise == row.promise
  {
    UpdateOutcome(row, FinaliseUpdate(w, pid), now);
  }

  /** A refusal writes the status that the router gives it, if any, and leaves the claim in place. */
  lemma RefusalKeepsClaim(s: State, w: string, st: Option<Status>)
    requires Enabled(s, Refuse(w, st))
    ensures var r := Next(s, Refuse(w, st)).row;
      && r.status == (if st.Some? then st.value else s.row.status)
      && r.postId == s.row.postId && r.promise == s.row.promise && r.soldAt == s.row.soldAt
  {
  }

  /** A release, whenever it lands, changes nothing but the placeholder; in particular the status that it carries is
      never written. */
  lemma ReleaseOnlyEmpties(row: Row, w: string, loaded: Status, now: int)
    ensures Flushed(row, ReleaseUpdate(w, loaded), now)
      == if row.postId == Some("INPROG_" + w) then row.(postId := Some("")) else row
  {
    UpdateOutcome(row, ReleaseUpdate(w, loaded), now);
  }
}
