/** Rule-set handlers that run at the same time: each begins with a look at the table, may run its deactivating
    statement, and ends with its write.  Between its statements those of others may run. */
module RuleSetRaces {
  import opened Prelude
  import opened ConfigTable
  import opened RuleSets

  /** `rivals` are the rule sets that others have activated since this handler deactivated them all, and that nobody
      has deactivated or deleted since; bookkeeping that no branch looks at. */
  datatype Stage = Begun | Deactivated(rivals: set<Uuid>)

  datatype Handler = Handler(q: Request, stage: Stage)

  datatype System = System(rows: Table, handlers: map<nat, Handler>)

  datatype Step =
    | Begin(h: nat, q: Request)
    | Deactivating(h: nat)
    | Writing(h: nat)
    | Abandon(h: nat)

  /* ---------- Statements ---------- */

  predicate WantsActive(q: Request) {
    (q.Create? && q.active == Some(true)) || (q.Update? && q.patch.isActive == Some(true))
  }

  /** The rule set that the deactivating statement spares. */
  function Except(q: Request): Option<Uuid> {
    if q.Update? then Some(q.id) else None
  }

  predicate TurnedAway(rows: Table, q: Request) {
    match q
    case Create(_, exists_, _, _, _, _, _, _, _) => !exists_
    case Update(id, buyer, _, _, _) => !Owned(rows, id, buyer)
    case Delete(_, _, _) => false
  }

  /** The handler's last statement finds something to do. */
  predicate Effective(rows: Table, q: Request) {
    !WritingFault(q).NotApplied? && (q.Create? || Owned(rows, q.id, q.buyer))
  }

  function Written(rows: Table, q: Request): Table {
    if !Effective(rows, q) then rows
    else
      match q
      case Create(id, _, buyer, name, enabled, active, now, _, _) =>
        rows[id := Config(id, buyer, name, enabled.GetOr(true), active.GetOr(false), now)]
      case Update(id, _, patch, _, _) => rows[id := Patched(rows[id], patch)]
      case Delete(id, _, _) => rows - {id}
  }

  /* ---------- Steps ---------- */

  predicate FreshFor(s: System, q: Request) {
    q.Create? ==> q.id !in s.rows && forall g <- s.handlers | s.handlers[g].q.Create? :: s.handlers[g].q.id != q.id
  }

  predicate Enabled(s: System, e: Step) {
    match e
    case Begin(h, q) => h !in s.handlers && FreshFor(s, q)
    case Deactivating(h) => h in s.handlers && s.handlers[h].stage.Begun? && WantsActive(s.handlers[h].q)
    case Writing(h) => h in s.handlers && (WantsActive(s.handlers[h].q) ==> s.handlers[h].stage.Deactivated?)
    case Abandon(h) => h in s.handlers
  }

  /** A deactivating statement for a buyer clears all rivals but the one it spares. */
  function AfterDeactivation(g: Handler, q: Request): Handler {
    if g.stage.Begun? || g.q.buyer != q.buyer then g
    else g.(stage := Deactivated(set id <- g.stage.rivals | Some(id) == Except(q)))
  }

  /** An activating write makes a rival, a deactivating or deleting one removes it. */
  function AfterWrite(g: Handler, q: Request): Handler {
    if g.stage.Begun? || g.q.buyer != q.buyer then g
    else if WantsActive(q) then g.(stage := Deactivated(g.stage.rivals + ({q.id} - {g.q.id})))
    else if q.Delete? || (q.Update? && q.patch.isActive == Some(false)) then
      g.(stage := Deactivated(g.stage.rivals - {q.id}))
    else g
  }

  function Next(s: System, e: Step): System
    requires Enabled(s, e)
  {
    match e
    case Begin(h, q) => if TurnedAway(s.rows, q) then s else s.(handlers := s.handlers[h := Handler(q, Begun)])
    case Deactivating(h) =>
      var q := s.handlers[h].q;
      var rows' := Under(q.deactivating, s.rows, Deactivate(s.rows, q.buyer, Except(q)));
      var others := s.handlers - {h};
      var noted := if q.deactivating.NotApplied? then others else map g <- others :: AfterDeactivation(others[g], q);
      System(rows', if q.deactivating.NoFault? then noted[h := Handler(q, Deactivated({}))] else noted)
    case Writing(h) =>
      var q := s.handlers[h].q;
      var others := s.handlers - {h};
      System(Written(s.rows, q), if Effective(s.rows, q) then map g <- others :: AfterWrite(others[g], q) else others)
    case Abandon(h) => s.(handlers := s.handlers - {h})
  }

  predicate ValidRun(s: System, es: seq<Step>)
    decreases |es|
  {
    es == [] || (Enabled(s, es[0]) && ValidRun(Next(s, es[0]), es[1..]))
  }

  function After(s: System, es: seq<Step>): System
    requires ValidRun(s, es)
    decreases |es|
  {
    if es == [] then s else After(Next(s, es[0]), es[1..])
  }

  /** A handler that nobody interrupts does what the handler of a single request does. */
  lemma AloneIsHandle(rows: Table, h: nat, q: Request)
    requires Admissible(rows, q)
    ensures var s0 := System(rows, map[]);
      var s1 := Next(s0, Begin(h, q));
      var s2 := if Enabled(s1, Deactivating(h)) then Next(s1, Deactivating(h)) else s1;
      var s3 := if Enabled(s2, Writing(h)) then Next(s2, Writing(h)) else s2;
      s3 == System(Handle(rows, q).1, map[])
  {
  }

  /* ---------- When the invariant is kept ---------- */

  /** The active rule sets of a handler's buyer other than its own. */
  function Others(rows: Table, q: Request): set<Uuid> {
    ActiveOf(rows, q.buyer) - {q.id}
  }

  /** The rivals noted are just those. */
  predicate Noted(rows: Table, g: Handler) {
    g.stage.Deactivated? ==> g.stage.rivals == Others(rows, g.q)
  }

  /** The ids being created are not in the table, and all different. */
  predicate FreshIds(s: System) {
    && (forall h <- s.handlers | s.handlers[h].q.Create? :: s.handlers[h].q.id !in s.rows)
    && (forall g <- s.handlers, h <- s.handlers | s.handlers[g].q.Create? && s.handlers[h].q.Create? && g != h ::
          s.handlers[g].q.id != s.handlers[h].q.id)
  }

  predicate Inv(s: System) {
    FreshIds(s) && forall h <- s.handlers :: Noted(s.rows, s.handlers[h])
  }

  lemma DeactivationNoted(rows: Table, g: Handler, q: Request)
    requires Noted(rows, g)
    ensures Noted(Deactivate(rows, q.buyer, Except(q)), AfterDeactivation(g, q))
  {
    var rows' := Deactivate(rows, q.buyer, Except(q));
    if g.stage.Deactivated? {
      assert forall id <- rows :: rows'[id].buyerId == rows[id].buyerId;
      assert AfterDeactivation(g, q).stage.rivals == Others(rows', g.q);
    }
  }

  /** Right after its own deactivation a handler has no rivals. */
  lemma OwnDeactivationNoted(rows: Table, q: Request)
    ensures Others(Deactivate(rows, q.buyer, Except(q)), q) == {}
  {
  }

  lemma WriteNoted(rows: Table, g: Handler, q: Request)
    requires Noted(rows, g) && Effective(rows, q) && (q.Create? ==> q.id !in rows)
    ensures Noted(Written(rows, q), AfterWrite(g, q))
  {
    var rows' := Written(rows, q);
    if g.stage.Deactivated? {
      assert forall id | id != q.id :: id in rows' <==> id in rows;
      assert forall id <- rows' | id != q.id :: rows'[id] == rows[id];
      assert q.id in rows' ==> rows'[q.id].buyerId == q.buyer;
      assert AfterWrite(g, q).stage.rivals == Others(rows', g.q);
    }
  }

  lemma DeactivatingKeepsInv(s: System, e: Step)
    requires Inv(s) && Enabled(s, e) && e.Deactivating?
    ensures Inv(Next(s, e))
  {
    var q, s' := s.handlers[e.h].q, Next(s, e);
    assert s'.rows.Keys == s.rows.Keys;
    forall h <- s'.handlers ensures Noted(s'.rows, s'.handlers[h]) {
      if h == e.h {
        OwnDeactivationNoted(s.rows, q);
      } else if !q.deactivating.NotApplied? {
        DeactivationNoted(s.rows, s.handlers[h], q);
      }
    }
    SameRequests(s, s');
  }

  lemma WritingKeepsInv(s: System, e: Step)
    requires Inv(s) && Enabled(s, e) && e.Writing?
    ensures Inv(Next(s, e))
  {
    var q, s' := s.handlers[e.h].q, Next(s, e);
    forall h <- s'.handlers ensures Noted(s'.rows, s'.handlers[h]) {
      if Effective(s.rows, q) {
        WriteNoted(s.rows, s.handlers[h], q);
      }
    }
    SameRequests(s, s'.(rows := s.rows));
    forall h <- s'.handlers | s'.handlers[h].q.Create? ensures s'.handlers[h].q.id !in s'.rows {
      assert s'.handlers[h].q == s.handlers[h].q;
    }
  }

  lemma SameRequests(s: System, s': System)
    requires FreshIds(s) && s'.rows.Keys <= s.rows.Keys && s'.handlers.Keys <= s.handlers.Keys
    requires forall h <- s'.handlers :: s'.handlers[h].q == s.handlers[h].q
    ensures FreshIds(s')
  {
  }

  lemma StepKeepsInv(s: System, e: Step)
    requires Inv(s) && Enabled(s, e)
    ensures Inv(Next(s, e))
  {
    match e
    case Begin(_, _) =>
    case Deactivating(_) => DeactivatingKeepsInv(s, e);
    case Writing(_) => WritingKeepsInv(s, e);
    case Abandon(_) =>
  }

  /** No activating write that takes effect finds a rival. */
  predicate Unrivalled(s: System, e: Step)
    requires Enabled(s, e)
  {
    e.Writing? && WantsActive(s.handlers[e.h].q) && Effective(s.rows, s.handlers[e.h].q) ==>
      s.handlers[e.h].stage.rivals == {}
  }

  lemma StepKeepsOneActiveExactly(s: System, e: Step)
    requires Inv(s) && OneActive(s.rows) && Enabled(s, e)
    ensures OneActive(Next(s, e).rows) <==> Unrivalled(s, e)
  {
    if e.Writing? {
      assert Noted(s.rows, s.handlers[e.h]);
      WriteKeepsOneActiveExactly(s.rows, s.handlers[e.h].q);
    }
  }

  /** A write keeps the invariant exactly if it does not activate, finds nothing to do, or has no other active rule
      set beside it. */
  lemma WriteKeepsOneActiveExactly(rows: Table, q: Request)
    requires OneActive(rows) && (q.Create? ==> q.id !in rows)
    ensures OneActive(Written(rows, q)) <==> (WantsActive(q) && Effective(rows, q) ==> Others(rows, q) == {})
  {
    var rows' := Written(rows, q);
    assert forall id <- rows' | id != q.id :: id in rows && rows'[id] == rows[id];
    if WantsActive(q) && Effective(rows, q) {
      assert rows'[q.id].isActive && rows'[q.id].buyerId == q.buyer;
      if r :| r in Others(rows, q) {
        assert r in rows' && rows'[r] == rows[r];
      } else {
        forall a <- rows' | a != q.id && rows'[a].buyerId == q.buyer ensures !rows'[a].isActive {
          assert a !in Others(rows, q);
        }
      }
    }
  }

  predicate AlwaysOneActive(s: System, es: seq<Step>)
    requires ValidRun(s, es)
    decreases |es|
  {
    OneActive(s.rows) && (es == [] || AlwaysOneActive(Next(s, es[0]), es[1..]))
  }

  predicate NeverRivalled(s: System, es: seq<Step>)
    requires ValidRun(s, es)
    decreases |es|
  {
    es == [] || (Unrivalled(s, es[0]) && NeverRivalled(Next(s, es[0]), es[1..]))
  }

  /** Over any run of any number of handlers, each buyer has at most one active rule set at every moment exactly if no
      activating write finds a rival: a rule set that another handler activated after this one's deactivation and that
      is still active. */
  lemma {:induction false} OneActiveExactly(s: System, es: seq<Step>)
    requires Inv(s) && OneActive(s.rows) && ValidRun(s, es)
    ensures AlwaysOneActive(s, es) <==> NeverRivalled(s, es)
    decreases |es|
  {
    if es != [] {
      StepKeepsInv(s, es[0]);
      StepKeepsOneActiveExactly(s, es[0]);
      if OneActive(Next(s, es[0]).rows) {
        OneActiveExactly(Next(s, es[0]), es[1..]);
      }
    }
  }

  /* ---------- What rivals are ---------- */

  /** A rival appears only by another handler's activating write for the same buyer. */
  lemma RivalsComeFromWrites(s: System, e: Step, h: nat, r: Uuid)
    requires Enabled(s, e) && h in s.handlers && h in Next(s, e).handlers
    requires s.handlers[h].stage.Deactivated? && Next(s, e).handlers[h].stage.Deactivated?
    requires r !in s.handlers[h].stage.rivals && r in Next(s, e).handlers[h].stage.rivals
    ensures e.Writing? && e.h != h
    ensures var q := s.handlers[e.h].q;
      WantsActive(q) && Effective(s.rows, q) && q.buyer == s.handlers[h].q.buyer && q.id == r
  {
  }

  /** It may disappear again, so a foreign write in between need not break anything: here a delete undoes it. */
  lemma RivalUndone(s: System, h: nat, g: nat)
    requires Inv(s) && h in s.handlers && g in s.handlers && g != h
    requires s.handlers[h].stage == Deactivated({s.handlers[g].q.id})
    requires s.handlers[g].q.Delete? && s.handlers[g].q.buyer == s.handlers[h].q.buyer
    requires Effective(s.rows, s.handlers[g].q)
    ensures Next(s, Writing(g)).handlers[h].stage == Deactivated({})
  {
  }

  /** No activating write takes effect while another handler of the same buyer stands between its own deactivation and
      its own write. */
  predicate Exclusive(s: System, es: seq<Step>)
    requires ValidRun(s, es)
    decreases |es|
  {
    es == [] || (ExclusiveStep(s, es[0]) && Exclusive(Next(s, es[0]), es[1..]))
  }

  predicate ExclusiveStep(s: System, e: Step)
    requires Enabled(s, e)
  {
    e.Writing? && WantsActive(s.handlers[e.h].q) && Effective(s.rows, s.handlers[e.h].q) ==>
      forall g <- s.handlers | g != e.h && s.handlers[g].q.buyer == s.handlers[e.h].q.buyer ::
        s.handlers[g].stage.Begun?
  }

  predicate NoRivals(s: System) {
    forall h <- s.handlers | s.handlers[h].stage.Deactivated? :: s.handlers[h].stage.rivals == {}
  }

  lemma NoRivalsStay(s: System, e: Step)
    requires NoRivals(s) && Enabled(s, e) && ExclusiveStep(s, e)
    ensures NoRivals(Next(s, e)) && Unrivalled(s, e)
  {
  }

  /** Then each buyer has at most one active rule set throughout, however the handlers otherwise interleave, fail or
      vanish. */
  lemma {:induction false} ExclusiveKeepsOneActive(s: System, es: seq<Step>)
    requires Inv(s) && NoRivals(s) && OneActive(s.rows) && ValidRun(s, es) && Exclusive(s, es)
    ensures AlwaysOneActive(s, es)
    decreases |es|
  {
    if es != [] {
      NoRivalsStay(s, es[0]);
      StepKeepsInv(s, es[0]);
      StepKeepsOneActiveExactly(s, es[0]);
      ExclusiveKeepsOneActive(Next(s, es[0]), es[1..]);
    }
  }

  /* ---------- Two activations ---------- */

  /** Two handlers have begun to activate different rule sets of a buyer, and nothing will fail. */
  predicate TwoBegun(s: System, i: nat, j: nat) {
    && i != j && s.handlers.Keys == {i, j}
    && Faultless(s.rows, s.handlers[i]) && Faultless(s.rows, s.handlers[j])
    && s.handlers[i].q.buyer == s.handlers[j].q.buyer && s.handlers[i].q.id != s.handlers[j].q.id
  }

  predicate Faultless(rows: Table, h: Handler) {
    && h.stage == Begun && WantsActive(h.q) && h.q.deactivating.NoFault? && WritingFault(h.q).NoFault?
    && (h.q.Update? ==> Owned(rows, h.q.id, h.q.buyer))
  }

  function Serial(i: nat, j: nat): seq<Step> { [Deactivating(i), Writing(i), Deactivating(j), Writing(j)] }

  /** i writes first, but both deactivate before. */
  predicate Overlapping(es: seq<Step>, i: nat, j: nat) {
    || es == [Deactivating(i), Deactivating(j), Writing(i), Writing(j)]
    || es == [Deactivating(j), Deactivating(i), Writing(i), Writing(j)]
  }

  /** The six orders in which their statements can run. */
  predicate Schedule(es: seq<Step>, i: nat, j: nat) {
    es == Serial(i, j) || es == Serial(j, i) || Overlapping(es, i, j) || Overlapping(es, j, i)
  }

  lemma FourSteps(s: System, a: Step, b: Step, c: Step, d: Step)
    requires Enabled(s, a) && Enabled(Next(s, a), b) && Enabled(Next(Next(s, a), b), c)
    requires Enabled(Next(Next(Next(s, a), b), c), d)
    ensures ValidRun(s, [a, b, c, d]) && After(s, [a, b, c, d]) == Next(Next(Next(Next(s, a), b), c), d)
  {
    assert [a, b, c, d][1..] == [b, c, d] && [b, c, d][1..] == [c, d] && [c, d][1..] == [d] && [d][1..] == [];
    var s1 := Next(s, a);
    var s2 := Next(s1, b);
    var s3 := Next(s2, c);
    var s4 := Next(s3, d);
    assert ValidRun(s4, []) && After(s4, []) == s4;
    assert ValidRun(s3, [d]) && After(s3, [d]) == After(s4, [d][1..]);
    assert ValidRun(s2, [c, d]) && After(s2, [c, d]) == After(s3, [d]);
    assert ValidRun(s1, [b, c, d]) && After(s1, [b, c, d]) == After(s2, [c, d]);
  }

  /** A deactivation makes its own handler ready to write and leaves the other as it is, but for its rivals. */
  lemma DeactivatesOne(s: System, h: nat, g: nat)
    requires Enabled(s, Deactivating(h)) && s.handlers.Keys == {h, g} && h != g
    requires s.handlers[h].q.deactivating.NoFault?
    ensures var t := Next(s, Deactivating(h));
      && t.handlers.Keys == {h, g} && t.handlers[h] == Handler(s.handlers[h].q, Deactivated({}))
      && t.handlers[g] == AfterDeactivation(s.handlers[g], s.handlers[h].q)
      && t.rows.Keys == s.rows.Keys && forall id <- t.rows :: t.rows[id].buyerId == s.rows[id].buyerId
  {
  }

  lemma DeactivationKeeps(s: System, h: nat)
    requires Inv(s) && OneActive(s.rows) && Enabled(s, Deactivating(h))
    ensures Inv(Next(s, Deactivating(h))) && OneActive(Next(s, Deactivating(h)).rows)
  {
    StepKeepsInv(s, Deactivating(h));
    StepKeepsOneActiveExactly(s, Deactivating(h));
  }

  lemma WritesOne(s: System, h: nat, g: nat)
    requires Enabled(s, Writing(h)) && s.handlers.Keys == {h, g} && h != g
    requires WantsActive(s.handlers[h].q) && Effective(s.rows, s.handlers[h].q) && FreshIds(s)
    ensures var t := Next(s, Writing(h));
      && t.handlers.Keys == {g} && t.handlers[g] == AfterWrite(s.handlers[g], s.handlers[h].q)
      && s.rows.Keys <= t.rows.Keys && forall id <- s.rows :: t.rows[id].buyerId == s.rows[id].buyerId
  {
  }

  /** The first of two serial activations leaves the other one ready to begin. */
  lemma FirstActivationKeeps(s: System, i: nat, j: nat)
    requires Inv(s) && OneActive(s.rows) && TwoBegun(s, i, j)
    ensures Enabled(Next(s, Deactivating(i)), Writing(i))
    ensures var t := Next(Next(s, Deactivating(i)), Writing(i));
      Inv(t) && OneActive(t.rows) && t.handlers.Keys == {j} && Faultless(t.rows, t.handlers[j])
  {
    DeactivatesOne(s, i, j);
    DeactivationKeeps(s, i);
    var s1 := Next(s, Deactivating(i));
    WritesOne(s1, i, j);
    StepKeepsInv(s1, Writing(i));
    StepKeepsOneActiveExactly(s1, Writing(i));
  }

  lemma LastActivationKeeps(s: System, j: nat)
    requires Inv(s) && OneActive(s.rows) && s.handlers.Keys == {j} && Faultless(s.rows, s.handlers[j])
    ensures Enabled(s, Deactivating(j)) && Enabled(Next(s, Deactivating(j)), Writing(j))
    ensures OneActive(Next(Next(s, Deactivating(j)), Writing(j)).rows)
  {
    DeactivationKeeps(s, j);
    StepKeepsOneActiveExactly(Next(s, Deactivating(j)), Writing(j));
  }

  lemma SerialKeeps(s: System, i: nat, j: nat)
    requires Inv(s) && OneActive(s.rows) && TwoBegun(s, i, j)
    ensures ValidRun(s, Serial(i, j)) && OneActive(After(s, Serial(i, j)).rows)
  {
    FirstActivationKeeps(s, i, j);
    LastActivationKeeps(Next(Next(s, Deactivating(i)), Writing(i)), j);
    FourSteps(s, Deactivating(i), Writing(i), Deactivating(j), Writing(j));
  }

  /** Both have deactivated and i writes: then j finds a rival. */
  lemma LaterWriterBreaks(s: System, i: nat, j: nat)
    requires Inv(s) && OneActive(s.rows) && i != j && s.handlers.Keys == {i, j}
    requires forall h <- s.handlers :: s.handlers[h].stage == Deactivated({})
    requires forall h <- s.handlers :: WantsActive(s.handlers[h].q) && Effective(s.rows, s.handlers[h].q)
    requires s.handlers[i].q.buyer == s.handlers[j].q.buyer && s.handlers[i].q.id != s.handlers[j].q.id
    ensures Enabled(Next(s, Writing(i)), Writing(j)) && !OneActive(Next(Next(s, Writing(i)), Writing(j)).rows)
  {
    WritesOne(s, i, j);
    var t := Next(s, Writing(i));
    StepKeepsInv(s, Writing(i));
    StepKeepsOneActiveExactly(s, Writing(i));
    assert s.handlers[i].q.id in t.handlers[j].stage.rivals;
    StepKeepsOneActiveExactly(t, Writing(j));
  }

  lemma BothDeactivate(s: System, a: nat, b: nat)
    requires Inv(s) && OneActive(s.rows) && TwoBegun(s, a, b)
    ensures Enabled(s, Deactivating(a)) && Enabled(Next(s, Deactivating(a)), Deactivating(b))
    ensures var t := Next(Next(s, Deactivating(a)), Deactivating(b));
      && Inv(t) && OneActive(t.rows) && t.handlers.Keys == {a, b}
      && t.handlers[a] == Handler(s.handlers[a].q, Deactivated({})) && Effective(t.rows, s.handlers[a].q)
      && t.handlers[b] == Handler(s.handlers[b].q, Deactivated({})) && Effective(t.rows, s.handlers[b].q)
  {
    DeactivatesOne(s, a, b);
    var s1 := Next(s, Deactivating(a));
    DeactivationKeeps(s, a);
    DeactivatesOne(s1, b, a);
    DeactivationKeeps(s1, b);
    assert AfterDeactivation(s1.handlers[a], s.handlers[b].q).stage.rivals == {};
  }

  /** The handlers deactivate in the order a, b and write in the order i, j. */
  lemma OverlapBreaks(s: System, a: nat, b: nat, i: nat, j: nat)
    requires Inv(s) && OneActive(s.rows) && TwoBegun(s, a, b) && (i, j) in {(a, b), (b, a)}
    ensures var es := [Deactivating(a), Deactivating(b), Writing(i), Writing(j)];
      ValidRun(s, es) && !OneActive(After(s, es).rows)
  {
    BothDeactivate(s, a, b);
    LaterWriterBreaks(Next(Next(s, Deactivating(a)), Deactivating(b)), i, j);
    FourSteps(s, Deactivating(a), Deactivating(b), Writing(i), Writing(j));
  }

  lemma OverlappingBreaks(s: System, i: nat, j: nat, es: seq<Step>)
    requires Inv(s) && OneActive(s.rows) && TwoBegun(s, i, j) && Overlapping(es, i, j)
    ensures ValidRun(s, es) && !OneActive(After(s, es).rows)
  {
    if es[0] == Deactivating(i) {
      OverlapBreaks(s, i, j, i, j);
    } else {
      OverlapBreaks(s, j, i, i, j);
    }
  }

  /** Two activations of different rule sets of a buyer leave one active exactly if one runs wholly before the
      other. */
  lemma TwoActivationsExactly(s: System, i: nat, j: nat, es: seq<Step>)
    requires Inv(s) && OneActive(s.rows) && TwoBegun(s, i, j) && Schedule(es, i, j)
    ensures ValidRun(s, es) && (OneActive(After(s, es).rows) <==> es == Serial(i, j) || es == Serial(j, i))
  {
    if es == Serial(i, j) {
      SerialKeeps(s, i, j);
    } else if es == Serial(j, i) {
      SerialKeeps(s, j, i);
    } else if Overlapping(es, i, j) {
      OverlappingBreaks(s, i, j, es);
    } else {
      OverlappingBreaks(s, j, i, es);
    }
  }
}
