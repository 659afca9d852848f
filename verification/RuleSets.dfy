/** The table of buyers' rule sets and the handlers that create, update and delete them.

    A handler issues its statements one after another, outside a transaction; a statement that reports an error may
    or may not have been applied. */
module RuleSets {
  import opened Prelude
  import opened ConfigTable

  datatype Status = Done | NotFound | Failed

  /** What an update request changes; `other` stands for the fields that this model does not hold. */
  datatype Patch = Patch(name: Option<string>, enabled: Option<bool>, isActive: Option<bool>, other: bool)

  /* ---------- Statements ---------- */

  /** Deactivates a buyer's rule sets, all but one if one is excepted. */
  function Deactivate(rows: Table, buyer: Uuid, except: Option<Uuid>): Table {
    map id <- rows :: if rows[id].buyerId == buyer && except != Some(id) then rows[id].(isActive := false) else rows[id]
  }

  function Patched(r: Config, p: Patch): Config {
    r.(ruleSetName := p.name.GetOr(r.ruleSetName), enabled := p.enabled.GetOr(r.enabled),
       isActive := p.isActive.GetOr(r.isActive))
  }

  function Under(fault: WriteFault, before: Table, after: Table): Table {
    if fault.NotApplied? then before else after
  }

  /* ---------- Requests ---------- */

  datatype Request =
    | Create(id: Uuid, buyerExists: bool, buyer: Uuid, name: string, enabled: Option<bool>, active: Option<bool>, now: int,
             deactivating: WriteFault, inserting: WriteFault)
    | Update(id: Uuid, buyer: Uuid, patch: Patch, deactivating: WriteFault, updating: WriteFault)
    | Delete(id: Uuid, buyer: Uuid, deleting: WriteFault)

  function Answer(fault: WriteFault): Status {
    if fault.NoFault? then Done else Failed
  }

  predicate Owned(rows: Table, id: Uuid, buyer: Uuid) {
    id in rows && rows[id].buyerId == buyer
  }

  /** The answer to a request and the table it leaves. */
  function Handle(rows: Table, q: Request): (Status, Table) {
    match q
    case Create(id, exists_, buyer, name, enabled, active, now, deactivating, inserting) =>
      var isActive := active.GetOr(false);
      var cleared := if isActive then Under(deactivating, rows, Deactivate(rows, buyer, None)) else rows;
      if !exists_ then (NotFound, rows)
      else if isActive && !deactivating.NoFault? then (Failed, cleared)
      else
        var r := Config(id, buyer, name, enabled.GetOr(true), isActive, now);
        (Answer(inserting), Under(inserting, cleared, cleared[id := r]))
    case Update(id, buyer, patch, deactivating, updating) =>
      var activate := patch.isActive == Some(true);
      var cleared := if activate then Under(deactivating, rows, Deactivate(rows, buyer, Some(id))) else rows;
      if !Owned(rows, id, buyer) then (NotFound, rows)
      else if activate && !deactivating.NoFault? then (Failed, cleared)
      else if patch == Patch(None, None, None, false) then (Done, rows)
      else (Answer(updating), Under(updating, cleared, cleared[id := Patched(cleared[id], patch)]))
    case Delete(id, buyer, deleting) =>
      if !deleting.NoFault? then (Failed, Under(deleting, rows, if Owned(rows, id, buyer) then rows - {id} else rows))
      else if !Owned(rows, id, buyer) then (NotFound, rows)
      else (Done, rows - {id})
  }

  /* ---------- The handlers ---------- */

  class RuleSetTable {
    var rows: Table

    constructor ()
      ensures rows == map[]
    {
      rows := map[];
    }

    method DeactivateOthers(buyer: Uuid, except: Option<Uuid>, fault: WriteFault) returns (ok: bool)
      modifies this
      ensures ok == fault.NoFault? && rows == Under(fault, old(rows), Deactivate(old(rows), buyer, except))
    {
      if !fault.NotApplied? {
        rows := map id <- rows ::
          if rows[id].buyerId == buyer && except != Some(id) then rows[id].(isActive := false) else rows[id];
      }
      ok := fault.NoFault?;
    }

    /** The id is a fresh UUID. */
    method CreateRuleSet(id: Uuid, buyerExists: bool, buyer: Uuid, name: string, enabled: Option<bool>,
                         active: Option<bool>, now: int, deactivating: WriteFault, inserting: WriteFault) returns (status: Status)
      modifies this
      ensures (status, rows) ==
        Handle(old(rows), Create(id, buyerExists, buyer, name, enabled, active, now, deactivating, inserting))
    {
      if !buyerExists {
        return NotFound;
      }
      var isActive := active.GetOr(false);
      if isActive {
        var ok := DeactivateOthers(buyer, None, deactivating);
        if !ok {
          return Failed;
        }
      }
      if !inserting.NotApplied? {
        rows := rows[id := Config(id, buyer, name, enabled.GetOr(true), isActive, now)];
      }
      return Answer(inserting);
    }

    method UpdateRuleSet(id: Uuid, buyer: Uuid, patch: Patch, deactivating: WriteFault, updating: WriteFault)
      returns (status: Status)
      modifies this
      ensures (status, rows) == Handle(old(rows), Update(id, buyer, patch, deactivating, updating))
    {
      if !Owned(rows, id, buyer) {
        return NotFound;
      }
      var hasUpdates := patch.name.Some? || patch.enabled.Some? || patch.other;
      if patch.isActive.Some? {
        if patch.isActive.value {
          var ok := DeactivateOthers(buyer, Some(id), deactivating);
          if !ok {
            return Failed;
          }
        }
        hasUpdates := true;
      }
      if !hasUpdates {
        return Done;
      }
      if !updating.NotApplied? {
        var row := rows[id];
        if patch.name.Some? { row := row.(ruleSetName := patch.name.value); }
        if patch.enabled.Some? { row := row.(enabled := patch.enabled.value); }
        if patch.isActive.Some? { row := row.(isActive := patch.isActive.value); }
        rows := rows[id := row];
      }
      return Answer(updating);
    }

    method DeleteRuleSet(id: Uuid, buyer: Uuid, deleting: WriteFault) returns (status: Status)
      modifies this
      ensures (status, rows) == Handle(old(rows), Delete(id, buyer, deleting))
    {
      var affected := 0;
      if Owned(rows, id, buyer) && !deleting.NotApplied? {
        rows := rows - {id};
        affected := 1;
      }
      if !deleting.NoFault? {
        return Failed;
      }
      if affected == 0 {
        return NotFound;
      }
      return Done;
    }
  }

  /* ---------- One active rule set per buyer ---------- */

  /** Ids of new rule sets are fresh. */
  predicate Admissible(rows: Table, q: Request) {
    q.Create? ==> q.id !in rows
  }

  lemma HandleKeepsOneActive(rows: Table, q: Request)
    requires OneActive(rows) && Admissible(rows, q)
    ensures OneActive(Handle(rows, q).1)
  {
  }

  lemma HandleKeepsKeyed(rows: Table, q: Request)
    requires Keyed(rows)
    ensures Keyed(Handle(rows, q).1)
  {
  }

  predicate ValidRun(rows: Table, qs: seq<Request>)
    decreases |qs|
  {
    qs == [] || (Admissible(rows, qs[0]) && ValidRun(Handle(rows, qs[0]).1, qs[1..]))
  }

  function After(rows: Table, qs: seq<Request>): Table
    decreases |qs|
  {
    if qs == [] then rows else After(Handle(rows, qs[0]).1, qs[1..])
  }

  /** In every state that requests served one after another can reach, failing ones included, each buyer has at most
      one active rule set. */
  lemma {:induction false} AtMostOneActive(rows: Table, qs: seq<Request>)
    requires OneActive(rows) && ValidRun(rows, qs)
    ensures OneActive(After(rows, qs)) && (Keyed(rows) ==> Keyed(After(rows, qs)))
    decreases |qs|
  {
    if qs != [] {
      HandleKeepsOneActive(rows, qs[0]);
      if Keyed(rows) { HandleKeepsKeyed(rows, qs[0]); }
      AtMostOneActive(Handle(rows, qs[0]).1, qs[1..]);
    }
  }

  predicate Activates(rows: Table, q: Request) {
    match q
    case Create(_, exists_, _, _, _, active, _, _, _) => exists_ && active == Some(true)
    case Update(id, buyer, patch, _, _) => Owned(rows, id, buyer) && patch.isActive == Some(true)
    case Delete(_, _, _) => false
  }

  /** A request that activates a rule set and succeeds makes it the buyer's only active one; one that fails leaves
      the buyer with the new one, with what was active before, or with none at all. */
  lemma ActivationOutcome(rows: Table, q: Request)
    requires OneActive(rows) && Admissible(rows, q) && Activates(rows, q)
    ensures var (status, rows') := Handle(rows, q); var active := ActiveOf(rows', q.buyer);
      && (status == Done ==> active == {q.id})
      && (status == Failed ==> active == {q.id} || active == ActiveOf(rows, q.buyer) || active == {})
      && status != NotFound
  {
  }

  /** The failure of the write that follows the deactivation. */
  function WritingFault(q: Request): WriteFault {
    match q
    case Create(_, _, _, _, _, _, _, _, inserting) => inserting
    case Update(_, _, _, _, updating) => updating
    case Delete(_, _, deleting) => deleting
  }

  /** The failures that disarm a buyer: the deactivating statement ran and the one after it did not, unless the rule
      set was the active one before, which its own update spares. */
  lemma FailedActivationDisarms(rows: Table, q: Request)
    requires Admissible(rows, q) && Activates(rows, q) && OneActive(rows) && ActiveOf(rows, q.buyer) != {}
    ensures ActiveOf(Handle(rows, q).1, q.buyer) == {} <==>
      ActiveOf(rows, q.buyer) != {q.id} &&
      (q.deactivating.AppliedUnacked? || (q.deactivating.NoFault? && WritingFault(q).NotApplied?))
  {
    var rows' := Handle(rows, q).1;
    var was :| was in ActiveOf(rows, q.buyer);
    assert ActiveOf(rows, q.buyer) == {was};
    if q.deactivating.NotApplied? {
      assert rows' == rows;
    } else if q.deactivating.NoFault? && !WritingFault(q).NotApplied? {
      assert q.id in ActiveOf(rows', q.buyer);
    } else if was == q.id {
      assert q.id in ActiveOf(rows', q.buyer);
    }
  }

  /* ---------- What each request does, field by field ---------- */

  /** The request asks for its rule set to become the active one. */
  predicate Asks(q: Request) {
    match q
    case Create(_, _, _, _, _, active, _, _, _) => active.Some? && active.value
    case Update(_, _, patch, _, _) => patch.isActive.Some? && patch.isActive.value
    case Delete(_, _, _) => false
  }

  /** A row that a request is not about stays as it is, but that it ceases to be active if it is the same buyer's and the
      request's first statement has run. */
  predicate RowKept(before: Config, after: Config, q: Request) {
    after == before || (Asks(q) && before.buyerId == q.buyer && after == before.(isActive := false))
  }

  /** Whatever becomes of a request, the other rows are still there, and no row appears but its own. */
  lemma OtherRowsKept(rows: Table, q: Request, id: Uuid)
    requires id != q.id
    ensures id in rows <==> id in Handle(rows, q).1
    ensures id in rows ==> RowKept(rows[id], Handle(rows, q).1[id], q)
  {
  }

  /** An update is answered by not-found exactly if the buyer has no such rule set, and then changes nothing.  If it is
      done, the row has every field that was given and keeps every one that was not, and its id, buyer and creation
      time. */
  lemma UpdatedRow(rows: Table, q: Request)
    requires q.Update?
    ensures var (status, rows') := Handle(rows, q); var p := q.patch;
      && (status == NotFound <==> !(q.id in rows && rows[q.id].buyerId == q.buyer))
      && (status == NotFound ==> rows' == rows)
      && (status == Done ==>
            && q.id in rows'
            && var r, r' := rows[q.id], rows'[q.id];
            && r'.enabled == (if p.enabled.Some? then p.enabled.value else r.enabled)
            && r'.isActive == (if p.isActive.Some? then p.isActive.value else r.isActive)
            && r'.ruleSetName == (if p.name.Some? then p.name.value else r.ruleSetName)
            && r'.id == r.id && r'.buyerId == r.buyerId && r'.createdAt == r.createdAt)
  {
  }

  /** An update that the buyer's rule set exists for is done exactly if no statement that it runs fails: the deactivating
      one if it asks for activation, the writing one if it gives any field. */
  lemma UpdateDoneExactly(rows: Table, q: Request)
    requires q.Update? && q.id in rows && rows[q.id].buyerId == q.buyer
    ensures var p := q.patch;
      Handle(rows, q).0 == Done <==>
        && (Asks(q) ==> q.deactivating.NoFault?)
        && (p.name.Some? || p.enabled.Some? || p.isActive.Some? || p.other ==> q.updating.NoFault?)
  {
  }

  /** A create is done exactly if the buyer exists and no statement that it runs fails; the new row is enabled unless
      the request says otherwise, and active only if it says so. */
  lemma CreatedRow(rows: Table, q: Request)
    requires q.Create?
    ensures var (status, rows') := Handle(rows, q);
      && (status == NotFound <==> !q.buyerExists)
      && (status == NotFound ==> rows' == rows)
      && (status == Done <==> q.buyerExists && (Asks(q) ==> q.deactivating.NoFault?) && q.inserting.NoFault?)
      && (status == Done ==>
            && q.id in rows'
            && var r := rows'[q.id];
            && r.id == q.id && r.buyerId == q.buyer && r.ruleSetName == q.name && r.createdAt == q.now
            && (r.enabled <==> q.enabled != Some(false)) && (r.isActive <==> q.active == Some(true)))
  {
  }

  /** A delete is done exactly if the buyer has the rule set and the statement does not fail; then it is gone. */
  lemma DeletedRow(rows: Table, q: Request)
    requires q.Delete?
    ensures var (status, rows') := Handle(rows, q); var has := q.id in rows && rows[q.id].buyerId == q.buyer;
      && (status == Done <==> has && q.deleting.NoFault?)
      && (status == NotFound <==> !has && q.deleting.NoFault?)
      && (status == Done ==> q.id !in rows')
      && (!has ==> rows' == rows)
  {
  }

  /** Requests do not touch the rule sets of other buyers. */
  lemma OtherBuyersUntouched(rows: Table, q: Request, id: Uuid)
    requires Admissible(rows, q) && id in rows && rows[id].buyerId != q.buyer
    ensures id in Handle(rows, q).1 && Handle(rows, q).1[id] == rows[id]
  {
  }
}
