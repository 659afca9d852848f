/** The bulk lookup of buyers' qualification configs and the cache key under which its result is kept. */
module QualificationConfigs {
  import opened Prelude
  import opened Text
  import opened ConfigTable
  import RuleSets

  predicate Eligible(c: Config) { c.enabled && c.isActive }

  /* ---------- The lookup ---------- */

  /** What the database may answer to the ordered query: the eligible configs of these buyers, newest first. */
  ghost predicate IsAnswer(table: set<Config>, buyers: set<Uuid>, rows: seq<Config>) {
    && (forall i | 0 <= i < |rows| :: rows[i] in table && rows[i].buyerId in buyers && Eligible(rows[i]))
    && (forall c <- table | c.buyerId in buyers && Eligible(c) :: c in rows)
    && (forall i, j | 0 <= i < j < |rows| :: rows[i].createdAt >= rows[j].createdAt)
  }

  predicate Newest(table: set<Config>, buyer: Uuid, c: Config) {
    && c in table && c.buyerId == buyer && Eligible(c)
    && forall d <- table | d.buyerId == buyer && Eligible(d) :: d.createdAt <= c.createdAt
  }

  /** The right entry for a buyer: a newest eligible config, or none if there is none. */
  ghost predicate RightFor(table: set<Config>, buyer: Uuid, entry: Option<Config>) {
    match entry
    case Some(c) => Newest(table, buyer, c)
    case None => forall c <- table | c.buyerId == buyer :: !Eligible(c)
  }

  /** A right result: exactly the requested buyers, each with a right entry. */
  ghost predicate RightResult(table: set<Config>, buyers: set<Uuid>, result: map<Uuid, Option<Config>>) {
    result.Keys == buyers && forall buyer <- buyers :: RightFor(table, buyer, result[buyer])
  }

  function BuyerSet(buyerIds: seq<Uuid>): set<Uuid> {
    set id <- buyerIds
  }

  /** An empty entry for every buyer. */
  method AllNone(buyerIds: seq<Uuid>) returns (result: map<Uuid, Option<Config>>)
    ensures result.Keys == BuyerSet(buyerIds)
    ensures forall id <- result :: result[id] == None
  {
    result := map[];
    for i := 0 to |buyerIds|
      invariant result.Keys == BuyerSet(buyerIds[..i])
      invariant forall id <- result :: result[id] == None
    {
      result := result[buyerIds[i] := None];
    }
  }

  /** Each entry takes the first row of its buyer; rows of other buyers are ignored. */
  method KeepFirst(empty: map<Uuid, Option<Config>>, rows: seq<Config>) returns (result: map<Uuid, Option<Config>>)
    requires forall id <- empty :: empty[id] == None
    ensures result.Keys == empty.Keys
    ensures forall id <- result :: result[id] == FirstOf(rows, id)
  {
    result := empty;
    for i := 0 to |rows|
      invariant result.Keys == empty.Keys
      invariant forall id <- result :: result[id] == FirstOf(rows[..i], id)
    {
      var config := rows[i];
      assert rows[..i + 1] == rows[..i] + [config];
      forall id <- result { FirstOfSnoc(rows[..i], config, id); }
      if config.buyerId in result && result[config.buyerId].None? {
        result := result[config.buyerId := Some(config)];
      }
    }
    assert rows[..|rows|] == rows;
  }

  /** `rows` is the database's answer to the ordered query, should it be asked; either query may fail. */
  method FindByBuyerIds(table: set<Config>, buyerIds: seq<Uuid>, rows: seq<Config>, existsFails: bool, fetchFails: bool)
    returns (r: Result<map<Uuid, Option<Config>>>)
    requires IsAnswer(table, BuyerSet(buyerIds), rows)
    ensures r.Ok? ==> RightResult(table, BuyerSet(buyerIds), r.value)
    ensures r.Err? <==> (buyerIds != [] &&
      (existsFails || (fetchFails && exists c <- table :: c.buyerId in buyerIds && Eligible(c))))
  {
    if buyerIds == [] {
      return Ok(map[]);
    }
    if existsFails {
      return Err;
    }
    // The early exit: no buyer has an eligible config.
    var hasConfigs := exists c <- table :: c.buyerId in buyerIds && Eligible(c);
    var result := AllNone(buyerIds);
    if !hasConfigs {
      return Ok(result);
    }
    if fetchFails {
      return Err;
    }
    result := KeepFirst(result, rows);
    forall id <- BuyerSet(buyerIds) ensures RightFor(table, id, result[id]) {
      FirstIsNewest(table, BuyerSet(buyerIds), rows, id);
    }
    return Ok(result);
  }

  /** The first row of a buyer. */
  function FirstOf(rows: seq<Config>, buyer: Uuid): (r: Option<Config>)
    ensures r.None? ==> forall k | 0 <= k < |rows| :: rows[k].buyerId != buyer
    ensures r.Some? ==> exists k | 0 <= k < |rows| ::
      rows[k] == r.value && rows[k].buyerId == buyer && forall j | 0 <= j < k :: rows[j].buyerId != buyer
  {
    if rows == [] then None
    else if rows[0].buyerId == buyer then Some(rows[0])
    else FirstOf(rows[1..], buyer)
  }

  lemma {:induction false} FirstOfSnoc(rows: seq<Config>, c: Config, buyer: Uuid)
    ensures FirstOf(rows + [c], buyer) ==
      if FirstOf(rows, buyer).Some? then FirstOf(rows, buyer) else if c.buyerId == buyer then Some(c) else None
    decreases |rows|
  {
    if rows == [] {
      assert [c][1..] == [];
    } else {
      assert (rows + [c])[1..] == rows[1..] + [c];
      FirstOfSnoc(rows[1..], c, buyer);
    }
  }

  lemma FirstIsNewest(table: set<Config>, buyers: set<Uuid>, rows: seq<Config>, buyer: Uuid)
    requires IsAnswer(table, buyers, rows) && buyer in buyers
    ensures RightFor(table, buyer, FirstOf(rows, buyer))
  {
    var entry := FirstOf(rows, buyer);
    if entry.Some? {
      var k :| 0 <= k < |rows| && rows[k] == entry.value && rows[k].buyerId == buyer
               && forall j | 0 <= j < k :: rows[j].buyerId != buyer;
      forall d <- table | d.buyerId == buyer && Eligible(d) ensures d.createdAt <= entry.value.createdAt {
        assert d in rows;
        var j :| 0 <= j < |rows| && rows[j] == d;
      }
    } else {
      forall c <- table | c.buyerId == buyer ensures !Eligible(c) {
        assert Eligible(c) ==> c in rows;
      }
    }
  }

  /* ---------- When the result depends on the requested buyers only ---------- */

  /** No requested buyer has two newest configs. */
  ghost predicate NoTies(table: set<Config>, buyers: set<Uuid>) {
    forall c <- table, d <- table | c.buyerId in buyers && Newest(table, c.buyerId, c) && Newest(table, c.buyerId, d) ::
      c == d
  }

  lemma RightEntryExists(table: set<Config>, buyer: Uuid)
    ensures exists entry :: RightFor(table, buyer, entry)
  {
    var candidates := set c <- table | c.buyerId == buyer && Eligible(c);
    if candidates == {} {
      forall c <- table | c.buyerId == buyer ensures !Eligible(c) {
        assert Eligible(c) ==> c in candidates;
      }
      assert RightFor(table, buyer, None);
    } else {
      var newer := (c: Config, d: Config) => d.createdAt <= c.createdAt;
      LeastExists(newer, candidates);
      var c :| c in candidates && forall d <- candidates :: newer(c, d);
      assert forall d <- candidates :: newer(c, d) && d.createdAt <= c.createdAt;
      assert Newest(table, buyer, c);
      assert RightFor(table, buyer, Some(c));
    }
  }

  ghost function SomeRight(table: set<Config>, buyer: Uuid): Option<Config> {
    RightEntryExists(table, buyer);
    var entry :| RightFor(table, buyer, entry);
    entry
  }

  /** The result is determined by the set of requested buyers, whatever their order, repetitions, the path taken and
      the order of equal rows, exactly if no buyer has two newest configs. */
  lemma ResultIsDetermined(table: set<Config>, buyers: set<Uuid>)
    ensures (forall m, m' | RightResult(table, buyers, m) && RightResult(table, buyers, m') :: m == m')
      <==> NoTies(table, buyers)
  {
    if NoTies(table, buyers) {
      forall m, m' | RightResult(table, buyers, m) && RightResult(table, buyers, m') ensures m == m' {
        forall buyer <- buyers ensures m[buyer] == m'[buyer] {
          assert RightFor(table, buyer, m[buyer]) && RightFor(table, buyer, m'[buyer]);
        }
      }
    } else {
      var c, d :| c in table && d in table && c.buyerId in buyers && Newest(table, c.buyerId, c)
                  && Newest(table, c.buyerId, d) && c != d;
      var base := map buyer <- buyers :: SomeRight(table, buyer);
      var m, m' := base[c.buyerId := Some(c)], base[c.buyerId := Some(d)];
      assert m.Keys == buyers && m'.Keys == buyers;
      assert RightResult(table, buyers, m) && RightResult(table, buyers, m');
      assert m[c.buyerId] != m'[c.buyerId];
    }
  }

  /** A table in which no buyer has two active configs has no ties. */
  lemma OneActiveMeansNoTies(rows: Table, buyers: set<Uuid>)
    requires Keyed(rows) && OneActive(rows)
    ensures NoTies(rows.Values, buyers)
  {
    forall c <- rows.Values, d <- rows.Values
      | c.buyerId in buyers && Newest(rows.Values, c.buyerId, c) && Newest(rows.Values, c.buyerId, d)
      ensures c == d
    {
      assert rows[c.id] == c && rows[d.id] == d;
    }
  }

  /** After any requests to the rule-set handlers, served one after another, failing ones included, the lookup has one
      right result: each buyer's active config if it is enabled. */
  lemma LookupAfterRunIsDetermined(rows: Table, qs: seq<RuleSets.Request>, buyers: set<Uuid>,
                                   m: map<Uuid, Option<Config>>, m': map<Uuid, Option<Config>>)
    requires Keyed(rows) && OneActive(rows) && RuleSets.ValidRun(rows, qs)
    requires var table := RuleSets.After(rows, qs).Values;
      RightResult(table, buyers, m) && RightResult(table, buyers, m')
    ensures m == m'
    ensures forall buyer <- buyers, c :: m[buyer] == Some(c) <==>
      c in RuleSets.After(rows, qs).Values && c.buyerId == buyer && Eligible(c)
  {
    var rows' := RuleSets.After(rows, qs);
    RuleSets.AtMostOneActive(rows, qs);
    OneActiveMeansNoTies(rows', buyers);
    ResultIsDetermined(rows'.Values, buyers);
    forall buyer <- buyers, c | c in rows'.Values && c.buyerId == buyer && Eligible(c) ensures m[buyer] == Some(c) {
      assert RightFor(rows'.Values, buyer, m[buyer]);
      assert rows'[c.id] == c && rows'[m[buyer].value.id] == m[buyer].value;
    }
  }

  /** The right entry for a buyer whose active config is known. */
  lemma ActiveDecides(rows: Table, c: Config, buyers: set<Uuid>, m: map<Uuid, Option<Config>>)
    requires Keyed(rows) && OneActive(rows) && c in rows.Values && c.isActive && c.buyerId in buyers
    requires RightResult(rows.Values, buyers, m)
    ensures m[c.buyerId] == if c.enabled then Some(c) else None
  {
    var entry := m[c.buyerId];
    assert RightFor(rows.Values, c.buyerId, entry) && rows[c.id] == c;
    if entry.Some? {
      assert rows[entry.value.id] == entry.value;
    }
  }

  lemma NoneActiveDecides(rows: Table, buyer: Uuid, buyers: set<Uuid>, m: map<Uuid, Option<Config>>)
    requires ActiveOf(rows, buyer) == {} && buyer in buyers && RightResult(rows.Values, buyers, m)
    ensures m[buyer] == None
  {
    assert RightFor(rows.Values, buyer, m[buyer]);
    forall id <- rows | rows[id].buyerId == buyer ensures !rows[id].isActive {
      assert id !in ActiveOf(rows, buyer);
    }
  }

  /** From the handler to the lookup: after an update of a buyer's active rule set is done, the lookup gives that rule
      set with its new fields if it is then active and enabled, and nothing for the buyer otherwise. */
  lemma UpdateReachesLookup(rows: Table, q: RuleSets.Request, buyers: set<Uuid>, m: map<Uuid, Option<Config>>)
    requires Keyed(rows) && OneActive(rows) && q.Update? && q.buyer in buyers
    requires q.id in rows && rows[q.id].isActive && RuleSets.Handle(rows, q).0 == RuleSets.Done
    requires RightResult(RuleSets.Handle(rows, q).1.Values, buyers, m)
    ensures var p := q.patch; var r := rows[q.id];
      if p.isActive == Some(false) || p.enabled == Some(false) || (p.enabled == None && !r.enabled) then
        m[q.buyer] == None
      else
        m[q.buyer] == Some(r.(enabled := true, ruleSetName := if p.name.Some? then p.name.value else r.ruleSetName))
  {
    var rows' := RuleSets.Handle(rows, q).1;
    RuleSets.UpdatedRow(rows, q);
    RuleSets.HandleKeepsOneActive(rows, q);
    RuleSets.HandleKeepsKeyed(rows, q);
    var c := rows'[q.id];
    if c.isActive {
      ActiveDecides(rows', c, buyers, m);
    } else {
      StillNoneActive(rows, q);
      NoneActiveDecides(rows', q.buyer, buyers, m);
    }
  }

  lemma StillNoneActive(rows: Table, q: RuleSets.Request)
    requires OneActive(rows) && q.Update? && q.id in rows && rows[q.id].isActive && rows[q.id].buyerId == q.buyer
    requires RuleSets.Handle(rows, q).0 == RuleSets.Done && !RuleSets.Handle(rows, q).1[q.id].isActive
    ensures ActiveOf(RuleSets.Handle(rows, q).1, q.buyer) == {}
  {
    var rows' := RuleSets.Handle(rows, q).1;
    forall id <- rows' | rows'[id].buyerId == q.buyer ensures !rows'[id].isActive {
      if id != q.id {
        RuleSets.OtherRowsKept(rows, q, id);
      }
    }
  }

  /** A create that is done and asks for activation reaches the lookup if it is not created disabled. */
  lemma CreateReachesLookup(rows: Table, q: RuleSets.Request, buyers: set<Uuid>, m: map<Uuid, Option<Config>>)
    requires Keyed(rows) && OneActive(rows) && q.Create? && q.id !in rows && q.buyer in buyers
    requires q.active == Some(true) && RuleSets.Handle(rows, q).0 == RuleSets.Done
    requires RightResult(RuleSets.Handle(rows, q).1.Values, buyers, m)
    ensures m[q.buyer] ==
      if q.enabled == Some(false) then None else Some(Config(q.id, q.buyer, q.name, true, true, q.now))
  {
    RuleSets.CreatedRow(rows, q);
    RuleSets.HandleKeepsOneActive(rows, q);
    RuleSets.HandleKeepsKeyed(rows, q);
    ActiveDecides(RuleSets.Handle(rows, q).1, RuleSets.Handle(rows, q).1[q.id], buyers, m);
  }

  /* ---------- The cache key ---------- */

  const BY_TEXT: (Uuid, Uuid) -> bool := (a: Uuid, b: Uuid) => Leq(a, b)

  lemma ByTextIsOrder()
    ensures TotalPreorder(BY_TEXT) && forall a, b | BY_TEXT(a, b) && BY_TEXT(b, a) :: a == b
  {
    forall a: Uuid, b: Uuid ensures (BY_TEXT(a, b) || BY_TEXT(b, a)) && (BY_TEXT(a, b) && BY_TEXT(b, a) ==> a == b) {
      LeqTotal(a, b);
    }
    forall a: Uuid, b: Uuid, c: Uuid | BY_TEXT(a, b) && BY_TEXT(b, c) ensures BY_TEXT(a, c) {
      LeqTransitive(a, b, c);
    }
  }

  function Join(ids: List<Uuid>): string {
    match ids
    case Nil => ""
    case Cons(x, Nil) => x
    case Cons(x, rest) => x + "," + Join(rest)
  }

  /** The ids come from a hash set, so they are distinct and in no particular order. */
  function QualificationKey(ids: List<Uuid>): string {
    "qual:buyers:" + Join(Sort(BY_TEXT, ids))
  }

  /** The key of two buyers, in whatever order they come. */
  lemma KeySpelled(a: Uuid, b: Uuid)
    requires Leq(a, b)
    ensures QualificationKey(Cons(a, Cons(b, Nil))) == "qual:buyers:" + (a + "," + b)
    ensures QualificationKey(Cons(b, Cons(a, Nil))) == "qual:buyers:" + (a + "," + b)
  {
    LeqTotal(a, b);
    SortTwo(BY_TEXT, a, b);
    assert Join(Cons(a, Cons(b, Nil))) == a + "," + Join(Cons(b, Nil));
    assert Join(Cons(b, Nil)) == b;
  }

  lemma {:induction false} JoinInjective(a: List<Uuid>, b: List<Uuid>)
    requires Join(a) == Join(b)
    ensures a == b
  {
    if a.Cons? && b.Cons? {
      assert Join(a)[..36] == a.head && Join(b)[..36] == b.head;
      if a.tail.Cons? && b.tail.Cons? {
        assert Join(a)[37..] == Join(a.tail) && Join(b)[37..] == Join(b.tail);
        JoinInjective(a.tail, b.tail);
      }
    }
  }

  ghost predicate Distinct(ids: List<Uuid>) {
    forall x :: Elements(ids)[x] <= 1
  }

  ghost function IdSet(ids: List<Uuid>): set<Uuid> {
    set x | x in Elements(ids)
  }

  /** The cache key stands for the set of buyers: two keys are equal exactly if the sets are. */
  lemma KeyIsTheSet(a: List<Uuid>, b: List<Uuid>)
    requires Distinct(a) && Distinct(b)
    ensures QualificationKey(a) == QualificationKey(b) <==> IdSet(a) == IdSet(b)
  {
    ByTextIsOrder();
    SortSorts(BY_TEXT, a);
    SortSorts(BY_TEXT, b);
    SameElements(a, b);
    if QualificationKey(a) == QualificationKey(b) {
      KeyInjective(Sort(BY_TEXT, a), Sort(BY_TEXT, b));
    }
    if IdSet(a) == IdSet(b) {
      SortedIsUnique(BY_TEXT, Sort(BY_TEXT, a), Sort(BY_TEXT, b));
    }
  }

  lemma SameElements(a: List<Uuid>, b: List<Uuid>)
    requires Distinct(a) && Distinct(b)
    ensures IdSet(a) == IdSet(b) <==> Elements(a) == Elements(b)
  {
    if IdSet(a) == IdSet(b) {
      forall x: Uuid ensures Elements(a)[x] == Elements(b)[x] {
        assert x in IdSet(a) <==> x in IdSet(b);
      }
    }
  }

  lemma KeyInjective(a: List<Uuid>, b: List<Uuid>)
    requires "qual:buyers:" + Join(a) == "qual:buyers:" + Join(b)
    ensures a == b
  {
    assert ("qual:buyers:" + Join(a))[12..] == Join(a) && ("qual:buyers:" + Join(b))[12..] == Join(b);
    JoinInjective(a, b);
  }

  /** So a cached result is right for whoever asks under the same key, and it is what a fresh lookup gives. */
  lemma SharedKeySharesResult(table: set<Config>, a: List<Uuid>, b: List<Uuid>,
                              m: map<Uuid, Option<Config>>, m': map<Uuid, Option<Config>>)
    requires Distinct(a) && Distinct(b) && QualificationKey(a) == QualificationKey(b)
    requires RightResult(table, IdSet(a), m) && RightResult(table, IdSet(b), m')
    ensures RightResult(table, IdSet(b), m)
    ensures NoTies(table, IdSet(a)) ==> m == m'
  {
    KeyIsTheSet(a, b);
    ResultIsDetermined(table, IdSet(a));
  }
}
