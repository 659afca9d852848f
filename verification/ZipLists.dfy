/** Buyers' ZIP lists: moved out of a rule set's config into tables, and merged back when rule sets are read. */
module ZipLists {
  import opened Prelude
  import opened Text

  datatype Kind = Blacklist | Whitelist

  datatype ZipList = ZipList(buyer: string, kind: Kind, createdAt: int)

  datatype JsonValue = StringValue(s: string) | OtherValue

  datatype ConfigValue = Array(items: seq<JsonValue>) | NotArray

  type Config = map<string, ConfigValue>

  function ConfigKey(kind: Kind): string {
    match kind
    case Blacklist => "zip_blacklist"
    case Whitelist => "zip_whitelist"
  }

  predicate IsZip(s: string) {
    |s| == 5 && forall i | 0 <= i < 5 :: '0' <= s[i] <= '9'
  }

  /** The ZIP codes of a payload: strings that are five digits once trimmed; everything else is skipped. */
  function ValidZips(items: seq<JsonValue>): set<string> {
    set v <- items | v.StringValue? && IsZip(Trim(v.s)) :: Trim(v.s)
  }

  /** Five digits. */
  predicate FiveDigits(z: string) {
    |z| == 5 && forall i | 0 <= i < |z| :: z[i] in "0123456789"
  }

  /** The payload has the text z, with any white space before and after it. */
  ghost predicate Mentions(items: seq<JsonValue>, z: string) {
    exists pre, post :: Blank(pre) && Blank(post) && StringValue(pre + z + post) in items
  }

  /** What counts in a payload: five digits, whatever white space surrounds them, and nothing else. */
  lemma ValidZipsExactly(items: seq<JsonValue>, z: string)
    ensures z in ValidZips(items) <==> FiveDigits(z) && Mentions(items, z)
  {
    DigitsOnly(z);
    if z in ValidZips(items) {
      var v :| v in items && v.StringValue? && IsZip(Trim(v.s)) && Trim(v.s) == z;
      var pre, post := TrimSplits(v.s);
      assert StringValue(pre + z + post) in items;
    }
    if FiveDigits(z) && Mentions(items, z) {
      var pre, post :| Blank(pre) && Blank(post) && StringValue(pre + z + post) in items;
      TrimIsTheMiddle(pre, z, post);
      var v := StringValue(pre + z + post);
      assert v in items && v.StringValue? && IsZip(Trim(v.s));
    }
  }

  lemma DigitsOnly(z: string)
    ensures IsZip(z) <==> FiveDigits(z)
    ensures FiveDigits(z) ==> Trimmed(z)
  {
  }

  /** The key that the payload and the config use for each kind. */
  lemma KindOfKey(kind: Kind)
    ensures ConfigKey(kind) == "zip_blacklist" <==> kind == Blacklist
    ensures ConfigKey(kind) == "zip_whitelist" <==> kind == Whitelist
  {
    DifferentKeys();
  }

  /** The items of a config entry that is an array; no other entry counts. */
  function Listed(config: Config, kind: Kind): seq<JsonValue> {
    var key := ConfigKey(kind);
    if key in config && config[key].Array? then config[key].items else []
  }

  type Lists = map<string, ZipList>

  /** List id and ZIP; unique by the table's constraint. */
  type Codes = set<(string, string)>

  /** A buyer's lists of one kind. */
  function ListsOf(lists: Lists, buyer: string, kind: Kind): set<string> {
    set id <- lists | lists[id].buyer == buyer && lists[id].kind == kind
  }

  /** The ZIP codes of all a buyer's lists of one kind. */
  function ViewOf(lists: Lists, codes: Codes, buyer: string, kind: Kind): set<string> {
    set p <- codes | p.0 in ListsOf(lists, buyer, kind) :: p.1
  }

  /** Codes belong to lists, and a ZIP has at most five characters. */
  predicate Consistent(lists: Lists, codes: Codes) {
    forall p <- codes :: p.0 in lists && |p.1| <= 5
  }

  predicate Oldest(lists: Lists, buyer: string, kind: Kind, id: string) {
    id in ListsOf(lists, buyer, kind) && forall d <- ListsOf(lists, buyer, kind) :: lists[id].createdAt <= lists[d].createdAt
  }

  class ZipTables {
    var lists: Lists
    var codes: Codes

    constructor ()
      ensures Valid() && lists == map[] && codes == {}
    {
      lists, codes := map[], {};
    }

    predicate Valid()
      reads this
    {
      Consistent(lists, codes)
    }

    function View(buyer: string, kind: Kind): set<string>
      reads this
    {
      ViewOf(lists, codes, buyer, kind)
    }

    /** The oldest list of the kind, or a new one. */
    method FindOrCreateZipList(buyer: string, kind: Kind, freshId: string, now: int) returns (id: string)
      requires freshId !in lists
      modifies this`lists
      ensures if ListsOf(old(lists), buyer, kind) != {}
              then lists == old(lists) && Oldest(lists, buyer, kind, id)
              else id == freshId && lists == old(lists)[id := ZipList(buyer, kind, now)]
    {
      var candidates := ListsOf(lists, buyer, kind);
      if candidates != {} {
        OldestExists(lists, candidates);
        id :| id in candidates && forall d <- candidates :: lists[id].createdAt <= lists[d].createdAt;
      } else {
        id := freshId;
        lists := lists[id := ZipList(buyer, kind, now)];
      }
    }

    /** Adds the ZIP codes that the list does not have; the insert of a ZIP in `lost` fails, which is ignored. */
    method AddZips(listId: string, items: seq<JsonValue>, lost: set<string>) returns (ghost added: set<string>)
      modifies this`codes
      ensures codes == old(codes) + Rows(listId, added)
      ensures ValidZips(items) - lost - ZipsOf(old(codes), listId) <= added <= ValidZips(items) - lost
      ensures forall z | FiveDigits(z) && Mentions(items, z) && z !in lost :: (listId, z) in codes
      ensures forall z | z in added :: FiveDigits(z) && Mentions(items, z)
    {
      var existing := ZipsOf(codes, listId);
      added := {};
      for i := 0 to |items|
        invariant codes == old(codes) + Rows(listId, added)
        invariant ValidZips(items[..i]) - lost - existing <= added <= ValidZips(items[..i]) - lost
      {
        ZipsSoFar(items, i);
        if items[i].StringValue? {
          var zip := Trim(items[i].s);
          if IsZip(zip) {
            if zip !in existing {
              if zip !in lost {
                codes := codes + {(listId, zip)};
                added := added + {zip};
              }
            }
          }
        }
      }
      assert items[..|items|] == items;
      forall z: string ensures z in ValidZips(items) <==> FiveDigits(z) && Mentions(items, z) {
        ValidZipsExactly(items, z);
      }
    }

    /** Stores a payload's ZIP codes: the view gains them, and no other view changes.  Finding or creating the list may
        fail, or reading its codes after that; then no view changes, though a new list may stay behind. */
    method StoreZips(buyer: string, kind: Kind, items: seq<JsonValue>, freshId: string, now: int, lost: set<string>,
                     fault: WriteFault) returns (ok: bool)
      requires Valid() && freshId !in lists
      modifies this
      ensures ok == fault.NoFault?
      ensures Valid() && lists.Keys <= old(lists).Keys + {freshId}
      ensures View(buyer, kind) == old(View(buyer, kind)) + if ok then ValidZips(items) - lost else {}
      ensures ok ==> forall z | FiveDigits(z) && Mentions(items, z) && z !in lost :: z in View(buyer, kind)
      ensures forall b, k | b != buyer || k != kind :: View(b, k) == old(View(b, k))
      ensures lists == old(lists) || (!fault.NotApplied? && ListsOf(old(lists), buyer, kind) == {}
                                      && lists == old(lists)[freshId := ZipList(buyer, kind, now)])
    {
      if fault.NotApplied? {
        return false;
      }
      var listId := FindOrCreateZipList(buyer, kind, freshId, now);
      forall b, k ensures View(b, k) == old(View(b, k)) {
        NewListIsEmpty(old(lists), lists, old(codes), b, k);
      }
      if fault.AppliedUnacked? {
        return false;
      }
      ghost var existing := ZipsOf(codes, listId);
      ghost var added := AddZips(listId, items, lost);
      assert existing <= ViewOf(lists, old(codes), buyer, kind) by {
        assert listId in ListsOf(lists, buyer, kind);
      }
      forall b, k
        ensures View(b, k) == old(View(b, k)) + if b == buyer && k == kind then added else {}
      {
        RowsAdded(lists, old(codes), listId, added, b, k);
      }
      forall z: string | FiveDigits(z) && Mentions(items, z) ensures z in ValidZips(items) {
        ValidZipsExactly(items, z);
      }
      return true;
    }

    /** Moves the ZIP codes of a config into the tables and takes the moved keys out of the config.  A kind that fails
        stays in the config, and so does the next. */
    method ExtractAndStoreZipCodes(buyer: string, config: Config, freshBlack: string, freshWhite: string, now: int,
                                   lost: set<string>, black: WriteFault, white: WriteFault)
      returns (ok: bool, config': Config)
      requires Valid() && freshBlack !in lists && freshWhite !in lists && freshBlack != freshWhite
      modifies this
      ensures Valid()
      ensures forall b, k | b != buyer :: View(b, k) == old(View(b, k))
      ensures ok <==> (HasArray(config, Blacklist) ==> black.NoFault?) && (HasArray(config, Whitelist) ==> white.NoFault?)
      ensures (HasArray(config, Blacklist) ==> black.NoFault?) ==>
        Moved(config, Blacklist, lost, old(View(buyer, Blacklist)), config', View(buyer, Blacklist))
      ensures ok ==> Moved(config, Whitelist, lost, old(View(buyer, Whitelist)), config', View(buyer, Whitelist))
      ensures !ok ==> Kept(config, Whitelist, old(View(buyer, Whitelist)), config', View(buyer, Whitelist))
      ensures HasArray(config, Blacklist) && !black.NoFault? ==>
        Kept(config, Blacklist, old(View(buyer, Blacklist)), config', View(buyer, Blacklist))
      ensures config' == config - (set k | HasArray(config, k) && !HasArray(config', k) :: ConfigKey(k))
      ensures ok ==> forall k, z | FiveDigits(z) && Mentions(Listed(config, k), z) && z !in lost :: z in View(buyer, k)
    {
      forall k, z: string | FiveDigits(z) && Mentions(Listed(config, k), z) ensures z in ValidZips(Listed(config, k)) {
        ValidZipsExactly(Listed(config, k), z);
      }
      ok, config' := true, config;
      if HasArray(config, Blacklist) {
        ok := StoreZips(buyer, Blacklist, config[ConfigKey(Blacklist)].items, freshBlack, now, lost, black);
        if !ok {
          return;
        }
        config' := config' - {ConfigKey(Blacklist)};
      }
      if HasArray(config, Whitelist) {
        ok := StoreZips(buyer, Whitelist, config[ConfigKey(Whitelist)].items, freshWhite, now, lost, white);
        if !ok {
          return;
        }
        config' := config' - {ConfigKey(Whitelist)};
      }
    }

    /** A buyer's ZIP codes of both kinds, sorted and without duplicates. */
    method LoadZipCodes(buyer: string) returns (black: seq<string>, white: seq<string>)
      ensures Listing(black, View(buyer, Blacklist)) && Listing(white, View(buyer, Whitelist))
    {
      black := SelectOrdered(View(buyer, Blacklist));
      white := SelectOrdered(View(buyer, Whitelist));
    }

    /** Saving a rule set just as it was read changes no view, whatever lists the buyer has and whatever inserts
        fail, and stores the config without its ZIP keys. */
    method SaveBack(buyer: string, stored: Config, freshBlack: string, freshWhite: string, now: int, lost: set<string>)
      returns (config': Config)
      requires Valid() && freshBlack !in lists && freshWhite !in lists && freshBlack != freshWhite
      modifies this
      ensures Valid() && forall b, k :: View(b, k) == old(View(b, k))
      ensures config' == stored - {ConfigKey(Blacklist), ConfigKey(Whitelist)}
    {
      var black, white := LoadZipCodes(buyer);
      LoadedAddsNothing(black, View(buyer, Blacklist));
      LoadedAddsNothing(white, View(buyer, Whitelist));
      var merged := Merge(Merge(stored, Blacklist, black), Whitelist, white);
      MergedConfig(stored, black, white);
      var ok;
      ok, config' := ExtractAndStoreZipCodes(buyer, merged, freshBlack, freshWhite, now, lost, NoFault, NoFault);
      forall k ensures View(buyer, k) == old(View(buyer, k)) && !HasArray(config', k) {
        assert Moved(merged, k, lost, old(View(buyer, k)), config', View(buyer, k));
        assert k == Blacklist || k == Whitelist;
      }
      WithoutArrays(stored, merged, config');
    }
  }

  lemma MergedConfig(stored: Config, black: seq<string>, white: seq<string>)
    ensures var merged := Merge(Merge(stored, Blacklist, black), Whitelist, white);
      && Listed(merged, Blacklist) == Strings(black)
      && Listed(merged, Whitelist) == Strings(white)
      && (forall k :: ConfigKey(k) in merged ==> HasArray(merged, k))
      && (ConfigKey(Blacklist) in merged <==> black != []) && (ConfigKey(Whitelist) in merged <==> white != [])
      && merged - {ConfigKey(Blacklist), ConfigKey(Whitelist)} == stored - {ConfigKey(Blacklist), ConfigKey(Whitelist)}
  {
    DifferentKeys();
  }

  lemma DifferentKeys()
    ensures ConfigKey(Blacklist) != ConfigKey(Whitelist)
  {
    assert ConfigKey(Blacklist)[4] != ConfigKey(Whitelist)[4];
  }

  lemma WithoutArrays(stored: Config, merged: Config, config': Config)
    requires forall k :: (ConfigKey(k) in merged ==> HasArray(merged, k)) && !HasArray(config', k)
    requires config' == merged - (set k | HasArray(merged, k) && !HasArray(config', k) :: ConfigKey(k))
    requires var keys := {ConfigKey(Blacklist), ConfigKey(Whitelist)}; merged - keys == stored - keys
    ensures config' == stored - {ConfigKey(Blacklist), ConfigKey(Whitelist)}
  {
    var keys := {ConfigKey(Blacklist), ConfigKey(Whitelist)};
    var gone := set k | HasArray(merged, k) && !HasArray(config', k) :: ConfigKey(k);
    forall k: Kind ensures ConfigKey(k) in keys {
      assert k == Blacklist || k == Whitelist;
    }
    assert forall k :: ConfigKey(k) in merged ==> ConfigKey(k) in gone;
    assert merged - gone == merged - keys;
  }

  predicate HasArray(config: Config, kind: Kind) {
    ConfigKey(kind) in config && config[ConfigKey(kind)].Array?
  }

  /** The ZIP codes of a kind are in the tables, but for those whose insert failed, and no longer in the config. */
  predicate Moved(config: Config, kind: Kind, lost: set<string>, before: set<string>, config': Config, after: set<string>) {
    after == before + (ValidZips(Listed(config, kind)) - lost) && !HasArray(config', kind)
  }

  /** Nothing has happened to the ZIP codes of a kind. */
  predicate Kept(config: Config, kind: Kind, before: set<string>, config': Config, after: set<string>) {
    after == before && Listed(config', kind) == Listed(config, kind)
  }

  /** The strings of a set in strictly ascending order. */
  ghost predicate Listing(zips: seq<string>, s: set<string>) {
    && (forall i, j | 0 <= i < j < |zips| :: Leq(zips[i], zips[j]) && zips[i] != zips[j])
    && (forall z :: z in zips <==> z in s)
  }

  method SelectOrdered(s: set<string>) returns (zips: seq<string>)
    ensures Listing(zips, s)
  {
    zips := [];
    var rest := s;
    while rest != {}
      invariant rest <= s && forall z :: z in zips <==> z in s - rest
      invariant forall i, j | 0 <= i < j < |zips| :: Leq(zips[i], zips[j]) && zips[i] != zips[j]
      invariant forall i | 0 <= i < |zips| :: zips[i] !in rest && forall z <- rest :: Leq(zips[i], z)
      decreases rest
    {
      LeqHasLeast(rest);
      var least :| least in rest && forall z <- rest :: Leq(least, z);
      zips := zips + [least];
      rest := rest - {least};
    }
  }

  function Strings(zips: seq<string>): seq<JsonValue> {
    seq(|zips|, i requires 0 <= i < |zips| => StringValue(zips[i]))
  }

  /** What a reader of a rule set sees: the ZIP codes of the tables in place of those in the config. */
  function Merge(config: Config, kind: Kind, zips: seq<string>): Config {
    if zips != [] then config[ConfigKey(kind) := Array(Strings(zips))] else config - {ConfigKey(kind)}
  }

  /** The ZIP codes that were loaded are no news to the table they came from. */
  lemma LoadedAddsNothing(zips: seq<string>, view: set<string>)
    requires Listing(zips, view) && forall z <- view :: |z| <= 5
    ensures ValidZips(Strings(zips)) <= view
  {
    forall v <- Strings(zips) | IsZip(Trim(v.s)) ensures Trim(v.s) in view {
      TrimShortens(v.s);
    }
  }

  /** A sorted listing is unique, so readers see the same sequence whatever lists the ZIP codes are in. */
  lemma ListingIsUnique(a: seq<string>, b: seq<string>, s: set<string>)
    requires Listing(a, s) && Listing(b, s)
    ensures a == b
    decreases |a|
  {
    EmptyListing(a, s);
    EmptyListing(b, s);
    if s != {} {
      assert a[0] in b && b[0] in a;
      LeqTotal(a[0], b[0]);
      assert a[0] == b[0];
      ListingTail(a, s);
      ListingTail(b, s);
      ListingIsUnique(a[1..], b[1..], s - {a[0]});
      assert a == [a[0]] + a[1..] && b == [b[0]] + b[1..];
    }
  }

  lemma EmptyListing(a: seq<string>, s: set<string>)
    requires Listing(a, s)
    ensures a == [] <==> s == {}
  {
    if a == [] {
      assert forall z :: z in s ==> z in a;
    } else {
      assert a[0] in s;
    }
  }

  lemma ListingTail(a: seq<string>, s: set<string>)
    requires Listing(a, s) && a != []
    ensures Listing(a[1..], s - {a[0]})
  {
    forall z ensures z in a[1..] <==> z in s - {a[0]} {
      if z in s - {a[0]} {
        assert z in a;
        var i :| 0 <= i < |a| && a[i] == z;
        assert a[1..][i - 1] == z;
      }
    }
  }

  function ZipsOf(codes: Codes, listId: string): set<string> {
    set p <- codes | p.0 == listId :: p.1
  }

  function Rows(id: string, zips: set<string>): Codes {
    set z <- zips :: (id, z)
  }

  lemma NewListIsEmpty(lists: Lists, lists': Lists, codes: Codes, b: string, k: Kind)
    requires Consistent(lists, codes) && forall id <- lists :: id in lists' && lists'[id] == lists[id]
    ensures ViewOf(lists', codes, b, k) == ViewOf(lists, codes, b, k)
  {
    assert forall p <- codes :: p.0 in ListsOf(lists, b, k) <==> p.0 in ListsOf(lists', b, k);
  }

  lemma RowsAdded(lists: Lists, codes: Codes, id: string, zips: set<string>, b: string, k: Kind)
    requires id in lists
    ensures ViewOf(lists, codes + Rows(id, zips), b, k) ==
      ViewOf(lists, codes, b, k) + if lists[id].buyer == b && lists[id].kind == k then zips else {}
  {
    var view := ViewOf(lists, codes + Rows(id, zips), b, k);
    forall z <- zips | lists[id].buyer == b && lists[id].kind == k ensures z in view {
      assert (id, z) in codes + Rows(id, zips) && id in ListsOf(lists, b, k);
    }
    forall z <- ViewOf(lists, codes, b, k) ensures z in view {
      var p :| p in codes && p.0 in ListsOf(lists, b, k) && p.1 == z;
      assert p in codes + Rows(id, zips);
    }
  }

  lemma ZipsSoFar(items: seq<JsonValue>, i: nat)
    requires i < |items|
    ensures ValidZips(items[..i + 1]) == ValidZips(items[..i]) +
      if items[i].StringValue? && IsZip(Trim(items[i].s)) then {Trim(items[i].s)} else {}
  {
    assert items[..i + 1] == items[..i] + [items[i]];
  }

  lemma OldestExists(lists: Lists, candidates: set<string>)
    requires candidates != {} && candidates <= lists.Keys
    ensures exists id :: id in candidates && forall d <- candidates :: lists[id].createdAt <= lists[d].createdAt
  {
    var older := (a: string, b: string) =>
      a !in lists || (b in lists && lists[a].createdAt <= lists[b].createdAt);
    LeastExists(older, candidates);
    var id :| id in candidates && forall d <- candidates :: older(id, d);
    assert forall d <- candidates :: older(id, d) && lists[id].createdAt <= lists[d].createdAt;
  }
}
