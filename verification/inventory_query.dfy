/**
 * The query behind `ItemsController.GetAsync`: reject the empty user id, fetch the
 * catalog, select the user's records and join each with the single catalog item
 * that carries its catalog id.
 *
 * The catalog fetch is an input: `None` stands for a fetch that threw after the
 * resilience policies gave up.
 */
module InventoryQuery {
  import opened Wrappers
  import opened Entities
  import Ledger

  /** The repository's `GetAllAsync(item => item.UserId == userId)`: the user's records in store order. */
  function UserRecords(s: Ledger.Store, u: Guid): (r: seq<InventoryItem>)
    ensures |r| <= |s|
    ensures forall x :: x in r <==> x in s && x.userId == u
  {
    if |s| == 0 then []
    else
      assert forall x :: x in s <==> x == s[0] || x in s[1..];
      (if s[0].userId == u then [s[0]] else []) + UserRecords(s[1..], u)
  }

  /** Selecting distributes over concatenation: the selection keeps store order. */
  lemma {:induction false} UserRecordsAppend(a: Ledger.Store, b: Ledger.Store, u: Guid)
    ensures UserRecords(a + b, u) == UserRecords(a, u) + UserRecords(b, u)
    decreases |a|
  {
    if |a| == 0 {
      assert a + b == b;
    } else {
      assert (a + b)[0] == a[0];
      assert (a + b)[1..] == a[1..] + b;
      UserRecordsAppend(a[1..], b, u);
    }
  }

  /** What `SingleOrDefault(item => item.Id == id)` finds in the catalog. */
  datatype CatalogMatch = NoMatch | Single(item: CatalogItem) | Multiple

  /**
   * Looks a catalog id up: no item, exactly one item, or more than one (where
   * `SingleOrDefault` throws).
   */
  function SingleOrDefault(catalog: seq<CatalogItem>, id: Guid): (r: CatalogMatch)
    ensures r.NoMatch? <==> forall j :: 0 <= j < |catalog| ==> catalog[j].id != id
    ensures r.Multiple? <==>
              exists a, b :: 0 <= a < b < |catalog| && catalog[a].id == id && catalog[b].id == id
    ensures r.Single? ==> r.item in catalog && r.item.id == id
    ensures r.Single? ==> forall j :: 0 <= j < |catalog| && catalog[j].id == id ==> catalog[j] == r.item
  {
    if |catalog| == 0 then NoMatch
    else
      var rest := SingleOrDefault(catalog[1..], id);
      assert forall j :: 0 < j < |catalog| ==> catalog[j] == catalog[1..][j - 1];
      if catalog[0].id != id then
        assert forall a, b :: 0 <= a < b < |catalog| && catalog[a].id == id && catalog[b].id == id ==>
                 catalog[1..][a - 1].id == id && catalog[1..][b - 1].id == id;
        rest
      else if rest.NoMatch? then Single(catalog[0])
      else
        assert exists b :: 0 <= b < |catalog[1..]| && catalog[1..][b].id == id;
        var b :| 0 <= b < |catalog[1..]| && catalog[1..][b].id == id;
        assert catalog[0].id == id && catalog[b + 1].id == id;
        Multiple
  }

  /** Why a query cannot be answered. */
  datatype QueryFault =
    | CatalogUnavailable
    | CatalogItemMissing(catalogItemId: Guid)
    | CatalogItemNotUnique(catalogItemId: Guid)

  /**
   * The fault a record raises when its catalog id does not match exactly one item:
   * a null dereference when none matches, an invalid-operation error when several do.
   */
  function JoinFault(m: CatalogMatch, id: Guid): (f: QueryFault)
    ensures !f.CatalogUnavailable? && f.catalogItemId == id
    ensures f.CatalogItemNotUnique? <==> m.Multiple?
  {
    if m.Multiple? then CatalogItemNotUnique(id) else CatalogItemMissing(id)
  }

  /** A record can be joined when its catalog id matches exactly one catalog item. */
  predicate Joinable(catalog: seq<CatalogItem>, record: InventoryItem) {
    SingleOrDefault(catalog, record.catalogItemId).Single?
  }

  /**
   * The lazy `Select` over the user's records, evaluated in order: each record is
   * paired with its catalog item's name and description; the first record whose
   * catalog id does not match exactly one item aborts the whole answer.
   */
  function Join(records: seq<InventoryItem>, catalog: seq<CatalogItem>): (r: Result<seq<InventoryItemDto>, QueryFault>)
    ensures r.Success? <==> forall i :: 0 <= i < |records| ==> Joinable(catalog, records[i])
    ensures r.Success? ==> |r.value| == |records|
    ensures r.Success? ==>
              forall i :: 0 <= i < |records| ==>
                var m := SingleOrDefault(catalog, records[i].catalogItemId);
                m.Single? && r.value[i] == AsDto(records[i], m.item.name, m.item.description)
  {
    if |records| == 0 then Success([])
    else
      var id := records[0].catalogItemId;
      var m := SingleOrDefault(catalog, id);
      if !m.Single? then Failure(JoinFault(m, id))
      else
        var tail := Join(records[1..], catalog);
        assert forall i :: 0 < i < |records| ==> records[i] == records[1..][i - 1];
        match tail
        case Failure(e) => Failure(e)
        case Success(rest) => Success([AsDto(records[0], m.item.name, m.item.description)] + rest)
  }

  /**
   * A join that fails reports the first record that cannot be joined: every record
   * before it matches one catalog item, and the fault names its catalog id.
   */
  lemma {:induction false} JoinFailsAtFirstUnjoinable(records: seq<InventoryItem>, catalog: seq<CatalogItem>)
    returns (i: nat)
    requires Join(records, catalog).Failure?
    ensures i < |records|
    ensures forall k :: 0 <= k < i ==> Joinable(catalog, records[k])
    ensures !Joinable(catalog, records[i])
    ensures Join(records, catalog).error
            == JoinFault(SingleOrDefault(catalog, records[i].catalogItemId), records[i].catalogItemId)
  {
    if Joinable(catalog, records[0]) {
      var tail := records[1..];
      assert Join(records, catalog).error == Join(tail, catalog).error;
      var j := JoinFailsAtFirstUnjoinable(tail, catalog);
      i := j + 1;
      assert records[i] == tail[j];
      forall k | 0 <= k < i ensures Joinable(catalog, records[k]) {
        if k > 0 {
          assert records[k] == tail[k - 1];
        }
      }
    } else {
      i := 0;
    }
  }

  /** The answer to a query. */
  datatype QueryResult =
    | Ok(items: seq<InventoryItemDto>)
    | BadRequest(message: string)
    | Fault(fault: QueryFault)

  /**
   * `GetAsync`: the empty user id is rejected before the catalog or the store is
   * consulted; a failed catalog fetch fails the query; otherwise the user's records
   * are joined with the catalog.
   */
  function Get(s: Ledger.Store, catalog: Option<seq<CatalogItem>>, userId: Guid): (r: QueryResult)
    ensures userId == EmptyGuid ==> r == BadRequest("userId is null")
    ensures r.BadRequest? <==> userId == EmptyGuid
    ensures userId != EmptyGuid && catalog.None? ==> r == Fault(CatalogUnavailable)
    ensures userId != EmptyGuid && catalog.Some? ==>
              (r.Ok? <==>
                 forall x :: x in s && x.userId == userId ==> SingleOrDefault(catalog.value, x.catalogItemId).Single?)
    ensures r.Ok? ==>
              && catalog.Some?
              && |r.items| == |UserRecords(s, userId)|
              && forall i :: 0 <= i < |r.items| ==>
                   var record := UserRecords(s, userId)[i];
                   && record in s && record.userId == userId
                   && exists j :: 0 <= j < |catalog.value|
                        && catalog.value[j].id == record.catalogItemId
                        && r.items[i] == AsDto(record, catalog.value[j].name, catalog.value[j].description)
    ensures r.Fault? && catalog.Some? ==>
              exists x :: x in s && x.userId == userId
                && !SingleOrDefault(catalog.value, x.catalogItemId).Single?
                && r.fault == JoinFault(SingleOrDefault(catalog.value, x.catalogItemId), x.catalogItemId)
  {
    if userId == EmptyGuid then BadRequest("userId is null")
    else if catalog.None? then Fault(CatalogUnavailable)
    else
      var records := UserRecords(s, userId);
      assert forall i :: 0 <= i < |records| ==> records[i] in records;
      match Join(records, catalog.value)
      case Success(items) =>
        assert forall i :: 0 <= i < |items| ==>
                 var m := SingleOrDefault(catalog.value, records[i].catalogItemId);
                 m.item in catalog.value && m.item.id == records[i].catalogItemId;
        Ok(items)
      case Failure(e) =>
        assert exists i :: 0 <= i < |records| && !Joinable(catalog.value, records[i])
                 && e == JoinFault(SingleOrDefault(catalog.value, records[i].catalogItemId), records[i].catalogItemId) by {
          var i := JoinFailsAtFirstUnjoinable(records, catalog.value);
        }
        Fault(e)
  }

  lemma UserRecordsOfOther(x: InventoryItem, u: Guid)
    requires x.userId != u
    ensures UserRecords([x], u) == []
  {
  }

  /** Replacing a record of another user by a record of another user leaves the selection alone. */
  lemma UserRecordsReplaceOther(s: Ledger.Store, i: nat, x: InventoryItem, u: Guid)
    requires i < |s| && s[i].userId != u && x.userId != u
    ensures UserRecords(s[i := x], u) == UserRecords(s, u)
  {
    var pre, post := s[..i], s[i + 1..];
    assert s == (pre + [s[i]]) + post;
    assert s[i := x] == (pre + [x]) + post;
    UserRecordsAppend(pre + [s[i]], post, u);
    UserRecordsAppend(pre, [s[i]], u);
    UserRecordsAppend(pre + [x], post, u);
    UserRecordsAppend(pre, [x], u);
    UserRecordsOfOther(s[i], u);
    UserRecordsOfOther(x, u);
  }

  /** A grant to one user leaves every other user's query selection exactly as it was. */
  lemma PostInvisibleToOtherUsers(s: Ledger.Store, g: GrantItems, now: Instant, u: Guid)
    requires g.userId != u
    ensures UserRecords(Ledger.Post(s, g, now).store, u) == UserRecords(s, u)
  {
    var r := Ledger.Post(s, g, now).store;
    match Ledger.FindIndex(s, GrantKey(g))
    case None =>
      var added := InventoryItem(g.userId, g.catalogItemId, 2 * g.quantity, now);
      assert r == s + [added];
      UserRecordsAppend(s, [added], u);
      UserRecordsOfOther(added, u);
    case Some(i) =>
      assert r == s[i := r[i]];
      UserRecordsReplaceOther(s, i, r[i], u);
  }

  /**
   * The grant-then-query scenario as written: granting 3 and then 2 units of a
   * catalog item to a user with nothing, then querying that user against a catalog
   * listing the item once, answers one entry of 8 units acquired at the first grant.
   */
  lemma GrantsThenQueryScenario(u: Guid, c: Guid, name: string, description: string, t0: Instant, t1: Instant)
    requires u != EmptyGuid
    ensures Get(Ledger.Replay([], [Ledger.TimedGrant(GrantItems(u, c, 3), t0),
                                   Ledger.TimedGrant(GrantItems(u, c, 2), t1)], Ledger.AsWritten),
                Some([CatalogItem(c, name, description)]), u)
            == QueryResult.Ok([InventoryItemDto(c, name, description, 8, t0)])
  {
    var stored := InventoryItem(u, c, 8, t0);
    Ledger.TwoGrantsStoreEight(u, c, t0, t1);
    var catalog := [CatalogItem(c, name, description)];
    assert UserRecords([stored], u) == [stored] by {
      assert [stored][1..] == [];
    }
    assert SingleOrDefault(catalog, c) == Single(catalog[0]) by {
      assert catalog[1..] == [];
    }
    assert Join([stored], catalog).Success?;
  }
}
