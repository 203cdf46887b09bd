/**
 * The inventory ledger behind `ItemsController.PostAsync`: a create-or-increment
 * on a store of inventory records keyed by (user, catalog item).
 *
 * The store is a sequence in insertion order. Looking a key up yields the first
 * record with that key; under `KeysUnique` that record is the only one.
 */
module Ledger {
  import opened Wrappers
  import opened Entities

  type Store = seq<InventoryItem>

  /** At most one record per (user, catalog item) pair. */
  ghost predicate KeysUnique(s: Store) {
    forall i, j :: 0 <= i < j < |s| ==> KeyOf(s[i]) != KeyOf(s[j])
  }

  /** The position of the first record with key `k`, if any. */
  function FindIndex(s: Store, k: Key): (r: Option<nat>)
    ensures r.None? <==> forall i :: 0 <= i < |s| ==> KeyOf(s[i]) != k
    ensures r.Some? ==> r.value < |s| && KeyOf(s[r.value]) == k
    ensures r.Some? ==> forall i :: 0 <= i < r.value ==> KeyOf(s[i]) != k
  {
    if |s| == 0 then None
    else if KeyOf(s[0]) == k then Some(0)
    else
      match FindIndex(s[1..], k)
      case None => None
      case Some(i) => Some(i + 1)
  }

  /** The repository's `GetAsync(filter)`: the first record with key `k`, or null. */
  function Lookup(s: Store, k: Key): (r: Option<InventoryItem>)
    ensures r.None? <==> forall i :: 0 <= i < |s| ==> KeyOf(s[i]) != k
    ensures r.Some? ==> r.value in s && KeyOf(r.value) == k
  {
    match FindIndex(s, k)
    case None => None
    case Some(i) => Some(s[i])
  }

  /** The repository's `UpdateAsync`: replaces the stored record with the item's key. */
  function Update(s: Store, item: InventoryItem): Store {
    match FindIndex(s, KeyOf(item))
    case None => s
    case Some(i) => s[i := item]
  }

  /**
   * An update changes no key and no record with another key; when a record with
   * the item's key exists, the item is stored.
   */
  lemma UpdateFrame(s: Store, item: InventoryItem)
    ensures |Update(s, item)| == |s|
    ensures forall j :: 0 <= j < |s| ==> KeyOf(Update(s, item)[j]) == KeyOf(s[j])
    ensures forall j :: 0 <= j < |s| && KeyOf(s[j]) != KeyOf(item) ==> Update(s, item)[j] == s[j]
    ensures Lookup(s, KeyOf(item)).Some? ==> item in Update(s, item)
  {
  }

  /** Looking a key up after updating the record with that key yields the updated item. */
  lemma UpdateThenLookup(s: Store, item: InventoryItem)
    requires Lookup(s, KeyOf(item)).Some?
    ensures Lookup(Update(s, item), KeyOf(item)) == Some(item)
  {
    var i := FindIndex(s, KeyOf(item)).value;
    FindIndexAt(s[i := item], KeyOf(item), i);
  }

  /** The status a grant request answers with. */
  datatype PostStatus = Ok | BadRequest

  datatype PostResult = PostResult(store: Store, status: PostStatus)

  /**
   * The shape of `PostAsync`: look the key up; if absent, create a record holding
   * `created` units acquired `now`; then add the granted quantity to the record
   * and write it back. No input is validated and the answer is always Ok.
   */
  function Grant(s: Store, grant: GrantItems, now: Instant, created: int): (r: PostResult)
    ensures r.status == Ok
    ensures FindIndex(s, GrantKey(grant)).Some? ==>
              var i := FindIndex(s, GrantKey(grant)).value;
              && |r.store| == |s|
              && r.store[i] == s[i].(quantity := s[i].quantity + grant.quantity)
              && forall j :: 0 <= j < |s| && j != i ==> r.store[j] == s[j]
    ensures FindIndex(s, GrantKey(grant)).None? ==>
              r.store == s + [InventoryItem(grant.userId, grant.catalogItemId, created + grant.quantity, now)]
  {
    var existing := Lookup(s, GrantKey(grant));
    var newItem := InventoryItem(grant.userId, grant.catalogItemId, created, now);
    var item := if existing.None? then newItem else existing.value;
    var stored := if existing.None? then s + [newItem] else s;
    var incremented := item.(quantity := item.quantity + grant.quantity);
    PostResult(Update(stored, incremented), Ok)
  }

  /**
   * `PostAsync` as written: a new record is created with the granted quantity and
   * then incremented by it again, so a first grant of q stores 2q.
   */
  function Post(s: Store, grant: GrantItems, now: Instant): (r: PostResult)
    ensures r.status == Ok
    ensures FindIndex(s, GrantKey(grant)).Some? ==>
              var i := FindIndex(s, GrantKey(grant)).value;
              && |r.store| == |s|
              && r.store[i] == s[i].(quantity := s[i].quantity + grant.quantity)
              && forall j :: 0 <= j < |s| && j != i ==> r.store[j] == s[j]
    ensures FindIndex(s, GrantKey(grant)).None? ==>
              r.store == s + [InventoryItem(grant.userId, grant.catalogItemId, 2 * grant.quantity, now)]
  {
    Grant(s, grant, now, grant.quantity)
  }

  /** The evidently intended grant: a new record starts empty, so a first grant of q stores q. */
  function PostCorrected(s: Store, grant: GrantItems, now: Instant): (r: PostResult)
    ensures r.status == Ok
    ensures FindIndex(s, GrantKey(grant)).Some? ==>
              var i := FindIndex(s, GrantKey(grant)).value;
              && |r.store| == |s|
              && r.store[i] == s[i].(quantity := s[i].quantity + grant.quantity)
              && forall j :: 0 <= j < |s| && j != i ==> r.store[j] == s[j]
    ensures FindIndex(s, GrantKey(grant)).None? ==>
              r.store == s + [InventoryItem(grant.userId, grant.catalogItemId, grant.quantity, now)]
  {
    Grant(s, grant, now, 0)
  }

  /** A grant stays within its own key: the store keeps at most one record per key and holds one for the granted key. */
  lemma PostPreservesUniqueKeys(s: Store, grant: GrantItems, now: Instant)
    requires KeysUnique(s)
    ensures KeysUnique(Post(s, grant, now).store)
    ensures FindIndex(Post(s, grant, now).store, GrantKey(grant)).Some?
  {
    var r := Post(s, grant, now).store;
    match FindIndex(s, GrantKey(grant))
    case Some(i) =>
      assert KeyOf(r[i]) == KeyOf(s[i]);
      forall a, b | 0 <= a < b < |r|
        ensures KeyOf(r[a]) != KeyOf(r[b])
      {
        assert KeyOf(r[a]) == KeyOf(s[a]) && KeyOf(r[b]) == KeyOf(s[b]);
      }
    case None =>
      forall a, b | 0 <= a < b < |r|
        ensures KeyOf(r[a]) != KeyOf(r[b])
      {
        if b < |s| {
          assert r[a] == s[a] && r[b] == s[b];
        } else {
          assert r[a] == s[a] && KeyOf(r[b]) == GrantKey(grant);
        }
      }
      assert KeyOf(r[|s|]) == GrantKey(grant);
  }

  /** Which grant implementation a replay runs. */
  datatype Variant = AsWritten | Corrected

  /** One grant request together with the clock reading it sees. */
  datatype TimedGrant = TimedGrant(grant: GrantItems, now: Instant)

  /** One grant under the chosen implementation. */
  function Step(s: Store, g: TimedGrant, v: Variant): PostResult {
    match v
    case AsWritten => Post(s, g.grant, g.now)
    case Corrected => PostCorrected(s, g.grant, g.now)
  }

  /** Processes grant requests one after another. */
  function Replay(s: Store, gs: seq<TimedGrant>, v: Variant): Store
    decreases |gs|
  {
    if |gs| == 0 then s else Replay(Step(s, gs[0], v).store, gs[1..], v)
  }

  /** The sum of the quantities the requests grant. */
  function TotalGranted(gs: seq<TimedGrant>): int {
    if |gs| == 0 then 0 else gs[0].grant.quantity + TotalGranted(gs[1..])
  }

  ghost predicate AllFor(gs: seq<TimedGrant>, k: Key) {
    forall n :: 0 <= n < |gs| ==> GrantKey(gs[n].grant) == k
  }

  lemma AllForTail(gs: seq<TimedGrant>, k: Key)
    requires |gs| > 0 && AllFor(gs, k)
    ensures GrantKey(gs[0].grant) == k && AllFor(gs[1..], k)
  {
  }

  /** A record with key `k` preceded by none is the one `FindIndex` finds. */
  lemma FindIndexAt(s: Store, k: Key, i: nat)
    requires i < |s| && KeyOf(s[i]) == k
    requires forall j :: 0 <= j < i ==> KeyOf(s[j]) != k
    ensures FindIndex(s, k) == Some(i)
  {
  }

  /** One grant to the record at position `i` keeps it the first record with its key. */
  lemma StepOnExisting(s: Store, g: TimedGrant, v: Variant, i: nat)
    requires FindIndex(s, GrantKey(g.grant)) == Some(i)
    ensures var r := Step(s, g, v).store;
            && |r| == |s|
            && r[i] == s[i].(quantity := s[i].quantity + g.grant.quantity)
            && (forall j :: 0 <= j < |s| && j != i ==> r[j] == s[j])
            && FindIndex(r, GrantKey(g.grant)) == Some(i)
  {
  }

  /**
   * Grants to a key that already has a record add their quantities to that record
   * and touch nothing else, under either implementation.
   */
  lemma {:induction false} ReplayOnExisting(s: Store, gs: seq<TimedGrant>, v: Variant, k: Key, i: nat)
    requires AllFor(gs, k)
    requires FindIndex(s, k) == Some(i)
    ensures FindIndex(Replay(s, gs, v), k) == Some(i)
    ensures |Replay(s, gs, v)| == |s|
    ensures Replay(s, gs, v)[i] == s[i].(quantity := s[i].quantity + TotalGranted(gs))
    ensures forall j :: 0 <= j < |s| && j != i ==> Replay(s, gs, v)[j] == s[j]
    decreases |gs|
  {
    if |gs| > 0 {
      AllForTail(gs, k);
      StepOnExisting(s, gs[0], v, i);
      ReplayOnExisting(Step(s, gs[0], v).store, gs[1..], v, k, i);
    }
  }

  /**
   * Sequential grants q1..qn to a key with no record, as written, leave one record
   * holding 2*q1 + q2 + ... + qn units, acquired at the first grant's time, appended
   * after the records that were there.
   */
  lemma {:induction false} SequentialGrantsOnFreshKey(s: Store, gs: seq<TimedGrant>, k: Key)
    requires |gs| > 0 && AllFor(gs, k)
    requires FindIndex(s, k).None?
    ensures |Replay(s, gs, AsWritten)| == |s| + 1
    ensures Replay(s, gs, AsWritten)[..|s|] == s
    ensures Replay(s, gs, AsWritten)[|s|]
            == InventoryItem(k.userId, k.catalogItemId, gs[0].grant.quantity + TotalGranted(gs), gs[0].now)
    ensures FindIndex(Replay(s, gs, AsWritten), k) == Some(|s|)
  {
    FreshKeyReplay(s, gs, k, AsWritten);
  }

  /** The corrected grant makes sequential grants to a fresh key add up to exactly their sum. */
  lemma {:induction false} CorrectedGrantsAdd(s: Store, gs: seq<TimedGrant>, k: Key)
    requires |gs| > 0 && AllFor(gs, k)
    requires FindIndex(s, k).None?
    ensures |Replay(s, gs, Corrected)| == |s| + 1
    ensures Replay(s, gs, Corrected)[..|s|] == s
    ensures Replay(s, gs, Corrected)[|s|]
            == InventoryItem(k.userId, k.catalogItemId, TotalGranted(gs), gs[0].now)
    ensures FindIndex(Replay(s, gs, Corrected), k) == Some(|s|)
  {
    FreshKeyReplay(s, gs, k, Corrected);
  }

  /** Shared step of the two fresh-key lemmas: the first grant creates, the rest increment. */
  lemma {:induction false} FreshKeyReplay(s: Store, gs: seq<TimedGrant>, k: Key, v: Variant)
    requires |gs| > 0 && AllFor(gs, k)
    requires FindIndex(s, k).None?
    ensures |Replay(s, gs, v)| == |s| + 1
    ensures Replay(s, gs, v)[..|s|] == s
    ensures Replay(s, gs, v)[|s|]
            == InventoryItem(k.userId, k.catalogItemId,
                             (if v == AsWritten then gs[0].grant.quantity else 0) + TotalGranted(gs),
                             gs[0].now)
    ensures FindIndex(Replay(s, gs, v), k) == Some(|s|)
  {
    AllForTail(gs, k);
    var s1 := Step(s, gs[0], v).store;
    assert Replay(s, gs, v) == Replay(s1, gs[1..], v);
    StepOnFresh(s, gs[0], v);
    var x := InventoryItem(k.userId, k.catalogItemId,
                           (if v == AsWritten then gs[0].grant.quantity else 0) + gs[0].grant.quantity,
                           gs[0].now);
    assert s1 == s + [x];
    CreatedRecordFound(s, x);
    ReplayOnExisting(s1, gs[1..], v, k, |s|);
  }

  /** The first grant to a key with no record appends its record. */
  lemma StepOnFresh(s: Store, g: TimedGrant, v: Variant)
    requires FindIndex(s, GrantKey(g.grant)).None?
    ensures Step(s, g, v).store
            == s + [InventoryItem(g.grant.userId, g.grant.catalogItemId,
                                  (if v == AsWritten then g.grant.quantity else 0) + g.grant.quantity, g.now)]
  {
  }

  /** Appending a record whose key the store lacks makes it the one found. */
  lemma CreatedRecordFound(s: Store, x: InventoryItem)
    requires FindIndex(s, KeyOf(x)).None?
    ensures FindIndex(s + [x], KeyOf(x)) == Some(|s|)
  {
    FindIndexAt(s + [x], KeyOf(x), |s|);
  }

  /**
   * The two-grant scenario: granting 3 and then 2 units of one item to a user with
   * no records stores 8 units as written, where the sum of the grants is 5.
   */
  lemma TwoGrantsStoreEight(u: Guid, c: Guid, t0: Instant, t1: Instant)
    ensures Replay([], [TimedGrant(GrantItems(u, c, 3), t0), TimedGrant(GrantItems(u, c, 2), t1)], AsWritten)
            == [InventoryItem(u, c, 8, t0)]
  {
    var gs := [TimedGrant(GrantItems(u, c, 3), t0), TimedGrant(GrantItems(u, c, 2), t1)];
    assert AllFor(gs, Key(u, c));
    assert TotalGranted(gs) == 5 by {
      assert gs[1..] == [gs[1]];
      assert [gs[1]][1..] == [];
      assert TotalGranted([gs[1]]) == 2 + TotalGranted([]);
    }
    SequentialGrantsOnFreshKey([], gs, Key(u, c));
  }

  /** The same scenario under the corrected grant stores 5 units. */
  lemma TwoGrantsCorrectedStoreFive(u: Guid, c: Guid, t0: Instant, t1: Instant)
    ensures Replay([], [TimedGrant(GrantItems(u, c, 3), t0), TimedGrant(GrantItems(u, c, 2), t1)], Corrected)
            == [InventoryItem(u, c, 5, t0)]
  {
    var gs := [TimedGrant(GrantItems(u, c, 3), t0), TimedGrant(GrantItems(u, c, 2), t1)];
    assert AllFor(gs, Key(u, c));
    assert TotalGranted(gs) == 5 by {
      assert gs[1..] == [gs[1]];
      assert [gs[1]][1..] == [];
      assert TotalGranted([gs[1]]) == 2 + TotalGranted([]);
    }
    CorrectedGrantsAdd([], gs, Key(u, c));
  }
}
