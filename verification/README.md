# Catalog.Inventory — inventory ledger, query join and retry arithmetic

This project models the core of the Catalog.Inventory service in Dafny.

- **Grant (`ItemsController.PostAsync`).** A create-or-increment on the store of inventory records, keyed by (user id, catalog item id). It looks the key up. If the key is absent, it creates a record holding the granted quantity, acquired now. It then adds the granted quantity to the record unconditionally and writes the record back. The answer is always Ok.
- **Query (`ItemsController.GetAsync`).** The empty user id is rejected before anything else happens. Otherwise the catalog is fetched, the user's records are selected in store order, and each record is joined with the one catalog item carrying its id. A record whose catalog id matches no item, or more than one, aborts the answer.
- **Resilience arithmetic (`Startup.ConfigureServices`).** The exponential backoff `2^n` seconds before retry `n`, the budget of 5 retries, the failures both the retry and the circuit-breaker policies handle (transient HTTP errors or a timeout rejection), and the configured constants: breaker threshold 3, break duration 15 s, per-attempt timeout 1 s.

The store is a sequence of records in insertion order. The catalog fetch is an input (`None` when the fetch threw), and the clock is a `now` parameter. `Guid` is a 128-bit value whose all-zero value is `Guid.Empty`.

The service validates nothing, does not make the read-create-update atomic, and fails a query whose records it cannot join; the model follows the code:

- a first grant stores twice the requested quantity;
- grant quantities and ids are not validated;
- a missing or duplicated catalog item fails the query;
- a failed catalog fetch fails the query.

Modules:

- `Wrappers` (wrappers.dfy): `Option` and `Result`.
- `Entities` (entities.dfy): identifiers, timestamps, catalog items, inventory records and request and answer payloads.
- `Ledger` (ledger.dfy): the grant and sequential grants.
- `InventoryQuery` (inventory_query.dfy): the query.
- `Resilience` (resilience.dfy): backoff, retry budget, failure classification and constants.

## Model

| member | source | states |
|---|---|---|
| Ledger.Lookup | src/Catalog.Inventory.Service/Controllers/ItemsController.cs:48-49 | the lookup finds nothing exactly when no stored record has the (user, item) key; otherwise it yields a stored record with that key |
| Ledger.UpdateFrame | src/Catalog.Inventory.Service/Controllers/ItemsController.cs:65 | `Update` is the definition of the write-back; an update keeps the store's length and every position's key, leaves records with other keys untouched, and stores the item when its key is present |
| Ledger.UpdateThenLookup | src/Catalog.Inventory.Service/Controllers/ItemsController.cs:48-65 | when the key is present, looking it up after the update yields exactly the updated item |
| Ledger.Grant | src/Catalog.Inventory.Service/Controllers/ItemsController.cs:48-67 | read/create/increment/update: an existing record gains exactly the granted quantity, in place, and every other record is unchanged; with no record, one record holding the created quantity plus the grant, acquired now, is appended; the answer is Ok |
| Ledger.Post | src/Catalog.Inventory.Service/Controllers/ItemsController.cs:46-67 | as written: an existing record's quantity grows by exactly q, with ids, acquired date and all other records unchanged; an absent key gets one new record with quantity 2*q acquired now; no validation, always Ok |
| Ledger.PostPreservesUniqueKeys | src/Catalog.Inventory.Service/Controllers/ItemsController.cs:48-65 | a grant on a store with at most one record per key keeps at most one record per key, and the granted key has a record afterwards |
| Ledger.ReplayOnExisting | src/Catalog.Inventory.Service/Controllers/ItemsController.cs:48-65 | sequential grants to a key that has a record leave it at the same position with its quantity increased by the sum of the grants and its acquired date unchanged; no other record changes |
| Ledger.SequentialGrantsOnFreshKey | src/Catalog.Inventory.Service/Controllers/ItemsController.cs:46-67 | grants q1..qn to a key with no record leave exactly one new record, appended after the old ones, holding 2*q1 + q2 + ... + qn units, acquired at the first grant's time |
| Ledger.TwoGrantsStoreEight | src/Catalog.Inventory.Service/Controllers/ItemsController.cs:53-65 | granting 3 then 2 units of one item to an empty store stores 8 units, not their sum 5 |
| Ledger.PostCorrected | src/Catalog.Inventory.Service/Controllers/ItemsController.cs:53-64 | the corrected grant: an absent key gets a record of exactly q units; existing records behave as in the code |
| Ledger.CorrectedGrantsAdd | src/Catalog.Inventory.Service/Controllers/ItemsController.cs:46-67 | under the corrected grant, sequential grants to a fresh key leave one record holding exactly the sum of the grants |
| Ledger.TwoGrantsCorrectedStoreFive | src/Catalog.Inventory.Service/Controllers/ItemsController.cs:53-65 | under the corrected grant, granting 3 then 2 units stores 5 |
| InventoryQuery.UserRecords | src/Catalog.Inventory.Service/Controllers/ItemsController.cs:34 | the selection holds exactly the stored records whose user id is the argument, and no more records than the store |
| InventoryQuery.UserRecordsAppend | src/Catalog.Inventory.Service/Controllers/ItemsController.cs:34 | the selection distributes over concatenation of stores, so it keeps store order |
| InventoryQuery.SingleOrDefault | src/Catalog.Inventory.Service/Controllers/ItemsController.cs:38 | no match exactly when no catalog item has the id; several matches exactly when two positions carry the id; a single match is the only catalog item with that id |
| InventoryQuery.JoinFault | src/Catalog.Inventory.Service/Controllers/ItemsController.cs:38-39 | definition of the per-record fault: it names the record's catalog id, and it is "not unique" exactly when several items match (the lookup throws), otherwise "missing" (the null dereference) |
| InventoryQuery.Join | src/Catalog.Inventory.Service/Controllers/ItemsController.cs:36-40 | the join succeeds exactly when every record's catalog id matches one item; it then yields one entry per record, in order, carrying the record's id, quantity and date and that item's name and description |
| InventoryQuery.JoinFailsAtFirstUnjoinable | src/Catalog.Inventory.Service/Controllers/ItemsController.cs:38-39 | a failed join names the first record whose catalog id matches no item (missing) or several (not unique); every earlier record was joinable |
| InventoryQuery.Get | src/Catalog.Inventory.Service/Controllers/ItemsController.cs:28-42 | BadRequest is answered exactly for the empty user id, whatever the store and catalog; a failed fetch fails the query; otherwise the answer is Ok exactly when each of the user's records matches one catalog item, with one entry per selected record, each joined to a catalog item with that id; a fault names one of the user's records |
| InventoryQuery.PostInvisibleToOtherUsers | src/Catalog.Inventory.Service/Controllers/ItemsController.cs:48-65 | a grant to one user leaves every other user's selected records exactly unchanged |
| InventoryQuery.GrantsThenQueryScenario | src/Catalog.Inventory.Service/Controllers/ItemsController.cs:28-67 | granting 3 then 2 units and querying against a catalog listing the item once answers a single entry of 8 units acquired at the first grant |
| Resilience.Pow2 | src/Catalog.Inventory.Service/Startup.cs:41 | the integer power of two behind the delay is at least 1 |
| Resilience.RetryDelaySeconds | src/Catalog.Inventory.Service/Startup.cs:41 | definition of the backoff lambda, 2^n seconds; every delay is at least 1 s, and the delay before any retry is an even number of at least 2 s |
| Resilience.Pow2Add | src/Catalog.Inventory.Service/Startup.cs:41 | 2^(a+b) = 2^a * 2^b, so the delay function is the power function |
| Resilience.DelayDoubles | src/Catalog.Inventory.Service/Startup.cs:41 | every delay is strictly positive and each is exactly twice the previous one |
| Resilience.DelayStrictlyIncreasing | src/Catalog.Inventory.Service/Startup.cs:41 | a later retry always waits strictly longer |
| Resilience.Schedule | src/Catalog.Inventory.Service/Startup.cs:40-41 | the schedule for n retries has n entries, the i-th being the delay before retry i+1 |
| Resilience.TotalWaitClosedForm | src/Catalog.Inventory.Service/Startup.cs:40-41 | waiting through n retries takes 2^(n+1) - 2 seconds in total |
| Resilience.IsHandledFailure | src/Catalog.Inventory.Service/Startup.cs:39-44 | definition of the failures both policies handle; a timeout rejection is always handled and any other exception never is |
| Resilience.HandledFailureClassification | src/Catalog.Inventory.Service/Startup.cs:39-44 | a timeout rejection is handled though it is not a transient HTTP error; handled means timeout, no response, 5xx or 408; other responses and other exceptions are not handled |
| Resilience.WaitsWhileFailing | src/Catalog.Inventory.Service/Startup.cs:39-41 | the retry policy on its own, against a dependency that keeps failing, waits once per remaining retry, with the delays of those retries in order |
| Resilience.ConfiguredPolicies | src/Catalog.Inventory.Service/Startup.cs:39-60 | the retry policy on its own waits 2, 4, 8, 16 and 32 seconds, 62 in all, against a dependency that keeps failing; the breaker threshold is 3, the break lasts 15 s and the attempt timeout is 1 s |

## Left out

- The circuit breaker's Closed/Open/Half-Open state machine, the timeout's cancellation and the retry loop's execution are library code that is not shown. Only their constants and the delay arithmetic are modelled, plus the retry decision and the waits it implies.
- Resilience.IsTransientHttpError: the set of transient errors (no response, 5xx, 408) is the library's documented meaning of the transient-error policy builder; the builder's code is not part of this model.
- The order in which the HTTP client factory nests the three policies is not modelled.
- Resilience.WaitsWhileFailing: states the retry policy on its own. In the service the circuit breaker is nested inside the retry. After three handled failures the circuit opens, and the next retry meets a broken-circuit exception that the retry does not handle. A dependency that keeps failing therefore sees waits of 2, 4 and 8 s, not five retries; the breaker's state machine is not modelled.
- Resilience.ConfiguredPolicies: the five waits it states are those of the retry policy on its own, for the same reason.
- The `onBreak` and `onReset` callbacks only log, so they are not modelled.
- Dependency injection, the MongoDB registration, Swagger, middleware and routing attributes are framework wiring, so they are not modelled.
- `CatalogClient`, the repository and `InventoryItem` are not part of this model. The store is a sequence. The catalog is an input. The record fields come from the object initializer of the grant.
- `InventoryItemDto` and `AsDto` are not shown; only the call that passes the catalog item's name and description is. Their layout is assumed: an entry carries the record's catalog item id, the name, the description, the record's quantity and its acquired date. The `Join` and `Get` contracts rest on that assumed layout.
- Ledger.Update: the repository replaces a record by its entity id, which is not visible; the model replaces the first record with the same (user, item) key instead.
- Concurrency is not modelled; grants are sequential. The read, create and update steps are not atomic in the service, so concurrent grants can duplicate a record or lose an update.
- Asynchrony and the lazy `Select` are not modelled. The null dereference or duplicate-match error that surfaces while the answer is serialised becomes a fault result of the query.
- The clock and the catalog fetch are parameters. GUID generation is not modelled.
- Ledger.Post: quantities are unbounded integers. The wrap-around of 32-bit `int` arithmetic is not modelled, because the declared field type is not visible.

## Findings

| source | as written | input that shows it | evidently intended | confidence | as-written member | corrected member |
|---|---|---|---|---|---|---|
| src/Catalog.Inventory.Service/Controllers/ItemsController.cs:53-64 | a new record is created holding the granted quantity and then incremented by it again, so a first grant of q stores 2q | empty store; grant 3 units, then 2 units, of one item to one user: 8 units stored | a new record starts empty, so the stored quantity is the sum of the grants (5) | high; not executed | Ledger.TwoGrantsStoreEight | Ledger.CorrectedGrantsAdd |
