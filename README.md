# Inventory stock reservation — a Dafny model

This project models the stock-reservation core of the inventory service
(`InventoryService`). The service keeps one inventory record per product in a
repository keyed by record id. Each record has a `quantity` on hand and a
`reservedQuantity` promised to orders. The service creates records, applies
partial updates, replaces the quantity, reserves and releases stock, deletes
records, and answers availability queries, including a bulk check for a whole
basket. A read-through cache named "inventories" sits in front of the queries.

Files:

- `wrappers.dfy`: `Option` (a nullable field) and `Result` (a value, or the exception thrown).
- `inventory.dfy` (module `InventoryModel`): the `Inventory` record and the `InventoryDetails` partial update.
  Also the exception taxonomy, the available quantity (`quantity - reservedQuantity`, with a null reservation read as 0)
  and the stock invariant `Sane` (`0 <= reservedQuantity <= quantity`).
- `store.dfy` (module `InventoryStore`): the repository as a `map<Uuid, Inventory>`.
  Each service operation is a pure function giving the new store or the exception.
  It also holds lemmas about single operations and pairs of operations.
- `history.dfy` (module `InventoryHistory`): sequences of operations run as atomic steps.
  Induction lemmas cover the unique-productId constraint, the reserve/release invariant and overselling.
- `service.dfy` (module `Service`): `class InventoryService` with the repository (`records`) and the cache (`cache`) as fields.
  Its methods look a record up, change its fields and save it back.
  Each mutation is proved against the store function of the same name.
  `GetInventoryById` is proved against `FindById`, `GetInventoryByProductId` against `FindRecordByProductId` and `GetAvailableQuantity` against `AvailableQuantity`.
  `GetAllInventories` returns the whole repository, and `CheckStockAvailability` is proved against a direct statement about the records.
  The bulk check is a loop over the requested products.

Behaviour of the code that the model keeps:

- `reserveStock` and `releaseReservedStock` do not reject a negative amount.
  A negative release adds to the reservation. `ReserveStock` and `ReleaseReservedStock` state exactly when the record stays sane.
- `createInventory`, `updateQuantity` and `updateInventory` never check `reservedQuantity <= quantity`.
  Each of them can store a record that breaks the invariant (`CreateCanBreakSane`, `UpdateQuantityKeepsSaneIff`, `UpdateInventoryCanBreakSane`).
  The invariant is kept by reserves and releases of non-negative amounts, by deletes, and by creating records that already satisfy it (`SaneOpsKeepSane`).
- `createInventory` skips the duplicate check when `productId` is null.
- The lookup inside `updateQuantity`, `reserveStock`, `releaseReservedStock`, `updateInventory`, `getAvailableQuantity` and `checkStockAvailability` is a call on the service object itself.
  The caching proxy does not intercept such a call, so the model reads the repository there, never the cache.
- The evictions are `allEntries = true`, which the caching proxy runs after a successful return.
  A successful `createInventory` or `updateInventory` therefore empties the cache, and a failed one leaves it as it was.
  `updateQuantity`, `reserveStock`, `releaseReservedStock` and `deleteInventory` evict nothing.
  `StaleAvailabilityAfterReserve` shows a stale cached availability after a reservation.
- A reserve followed by a release of the same amount restores the reservation only if the old reservation was not negative.
  A null reservation comes back as 0 (`ReserveThenRelease`).

Behaviour one might expect of a stock-reservation service that this code does not have, and the model therefore does not have either:

- Reserve and release accepting only a positive amount. The code accepts any amount.
- Every mutation evicting every cache key of its product and the `'all'` key. The code evicts as described above.
- Per-product mutual exclusion around the check and the update. The code has none.
- A dedicated "insufficient stock" exception. The code throws `IllegalArgumentException` whose message carries the available and required amounts.
  The model keeps those two numbers in `InsufficientStock`.

## Model

| member | source | states |
|---|---|---|
| InventoryModel.Reserved | inventory-service/src/main/java/com/microservices/inventory/Service/InventoryService.java:221-222 | a null reservedQuantity reads as 0, a present one as its value |
| InventoryModel.Available | inventory-service/src/main/java/com/microservices/inventory/Service/InventoryService.java:66-72 | available plus reserved is the quantity on hand; a record with 0 <= reserved <= quantity has between 0 and quantity available |
| InventoryModel.ApplyDetails | inventory-service/src/main/java/com/microservices/inventory/Service/InventoryService.java:142-159 | each non-null detail field among quantity, reservedQuantity, minStockLevel, maxStockLevel and location overwrites the record's field, each null one leaves it, and a supplied productId is ignored |
| InventoryModel.ApplyDetailsIdempotent | inventory-service/src/main/java/com/microservices/inventory/Service/InventoryService.java:145-159 | applying the same partial update twice equals applying it once |
| InventoryStore.FindById | inventory-service/src/main/java/com/microservices/inventory/Service/InventoryService.java:48-50 | succeeds exactly for a stored id, with that record; otherwise not-found by id |
| InventoryStore.FindByProductId | inventory-service/src/main/java/com/microservices/inventory/Service/InventoryService.java:60-62 | under unique product ids, finds the one record holding the product, and none exactly when no record holds it |
| InventoryStore.FindRecordByProductId | inventory-service/src/main/java/com/microservices/inventory/Service/InventoryService.java:59-63 | the record holding the product, or not-found by productId exactly when no record holds it |
| InventoryStore.AvailableQuantity | inventory-service/src/main/java/com/microservices/inventory/Service/InventoryService.java:69-73 | quantity minus reserved quantity of the product's record; not-found exactly when no record holds the product |
| InventoryStore.CreateInventory | inventory-service/src/main/java/com/microservices/inventory/Service/InventoryService.java:124-131 | duplicate error exactly when a non-null productId already has a record; otherwise the record is added under the new id, nothing else changes, and product ids stay unique |
| InventoryStore.UpdateInventory | inventory-service/src/main/java/com/microservices/inventory/Service/InventoryService.java:139-162 | not-found exactly for an absent id; otherwise only that record changes, by the partial update, and product ids stay unique |
| InventoryStore.UpdateQuantity | inventory-service/src/main/java/com/microservices/inventory/Service/InventoryService.java:169-180 | not-found before the negativity check; a negative quantity changes nothing; otherwise only the quantity of that record changes |
| InventoryStore.ReserveStock | inventory-service/src/main/java/com/microservices/inventory/Service/InventoryService.java:190-207 | succeeds exactly when the record exists and has the amount available; the error carries available and required; on success reserved becomes old (null as 0) plus the amount and nothing else changes; the result is sane exactly when the amount is at least minus the old reservation |
| InventoryStore.ReleaseReservedStock | inventory-service/src/main/java/com/microservices/inventory/Service/InventoryService.java:217-235 | succeeds exactly when at least the amount is reserved; the error carries reserved and requested; on success reserved drops by exactly the amount and nothing else changes; the result is sane exactly when the amount is at least reserved minus quantity |
| InventoryStore.DeleteInventory | inventory-service/src/main/java/com/microservices/inventory/Service/InventoryService.java:240-245 | not-found exactly for an absent id; otherwise exactly that key is removed and every other record is kept |
| InventoryStore.ReserveThenRelease | inventory-service/src/main/java/com/microservices/inventory/Service/InventoryService.java:190-235 | after a successful reserve, releasing the same amount succeeds exactly when the old reservation was not negative, and restores the store (a null reservation as 0) |
| InventoryStore.ReleaseThenReserve | inventory-service/src/main/java/com/microservices/inventory/Service/InventoryService.java:190-235 | after a successful release, reserving the same amount succeeds exactly when the old reservation did not exceed the quantity, and restores the store (a null reservation as 0) |
| InventoryStore.UpdateQuantityKeepsSaneIff | inventory-service/src/main/java/com/microservices/inventory/Service/InventoryService.java:169-180 | the updated record is sane exactly when the new quantity covers a non-negative reservation |
| InventoryStore.CreateCanBreakSane | inventory-service/src/main/java/com/microservices/inventory/Service/InventoryService.java:124-131 | creation accepts a record whose reservation exceeds its quantity |
| InventoryStore.UpdateInventoryCanBreakSane | inventory-service/src/main/java/com/microservices/inventory/Service/InventoryService.java:148-150 | a partial update can set a reservation above the quantity of a sane record |
| InventoryHistory.RunKeepsProductsUnique | inventory-service/src/main/java/com/microservices/inventory/Service/InventoryService.java:124-129 | every sequence of operations keeps non-null product ids unique |
| InventoryHistory.SaneOpsKeepSane | inventory-service/src/main/java/com/microservices/inventory/Service/InventoryService.java:190-235 | every interleaving of reserves and releases of non-negative amounts, deletes and creations of sane records keeps 0 <= reserved <= quantity for every record |
| InventoryHistory.UnitReservationsNeverOversell | inventory-service/src/main/java/com/microservices/inventory/Service/InventoryService.java:193-203 | n one-unit reservations against a available units grant exactly min(n, a) and lower availability by that much |
| Service.InventoryService.constructor | inventory-service/src/main/java/com/microservices/inventory/Service/InventoryService.java:32-34 | the service starts over the given repository with an empty cache |
| Service.InventoryService.GetAllInventories | inventory-service/src/main/java/com/microservices/inventory/Service/InventoryService.java:39-42 | read-through: returns the cached 'all' snapshot if present, otherwise the repository, which it caches |
| Service.InventoryService.GetInventoryById | inventory-service/src/main/java/com/microservices/inventory/Service/InventoryService.java:47-51 | read-through on the id key: a cached record is returned as is; otherwise the repository lookup, cached only on success |
| Service.InventoryService.GetInventoryByProductId | inventory-service/src/main/java/com/microservices/inventory/Service/InventoryService.java:59-63 | read-through on 'product:' key: a cached record is returned as is; otherwise the repository lookup, cached only on success |
| Service.InventoryService.GetAvailableQuantity | inventory-service/src/main/java/com/microservices/inventory/Service/InventoryService.java:69-73 | read-through on 'available:' key: a cached number is returned as is; otherwise quantity minus reserved from the repository, cached only on success |
| Service.InventoryService.CheckStockAvailability | inventory-service/src/main/java/com/microservices/inventory/Service/InventoryService.java:98-117 | same key set as the request; each product maps to true exactly when a record holds it with enough available; an absent product maps to false; nothing is modified |
| Service.InventoryService.CreateInventory | inventory-service/src/main/java/com/microservices/inventory/Service/InventoryService.java:123-132 | follows InventoryStore.CreateInventory; on success the cache is emptied, on a duplicate store and cache are unchanged |
| Service.InventoryService.UpdateInventory | inventory-service/src/main/java/com/microservices/inventory/Service/InventoryService.java:138-163 | follows InventoryStore.UpdateInventory and returns the saved record; on success the cache is emptied, on not-found nothing changes |
| Service.InventoryService.UpdateQuantity | inventory-service/src/main/java/com/microservices/inventory/Service/InventoryService.java:169-180 | follows InventoryStore.UpdateQuantity and returns the saved record; the cache is untouched |
| Service.InventoryService.ReserveStock | inventory-service/src/main/java/com/microservices/inventory/Service/InventoryService.java:190-207 | follows InventoryStore.ReserveStock and returns the saved record; the cache is untouched |
| Service.InventoryService.ReleaseReservedStock | inventory-service/src/main/java/com/microservices/inventory/Service/InventoryService.java:217-235 | follows InventoryStore.ReleaseReservedStock and returns the saved record; the cache is untouched |
| Service.InventoryService.DeleteInventory | inventory-service/src/main/java/com/microservices/inventory/Service/InventoryService.java:240-245 | follows InventoryStore.DeleteInventory; the cache is untouched |
| Service.StaleAvailabilityAfterReserve | inventory-service/src/main/java/com/microservices/inventory/Service/InventoryService.java:69-73 | a cached availability of 10 is still returned after reserving 4, while the repository holds 6; after an update the read returns 6 |
| Service.BulkCheckExample | inventory-service/src/main/java/com/microservices/inventory/Service/InventoryService.java:98-117 | a product with 10 available asked for 5 maps to true, a product without a record maps to false |

## Left out

- Status: the status field, its recomputation in the record's persistence hook and `getInventoriesByStatus` are not modelled. The hook lives in the `Inventory` class, which is not part of this model.
- `hasEnoughStock` and `getAvailableQuantity` of the `Inventory` class are not part of this model. They are taken as `available >= q` and `quantity - reservedQuantity`, with a null reservation read as 0.
- Integer width: amounts are unbounded integers. The Java `int` overflow of `reserved + quantity` is not modelled.
- Null arguments: a null `quantity` argument to `updateQuantity`, `reserveStock` or `releaseReservedStock` makes the Java code throw `NullPointerException`; the model takes it as a non-null integer.
- Record quantity: the model takes a record's `quantity` as non-null, because what `getAvailableQuantity` and `hasEnoughStock` of the `Inventory` class do with a null one is not part of this model.
- Record ids: the repository's generated id for a new record is the `newId` parameter, which must be fresh. A caller-supplied id that would make `save` overwrite an existing record is not modelled.
- Service.InventoryService.GetAllInventories: returns the records as a map by id, not the ordered list the repository returns.
- Concurrency: the operations are sequential atomic steps. Nothing is claimed about concurrent reservations, and the code has no locking.
- Cache: time-to-live expiry, the cache backend and its failures are not modelled. The `':*'` key on the `updateInventory` eviction has no effect beside `allEntries = true`, so it is not modelled.
- Cached objects: entries are values, so a cached record never shares state with the repository's copy.
- `getInventoriesByLocation` passes the call straight to the repository query `findByLocation`. The service adds no logic to model, and the query is outside this model.
- Repository failures: persistence errors and transactions are not modelled.
- The order-service WebSocket controller, its configuration and the status-update message are messaging plumbing with nothing to verify.
