/** The inventory service: the repository of stock records and the
    "inventories" cache in front of it, with the service's queries and
    mutations as methods that look a record up, change its fields and save it
    back. Each mutation is proved against the operation of the same name on
    the store, and each lookup against the store's lookup function. */
module Service {
  import opened Wrappers
  import opened InventoryModel
  import opened InventoryStore

  /** The "inventories" cache, one map per key shape: `'all'`, the record id,
      `'product:' + productId` and `'available:' + productId`. A thrown
      exception is never cached. */
  datatype Cache = Cache(
    all: Option<Store>,
    byId: map<Uuid, Inventory>,
    byProduct: map<Uuid, Inventory>,
    available: map<Uuid, int>)

  /** The cache after an `allEntries = true` eviction. */
  const EmptyCache := Cache(None, map[], map[], map[])

  class InventoryService {
    /** The repository: every stored record by its id. */
    var records: Store
    /** What the read-through queries have cached so far. */
    var cache: Cache

    ghost predicate Valid()
      reads this
    {
      UniqueProducts(records)
    }

    constructor(initial: Store)
      requires UniqueProducts(initial)
      ensures Valid()
      ensures records == initial && cache == EmptyCache
    {
      records := initial;
      cache := EmptyCache;
    }

    /** `getAllInventories`, cached under `'all'`. */
    method GetAllInventories() returns (all: Store)
      requires Valid()
      modifies this`cache
      ensures Valid()
      ensures old(cache.all).Some? ==> all == old(cache.all).value && cache == old(cache)
      ensures old(cache.all).None? ==> all == records && cache == old(cache).(all := Some(records))
    {
      if cache.all.Some? {
        all := cache.all.value;
        return;
      }
      all := records;
      cache := cache.(all := Some(all));
    }

    /** `getInventoryById`, cached under the id. */
    method GetInventoryById(id: Uuid) returns (r: Result<Inventory, Error>)
      requires Valid()
      modifies this`cache
      ensures Valid()
      ensures id in old(cache.byId) ==> r == Ok(old(cache.byId)[id]) && cache == old(cache)
      ensures id !in old(cache.byId) ==> r == FindById(records, id)
      ensures id !in old(cache.byId) ==>
                cache == if r.Ok? then old(cache).(byId := old(cache.byId)[id := r.value]) else old(cache)
    {
      if id in cache.byId {
        r := Ok(cache.byId[id]);
        return;
      }
      if id !in records {
        r := Err(NotFound(ById, id));
        return;
      }
      r := Ok(records[id]);
      cache := cache.(byId := cache.byId[id := r.value]);
    }

    /** `getInventoryByProductId`, cached under `'product:' + productId`. */
    method GetInventoryByProductId(pid: Uuid) returns (r: Result<Inventory, Error>)
      requires Valid()
      modifies this`cache
      ensures Valid()
      ensures pid in old(cache.byProduct) ==> r == Ok(old(cache.byProduct)[pid]) && cache == old(cache)
      ensures pid !in old(cache.byProduct) ==> r == FindRecordByProductId(records, pid)
      ensures pid !in old(cache.byProduct) ==>
                cache == if r.Ok? then old(cache).(byProduct := old(cache.byProduct)[pid := r.value]) else old(cache)
    {
      if pid in cache.byProduct {
        r := Ok(cache.byProduct[pid]);
        return;
      }
      var found := FindByProductId(records, pid);
      if found.None? {
        r := Err(NotFound(ByProductId, pid));
        return;
      }
      r := Ok(records[found.value]);
      cache := cache.(byProduct := cache.byProduct[pid := r.value]);
    }

    /** `getAvailableQuantity`, cached under `'available:' + productId`. Its own
        lookup of the record is a call on the service object itself, which the
        caching proxy does not see, so it reads the repository directly and
        caches nothing under `'product:'`. */
    method GetAvailableQuantity(pid: Uuid) returns (r: Result<int, Error>)
      requires Valid()
      modifies this`cache
      ensures Valid()
      ensures pid in old(cache.available) ==> r == Ok(old(cache.available)[pid]) && cache == old(cache)
      ensures pid !in old(cache.available) ==> r == AvailableQuantity(records, pid)
      ensures pid !in old(cache.available) ==>
                cache == if r.Ok? then old(cache).(available := old(cache.available)[pid := r.value]) else old(cache)
    {
      if pid in cache.available {
        r := Ok(cache.available[pid]);
        return;
      }
      var found := FindByProductId(records, pid);
      if found.None? {
        r := Err(NotFound(ByProductId, pid));
        return;
      }
      var inv := records[found.value];
      r := Ok(inv.quantity - Reserved(inv));
      cache := cache.(available := cache.available[pid := r.value]);
    }

    /** `checkStockAvailability`: for every requested product, whether its
        record exists and has the required quantity available. A missing record
        gives `false` rather than an exception. The lookups bypass the cache. */
    method CheckStockAvailability(required: map<Uuid, int>) returns (availability: map<Uuid, bool>)
      requires Valid()
      ensures availability.Keys == required.Keys
      ensures forall pid :: pid in availability ==>
                (availability[pid] <==>
                 exists id :: id in records && records[id].productId == Some(pid) && HasEnoughStock(records[id], required[pid]))
    {
      availability := map[];
      var pending := required.Keys;
      while pending != {}
        invariant pending <= required.Keys
        invariant availability.Keys == required.Keys - pending
        invariant forall pid :: pid in availability ==>
                    (availability[pid] <==>
                     exists id :: id in records && records[id].productId == Some(pid) && HasEnoughStock(records[id], required[pid]))
        decreases pending
      {
        var pid :| pid in pending;
        var found := FindByProductId(records, pid);
        match found {
          case Some(id) =>
            availability := availability[pid := HasEnoughStock(records[id], required[pid])];
          case None =>
            availability := availability[pid := false];
        }
        pending := pending - {pid};
      }
    }

    /** `createInventory`: `newId` is the id the repository assigns on save.
        On success every cache entry is evicted; on a duplicate nothing is. */
    method CreateInventory(newId: Uuid, inv: Inventory) returns (r: Result<Inventory, Error>)
      requires Valid()
      requires newId !in records
      modifies this
      ensures Valid()
      ensures InventoryStore.CreateInventory(old(records), newId, inv).Ok? ==>
                r == Ok(inv) && records == InventoryStore.CreateInventory(old(records), newId, inv).value && cache == EmptyCache
      ensures InventoryStore.CreateInventory(old(records), newId, inv).Err? ==>
                r == Err(InventoryStore.CreateInventory(old(records), newId, inv).error) && records == old(records) && cache == old(cache)
    {
      if inv.productId.Some? && HasProduct(records, inv.productId.value) {
        r := Err(DuplicateResource(inv.productId.value));
        return;
      }
      records := records[newId := inv];
      r := Ok(inv);
      cache := EmptyCache;
    }

    /** `updateInventory`: copies the non-null detail fields onto record `id`.
        On success every cache entry is evicted; on not-found nothing is. */
    method UpdateInventory(id: Uuid, details: InventoryDetails) returns (r: Result<Inventory, Error>)
      requires Valid()
      modifies this
      ensures Valid()
      ensures InventoryStore.UpdateInventory(old(records), id, details).Ok? ==>
                records == InventoryStore.UpdateInventory(old(records), id, details).value &&
                r == Ok(records[id]) && cache == EmptyCache
      ensures InventoryStore.UpdateInventory(old(records), id, details).Err? ==>
                r == Err(InventoryStore.UpdateInventory(old(records), id, details).error) &&
                records == old(records) && cache == old(cache)
    {
      var found := FindById(records, id);
      if found.Err? {
        r := Err(found.error);
        return;
      }
      var inv := found.value;
      if details.quantity.Some? {
        inv := inv.(quantity := details.quantity.value);
      }
      if details.reservedQuantity.Some? {
        inv := inv.(reservedQuantity := details.reservedQuantity);
      }
      if details.minStockLevel.Some? {
        inv := inv.(minStockLevel := details.minStockLevel);
      }
      if details.maxStockLevel.Some? {
        inv := inv.(maxStockLevel := details.maxStockLevel);
      }
      if details.location.Some? {
        inv := inv.(location := details.location);
      }
      records := records[id := inv];
      r := Ok(inv);
      cache := EmptyCache;
    }

    /** `updateQuantity`: replaces the quantity. No cache entry is evicted. */
    method UpdateQuantity(id: Uuid, quantity: int) returns (r: Result<Inventory, Error>)
      requires Valid()
      modifies this`records
      ensures Valid()
      ensures cache == old(cache)
      ensures InventoryStore.UpdateQuantity(old(records), id, quantity).Ok? ==>
                records == InventoryStore.UpdateQuantity(old(records), id, quantity).value && r == Ok(records[id])
      ensures InventoryStore.UpdateQuantity(old(records), id, quantity).Err? ==>
                r == Err(InventoryStore.UpdateQuantity(old(records), id, quantity).error) && records == old(records)
    {
      var found := FindById(records, id);
      if found.Err? {
        r := Err(found.error);
        return;
      }
      if quantity < 0 {
        r := Err(NegativeQuantity);
        return;
      }
      var inv := found.value.(quantity := quantity);
      records := records[id := inv];
      r := Ok(inv);
    }

    /** `reserveStock`: adds `quantity` to the reservation when enough is
        available. No cache entry is evicted. */
    method ReserveStock(id: Uuid, quantity: int) returns (r: Result<Inventory, Error>)
      requires Valid()
      modifies this`records
      ensures Valid()
      ensures cache == old(cache)
      ensures InventoryStore.ReserveStock(old(records), id, quantity).Ok? ==>
                records == InventoryStore.ReserveStock(old(records), id, quantity).value && r == Ok(records[id])
      ensures InventoryStore.ReserveStock(old(records), id, quantity).Err? ==>
                r == Err(InventoryStore.ReserveStock(old(records), id, quantity).error) && records == old(records)
    {
      var found := FindById(records, id);
      if found.Err? {
        r := Err(found.error);
        return;
      }
      var inv := found.value;
      if !HasEnoughStock(inv, quantity) {
        r := Err(InsufficientStock(Available(inv), quantity));
        return;
      }
      var newReserved := (if inv.reservedQuantity.Some? then inv.reservedQuantity.value else 0) + quantity;
      inv := inv.(reservedQuantity := Some(newReserved));
      records := records[id := inv];
      r := Ok(inv);
    }

    /** `releaseReservedStock`: takes `quantity` off the reservation when at
        least that much is reserved. No cache entry is evicted. */
    method ReleaseReservedStock(id: Uuid, quantity: int) returns (r: Result<Inventory, Error>)
      requires Valid()
      modifies this`records
      ensures Valid()
      ensures cache == old(cache)
      ensures InventoryStore.ReleaseReservedStock(old(records), id, quantity).Ok? ==>
                records == InventoryStore.ReleaseReservedStock(old(records), id, quantity).value && r == Ok(records[id])
      ensures InventoryStore.ReleaseReservedStock(old(records), id, quantity).Err? ==>
                r == Err(InventoryStore.ReleaseReservedStock(old(records), id, quantity).error) && records == old(records)
    {
      var found := FindById(records, id);
      if found.Err? {
        r := Err(found.error);
        return;
      }
      var inv := found.value;
      var currentReserved := if inv.reservedQuantity.Some? then inv.reservedQuantity.value else 0;
      if currentReserved < quantity {
        r := Err(ReleaseExceedsReserved(currentReserved, quantity));
        return;
      }
      inv := inv.(reservedQuantity := Some(currentReserved - quantity));
      records := records[id := inv];
      r := Ok(inv);
    }

    /** `deleteInventory`: removes record `id`. No cache entry is evicted. */
    method DeleteInventory(id: Uuid) returns (r: Result<(), Error>)
      requires Valid()
      modifies this`records
      ensures Valid()
      ensures cache == old(cache)
      ensures InventoryStore.DeleteInventory(old(records), id).Ok? ==>
                records == InventoryStore.DeleteInventory(old(records), id).value && r == Ok(())
      ensures InventoryStore.DeleteInventory(old(records), id).Err? ==>
                r == Err(InventoryStore.DeleteInventory(old(records), id).error) && records == old(records)
    {
      if id !in records {
        r := Err(NotFound(ById, id));
        return;
      }
      records := records - {id};
      r := Ok(());
    }
  }

  /** Reading the available quantity caches it; a reservation then evicts
      nothing, so the next read returns the stale figure while the repository
      holds the new one. Only an `updateInventory` (or a create) clears it. */
  method StaleAvailabilityAfterReserve() returns (cachedBefore: int, cachedAfter: int, stored: int, afterUpdate: int)
    ensures cachedBefore == 10 && cachedAfter == 10
    ensures stored == 6 && afterUpdate == 6
  {
    var svc := new InventoryService(map[7 := Inventory(Some(42), 10, Some(0), None, None, None)]);
    var first := svc.GetAvailableQuantity(42);
    var reserved := svc.ReserveStock(7, 4);
    var second := svc.GetAvailableQuantity(42);
    cachedBefore := first.value;
    cachedAfter := second.value;
    stored := Available(svc.records[7]);
    var updated := svc.UpdateInventory(7, InventoryDetails(Some(99), None, None, None, None, None));
    var third := svc.GetAvailableQuantity(42);
    afterUpdate := third.value;
  }

  /** The bulk check on one product with 10 available and one with no record. */
  method BulkCheckExample() returns (availability: map<Uuid, bool>)
    ensures availability == map[1 := true, 2 := false]
  {
    var svc := new InventoryService(map[5 := Inventory(Some(1), 12, Some(2), None, None, None)]);
    availability := svc.CheckStockAvailability(map[1 := 5, 2 := 1000]);
    assert svc.records[5].productId == Some(1) && HasEnoughStock(svc.records[5], 5);
    assert availability[1];
    assert !availability[2];
  }
}
