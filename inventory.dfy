/** The inventory record of one product, the partial update applied to it, and
    the exceptions the inventory service throws. */
module InventoryModel {
  import opened Wrappers

  /** A record id or a product id (a `UUID` in the service). */
  type Uuid = nat

  /** The name of a `Location` enum constant; the constants themselves are not modelled. */
  type Location = string

  /** One stock record. `reservedQuantity`, the thresholds, `location` and
      `productId` are nullable boxed fields; `quantity` is taken to be non-null.
      The derived `status` is not modelled. */
  datatype Inventory = Inventory(
    productId: Option<Uuid>,
    quantity: int,
    reservedQuantity: Option<int>,
    minStockLevel: Option<int>,
    maxStockLevel: Option<int>,
    location: Option<Location>)

  /** The `inventoryDetails` argument of `updateInventory`: a `None` field is a
      null one and leaves the record's field as it is. Its `productId` is
      never copied. */
  datatype InventoryDetails = InventoryDetails(
    productId: Option<Uuid>,
    quantity: Option<int>,
    reservedQuantity: Option<int>,
    minStockLevel: Option<int>,
    maxStockLevel: Option<int>,
    location: Option<Location>)

  /** Which lookup failed: by record id or by product id. */
  datatype LookupField = ById | ByProductId

  /** The exceptions: `ResourceNotFoundException`, `DuplicateResourceException`,
      and the three `IllegalArgumentException`s with the numbers their messages carry. */
  datatype Error =
    | NotFound(field: LookupField, key: Uuid)
    | DuplicateResource(productId: Uuid)
    | NegativeQuantity
    | InsufficientStock(available: int, required: int)
    | ReleaseExceedsReserved(reserved: int, requested: int)

  /** The reserved quantity with a null field read as 0, as reserve and release read it. */
  function Reserved(inv: Inventory): (r: int)
    ensures inv.reservedQuantity.None? ==> r == 0
    ensures inv.reservedQuantity.Some? ==> r == inv.reservedQuantity.value
  {
    inv.reservedQuantity.GetOr(0)
  }

  /** `getAvailableQuantity` of the record: what is on hand and not yet promised. */
  function Available(inv: Inventory): (r: int)
    ensures r + Reserved(inv) == inv.quantity
    ensures Sane(inv) ==> 0 <= r <= inv.quantity
  {
    inv.quantity - Reserved(inv)
  }

  /** `hasEnoughStock(q)`: the available quantity covers `q`. */
  predicate HasEnoughStock(inv: Inventory, q: int)
  {
    Available(inv) >= q
  }

  /** The stock invariant: `0 <= reservedQuantity <= quantity`, never negative stock and never more promised than is on hand. */
  predicate Sane(inv: Inventory)
  {
    0 <= Reserved(inv) <= inv.quantity
  }

  /** The record after `updateInventory` copies the non-null detail fields onto it. */
  function ApplyDetails(inv: Inventory, d: InventoryDetails): (r: Inventory)
    ensures r.productId == inv.productId
    ensures d.quantity.Some? ==> r.quantity == d.quantity.value
    ensures d.quantity.None? ==> r.quantity == inv.quantity
    ensures d.reservedQuantity.Some? ==> r.reservedQuantity == d.reservedQuantity
    ensures d.reservedQuantity.None? ==> r.reservedQuantity == inv.reservedQuantity
    ensures d.minStockLevel.Some? ==> r.minStockLevel == d.minStockLevel
    ensures d.minStockLevel.None? ==> r.minStockLevel == inv.minStockLevel
    ensures d.maxStockLevel.Some? ==> r.maxStockLevel == d.maxStockLevel
    ensures d.maxStockLevel.None? ==> r.maxStockLevel == inv.maxStockLevel
    ensures d.location.Some? ==> r.location == d.location
    ensures d.location.None? ==> r.location == inv.location
  {
    Inventory(
      inv.productId,
      d.quantity.GetOr(inv.quantity),
      if d.reservedQuantity.Some? then d.reservedQuantity else inv.reservedQuantity,
      if d.minStockLevel.Some? then d.minStockLevel else inv.minStockLevel,
      if d.maxStockLevel.Some? then d.maxStockLevel else inv.maxStockLevel,
      if d.location.Some? then d.location else inv.location)
  }

  /** Applying the same details twice is the same as applying them once. */
  lemma ApplyDetailsIdempotent(inv: Inventory, d: InventoryDetails)
    ensures ApplyDetails(ApplyDetails(inv, d), d) == ApplyDetails(inv, d)
  {
  }
}
