/** The inventory repository as a map from record id to record, and what each
    operation of the inventory service does to it: the record it saves or
    deletes, or the exception it throws with the repository left as it was. */
module InventoryStore {
  import opened Wrappers
  import opened InventoryModel

  type Store = map<Uuid, Inventory>

  /** The unique constraint on `productId`: no two records share a non-null product id. */
  ghost predicate UniqueProducts(s: Store)
  {
    forall a, b :: a in s && b in s && s[a].productId.Some? && s[a].productId == s[b].productId ==> a == b
  }

  /** `existsByProductId`. */
  predicate HasProduct(s: Store, pid: Uuid)
  {
    exists id :: id in s && s[id].productId == Some(pid)
  }

  /** `t` holds the same ids as `s`, and every record other than `id` is untouched. */
  ghost predicate OnlyRecordChanged(s: Store, t: Store, id: Uuid)
  {
    t.Keys == s.Keys && forall k :: k in s && k != id ==> t[k] == s[k]
  }

  /** `findById`, which the service turns into a not-found exception when empty. */
  function FindById(s: Store, id: Uuid): (r: Result<Inventory, Error>)
    ensures r.Ok? <==> id in s
    ensures r.Ok? ==> r.value == s[id]
    ensures r.Err? ==> r.error == NotFound(ById, id)
  {
    if id in s then Ok(s[id]) else Err(NotFound(ById, id))
  }

  /** `findByProductId`: the id of the one record holding product `pid`, if any. */
  function FindByProductId(s: Store, pid: Uuid): (r: Option<Uuid>)
    requires UniqueProducts(s)
    ensures r.None? <==> !HasProduct(s, pid)
    ensures forall id :: id in s && s[id].productId == Some(pid) ==> r == Some(id)
    ensures r.Some? ==> r.value in s && s[r.value].productId == Some(pid)
  {
    if HasProduct(s, pid) then
      var id :| id in s && s[id].productId == Some(pid);
      Some(id)
    else
      None
  }

  /** `getInventoryByProductId`, read from the repository. */
  function FindRecordByProductId(s: Store, pid: Uuid): (r: Result<Inventory, Error>)
    requires UniqueProducts(s)
    ensures r.Err? <==> !HasProduct(s, pid)
    ensures r.Err? ==> r.error == NotFound(ByProductId, pid)
    ensures forall id :: id in s && s[id].productId == Some(pid) ==> r == Ok(s[id])
  {
    match FindByProductId(s, pid)
    case Some(id) => Ok(s[id])
    case None => Err(NotFound(ByProductId, pid))
  }

  /** `getAvailableQuantity`, read from the repository: quantity minus reserved
      quantity of the record of product `pid`. */
  function AvailableQuantity(s: Store, pid: Uuid): (r: Result<int, Error>)
    requires UniqueProducts(s)
    ensures r.Err? <==> !HasProduct(s, pid)
    ensures r.Err? ==> r.error == NotFound(ByProductId, pid)
    ensures forall id :: id in s && s[id].productId == Some(pid) ==>
              r == Ok(s[id].quantity - Reserved(s[id]))
  {
    match FindRecordByProductId(s, pid)
    case Ok(inv) => Ok(Available(inv))
    case Err(e) => Err(e)
  }

  /** `createInventory`: `newId` is the fresh id the repository assigns on save.
      The duplicate check runs only for a non-null product id. */
  function CreateInventory(s: Store, newId: Uuid, inv: Inventory): (r: Result<Store, Error>)
    requires newId !in s
    ensures r.Err? <==> inv.productId.Some? && HasProduct(s, inv.productId.value)
    ensures r.Err? ==> r.error == DuplicateResource(inv.productId.value)
    ensures r.Ok? ==> r.value.Keys == s.Keys + {newId} && r.value[newId] == inv
    ensures r.Ok? ==> forall k :: k in s ==> r.value[k] == s[k]
    ensures r.Ok? && UniqueProducts(s) ==> UniqueProducts(r.value)
  {
    if inv.productId.Some? && HasProduct(s, inv.productId.value) then
      Err(DuplicateResource(inv.productId.value))
    else
      Ok(s[newId := inv])
  }

  /** `updateInventory`: copies the non-null detail fields onto record `id`. */
  function UpdateInventory(s: Store, id: Uuid, d: InventoryDetails): (r: Result<Store, Error>)
    ensures r.Err? <==> id !in s
    ensures r.Err? ==> r.error == NotFound(ById, id)
    ensures r.Ok? ==> OnlyRecordChanged(s, r.value, id) && r.value[id] == ApplyDetails(s[id], d)
    ensures r.Ok? && UniqueProducts(s) ==> UniqueProducts(r.value)
  {
    if id !in s then
      Err(NotFound(ById, id))
    else
      Ok(s[id := ApplyDetails(s[id], d)])
  }

  /** `updateQuantity`: the not-found check comes before the negativity check. */
  function UpdateQuantity(s: Store, id: Uuid, q: int): (r: Result<Store, Error>)
    ensures r.Err? <==> id !in s || q < 0
    ensures id !in s ==> r == Err(NotFound(ById, id))
    ensures id in s && q < 0 ==> r == Err(NegativeQuantity)
    ensures r.Ok? ==> OnlyRecordChanged(s, r.value, id)
    ensures r.Ok? ==> r.value[id] == s[id].(quantity := q)
    ensures r.Ok? && UniqueProducts(s) ==> UniqueProducts(r.value)
  {
    if id !in s then
      Err(NotFound(ById, id))
    else if q < 0 then
      Err(NegativeQuantity)
    else
      Ok(s[id := s[id].(quantity := q)])
  }

  /** `reserveStock`: adds `q` to the reservation when the available quantity covers it.
      Nothing rejects a negative `q`. */
  function ReserveStock(s: Store, id: Uuid, q: int): (r: Result<Store, Error>)
    ensures r.Ok? <==> id in s && HasEnoughStock(s[id], q)
    ensures id !in s ==> r == Err(NotFound(ById, id))
    ensures id in s && !HasEnoughStock(s[id], q) ==> r == Err(InsufficientStock(Available(s[id]), q))
    ensures r.Ok? ==> OnlyRecordChanged(s, r.value, id)
    ensures r.Ok? ==> r.value[id].reservedQuantity == Some(Reserved(s[id]) + q)
    ensures r.Ok? ==> r.value[id] == s[id].(reservedQuantity := r.value[id].reservedQuantity)
    ensures r.Ok? ==> (Sane(r.value[id]) <==> q >= -Reserved(s[id]))
    ensures r.Ok? && UniqueProducts(s) ==> UniqueProducts(r.value)
  {
    if id !in s then
      Err(NotFound(ById, id))
    else if !HasEnoughStock(s[id], q) then
      Err(InsufficientStock(Available(s[id]), q))
    else
      Ok(s[id := s[id].(reservedQuantity := Some(Reserved(s[id]) + q))])
  }

  /** `releaseReservedStock`: takes `q` off the reservation when at least `q` is reserved.
      Nothing rejects a negative `q`, which adds to the reservation instead. */
  function ReleaseReservedStock(s: Store, id: Uuid, q: int): (r: Result<Store, Error>)
    ensures r.Ok? <==> id in s && Reserved(s[id]) >= q
    ensures id !in s ==> r == Err(NotFound(ById, id))
    ensures id in s && Reserved(s[id]) < q ==> r == Err(ReleaseExceedsReserved(Reserved(s[id]), q))
    ensures r.Ok? ==> OnlyRecordChanged(s, r.value, id)
    ensures r.Ok? ==> r.value[id].reservedQuantity == Some(Reserved(s[id]) - q)
    ensures r.Ok? ==> r.value[id] == s[id].(reservedQuantity := r.value[id].reservedQuantity)
    ensures r.Ok? ==> (Sane(r.value[id]) <==> Reserved(s[id]) - s[id].quantity <= q)
    ensures r.Ok? && UniqueProducts(s) ==> UniqueProducts(r.value)
  {
    if id !in s then
      Err(NotFound(ById, id))
    else if Reserved(s[id]) < q then
      Err(ReleaseExceedsReserved(Reserved(s[id]), q))
    else
      Ok(s[id := s[id].(reservedQuantity := Some(Reserved(s[id]) - q))])
  }

  /** `deleteInventory`: removes exactly record `id`. */
  function DeleteInventory(s: Store, id: Uuid): (r: Result<Store, Error>)
    ensures r.Err? <==> id !in s
    ensures r.Err? ==> r.error == NotFound(ById, id)
    ensures r.Ok? ==> r.value.Keys == s.Keys - {id}
    ensures r.Ok? ==> forall k :: k in r.value ==> r.value[k] == s[k]
    ensures r.Ok? && UniqueProducts(s) ==> UniqueProducts(r.value)
  {
    if id !in s then
      Err(NotFound(ById, id))
    else
      Ok(s - {id})
  }

  /** A record with a null reservation written out as an explicit 0. */
  function WithReservedExplicit(inv: Inventory): (r: Inventory)
    ensures Reserved(r) == Reserved(inv) && r.reservedQuantity.Some?
    ensures inv.reservedQuantity.Some? ==> r == inv
  {
    inv.(reservedQuantity := Some(Reserved(inv)))
  }

  /** Releasing what was just reserved succeeds exactly when the reservation was
      not negative to begin with, and then gives back the original store, except
      that a null reservation comes back as 0. */
  lemma ReserveThenRelease(s: Store, id: Uuid, q: int)
    requires ReserveStock(s, id, q).Ok?
    ensures ReleaseReservedStock(ReserveStock(s, id, q).value, id, q).Ok? <==> Reserved(s[id]) >= 0
    ensures ReleaseReservedStock(ReserveStock(s, id, q).value, id, q).Ok? ==>
              ReleaseReservedStock(ReserveStock(s, id, q).value, id, q).value == s[id := WithReservedExplicit(s[id])]
    ensures ReleaseReservedStock(ReserveStock(s, id, q).value, id, q).Ok? && s[id].reservedQuantity.Some? ==>
              ReleaseReservedStock(ReserveStock(s, id, q).value, id, q).value == s
  {
  }

  /** Reserving what was just released succeeds exactly when the reservation did
      not exceed the quantity to begin with, and then gives back the original
      store, except that a null reservation comes back as 0. */
  lemma ReleaseThenReserve(s: Store, id: Uuid, q: int)
    requires ReleaseReservedStock(s, id, q).Ok?
    ensures ReserveStock(ReleaseReservedStock(s, id, q).value, id, q).Ok? <==> Reserved(s[id]) <= s[id].quantity
    ensures ReserveStock(ReleaseReservedStock(s, id, q).value, id, q).Ok? ==>
              ReserveStock(ReleaseReservedStock(s, id, q).value, id, q).value == s[id := WithReservedExplicit(s[id])]
  {
  }

  /** `updateQuantity` keeps a sane record sane exactly when the new quantity
      still covers the reservation; nothing checks that it does. */
  lemma UpdateQuantityKeepsSaneIff(s: Store, id: Uuid, q: int)
    requires UpdateQuantity(s, id, q).Ok?
    ensures Sane(UpdateQuantity(s, id, q).value[id]) <==> 0 <= Reserved(s[id]) <= q
  {
  }

  /** `updateInventory` can break the stock invariant: a reservation above the quantity is accepted. */
  lemma UpdateInventoryCanBreakSane()
    ensures var s := map[1 := Inventory(Some(2), 10, Some(0), None, None, None)];
            var r := UpdateInventory(s, 1, InventoryDetails(None, None, Some(11), None, None, None));
            Sane(s[1]) && r.Ok? && !Sane(r.value[1])
  {
  }

  /** `createInventory` can store a record that breaks the stock invariant:
      nothing checks the reservation against the quantity. */
  lemma CreateCanBreakSane()
    ensures var r := CreateInventory(map[], 0, Inventory(None, 1, Some(5), None, None, None));
            r.Ok? && !Sane(r.value[0])
  {
  }
}
