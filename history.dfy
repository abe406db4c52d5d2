/** Sequences of inventory operations run one after another, each an atomic
    step: a failed operation leaves the store as it was. The lemmas say what
    every such history keeps. */
module InventoryHistory {
  import opened Wrappers
  import opened InventoryModel
  import opened InventoryStore

  /** One call of a mutating service operation. */
  datatype Op =
    | Create(inv: Inventory)
    | Update(id: Uuid, details: InventoryDetails)
    | SetQuantity(id: Uuid, q: int)
    | Reserve(id: Uuid, q: int)
    | Release(id: Uuid, q: int)
    | Delete(id: Uuid)

  /** A number above every id in `ks`. */
  ghost function Bound(ks: set<Uuid>): (b: nat)
    ensures forall k :: k in ks ==> k < b
    decreases ks
  {
    if ks == {} then 0
    else
      var k :| k in ks;
      var rest := Bound(ks - {k});
      assert forall j :: j in ks ==> j == k || j in ks - {k};
      if k < rest then rest else k + 1
  }

  /** The id the repository assigns to a newly created record: one it does not hold. */
  ghost function FreshId(s: Store): (id: Uuid)
    ensures id !in s
  {
    Bound(s.Keys)
  }

  /** The outcome of one operation. */
  ghost function Apply(s: Store, op: Op): Result<Store, Error>
  {
    match op
    case Create(inv) => CreateInventory(s, FreshId(s), inv)
    case Update(id, d) => UpdateInventory(s, id, d)
    case SetQuantity(id, q) => UpdateQuantity(s, id, q)
    case Reserve(id, q) => ReserveStock(s, id, q)
    case Release(id, q) => ReleaseReservedStock(s, id, q)
    case Delete(id) => DeleteInventory(s, id)
  }

  /** The store after one operation; an exception leaves it unchanged. */
  ghost function Step(s: Store, op: Op): Store
  {
    var r := Apply(s, op);
    if r.Ok? then r.value else s
  }

  /** The store after a whole history. */
  ghost function Run(s: Store, ops: seq<Op>): Store
    decreases |ops|
  {
    if ops == [] then s else Run(Step(s, ops[0]), ops[1..])
  }

  /** How many operations of the history succeed. */
  ghost function Granted(s: Store, ops: seq<Op>): nat
    decreases |ops|
  {
    if ops == [] then 0
    else (if Apply(s, ops[0]).Ok? then 1 else 0) + Granted(Step(s, ops[0]), ops[1..])
  }

  /** `n` copies of `op`. */
  function Repeat(op: Op, n: nat): (ops: seq<Op>)
    ensures |ops| == n
    ensures forall i :: 0 <= i < n ==> ops[i] == op
  {
    if n == 0 then [] else [op] + Repeat(op, n - 1)
  }

  /** Every record satisfies `0 <= reservedQuantity <= quantity`. */
  ghost predicate AllSane(s: Store)
  {
    forall id :: id in s ==> Sane(s[id])
  }

  /** An operation that cannot break the stock invariant: a reserve or release
      of a non-negative amount, a delete, or the creation of a sane record. */
  predicate KeepsStockSane(op: Op)
  {
    match op
    case Reserve(_, q) => q >= 0
    case Release(_, q) => q >= 0
    case Delete(_) => true
    case Create(inv) => Sane(inv)
    case Update(_, _) => false
    case SetQuantity(_, _) => false
  }

  /** No history breaks the unique constraint on `productId`: create refuses a
      duplicate and no other operation changes a product id. */
  lemma {:induction false} RunKeepsProductsUnique(s: Store, ops: seq<Op>)
    requires UniqueProducts(s)
    ensures UniqueProducts(Run(s, ops))
    decreases |ops|
  {
    if ops != [] {
      var r := Apply(s, ops[0]);
      assert r.Ok? ==> UniqueProducts(r.value);
      RunKeepsProductsUnique(Step(s, ops[0]), ops[1..]);
    }
  }

  /** Reserving and releasing non-negative amounts, deleting, and creating sane
      records keep every record within `0 <= reservedQuantity <= quantity`,
      however the calls are interleaved. */
  lemma {:induction false} SaneOpsKeepSane(s: Store, ops: seq<Op>)
    requires AllSane(s)
    requires forall i :: 0 <= i < |ops| ==> KeepsStockSane(ops[i])
    ensures AllSane(Run(s, ops))
    decreases |ops|
  {
    if ops != [] {
      var op := ops[0];
      var t := Step(s, op);
      forall id | id in t
        ensures Sane(t[id])
      {
        match op
        case Create(inv) =>
          if id != FreshId(s) {
            assert t[id] == s[id];
          }
        case Reserve(rid, q) =>
          if id != rid {
            assert t[id] == s[id];
          }
        case Release(rid, q) =>
          if id != rid {
            assert t[id] == s[id];
          }
        case Delete(did) =>
          assert t[id] == s[id];
      }
      SaneOpsKeepSane(t, ops[1..]);
    }
  }

  /** `n` reservations of one unit each against a record with `a >= 0` units
      available: exactly `min(n, a)` succeed, and the available quantity drops by that much. */
  lemma {:induction false} UnitReservationsNeverOversell(s: Store, id: Uuid, n: nat)
    requires id in s && Available(s[id]) >= 0
    ensures var granted := if n <= Available(s[id]) then n else Available(s[id]);
            Granted(s, Repeat(Reserve(id, 1), n)) == granted &&
            id in Run(s, Repeat(Reserve(id, 1), n)) &&
            Available(Run(s, Repeat(Reserve(id, 1), n))[id]) == Available(s[id]) - granted
    decreases n
  {
    var ops := Repeat(Reserve(id, 1), n);
    if n > 0 {
      assert ops[1..] == Repeat(Reserve(id, 1), n - 1);
      UnitReservationsNeverOversell(Step(s, Reserve(id, 1)), id, n - 1);
    }
  }
}
