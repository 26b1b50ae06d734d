/** The shop store of src/shop.service.ts: a dictionary of shops keyed by id
    and the counter that issues the ids. */
module Shops {
  import opened Ids
  import opened Results

  /** `{ id, name, commissionC }`; the commission is a percentage. */
  datatype Shop = Shop(id: string, name: string, commissionC: real)

  class ShopService {
    var shops: map<string, Shop>
    var idCounter: nat

    /** Every stored shop sits under its own id, and that id was issued by the counter. */
    ghost predicate Valid()
      reads this
    {
      && 1 <= idCounter
      && forall id :: id in shops ==> shops[id].id == id && IssuedBefore(id, idCounter)
    }

    /** An empty store whose counter starts at 1. */
    constructor ()
      ensures Valid()
      ensures shops == map[] && idCounter == 1
    {
      shops := map[];
      idCounter := 1;
    }

    /** `addShop`: stores a new shop under the current counter value, as a
        string, and advances the counter. No stored shop is replaced. */
    method AddShop(name: string, commissionC: real) returns (newShop: Shop)
      requires Valid()
      modifies this
      ensures Valid()
      ensures newShop == Shop(NatToString(old(idCounter)), name, commissionC)
      ensures newShop.id !in old(shops)
      ensures shops == old(shops)[newShop.id := newShop]
      ensures idCounter == old(idCounter) + 1
    {
      newShop := Shop(NatToString(idCounter), name, commissionC);
      forall id | id in shops ensures id != newShop.id {
        var n: nat :| 1 <= n < idCounter && id == NatToString(n);
        DistinctCountersDistinctIds(n, idCounter);
      }
      shops := shops[newShop.id := newShop];
      idCounter := idCounter + 1;
    }

    /** `getShop`: the shop stored under `shopId`, if any. */
    function GetShop(shopId: string): (r: Option<Shop>)
      reads this
      ensures r.Some? <==> shopId in shops
      ensures r.Some? ==> r.value == shops[shopId]
      ensures Valid() && r.Some? ==> r.value.id == shopId
      ensures Valid() && !IssuedBefore(shopId, idCounter) ==> r.None?
    {
      if shopId in shops then Some(shops[shopId]) else None
    }
  }
}
