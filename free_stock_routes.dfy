/**
 * `/api/free-stock`: additions to a product's promotional stock. After a successful
 * addition the handler reports the inactive free-item offers that mention the product,
 * without touching them; an admin must re-activate them explicitly.
 */
module FreeStockRoutes {
  import opened Wrappers
  import opened Text
  import opened Ledger
  import opened Store

  const FreeStockNotFound := "Product free stock not found"

  /** An inactive free-item offer that names the product as bought or as given away. */
  predicate AwaitsActivation(o: Offer, productId: int) {
    && o.offerType == Some("free_item")
    && !o.isActive
    && (o.productId == Some(productId) || o.freeItemProductId == Some(productId))
  }

  /** The ids the inactive-offer scan returns for a product. */
  function InactiveOffers(offers: map<int, Offer>, productId: int): (ids: set<int>)
    ensures ids <= offers.Keys
    ensures forall id :: id in offers && AwaitsActivation(offers[id], productId) ==> id in ids
    ensures forall id :: id in ids ==> !offers[id].isActive && offers[id].offerType == Some("free_item")
    ensures forall id :: id in ids ==>
      offers[id].productId == Some(productId) || offers[id].freeItemProductId == Some(productId)
  {
    set id | id in offers && AwaitsActivation(offers[id], productId)
  }

  /**
   * `POST /api/free-stock/:productId/add`: raise `free_stock_quantity` by a positive
   * amount, log an "addition", and list the offers that may now be activatable.
   * `allocated_to_offers` and every offer stay as they were.
   */
  method AddFreeStock(db: Database, productId: int, quantity: Option<int>, reasonType: Option<string>,
                      reasonNote: Option<string>, now: int)
    returns (response: Response, inactiveOffers: set<int>)
    requires db.Valid()
    modifies db
    ensures db.Valid() && db.Openings() == old(db.Openings())
    ensures old(db.FreeStockAudited()) ==> db.FreeStockAudited()
    ensures db.offers == old(db.offers)
    ensures !response.Ok? ==> inactiveOffers == {}
    ensures var c := CheckAddition(quantity, reasonType, reasonNote);
      c.Rejected? ==> response == c.response && db.Snapshot() == old(db.Snapshot())
    ensures (CheckAddition(quantity, reasonType, reasonNote).Accepted? && productId !in old(db.freeStock)) ==>
      response == BadRequest(FreeStockNotFound) && db.Snapshot() == old(db.Snapshot())
    ensures var c := CheckAddition(quantity, reasonType, reasonNote);
      c.Accepted? && productId in old(db.freeStock) ==>
        var before := old(db.freeStock)[productId];
        var q := c.value.amount;
        && response == Ok("Added " + NatToString(q) + " units to free stock")
        && inactiveOffers == InactiveOffers(old(db.offers), productId)
        && db.Snapshot() == old(db.Snapshot()).(
             freeStock := old(db.freeStock)[productId :=
               before.(freeStockQuantity := before.freeStockQuantity + q, lastUpdated := now)],
             freeStockHistory := old(db.freeStockHistory) + [HistoryRow(productId, Action.Addition,
               before.freeStockQuantity, before.freeStockQuantity + q, q, c.value.reason,
               OrNull(reasonNote), false)])
        && db.freeStock[productId].allocatedToOffers == before.allocatedToOffers
  {
    inactiveOffers := {};
    var c := CheckAddition(quantity, reasonType, reasonNote);
    if c.Rejected? {
      return c.response, {};
    }
    if productId !in db.freeStock {
      return BadRequest(FreeStockNotFound), {};
    }
    var before := db.freeStock[productId];
    var q := c.value.amount;
    var after := before.(freeStockQuantity := before.freeStockQuantity + q, lastUpdated := now);
    var row := HistoryRow(productId, Action.Addition, before.freeStockQuantity,
                          before.freeStockQuantity + q, q, c.value.reason, OrNull(reasonNote), false);
    LogFreeStockWrite(db, after, row);
    inactiveOffers := InactiveOffers(db.offers, productId);
    response := Ok("Added " + NatToString(q) + " units to free stock");
  }
}
