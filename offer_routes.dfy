/**
 * `/api/offers`: creating an offer (product-specific or company-wide), toggling it
 * active, and deleting it. Offers are read by the free-stock scan and by the guard on
 * deleting an external item.
 */
module OfferRoutes {
  import opened Wrappers
  import opened Ledger
  import opened Store

  /** `x || null` for an id: an absent or zero id is stored as null. */
  function IdOrNull(x: Option<int>): (r: Option<int>)
    ensures r.None? <==> x.None? || x.value == 0
    ensures r.Some? ==> r == x
  {
    if x.Some? && x.value != 0 then x else None
  }

  /**
   * The row `POST /api/offers` inserts, or the refusal: a product offer needs a product,
   * a company offer a company. The product is kept only on a product offer, the company
   * whenever given; the offer is active unless `is_active` is sent. The offer type itself
   * is not among the inserted columns. The weight, price and discount come from the
   * form's text inputs: each is `None` when the text is absent or empty, and otherwise the
   * number it parses to; any non-empty text is truthy, so `x ? parseFloat(x) : null` keeps
   * a sent "0" as 0 and stores null only for an empty field.
   */
  function NewOffer(offerType: Option<string>, productId: Option<int>, companyId: Option<int>,
                    minProductWeight: Option<real>, minProductMrp: Option<real>, offerItem: Option<string>,
                    offerDiscount: Option<real>, isActive: Option<bool>): (c: Checked<Offer>)
    ensures offerType == Some("product") && IdOrNull(productId).None? ==>
      c == Rejected(BadRequest("Product is required for product-specific offers"))
    ensures offerType == Some("company") && IdOrNull(companyId).None? ==>
      c == Rejected(BadRequest("Company is required for company-wide offers"))
    ensures c.Rejected? ==>
      (offerType == Some("product") && IdOrNull(productId).None?)
      || (offerType == Some("company") && IdOrNull(companyId).None?)
    ensures c.Accepted? ==>
      && (c.value.productId.Some? <==> offerType == Some("product"))
      && (c.value.productId.Some? ==> c.value.productId == productId && productId.value != 0)
      && c.value.companyId == IdOrNull(companyId)
      && (offerType == Some("company") ==> c.value.companyId == companyId)
      && c.value.minProductWeight == minProductWeight
      && c.value.minProductMrp == minProductMrp
      && c.value.offerItem == OrNull(offerItem)
      && c.value.offerDiscount == offerDiscount
      && c.value.isActive == isActive.GetOr(true)
      && c.value.offerType.None? && c.value.freeItemProductId.None? && c.value.externalItemId.None?
  {
    if offerType == Some("product") && IdOrNull(productId).None? then
      Rejected(BadRequest("Product is required for product-specific offers"))
    else if offerType == Some("company") && IdOrNull(companyId).None? then
      Rejected(BadRequest("Company is required for company-wide offers"))
    else
      Accepted(Offer(None, if offerType == Some("product") then productId else None, IdOrNull(companyId),
                     minProductWeight, minProductMrp, OrNull(offerItem),
                     offerDiscount, isActive.GetOr(true), None, None))
  }

  /** `POST /api/offers`: insert the new offer under a fresh id. */
  method CreateOffer(db: Database, offerType: Option<string>, productId: Option<int>, companyId: Option<int>,
                     minProductWeight: Option<real>, minProductMrp: Option<real>, offerItem: Option<string>,
                     offerDiscount: Option<real>, isActive: Option<bool>) returns (response: Response, id: Option<int>)
    requires db.Valid()
    modifies db
    ensures db.Valid() && db.Openings() == old(db.Openings())
    ensures var c := NewOffer(offerType, productId, companyId, minProductWeight, minProductMrp, offerItem,
                              offerDiscount, isActive);
      c.Rejected? ==> response == c.response && id.None? && db.Snapshot() == old(db.Snapshot())
    ensures var c := NewOffer(offerType, productId, companyId, minProductWeight, minProductMrp, offerItem,
                              offerDiscount, isActive);
      c.Accepted? ==>
        && response == Created && id == Some(old(db.nextId)) && old(db.nextId) !in old(db.offers)
        && db.Snapshot() == old(db.Snapshot()).(offers := old(db.offers)[old(db.nextId) := c.value],
                                                nextId := old(db.nextId) + 1)
  {
    var c := NewOffer(offerType, productId, companyId, minProductWeight, minProductMrp, offerItem,
                      offerDiscount, isActive);
    if c.Rejected? {
      return c.response, None;
    }
    var newId := db.nextId;
    db.offers := db.offers[newId := c.value];
    db.nextId := newId + 1;
    response, id := Created, Some(newId);
  }

  /** `PUT /api/offers/:id`: set whether the offer is active; nothing else about it changes. */
  method SetOfferActive(db: Database, offerId: int, isActive: bool) returns (response: Response)
    requires db.Valid()
    modifies db
    ensures db.Valid() && db.Openings() == old(db.Openings())
    ensures offerId !in old(db.offers) ==>
      response == NotFound("Offer not found") && db.Snapshot() == old(db.Snapshot())
    ensures offerId in old(db.offers) ==>
      && response == Ok("Offer updated successfully")
      && db.Snapshot() == old(db.Snapshot()).(
           offers := old(db.offers)[offerId := old(db.offers)[offerId].(isActive := isActive)])
  {
    if offerId !in db.offers {
      return NotFound("Offer not found");
    }
    db.offers := db.offers[offerId := db.offers[offerId].(isActive := isActive)];
    response := Ok("Offer updated successfully");
  }

  /** `DELETE /api/offers/:id`: remove the offer, or answer 404 when there is none. */
  method DeleteOffer(db: Database, offerId: int) returns (response: Response)
    requires db.Valid()
    modifies db
    ensures db.Valid() && db.Openings() == old(db.Openings())
    ensures offerId !in old(db.offers) ==>
      response == NotFound("Offer not found") && db.Snapshot() == old(db.Snapshot())
    ensures offerId in old(db.offers) ==>
      && response == Ok("Offer deleted successfully")
      && db.Snapshot() == old(db.Snapshot()).(offers := old(db.offers) - {offerId})
  {
    if offerId !in db.offers {
      return NotFound("Offer not found");
    }
    db.offers := db.offers - {offerId};
    response := Ok("Offer deleted successfully");
  }
}
