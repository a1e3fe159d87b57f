/**
 * `/api/external-items`: rewards that are not catalogue products. Items are created
 * with defaults, stocked through the same add/update ledger rules as products (the
 * note is stored trimmed), and deleted behind the PIN only while no offer uses them.
 */
module ExternalItemRoutes {
  import opened Wrappers
  import opened Text
  import opened Ledger
  import opened Store

  const ItemNotFound := "External item not found"
  const ItemInUse := "Cannot delete item. It is currently used in active offers. Please remove from offers first."

  /**
   * The row `POST /api/external-items` inserts: the name is required and stored trimmed,
   * the description trimmed or null, the image only when the upload succeeded (a failed
   * upload does not fail creation), stock 0 and threshold 50 unless supplied.
   * The form is multipart, so every field arrives as text: `stockQuantity` and
   * `lowStockThreshold` are `None` when the field is absent or empty, and otherwise the
   * number its text parses to. Any non-empty text is truthy, so a sent "0" is kept as 0.
   */
  function NewExternalItem(itemName: Option<string>, itemDescription: Option<string>,
                           stockQuantity: Option<int>, lowStockThreshold: Option<int>,
                           upload: Upload, now: int): (c: Checked<ExternalItem>)
    ensures c.Rejected? <==> itemName.None? || IsBlank(itemName.value)
    ensures c.Rejected? ==> c.response == BadRequest("Item name is required")
    ensures c.Accepted? ==> c.value.itemName == Trim(itemName.value) != ""
    ensures c.Accepted? ==> c.value.itemDescription == TrimmedOrNull(itemDescription)
    ensures c.Accepted? ==> (c.value.itemImage.Some? <==> upload.Uploaded?)
    ensures c.Accepted? && upload.Uploaded? ==> c.value.itemImage == Some(upload.publicUrl)
    ensures c.Accepted? && stockQuantity.None? ==> c.value.stockQuantity == 0
    ensures c.Accepted? && stockQuantity.Some? ==> c.value.stockQuantity == stockQuantity.value
    ensures c.Accepted? && lowStockThreshold.None? ==> c.value.lowStockThreshold == 50
    ensures c.Accepted? && lowStockThreshold.Some? ==> c.value.lowStockThreshold == lowStockThreshold.value
  {
    if itemName.None? then Rejected(BadRequest("Item name is required"))
    else
      TrimEmptyIffBlank(itemName.value);
      if Trim(itemName.value) == "" then Rejected(BadRequest("Item name is required"))
      else
        var image := if upload.Uploaded? then Some(upload.publicUrl) else None;
        Accepted(ExternalItem(Trim(itemName.value), TrimmedOrNull(itemDescription), image,
                              stockQuantity.GetOr(0), lowStockThreshold.GetOr(50), now))
  }

  /** `POST /api/external-items`: insert a new item under a fresh id. */
  method CreateExternalItem(db: Database, itemName: Option<string>, itemDescription: Option<string>,
                            stockQuantity: Option<int>, lowStockThreshold: Option<int>,
                            upload: Upload, now: int) returns (response: Response, id: Option<int>)
    requires db.Valid()
    modifies db
    ensures db.Valid()
    ensures old(db.ExternalItemsAudited()) ==> db.ExternalItemsAudited()
    ensures var c := NewExternalItem(itemName, itemDescription, stockQuantity, lowStockThreshold, upload, now);
      c.Rejected? ==> response == c.response && id.None? && db.Snapshot() == old(db.Snapshot())
    ensures var c := NewExternalItem(itemName, itemDescription, stockQuantity, lowStockThreshold, upload, now);
      c.Accepted? ==>
        && response == Created && id == Some(old(db.nextId))
        && old(db.nextId) !in old(db.externalItems)
        && db.Snapshot() == old(db.Snapshot()).(
             externalItems := old(db.externalItems)[old(db.nextId) := c.value],
             nextId := old(db.nextId) + 1)
  {
    var c := NewExternalItem(itemName, itemDescription, stockQuantity, lowStockThreshold, upload, now);
    if c.Rejected? {
      return c.response, None;
    }
    var newId := InsertExternalItem(db, c.value);
    response, id := Created, Some(newId);
  }

  /** `POST /api/external-items/:id/add`: raise an item's stock by a positive amount. */
  method AddExternalStock(db: Database, itemId: int, quantity: Option<int>, reasonType: Option<string>,
                          reasonNote: Option<string>, now: int) returns (response: Response)
    requires db.Valid()
    modifies db
    ensures db.Valid() && db.Openings() == old(db.Openings())
    ensures old(db.ExternalItemsAudited()) ==> db.ExternalItemsAudited()
    ensures var c := CheckAddition(quantity, reasonType, reasonNote);
      c.Rejected? ==> response == c.response && db.Snapshot() == old(db.Snapshot())
    ensures (CheckAddition(quantity, reasonType, reasonNote).Accepted? && itemId !in old(db.externalItems)) ==>
      response == BadRequest(ItemNotFound) && db.Snapshot() == old(db.Snapshot())
    ensures var c := CheckAddition(quantity, reasonType, reasonNote);
      c.Accepted? && itemId in old(db.externalItems) ==>
        var before := old(db.externalItems)[itemId];
        var q := c.value.amount;
        && response == Ok("Added " + NatToString(q) + " units successfully")
        && db.Snapshot() == old(db.Snapshot()).(
             externalItems := old(db.externalItems)[itemId :=
               before.(stockQuantity := before.stockQuantity + q, lastUpdated := now)],
             externalItemHistory := old(db.externalItemHistory) + [HistoryRow(itemId, Action.Addition,
               before.stockQuantity, before.stockQuantity + q, q, c.value.reason,
               TrimmedOrNull(reasonNote), false)])
  {
    var c := CheckAddition(quantity, reasonType, reasonNote);
    if c.Rejected? {
      return c.response;
    }
    if itemId !in db.externalItems {
      return BadRequest(ItemNotFound);
    }
    var before := db.externalItems[itemId];
    var q := c.value.amount;
    var after := before.(stockQuantity := before.stockQuantity + q, lastUpdated := now);
    var row := HistoryRow(itemId, Action.Addition, before.stockQuantity, before.stockQuantity + q, q,
                          c.value.reason, TrimmedOrNull(reasonNote), false);
    LogExternalItemWrite(db, after, row);
    response := Ok("Added " + NatToString(q) + " units successfully");
  }

  /** `PUT /api/external-items/:id/update`: set an item's stock behind the PIN. */
  method UpdateExternalStock(db: Database, itemId: int, quantity: Option<int>, reasonType: Option<string>,
                             reasonNote: Option<string>, adminPin: Option<string>, now: int)
    returns (response: Response)
    requires db.Valid()
    modifies db
    ensures db.Valid() && db.Openings() == old(db.Openings())
    ensures old(db.ExternalItemsAudited()) ==> db.ExternalItemsAudited()
    ensures var c := CheckUpdate(quantity, reasonType, reasonNote, adminPin, db.adminPin);
      c.Rejected? ==> response == c.response && db.Snapshot() == old(db.Snapshot())
    ensures !PinAccepts(adminPin, db.adminPin) ==> !response.Ok? && db.Snapshot() == old(db.Snapshot())
    ensures (CheckUpdate(quantity, reasonType, reasonNote, adminPin, db.adminPin).Accepted?
             && itemId !in old(db.externalItems)) ==>
      response == BadRequest(ItemNotFound) && db.Snapshot() == old(db.Snapshot())
    ensures var c := CheckUpdate(quantity, reasonType, reasonNote, adminPin, db.adminPin);
      c.Accepted? && itemId in old(db.externalItems) ==>
        var before := old(db.externalItems)[itemId];
        var target := c.value.target;
        && response == Ok("Stock updated successfully")
        && db.Snapshot() == old(db.Snapshot()).(
             externalItems := old(db.externalItems)[itemId :=
               before.(stockQuantity := target, lastUpdated := now)],
             externalItemHistory := old(db.externalItemHistory) + [HistoryRow(itemId, Action.Update,
               before.stockQuantity, target, target - before.stockQuantity, c.value.reason,
               TrimmedOrNull(reasonNote), true)])
  {
    var c := CheckUpdate(quantity, reasonType, reasonNote, adminPin, db.adminPin);
    if c.Rejected? {
      return c.response;
    }
    if itemId !in db.externalItems {
      return BadRequest(ItemNotFound);
    }
    var before := db.externalItems[itemId];
    var target := c.value.target;
    var after := before.(stockQuantity := target, lastUpdated := now);
    var row := HistoryRow(itemId, Action.Update, before.stockQuantity, target, target - before.stockQuantity,
                          c.value.reason, TrimmedOrNull(reasonNote), true);
    LogExternalItemWrite(db, after, row);
    response := Ok("Stock updated successfully");
  }

  /** Some offer names the item as its reward. */
  predicate InUse(offers: map<int, Offer>, itemId: int) {
    exists offerId :: offerId in offers && offers[offerId].externalItemId == Some(itemId)
  }

  /**
   * `DELETE /api/external-items/:id`: behind the PIN, and refused while any offer uses
   * the item. Deleting an id with no row succeeds and changes nothing.
   */
  method DeleteExternalItem(db: Database, itemId: int, adminPin: Option<string>) returns (response: Response)
    requires db.Valid()
    modifies db
    ensures db.Valid() && db.Openings() == old(db.Openings())
    ensures old(db.ExternalItemsAudited()) ==> db.ExternalItemsAudited()
    ensures !PinAccepts(adminPin, db.adminPin) ==>
      response == Forbidden("Invalid PIN") && db.Snapshot() == old(db.Snapshot())
    ensures PinAccepts(adminPin, db.adminPin) && InUse(old(db.offers), itemId) ==>
      response == BadRequest(ItemInUse) && db.Snapshot() == old(db.Snapshot())
    ensures PinAccepts(adminPin, db.adminPin) && !InUse(old(db.offers), itemId) ==>
      && response == Ok("External item deleted successfully")
      && db.Snapshot() == old(db.Snapshot()).(externalItems := old(db.externalItems) - {itemId})
  {
    if !PinAccepts(adminPin, db.adminPin) {
      return Forbidden("Invalid PIN");
    }
    if InUse(db.offers, itemId) {
      return BadRequest(ItemInUse);
    }
    db.externalItems := db.externalItems - {itemId};
    response := Ok("External item deleted successfully");
  }
}
