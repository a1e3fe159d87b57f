/**
 * `/api/stock`: additions without a PIN, PIN-gated absolute updates, and the legacy
 * update kept for backward compatibility. Each handler reads the product's `stock` row,
 * writes the new quantity and, except the legacy one, appends one `stock_history` row.
 */
module StockRoutes {
  import opened Wrappers
  import opened Text
  import opened Ledger
  import opened Store

  const StockNotFound := "Product stock not found"

  /** `POST /api/stock/:productId/add`: raise a product's stock by a positive amount. */
  method AddStock(db: Database, productId: int, quantity: Option<int>, reasonType: Option<string>,
                  reasonNote: Option<string>, now: int) returns (response: Response)
    requires db.Valid()
    modifies db
    ensures db.Valid() && db.Openings() == old(db.Openings())
    ensures old(db.StockAudited()) ==> db.StockAudited()
    ensures var c := CheckAddition(quantity, reasonType, reasonNote);
      c.Rejected? ==> response == c.response && db.Snapshot() == old(db.Snapshot())
    ensures CheckAddition(quantity, reasonType, reasonNote).Accepted? && productId !in old(db.stock) ==>
      response == BadRequest(StockNotFound) && db.Snapshot() == old(db.Snapshot())
    ensures var c := CheckAddition(quantity, reasonType, reasonNote);
      c.Accepted? && productId in old(db.stock) ==>
        var before := old(db.stock)[productId];
        var q := c.value.amount;
        && response == Ok("Added " + NatToString(q) + " units successfully")
        && db.Snapshot() == old(db.Snapshot()).(
             stock := old(db.stock)[productId := before.(quantity := before.quantity + q, lastUpdated := now)],
             stockHistory := old(db.stockHistory) + [HistoryRow(productId, Action.Addition, before.quantity,
               before.quantity + q, q, c.value.reason, OrNull(reasonNote), false)])
  {
    var c := CheckAddition(quantity, reasonType, reasonNote);
    if c.Rejected? {
      return c.response;
    }
    if productId !in db.stock {
      return BadRequest(StockNotFound);
    }
    var before := db.stock[productId];
    var q := c.value.amount;
    var after := before.(quantity := before.quantity + q, lastUpdated := now);
    var row := HistoryRow(productId, Action.Addition, before.quantity, before.quantity + q, q,
                          c.value.reason, OrNull(reasonNote), false);
    LogStockWrite(db, after, row);
    response := Ok("Added " + NatToString(q) + " units successfully");
  }

  /**
   * `PUT /api/stock/:productId/update`: set a product's stock to an absolute value,
   * behind the PIN, logging the (possibly negative) change.
   */
  method UpdateStock(db: Database, productId: int, quantity: Option<int>, reasonType: Option<string>,
                     reasonNote: Option<string>, adminPin: Option<string>, now: int)
    returns (response: Response)
    requires db.Valid()
    modifies db
    ensures db.Valid() && db.Openings() == old(db.Openings())
    ensures old(db.StockAudited()) ==> db.StockAudited()
    ensures var c := CheckUpdate(quantity, reasonType, reasonNote, adminPin, db.adminPin);
      c.Rejected? ==> response == c.response && db.Snapshot() == old(db.Snapshot())
    ensures !PinAccepts(adminPin, db.adminPin) ==> !response.Ok? && db.Snapshot() == old(db.Snapshot())
    ensures (CheckUpdate(quantity, reasonType, reasonNote, adminPin, db.adminPin).Accepted?
             && productId !in old(db.stock)) ==>
      response == BadRequest(StockNotFound) && db.Snapshot() == old(db.Snapshot())
    ensures var c := CheckUpdate(quantity, reasonType, reasonNote, adminPin, db.adminPin);
      c.Accepted? && productId in old(db.stock) ==>
        var before := old(db.stock)[productId];
        var target := c.value.target;
        && response == Ok("Stock updated successfully")
        && db.Snapshot() == old(db.Snapshot()).(
             stock := old(db.stock)[productId := before.(quantity := target, lastUpdated := now)],
             stockHistory := old(db.stockHistory) + [HistoryRow(productId, Action.Update, before.quantity,
               target, target - before.quantity, c.value.reason, OrNull(reasonNote), true)])
        && productId in db.stock && db.stock[productId].quantity >= 0
  {
    var c := CheckUpdate(quantity, reasonType, reasonNote, adminPin, db.adminPin);
    if c.Rejected? {
      return c.response;
    }
    if productId !in db.stock {
      return BadRequest(StockNotFound);
    }
    var before := db.stock[productId];
    var target := c.value.target;
    var after := before.(quantity := target, lastUpdated := now);
    var row := HistoryRow(productId, Action.Update, before.quantity, target, target - before.quantity,
                          c.value.reason, OrNull(reasonNote), true);
    LogStockWrite(db, after, row);
    response := Ok("Stock updated successfully");
  }

  /**
   * `PUT /api/stock/:productId`, the legacy update: sets the quantity (and the
   * threshold when one is supplied) with no PIN, no lower bound and no history row.
   * An unknown product matches no row, which the handler reports as success.
   */
  method SetStockLegacy(db: Database, productId: int, quantity: Option<int>,
                        lowStockThreshold: Option<int>, now: int) returns (response: Response)
    requires db.Valid()
    modifies db
    ensures db.Valid() && db.Openings() == old(db.Openings())
    ensures db.stockHistory == old(db.stockHistory)
    ensures quantity.None? ==>
      response == BadRequest("Quantity is required") && db.Snapshot() == old(db.Snapshot())
    ensures quantity.Some? && productId !in old(db.stock) ==>
      response == Ok("Stock updated successfully") && db.Snapshot() == old(db.Snapshot())
    ensures quantity.Some? && productId in old(db.stock) ==>
      var before := old(db.stock)[productId];
      && response == Ok("Stock updated successfully")
      && db.Snapshot() == old(db.Snapshot()).(
           stock := old(db.stock)[productId := StockRecord(quantity.value,
             lowStockThreshold.GetOr(before.lowStockThreshold), now)])
    ensures (&& quantity.Some? && productId in old(db.stock) && old(db.StockAudited())
             && quantity.value != old(db.stock)[productId].quantity) ==> !db.StockAudited()
  {
    if quantity.None? {
      return BadRequest("Quantity is required");
    }
    response := Ok("Stock updated successfully");
    if productId in db.stock {
      var before := db.stock[productId];
      var after := StockRecord(quantity.value, lowStockThreshold.GetOr(before.lowStockThreshold), now);
      StockQuantitiesWrite(db.stock, productId, after);
      if quantity.value != before.quantity {
        UnloggedWriteBreaksAudit(StockQuantities(db.stock), db.stockOpening, db.stockHistory,
                                 productId, quantity.value);
      }
      db.stock := db.stock[productId := after];
    }
  }
}
