/**
 * `/api/offer-pool`: units an offer has set aside for a product accumulate in a pool;
 * behind the PIN an administrator moves them into regular or free stock, or writes
 * them off. Every unit that leaves a pool is counted in one of its three totals.
 */
module OfferPoolRoutes {
  import opened Wrappers
  import opened Text
  import opened Ledger
  import opened Store

  /** `transfer_to`: the ledger pooled units go to. */
  datatype Destination = ToRegular | ToFree

  /** The name the request and the messages use for a destination. */
  function DestinationName(d: Destination): (name: string)
    ensures ParseDestination(Some(name)) == Some(d)
  {
    match d
    case ToRegular => "regular"
    case ToFree => "free"
  }

  /** `["regular", "free"].includes(transfer_to)`. */
  function ParseDestination(s: Option<string>): (d: Option<Destination>)
    ensures d.Some? <==> s == Some("regular") || s == Some("free")
  {
    if s == Some("regular") then Some(ToRegular)
    else if s == Some("free") then Some(ToFree)
    else None
  }

  datatype TransferRequest = TransferRequest(amount: int, destination: Destination)

  /**
   * The validation of `POST /:poolId/transfer`, in the handler's order: a positive
   * quantity, a known destination, then the PIN. The pool is read only afterwards.
   */
  function CheckTransfer(quantity: Option<int>, transferTo: Option<string>,
                         adminPin: Option<string>, configuredPin: Option<string>)
    : (c: Checked<TransferRequest>)
    ensures c.Accepted? <==>
      && quantity.Some? && quantity.value > 0
      && ParseDestination(transferTo).Some?
      && PinAccepts(adminPin, configuredPin)
    ensures c.Accepted? ==>
      c.value.amount == quantity.value > 0 && Some(c.value.destination) == ParseDestination(transferTo)
    ensures quantity.None? || quantity.value <= 0 ==>
      c == Rejected(BadRequest("Quantity must be greater than 0"))
    ensures quantity.Some? && quantity.value > 0 && ParseDestination(transferTo).None? ==>
      c == Rejected(BadRequest("Invalid transfer destination"))
    ensures c.Rejected? && c.response.Forbidden? <==>
      && quantity.Some? && quantity.value > 0
      && ParseDestination(transferTo).Some?
      && !PinAccepts(adminPin, configuredPin)
    ensures c.Rejected? ==> c.response.BadRequest? || c.response == Forbidden("Invalid PIN")
  {
    if quantity.None? || quantity.value <= 0 then Rejected(BadRequest("Quantity must be greater than 0"))
    else
      match ParseDestination(transferTo)
      case None => Rejected(BadRequest("Invalid transfer destination"))
      case Some(d) =>
        if !PinAccepts(adminPin, configuredPin) then Rejected(Forbidden("Invalid PIN"))
        else Accepted(TransferRequest(quantity.value, d))
  }

  datatype DeductRequest = DeductRequest(amount: int, reason: string)

  /**
   * The validation of `POST /:poolId/deduct`, in the handler's order: a positive
   * quantity, a reason that is not blank (stored as sent, untrimmed), then the PIN.
   */
  function CheckDeduct(quantity: Option<int>, reason: Option<string>,
                       adminPin: Option<string>, configuredPin: Option<string>)
    : (c: Checked<DeductRequest>)
    ensures c.Accepted? <==>
      && quantity.Some? && quantity.value > 0
      && reason.Some? && !IsBlank(reason.value)
      && PinAccepts(adminPin, configuredPin)
    ensures c.Accepted? ==> c.value.amount == quantity.value > 0 && Some(c.value.reason) == reason
    ensures quantity.None? || quantity.value <= 0 ==>
      c == Rejected(BadRequest("Quantity must be greater than 0"))
    ensures quantity.Some? && quantity.value > 0 && (reason.None? || IsBlank(reason.value)) ==>
      c == Rejected(BadRequest("Reason is required"))
    ensures c.Rejected? ==> c.response.BadRequest? || c.response == Forbidden("Invalid PIN")
  {
    if quantity.None? || quantity.value <= 0 then Rejected(BadRequest("Quantity must be greater than 0"))
    else if NoteMissing(reason) then
      TrimEmptyIffBlank(reason.GetOr(""));
      Rejected(BadRequest("Reason is required"))
    else
      TrimEmptyIffBlank(reason.value);
      if !PinAccepts(adminPin, configuredPin) then Rejected(Forbidden("Invalid PIN"))
      else Accepted(DeductRequest(quantity.value, reason.value))
  }

  /** The refusal when a pool holds fewer units than asked for. */
  function Shortfall(p: Pool): Response {
    BadRequest("Only " + IntToString(p.accumulatedQuantity) + " items available in pool")
  }

  /**
   * The pool after `q` units are moved to a destination: they leave the accumulated
   * quantity and are added to that destination's total, so no unit is gained or lost.
   */
  function TransferPool(p: Pool, q: int, d: Destination, now: int): (p': Pool)
    ensures PoolTotal(p') == PoolTotal(p)
    ensures p'.accumulatedQuantity == p.accumulatedQuantity - q
    ensures p'.totalDeducted == p.totalDeducted
    ensures d == ToRegular ==> p'.totalTransferredToFree == p.totalTransferredToFree
    ensures d == ToFree ==> p'.totalTransferredToRegular == p.totalTransferredToRegular
    ensures p'.offerId == p.offerId && p'.productId == p.productId && p'.lastUpdated == now
  {
    match d
    case ToRegular =>
      p.(accumulatedQuantity := p.accumulatedQuantity - q,
         totalTransferredToRegular := p.totalTransferredToRegular + q, lastUpdated := now)
    case ToFree =>
      p.(accumulatedQuantity := p.accumulatedQuantity - q,
         totalTransferredToFree := p.totalTransferredToFree + q, lastUpdated := now)
  }

  /** The pool after `q` units are written off: they move from accumulated to deducted. */
  function DeductPool(p: Pool, q: int, now: int): (p': Pool)
    ensures PoolTotal(p') == PoolTotal(p)
    ensures p'.accumulatedQuantity == p.accumulatedQuantity - q
    ensures p'.totalTransferredToRegular == p.totalTransferredToRegular
    ensures p'.totalTransferredToFree == p.totalTransferredToFree
    ensures p'.offerId == p.offerId && p'.productId == p.productId && p'.lastUpdated == now
  {
    p.(accumulatedQuantity := p.accumulatedQuantity - q, totalDeducted := p.totalDeducted + q, lastUpdated := now)
  }

  /** The answer to a completed transfer: "Transferred q items to regular stock" or "... free stock". */
  function TransferMessage(q: nat, d: Destination): string {
    "Transferred " + NatToString(q) + " items to " + DestinationName(d) + " stock"
  }

  /** The note a transfer leaves in the destination ledger. */
  function TransferNote(poolId: int): string {
    "Transferred from offer pool (Pool ID: " + IntToString(poolId) + ")"
  }

  /** Whether the ledger of destination `d` has a row for the product. */
  predicate HasLedgerRow(t: Tables, productId: int, d: Destination) {
    match d
    case ToRegular => productId in t.stock
    case ToFree => productId in t.freeStock
  }

  /**
   * The tables after `q` units of pool `poolId` are transferred to `d`. The pool row is
   * written first. When the destination ledger has a row for the pool's product, that
   * row gains the units, the change is logged in its history as a PIN-authorised
   * movement of reason "other", and the pool history records the transfer. Without such
   * a row the handler fails after the pool write, so only the pool has changed.
   */
  function Transferred(t: Tables, poolId: int, q: int, d: Destination, now: int): Tables
    requires poolId in t.pools
  {
    var pool := t.pools[poolId];
    var pid := pool.productId;
    var pooled := t.(pools := t.pools[poolId := TransferPool(pool, q, d, now)]);
    var note := Some(TransferNote(poolId));
    if !HasLedgerRow(t, pid, d) then pooled
    else match d
      case ToRegular =>
        var before := t.stock[pid];
        pooled.(
          stock := t.stock[pid := before.(quantity := before.quantity + q, lastUpdated := now)],
          stockHistory := t.stockHistory + [HistoryRow(pid, Action.Addition, before.quantity,
            before.quantity + q, q, Other, note, true)],
          poolHistory := t.poolHistory + [PoolHistoryRow(poolId, TransferredToRegular, q,
            "Admin transfer to regular stock", true)])
      case ToFree =>
        var before := t.freeStock[pid];
        pooled.(
          freeStock := t.freeStock[pid := before.(freeStockQuantity := before.freeStockQuantity + q, lastUpdated := now)],
          freeStockHistory := t.freeStockHistory + [HistoryRow(pid, Action.TransferToFree, before.freeStockQuantity,
            before.freeStockQuantity + q, q, Other, note, true)],
          poolHistory := t.poolHistory + [PoolHistoryRow(poolId, TransferredToFree, q,
            "Admin transfer to free stock", true)])
  }

  /** The answer to that transfer: the success message, or 500 when the destination row is missing. */
  function TransferAnswer(t: Tables, poolId: int, q: nat, d: Destination): Response
    requires poolId in t.pools
  {
    if HasLedgerRow(t, t.pools[poolId].productId, d) then Ok(TransferMessage(q, d))
    else ServerError("Internal server error")
  }

  /**
   * What a transfer the handler lets through does to the tables: the units that leave
   * the pool arrive in the destination row, the other ledger and every unrelated table
   * stay as they were, the pool keeps its lifetime total and stays non-negative, and the
   * pool history gains exactly one row when, and only when, the destination row exists.
   */
  lemma TransferMovesUnits(t: Tables, poolId: int, q: int, d: Destination, now: int)
    requires poolId in t.pools && 0 < q <= t.pools[poolId].accumulatedQuantity
    ensures var t' := Transferred(t, poolId, q, d, now);
      var pool := t.pools[poolId];
      var pool' := t'.pools[poolId];
      && t'.offers == t.offers && t'.companies == t.companies && t'.customers == t.customers
      && t'.externalItems == t.externalItems && t'.externalItemHistory == t.externalItemHistory
      && t'.nextId == t.nextId
      && t'.pools.Keys == t.pools.Keys
      && (forall id :: id in t.pools && id != poolId ==> t'.pools[id] == t.pools[id])
      && 0 <= pool'.accumulatedQuantity < pool.accumulatedQuantity
      && PoolTotal(pool') == PoolTotal(pool)
      && (d == ToRegular ==> t'.freeStock == t.freeStock && t'.freeStockHistory == t.freeStockHistory)
      && (d == ToFree ==> t'.stock == t.stock && t'.stockHistory == t.stockHistory)
      && (d == ToRegular && pool.productId in t.stock ==>
            t'.stock[pool.productId].quantity + pool'.accumulatedQuantity
            == t.stock[pool.productId].quantity + pool.accumulatedQuantity)
      && (d == ToFree && pool.productId in t.freeStock ==>
            t'.freeStock[pool.productId].freeStockQuantity + pool'.accumulatedQuantity
            == t.freeStock[pool.productId].freeStockQuantity + pool.accumulatedQuantity)
      && (HasLedgerRow(t, pool.productId, d) <==> |t'.poolHistory| == |t.poolHistory| + 1)
      && (!HasLedgerRow(t, pool.productId, d) ==> t'.poolHistory == t.poolHistory && t'.stock == t.stock && t'.freeStock == t.freeStock)
  {
    var pool := t.pools[poolId];
    var t' := Transferred(t, poolId, q, d, now);
    assert t'.pools == t.pools[poolId := TransferPool(pool, q, d, now)];
    if HasLedgerRow(t, pool.productId, d) {
      match d
      case ToRegular =>
        assert t'.stock[pool.productId].quantity == t.stock[pool.productId].quantity + q;
      case ToFree =>
        assert t'.freeStock[pool.productId].freeStockQuantity == t.freeStock[pool.productId].freeStockQuantity + q;
    }
  }

  /**
   * The regular-stock half of a transfer: `q` units are added to the product's stock and
   * logged as an addition of reason "other" made with the PIN. With no stock row the
   * handler dereferences a missing row: nothing is written and `credited` is false.
   */
  method CreditStock(db: Database, productId: int, q: int, note: string, now: int) returns (credited: bool)
    requires db.Valid()
    modifies db
    ensures db.Valid() && db.Openings() == old(db.Openings())
    ensures old(db.StockAudited()) ==> db.StockAudited()
    ensures credited <==> productId in old(db.stock)
    ensures !credited ==> db.Snapshot() == old(db.Snapshot())
    ensures credited ==>
      var before := old(db.stock)[productId];
      db.Snapshot() == old(db.Snapshot()).(
        stock := old(db.stock)[productId := before.(quantity := before.quantity + q, lastUpdated := now)],
        stockHistory := old(db.stockHistory) + [HistoryRow(productId, Action.Addition, before.quantity,
          before.quantity + q, q, Other, Some(note), true)])
  {
    if productId !in db.stock {
      return false;
    }
    var before := db.stock[productId];
    var after := before.(quantity := before.quantity + q, lastUpdated := now);
    var row := HistoryRow(productId, Action.Addition, before.quantity, before.quantity + q, q, Other, Some(note), true);
    LogStockWrite(db, after, row);
    credited := true;
  }

  /**
   * The free-stock half of a transfer: `q` units are added to the product's free stock
   * (its allocation to offers untouched) and logged as a `transfer_to_free` row.
   */
  method CreditFreeStock(db: Database, productId: int, q: int, note: string, now: int) returns (credited: bool)
    requires db.Valid()
    modifies db
    ensures db.Valid() && db.Openings() == old(db.Openings())
    ensures old(db.FreeStockAudited()) ==> db.FreeStockAudited()
    ensures credited <==> productId in old(db.freeStock)
    ensures !credited ==> db.Snapshot() == old(db.Snapshot())
    ensures credited ==>
      var before := old(db.freeStock)[productId];
      db.Snapshot() == old(db.Snapshot()).(
        freeStock := old(db.freeStock)[productId := before.(
          freeStockQuantity := before.freeStockQuantity + q, lastUpdated := now)],
        freeStockHistory := old(db.freeStockHistory) + [HistoryRow(productId, Action.TransferToFree,
          before.freeStockQuantity, before.freeStockQuantity + q, q, Other, Some(note), true)])
  {
    if productId !in db.freeStock {
      return false;
    }
    var before := db.freeStock[productId];
    var after := before.(freeStockQuantity := before.freeStockQuantity + q, lastUpdated := now);
    var row := HistoryRow(productId, Action.TransferToFree, before.freeStockQuantity,
                          before.freeStockQuantity + q, q, Other, Some(note), true);
    LogFreeStockWrite(db, after, row);
    credited := true;
  }

  /**
   * A transfer the validation and the pool let through, to regular stock: the pool is
   * updated, then the stock credited and logged, then the pool history written. With no
   * stock row for the pool's product only the pool update happens and the answer is 500.
   */
  method TransferToRegular(db: Database, poolId: int, q: int, now: int) returns (response: Response)
    requires db.Valid() && poolId in db.pools && 0 < q <= db.pools[poolId].accumulatedQuantity
    modifies db
    ensures db.Valid() && db.Openings() == old(db.Openings())
    ensures old(db.StockAudited()) ==> db.StockAudited()
    ensures old(db.FreeStockAudited()) ==> db.FreeStockAudited()
    ensures db.Snapshot() == Transferred(old(db.Snapshot()), poolId, q, ToRegular, now)
    ensures response == TransferAnswer(old(db.Snapshot()), poolId, q, ToRegular)
  {
    var pool := db.pools[poolId];
    WritePool(db, poolId, TransferPool(pool, q, ToRegular, now));
    var credited := CreditStock(db, pool.productId, q, TransferNote(poolId), now);
    if !credited {
      return ServerError("Internal server error");
    }
    db.poolHistory := db.poolHistory + [PoolHistoryRow(poolId, TransferredToRegular, q,
                                                       "Admin transfer to regular stock", true)];
    response := Ok(TransferMessage(q, ToRegular));
  }

  /** The same, to free stock: the free-stock ledger is credited and its allocation kept. */
  method TransferToFree(db: Database, poolId: int, q: int, now: int) returns (response: Response)
    requires db.Valid() && poolId in db.pools && 0 < q <= db.pools[poolId].accumulatedQuantity
    modifies db
    ensures db.Valid() && db.Openings() == old(db.Openings())
    ensures old(db.StockAudited()) ==> db.StockAudited()
    ensures old(db.FreeStockAudited()) ==> db.FreeStockAudited()
    ensures db.Snapshot() == Transferred(old(db.Snapshot()), poolId, q, ToFree, now)
    ensures response == TransferAnswer(old(db.Snapshot()), poolId, q, ToFree)
  {
    var pool := db.pools[poolId];
    WritePool(db, poolId, TransferPool(pool, q, ToFree, now));
    var credited := CreditFreeStock(db, pool.productId, q, TransferNote(poolId), now);
    if !credited {
      return ServerError("Internal server error");
    }
    db.poolHistory := db.poolHistory + [PoolHistoryRow(poolId, TransferredToFree, q,
                                                       "Admin transfer to free stock", true)];
    response := Ok(TransferMessage(q, ToFree));
  }

  /**
   * `POST /api/offer-pool/:poolId/transfer`: validation, then the pool must exist and
   * hold enough units, then the move to the requested destination.
   */
  method TransferFromPool(db: Database, poolId: int, quantity: Option<int>, transferTo: Option<string>,
                          adminPin: Option<string>, now: int) returns (response: Response)
    requires db.Valid()
    modifies db
    ensures db.Valid() && db.Openings() == old(db.Openings())
    ensures old(db.StockAudited()) ==> db.StockAudited()
    ensures old(db.FreeStockAudited()) ==> db.FreeStockAudited()
    ensures var c := CheckTransfer(quantity, transferTo, adminPin, db.adminPin);
      c.Rejected? ==> response == c.response && db.Snapshot() == old(db.Snapshot())
    ensures CheckTransfer(quantity, transferTo, adminPin, db.adminPin).Accepted? && poolId !in old(db.pools) ==>
      response == NotFound("Pool not found") && db.Snapshot() == old(db.Snapshot())
    ensures var c := CheckTransfer(quantity, transferTo, adminPin, db.adminPin);
      c.Accepted? && poolId in old(db.pools) && old(db.pools)[poolId].accumulatedQuantity < c.value.amount ==>
        response == Shortfall(old(db.pools)[poolId]) && db.Snapshot() == old(db.Snapshot())
    ensures var c := CheckTransfer(quantity, transferTo, adminPin, db.adminPin);
      c.Accepted? && poolId in old(db.pools) && old(db.pools)[poolId].accumulatedQuantity >= c.value.amount ==>
        && db.Snapshot() == Transferred(old(db.Snapshot()), poolId, c.value.amount, c.value.destination, now)
        && response == TransferAnswer(old(db.Snapshot()), poolId, c.value.amount, c.value.destination)
  {
    var c := CheckTransfer(quantity, transferTo, adminPin, db.adminPin);
    if c.Rejected? {
      return c.response;
    }
    if poolId !in db.pools {
      return NotFound("Pool not found");
    }
    var pool := db.pools[poolId];
    var q := c.value.amount;
    if pool.accumulatedQuantity < q {
      return Shortfall(pool);
    }
    if c.value.destination == ToRegular {
      response := TransferToRegular(db, poolId, q, now);
    } else {
      response := TransferToFree(db, poolId, q, now);
    }
  }

  /**
   * `POST /api/offer-pool/:poolId/deduct`: write pooled units off, behind the PIN, and
   * record the write-off with its reason in the pool history. No stock ledger changes.
   */
  method DeductFromPool(db: Database, poolId: int, quantity: Option<int>, reason: Option<string>,
                        adminPin: Option<string>, now: int) returns (response: Response)
    requires db.Valid()
    modifies db
    ensures db.Valid() && db.Openings() == old(db.Openings())
    ensures var c := CheckDeduct(quantity, reason, adminPin, db.adminPin);
      c.Rejected? ==> response == c.response && db.Snapshot() == old(db.Snapshot())
    ensures CheckDeduct(quantity, reason, adminPin, db.adminPin).Accepted? && poolId !in old(db.pools) ==>
      response == NotFound("Pool not found") && db.Snapshot() == old(db.Snapshot())
    ensures var c := CheckDeduct(quantity, reason, adminPin, db.adminPin);
      c.Accepted? && poolId in old(db.pools) && old(db.pools)[poolId].accumulatedQuantity < c.value.amount ==>
        response == Shortfall(old(db.pools)[poolId]) && db.Snapshot() == old(db.Snapshot())
    ensures var c := CheckDeduct(quantity, reason, adminPin, db.adminPin);
      c.Accepted? && poolId in old(db.pools) && old(db.pools)[poolId].accumulatedQuantity >= c.value.amount ==>
        var q := c.value.amount;
        && response == Ok("Deducted " + NatToString(q) + " items from pool")
        && db.Snapshot() == old(db.Snapshot()).(
             pools := old(db.pools)[poolId := DeductPool(old(db.pools)[poolId], q, now)],
             poolHistory := old(db.poolHistory) + [PoolHistoryRow(poolId, Deducted, q, c.value.reason, true)])
  {
    var c := CheckDeduct(quantity, reason, adminPin, db.adminPin);
    if c.Rejected? {
      return c.response;
    }
    if poolId !in db.pools {
      return NotFound("Pool not found");
    }
    var pool := db.pools[poolId];
    var q := c.value.amount;
    if pool.accumulatedQuantity < q {
      return Shortfall(pool);
    }
    WritePool(db, poolId, DeductPool(pool, q, now));
    db.poolHistory := db.poolHistory + [PoolHistoryRow(poolId, Deducted, q, c.value.reason, true)];
    response := Ok("Deducted " + NatToString(q) + " items from pool");
  }
}
