/**
 * The tables the route handlers read and write, as one database object. Each table is
 * a map from row id to row (a `seq` for append-only tables); each handler is modelled
 * as one atomic step on this object.
 */
module Store {
  import opened Wrappers
  import opened Ledger

  /** A row of `stock`, keyed by product id. */
  datatype StockRecord = StockRecord(quantity: int, lowStockThreshold: int, lastUpdated: int)

  /** A row of `free_stock`, keyed by product id. */
  datatype FreeStockRecord = FreeStockRecord(freeStockQuantity: int, allocatedToOffers: int, lastUpdated: int)

  /** A row of `external_items`, keyed by item id. */
  datatype ExternalItem = ExternalItem(
    itemName: string,
    itemDescription: Option<string>,
    itemImage: Option<string>,
    stockQuantity: int,
    lowStockThreshold: int,
    lastUpdated: int)

  /** A row of `offer_pool`, keyed by pool id. */
  datatype Pool = Pool(
    offerId: int,
    productId: int,
    accumulatedQuantity: int,
    totalTransferredToRegular: int,
    totalTransferredToFree: int,
    totalDeducted: int,
    lastUpdated: int)

  /** Every unit a pool ever held: still pooled, transferred out, or written off. */
  function PoolTotal(p: Pool): int {
    p.accumulatedQuantity + p.totalTransferredToRegular + p.totalTransferredToFree + p.totalDeducted
  }

  /**
   * A row of `offers`, keyed by offer id. `offerType`, `freeItemProductId` and
   * `externalItemId` are columns no modelled handler writes; they are read by the
   * free-stock scan and the external-item delete guard.
   */
  datatype Offer = Offer(
    offerType: Option<string>,
    productId: Option<int>,
    companyId: Option<int>,
    minProductWeight: Option<real>,
    minProductMrp: Option<real>,
    offerItem: Option<string>,
    offerDiscount: Option<real>,
    isActive: bool,
    freeItemProductId: Option<int>,
    externalItemId: Option<int>)

  /** A row of `companies`, keyed by company id. */
  datatype Company = Company(companyName: string, companyLogo: Option<string>)

  /** A row of `customers`; latitude and longitude are kept as the text received. */
  datatype Customer = Customer(
    customerName: string,
    businessName: string,
    contactNumber: string,
    streetAddress: string,
    latitude: string,
    longitude: string,
    gstNumber: string,
    foodLicenceNumber: string,
    email: Option<string>)

  /** `action_type` of an `offer_pool_history` row. */
  datatype PoolAction = TransferredToRegular | TransferredToFree | Deducted

  /** A row of `offer_pool_history`. */
  datatype PoolHistoryRow = PoolHistoryRow(
    offerPoolId: int,
    action: PoolAction,
    quantity: int,
    reason: string,
    adminPinUsed: bool)

  /** What became of an optional image upload (the storage call itself is not modelled). */
  datatype Upload = NoFile | UploadFailed | Uploaded(publicUrl: string)

  /** The contents of every table at one moment. */
  datatype Tables = Tables(
    stock: map<int, StockRecord>,
    freeStock: map<int, FreeStockRecord>,
    externalItems: map<int, ExternalItem>,
    pools: map<int, Pool>,
    offers: map<int, Offer>,
    companies: map<int, Company>,
    customers: seq<Customer>,
    stockHistory: seq<HistoryRow>,
    freeStockHistory: seq<HistoryRow>,
    externalItemHistory: seq<HistoryRow>,
    poolHistory: seq<PoolHistoryRow>,
    nextId: int)

  function StockQuantities(stock: map<int, StockRecord>): (q: map<int, int>)
    ensures q.Keys == stock.Keys
    ensures forall id :: id in stock ==> q[id] == stock[id].quantity
  {
    map id | id in stock :: stock[id].quantity
  }

  function FreeStockQuantities(freeStock: map<int, FreeStockRecord>): (q: map<int, int>)
    ensures q.Keys == freeStock.Keys
    ensures forall id :: id in freeStock ==> q[id] == freeStock[id].freeStockQuantity
  {
    map id | id in freeStock :: freeStock[id].freeStockQuantity
  }

  function ExternalItemQuantities(items: map<int, ExternalItem>): (q: map<int, int>)
    ensures q.Keys == items.Keys
    ensures forall id :: id in items ==> q[id] == items[id].stockQuantity
  {
    map id | id in items :: items[id].stockQuantity
  }

  lemma StockQuantitiesWrite(stock: map<int, StockRecord>, id: int, r: StockRecord)
    ensures StockQuantities(stock[id := r]) == StockQuantities(stock)[id := r.quantity]
  {
  }

  lemma FreeStockQuantitiesWrite(freeStock: map<int, FreeStockRecord>, id: int, r: FreeStockRecord)
    ensures FreeStockQuantities(freeStock[id := r]) == FreeStockQuantities(freeStock)[id := r.freeStockQuantity]
  {
  }

  lemma ExternalItemQuantitiesWrite(items: map<int, ExternalItem>, id: int, r: ExternalItem)
    ensures ExternalItemQuantities(items[id := r]) == ExternalItemQuantities(items)[id := r.stockQuantity]
  {
  }

  /** The database: every table the handlers touch, and the configured admin PIN. */
  class Database {
    /** `process.env.ADMIN_DELETE_PIN`; `None` when the variable is unset. */
    const adminPin: Option<string>

    var stock: map<int, StockRecord>
    var freeStock: map<int, FreeStockRecord>
    var externalItems: map<int, ExternalItem>
    var pools: map<int, Pool>
    var offers: map<int, Offer>
    var companies: map<int, Company>
    var customers: seq<Customer>
    var stockHistory: seq<HistoryRow>
    var freeStockHistory: seq<HistoryRow>
    var externalItemHistory: seq<HistoryRow>
    var poolHistory: seq<PoolHistoryRow>
    /** The id sequence the database draws new external items, offers and companies from. */
    var nextId: int

    /** The quantity each ledger row held before any logged change. */
    ghost var stockOpening: map<int, int>
    ghost var freeStockOpening: map<int, int>
    ghost var externalItemOpening: map<int, int>

    function Snapshot(): Tables
      reads this
    {
      Tables(stock, freeStock, externalItems, pools, offers, companies, customers,
             stockHistory, freeStockHistory, externalItemHistory, poolHistory, nextId)
    }

    ghost function Openings(): (map<int, int>, map<int, int>, map<int, int>)
      reads this
    {
      (stockOpening, freeStockOpening, externalItemOpening)
    }

    /**
     * The invariant every handler keeps: each logged row is balanced, no pool holds a
     * negative quantity, and every inserted id lies below the id sequence.
     */
    ghost predicate Valid()
      reads this
    {
      && AllBalanced(stockHistory)
      && AllBalanced(freeStockHistory)
      && AllBalanced(externalItemHistory)
      && (forall id :: id in pools ==> pools[id].accumulatedQuantity >= 0)
      && (forall id :: id in externalItems ==> id < nextId)
      && (forall i :: 0 <= i < |externalItemHistory| ==> externalItemHistory[i].subjectId < nextId)
      && (forall id :: id in offers ==> id < nextId)
      && (forall id :: id in companies ==> id < nextId)
    }

    /** Regular stock agrees with its opening quantities plus `stock_history`. */
    ghost predicate StockAudited()
      reads this
    {
      Audited(StockQuantities(stock), stockOpening, stockHistory)
    }

    /** Free stock agrees with its opening quantities plus `free_stock_history`. */
    ghost predicate FreeStockAudited()
      reads this
    {
      Audited(FreeStockQuantities(freeStock), freeStockOpening, freeStockHistory)
    }

    /** External items agree with their opening quantities plus their history. */
    ghost predicate ExternalItemsAudited()
      reads this
    {
      Audited(ExternalItemQuantities(externalItems), externalItemOpening, externalItemHistory)
    }

    /**
     * The database as found: the given tables, empty histories, and an id sequence
     * above every existing id.
     */
    constructor (adminPin: Option<string>, stock: map<int, StockRecord>,
                 freeStock: map<int, FreeStockRecord>, externalItems: map<int, ExternalItem>,
                 pools: map<int, Pool>, offers: map<int, Offer>, companies: map<int, Company>,
                 customers: seq<Customer>, nextId: int)
      requires forall id :: id in pools ==> pools[id].accumulatedQuantity >= 0
      requires forall id :: id in externalItems ==> id < nextId
      requires forall id :: id in offers ==> id < nextId
      requires forall id :: id in companies ==> id < nextId
      ensures Valid() && StockAudited() && FreeStockAudited() && ExternalItemsAudited()
      ensures this.adminPin == adminPin
      ensures Snapshot() == Tables(stock, freeStock, externalItems, pools, offers, companies,
                                   customers, [], [], [], [], nextId)
    {
      this.adminPin := adminPin;
      this.stock := stock;
      this.freeStock := freeStock;
      this.externalItems := externalItems;
      this.pools := pools;
      this.offers := offers;
      this.companies := companies;
      this.customers := customers;
      this.stockHistory := [];
      this.freeStockHistory := [];
      this.externalItemHistory := [];
      this.poolHistory := [];
      this.nextId := nextId;
      this.stockOpening := StockQuantities(stock);
      this.freeStockOpening := FreeStockQuantities(freeStock);
      this.externalItemOpening := ExternalItemQuantities(externalItems);
    }
  }
  /**
   * One logged write to regular stock: the product's row is replaced and the balanced
   * history row recording the change is appended, which keeps the ledger audited.
   */
  method LogStockWrite(db: Database, after: StockRecord, row: HistoryRow)
    requires db.Valid() && row.subjectId in db.stock && Balanced(row)
    requires row.previousQuantity == db.stock[row.subjectId].quantity && row.newQuantity == after.quantity
    modifies db
    ensures db.Valid() && db.Openings() == old(db.Openings())
    ensures old(db.StockAudited()) ==> db.StockAudited()
    ensures db.Snapshot() == old(db.Snapshot()).(
      stock := old(db.stock)[row.subjectId := after], stockHistory := old(db.stockHistory) + [row])
  {
    StockQuantitiesWrite(db.stock, row.subjectId, after);
    AuditedAfterLoggedWrite(StockQuantities(db.stock), db.stockOpening, db.stockHistory, row);
    db.stock := db.stock[row.subjectId := after];
    db.stockHistory := db.stockHistory + [row];
  }

  /** The same for free stock and `free_stock_history`. */
  method LogFreeStockWrite(db: Database, after: FreeStockRecord, row: HistoryRow)
    requires db.Valid() && row.subjectId in db.freeStock && Balanced(row)
    requires row.previousQuantity == db.freeStock[row.subjectId].freeStockQuantity
    requires row.newQuantity == after.freeStockQuantity
    modifies db
    ensures db.Valid() && db.Openings() == old(db.Openings())
    ensures old(db.FreeStockAudited()) ==> db.FreeStockAudited()
    ensures db.Snapshot() == old(db.Snapshot()).(
      freeStock := old(db.freeStock)[row.subjectId := after], freeStockHistory := old(db.freeStockHistory) + [row])
  {
    FreeStockQuantitiesWrite(db.freeStock, row.subjectId, after);
    AuditedAfterLoggedWrite(FreeStockQuantities(db.freeStock), db.freeStockOpening, db.freeStockHistory, row);
    db.freeStock := db.freeStock[row.subjectId := after];
    db.freeStockHistory := db.freeStockHistory + [row];
  }

  /** The same for external items and their history. */
  method LogExternalItemWrite(db: Database, after: ExternalItem, row: HistoryRow)
    requires db.Valid() && row.subjectId in db.externalItems && Balanced(row)
    requires row.previousQuantity == db.externalItems[row.subjectId].stockQuantity
    requires row.newQuantity == after.stockQuantity
    modifies db
    ensures db.Valid() && db.Openings() == old(db.Openings())
    ensures old(db.ExternalItemsAudited()) ==> db.ExternalItemsAudited()
    ensures db.Snapshot() == old(db.Snapshot()).(
      externalItems := old(db.externalItems)[row.subjectId := after],
      externalItemHistory := old(db.externalItemHistory) + [row])
  {
    assert row.subjectId < db.nextId;
    ExternalItemQuantitiesWrite(db.externalItems, row.subjectId, after);
    AuditedAfterLoggedWrite(ExternalItemQuantities(db.externalItems), db.externalItemOpening,
                            db.externalItemHistory, row);
    db.externalItems := db.externalItems[row.subjectId := after];
    db.externalItemHistory := db.externalItemHistory + [row];
  }

  /**
   * Inserting a new external item under the next id of the id sequence; it opens at its
   * own quantity, so the external ledger stays audited without a history row.
   */
  method InsertExternalItem(db: Database, item: ExternalItem) returns (id: int)
    requires db.Valid()
    modifies db
    ensures db.Valid()
    ensures old(db.ExternalItemsAudited()) ==> db.ExternalItemsAudited()
    ensures id == old(db.nextId) && id !in old(db.externalItems)
    ensures db.Snapshot() == old(db.Snapshot()).(
      externalItems := old(db.externalItems)[id := item], nextId := id + 1)
  {
    id := db.nextId;
    NetChangeUnmentioned(db.externalItemHistory, id);
    ExternalItemQuantitiesWrite(db.externalItems, id, item);
    AuditedAfterOpening(ExternalItemQuantities(db.externalItems), db.externalItemOpening,
                        db.externalItemHistory, id, item.stockQuantity);
    db.externalItems := db.externalItems[id := item];
    db.externalItemOpening := db.externalItemOpening[id := item.stockQuantity];
    db.nextId := id + 1;
  }

  /** Writing a pool that holds no negative quantity; no ledger is touched. */
  method WritePool(db: Database, poolId: int, p: Pool)
    requires db.Valid() && p.accumulatedQuantity >= 0
    modifies db
    ensures db.Valid() && db.Openings() == old(db.Openings())
    ensures old(db.StockAudited()) ==> db.StockAudited()
    ensures old(db.FreeStockAudited()) ==> db.FreeStockAudited()
    ensures db.Snapshot() == old(db.Snapshot()).(pools := old(db.pools)[poolId := p])
  {
    db.pools := db.pools[poolId := p];
  }
}
