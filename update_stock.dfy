/**
 * The stock page of the admin client: how a product's stock is classified and labelled,
 * the overview counts, the checks made before an update is sent, and the list of the
 * five most recently updated products.
 */
module UpdateStockPage {
  import opened Wrappers
  import opened Text
  import opened Ledger
  import opened Store
  import opened StockRoutes

  /** `getStockStatus`: "out", "low" or "in". */
  datatype StockStatus = Out | Low | In

  function StatusOf(quantity: int, threshold: int): (s: StockStatus)
    ensures s == Out <==> quantity == 0
    ensures s == Low <==> quantity != 0 && quantity < threshold
    ensures s == In <==> quantity != 0 && quantity >= threshold
  {
    if quantity == 0 then Out
    else if quantity < threshold then Low
    else In
  }

  /** `getStockLabel`, which repeats the classification's conditions. */
  function StockLabel(quantity: int, threshold: int): string {
    if quantity == 0 then "Out of Stock"
    else if quantity < threshold then "Low Stock"
    else "In Stock"
  }

  /** The label each status is shown with. */
  function LabelOf(s: StockStatus): string {
    match s
    case Out => "Out of Stock"
    case Low => "Low Stock"
    case In => "In Stock"
  }

  /** The label and the status agree on every quantity and threshold, and no two statuses share a label. */
  lemma LabelAgreesWithStatus(quantity: int, threshold: int)
    ensures StockLabel(quantity, threshold) == LabelOf(StatusOf(quantity, threshold))
    ensures forall s, s' :: LabelOf(s) == LabelOf(s') ==> s == s'
  {
    forall s, s' | LabelOf(s) == LabelOf(s')
      ensures s == s'
    {
      assert LabelOf(s)[0] == LabelOf(s')[0];
      assert LabelOf(s)[1] == LabelOf(s')[1];
    }
  }

  /** One product's stock as the page lists it; `lastUpdated` is a timestamp. */
  datatype StockRow = StockRow(productId: int, quantity: int, lowStockThreshold: int, lastUpdated: int)

  /** The "In Stock" overview count: `quantity > 0 && quantity >= threshold`. */
  function CountIn(rows: seq<StockRow>): nat
    decreases |rows|
  {
    if rows == [] then 0
    else (if rows[0].quantity > 0 && rows[0].quantity >= rows[0].lowStockThreshold then 1 else 0) + CountIn(rows[1..])
  }

  /** The "Low Stock" overview count: `quantity > 0 && quantity < threshold`. */
  function CountLow(rows: seq<StockRow>): nat
    decreases |rows|
  {
    if rows == [] then 0
    else (if rows[0].quantity > 0 && rows[0].quantity < rows[0].lowStockThreshold then 1 else 0) + CountLow(rows[1..])
  }

  /** The "Out of Stock" overview count: `quantity === 0`. */
  function CountOut(rows: seq<StockRow>): nat
    decreases |rows|
  {
    if rows == [] then 0
    else (if rows[0].quantity == 0 then 1 else 0) + CountOut(rows[1..])
  }

  /** The number of rows the classification puts in status `s`. */
  function CountStatus(rows: seq<StockRow>, s: StockStatus): nat
    decreases |rows|
  {
    if rows == [] then 0
    else (if StatusOf(rows[0].quantity, rows[0].lowStockThreshold) == s then 1 else 0) + CountStatus(rows[1..], s)
  }

  predicate NoNegativeStock(rows: seq<StockRow>) {
    forall i :: 0 <= i < |rows| ==> rows[i].quantity >= 0
  }

  /**
   * With no negative quantity, each overview count is the number of rows of its status,
   * so the three counts add up to the number of products.
   */
  lemma {:induction false} OverviewCountsPartition(rows: seq<StockRow>)
    requires NoNegativeStock(rows)
    ensures CountIn(rows) == CountStatus(rows, In)
    ensures CountLow(rows) == CountStatus(rows, Low)
    ensures CountOut(rows) == CountStatus(rows, Out)
    ensures CountIn(rows) + CountLow(rows) + CountOut(rows) == |rows|
    decreases |rows|
  {
    if rows != [] {
      assert NoNegativeStock(rows[1..]) by {
        forall i | 0 <= i < |rows[1..]|
          ensures rows[1..][i].quantity >= 0
        {
          assert rows[1..][i] == rows[i + 1];
        }
      }
      OverviewCountsPartition(rows[1..]);
    }
  }

  /** A negative quantity is classified but counted nowhere in the overview. */
  lemma NegativeStockUncounted(r: StockRow)
    requires r.quantity < 0
    ensures CountIn([r]) + CountLow([r]) + CountOut([r]) == 0
    ensures StatusOf(r.quantity, r.lowStockThreshold) != Out
  {
  }

  /**
   * The check before an update is sent: `newQuantity === "" || parseInt(newQuantity) < 0`
   * is refused. Text that does not parse at all (`NaN`) is let through.
   */
  function QuantityGuard(input: string): (error: Option<string>)
    ensures error.Some? ==> error.value == "Please enter a valid quantity"
    ensures input == "" ==> error.Some?
    ensures ParseInt(input).Some? ==> (error.Some? <==> ParseInt(input).value < 0)
    ensures input != "" && ParseInt(input).None? ==> error.None?
  {
    if input == "" || (ParseInt(input).Some? && ParseInt(input).value < 0) then Some("Please enter a valid quantity")
    else None
  }

  /** The guard lets every non-negative count through and refuses every negative one. */
  lemma QuantityGuardOnNumbers(n: nat)
    ensures QuantityGuard(NatToString(n)).None? && ParseInt(NatToString(n)) == Some(n)
    ensures n > 0 ==> QuantityGuard("-" + NatToString(n)).Some?
  {
    ParseIntOfNatToString(n);
    var t := NatToString(n);
    var m := "-" + t;
    assert TrimStart(m) == m;
    assert m[1..] == t;
    assert TrimStart(t) == t;
    assert DigitPrefix(t) == t;
    DigitsValueOfNatToString(n);
  }

  /** What pressing "Update" leads to: the page's own refusal, or the server's answer. */
  datatype Outcome = Refused(message: string) | Sent(response: Response)

  /**
   * `handleUpdate`: the guard, then `PUT /api/stock/:productId` with `parseInt` of the
   * typed quantity (text that does not parse gives `NaN`, which JSON sends as null) and
   * the threshold with its default. A non-numeric quantity passes the page's guard and
   * is refused by the server as missing.
   */
  method SubmitUpdate(db: Database, productId: int, newQuantity: string, newThreshold: string, now: int)
    returns (outcome: Outcome)
    requires db.Valid()
    modifies db
    ensures db.Valid() && db.Openings() == old(db.Openings())
    ensures db.stockHistory == old(db.stockHistory)
    ensures QuantityGuard(newQuantity).Some? ==>
      outcome == Refused("Please enter a valid quantity") && db.Snapshot() == old(db.Snapshot())
    ensures newQuantity != "" && ParseInt(newQuantity).None? ==>
      outcome == Sent(BadRequest("Quantity is required")) && db.Snapshot() == old(db.Snapshot())
    ensures QuantityGuard(newQuantity).None? && ParseInt(newQuantity).Some? ==>
      && ParseInt(newQuantity).value >= 0
      && outcome == Sent(Ok("Stock updated successfully"))
      && (productId !in old(db.stock) ==> db.Snapshot() == old(db.Snapshot()))
      && (productId in old(db.stock) ==>
            db.Snapshot() == old(db.Snapshot()).(stock := old(db.stock)[productId :=
              StockRecord(ParseInt(newQuantity).value, ThresholdToSend(newThreshold), now)]))
  {
    var error := QuantityGuard(newQuantity);
    if error.Some? {
      return Refused(error.value);
    }
    var response := SetStockLegacy(db, productId, ParseInt(newQuantity), Some(ThresholdToSend(newThreshold)), now);
    outcome := Sent(response);
  }

  /** `parseInt(newThreshold) || 600`. */
  function ThresholdToSend(input: string): (threshold: int)
    ensures ParseInt(input).Some? && ParseInt(input).value != 0 ==> threshold == ParseInt(input).value
    ensures ParseInt(input).None? || ParseInt(input) == Some(0) ==> threshold == 600
  {
    NumberOr(ParseInt(input), 600)
  }

  /** A blank or zero threshold is sent as 600; any other count is sent as typed. */
  lemma ThresholdDefaults(n: nat)
    ensures ThresholdToSend("") == 600
    ensures ThresholdToSend("0") == 600
    ensures n > 0 ==> ThresholdToSend(NatToString(n)) == n
  {
    ParseIntOfNatToString(0);
    ParseIntOfNatToString(n);
  }

  /** Newest first: no row is older than a row after it. */
  predicate NewestFirst(s: seq<StockRow>) {
    forall i, j :: 0 <= i < j < |s| ==> s[i].lastUpdated >= s[j].lastUpdated
  }

  /** Insert `r` into a newest-first list after every row at least as recent. */
  function InsertByRecency(r: StockRow, s: seq<StockRow>): (t: seq<StockRow>)
    requires NewestFirst(s)
    ensures NewestFirst(t)
    ensures multiset(t) == multiset(s) + multiset{r}
    decreases |s|
  {
    if s == [] then [r]
    else if s[0].lastUpdated >= r.lastUpdated then
      var rest := InsertByRecency(r, s[1..]);
      NoneNewerThanHead(s, r, rest);
      assert s == [s[0]] + s[1..];
      [s[0]] + rest
    else [r] + s
  }

  /** Every row taken from the tail of a newest-first list, or no newer than its head, is no newer than its head. */
  lemma NoneNewerThanHead(s: seq<StockRow>, r: StockRow, t: seq<StockRow>)
    requires NewestFirst(s) && s != [] && r.lastUpdated <= s[0].lastUpdated
    requires multiset(t) == multiset(s[1..]) + multiset{r}
    ensures forall k :: 0 <= k < |t| ==> t[k].lastUpdated <= s[0].lastUpdated
  {
    forall k | 0 <= k < |t|
      ensures t[k].lastUpdated <= s[0].lastUpdated
    {
      assert t[k] in multiset(t);
      if t[k] != r {
        assert t[k] in multiset(s[1..]);
        var m :| 0 <= m < |s[1..]| && s[1..][m] == t[k];
        assert s[1..][m] == s[m + 1];
      }
    }
  }

  /** `.sort((a, b) => b.last_updated - a.last_updated)`: a newest-first permutation. */
  function SortByRecency(rows: seq<StockRow>): (s: seq<StockRow>)
    ensures NewestFirst(s)
    ensures multiset(s) == multiset(rows)
    decreases |rows|
  {
    if rows == [] then []
    else
      assert rows == rows[..|rows| - 1] + [rows[|rows| - 1]];
      InsertByRecency(rows[|rows| - 1], SortByRecency(rows[..|rows| - 1]))
  }

  /** `.sort(...).slice(0, 5)`: at most five rows, newest first, all taken from the list. */
  function RecentlyUpdated(rows: seq<StockRow>): (recent: seq<StockRow>)
    ensures |recent| == if |rows| < 5 then |rows| else 5
    ensures NewestFirst(recent)
    ensures multiset(recent) <= multiset(rows)
  {
    var s := SortByRecency(rows);
    var recent := if |s| <= 5 then s else s[..5];
    assert s == recent + s[|recent|..];
    assert |s| == |multiset(s)| == |multiset(rows)| == |rows|;
    recent
  }

  /** No product left out of the recent list was updated later than any product in it. */
  lemma RecentlyUpdatedKeepsNewest(rows: seq<StockRow>, i: int, k: int)
    requires 0 <= i < |rows| && rows[i] !in RecentlyUpdated(rows)
    requires 0 <= k < |RecentlyUpdated(rows)|
    ensures rows[i].lastUpdated <= RecentlyUpdated(rows)[k].lastUpdated
  {
    var s := SortByRecency(rows);
    var recent := RecentlyUpdated(rows);
    assert recent == s[..|recent|];
    assert rows[i] in multiset(rows);
    assert rows[i] in s;
    var j :| 0 <= j < |s| && s[j] == rows[i];
    assert forall m :: 0 <= m < |recent| ==> recent[m] == s[m] != rows[i];
  }
}
