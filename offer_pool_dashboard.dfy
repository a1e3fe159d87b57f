/**
 * The offer-pool dashboard of the admin client: the totals shown above the pool cards,
 * which pools offer their actions, the transfer form's destination, and the checks
 * made in the browser before a transfer or a write-off is sent.
 */
module OfferPoolDashboard {
  import opened Wrappers
  import opened Text
  import opened Ledger
  import opened Store
  import opened OfferPoolRoutes

  function Accumulated(p: Pool): int { p.accumulatedQuantity }
  function TransferredToRegular(p: Pool): int { p.totalTransferredToRegular }
  function TransferredToFree(p: Pool): int { p.totalTransferredToFree }
  function DeductedFrom(p: Pool): int { p.totalDeducted }

  /** `pools.reduce((sum, pool) => sum + f(pool), 0)`. */
  function Sum(pools: seq<Pool>, f: Pool -> int): int
    decreases |pools|
  {
    if pools == [] then 0 else Sum(pools[..|pools| - 1], f) + f(pools[|pools| - 1])
  }

  /** Replacing one pool moves a total by the difference between the new pool and the old. */
  lemma {:induction false} SumAfterReplace(pools: seq<Pool>, i: int, p: Pool, f: Pool -> int)
    requires 0 <= i < |pools|
    ensures Sum(pools[i := p], f) == Sum(pools, f) - f(pools[i]) + f(p)
    decreases |pools|
  {
    var n := |pools| - 1;
    var pools' := pools[i := p];
    if i == n {
      assert pools'[..n] == pools[..n];
    } else {
      assert pools'[..n] == pools[..n][i := p];
      SumAfterReplace(pools[..n], i, p, f);
    }
  }

  /** "Items in Pool", `getTotalPoolItems`. */
  function TotalPoolItems(pools: seq<Pool>): int { Sum(pools, Accumulated) }

  /** "Transferred to Stock", `getTotalTransferred`: transfers to regular stock only. */
  function TotalTransferred(pools: seq<Pool>): int { Sum(pools, TransferredToRegular) }

  /** "Deducted", `getTotalDeducted`. */
  function TotalDeducted(pools: seq<Pool>): int { Sum(pools, DeductedFrom) }

  /**
   * The dashboard's three totals together with the units transferred to free stock,
   * which it does not show, account for every unit the pools ever held.
   */
  lemma {:induction false} TotalsAccountForEveryUnit(pools: seq<Pool>)
    ensures TotalPoolItems(pools) + TotalTransferred(pools) + Sum(pools, TransferredToFree) + TotalDeducted(pools)
      == Sum(pools, PoolTotal)
    decreases |pools|
  {
    if pools != [] {
      TotalsAccountForEveryUnit(pools[..|pools| - 1]);
    }
  }

  /**
   * After the server moves `q` units of pool `i` to regular stock, "Items in Pool" drops
   * by `q`, "Transferred to Stock" rises by `q` and "Deducted" stays.
   */
  lemma TotalsAfterTransferToRegular(pools: seq<Pool>, i: int, q: int, now: int)
    requires 0 <= i < |pools|
    ensures var pools' := pools[i := TransferPool(pools[i], q, ToRegular, now)];
      && TotalPoolItems(pools') == TotalPoolItems(pools) - q
      && TotalTransferred(pools') == TotalTransferred(pools) + q
      && TotalDeducted(pools') == TotalDeducted(pools)
  {
    var p := TransferPool(pools[i], q, ToRegular, now);
    SumAfterReplace(pools, i, p, Accumulated);
    SumAfterReplace(pools, i, p, TransferredToRegular);
    SumAfterReplace(pools, i, p, DeductedFrom);
  }

  /**
   * A transfer to free stock takes units out of "Items in Pool" without showing them in
   * "Transferred to Stock": the displayed totals then no longer add up.
   */
  lemma TotalsAfterTransferToFree(pools: seq<Pool>, i: int, q: int, now: int)
    requires 0 <= i < |pools|
    ensures var pools' := pools[i := TransferPool(pools[i], q, ToFree, now)];
      && TotalPoolItems(pools') == TotalPoolItems(pools) - q
      && TotalTransferred(pools') == TotalTransferred(pools)
      && TotalDeducted(pools') == TotalDeducted(pools)
  {
    var p := TransferPool(pools[i], q, ToFree, now);
    SumAfterReplace(pools, i, p, Accumulated);
    SumAfterReplace(pools, i, p, TransferredToRegular);
    SumAfterReplace(pools, i, p, DeductedFrom);
  }

  /** After `q` units of pool `i` are written off, "Items in Pool" drops and "Deducted" rises by `q`. */
  lemma TotalsAfterDeduction(pools: seq<Pool>, i: int, q: int, now: int)
    requires 0 <= i < |pools|
    ensures var pools' := pools[i := DeductPool(pools[i], q, now)];
      && TotalPoolItems(pools') == TotalPoolItems(pools) - q
      && TotalTransferred(pools') == TotalTransferred(pools)
      && TotalDeducted(pools') == TotalDeducted(pools) + q
  {
    var p := DeductPool(pools[i], q, now);
    SumAfterReplace(pools, i, p, Accumulated);
    SumAfterReplace(pools, i, p, TransferredToRegular);
    SumAfterReplace(pools, i, p, DeductedFrom);
  }

  /** The Transfer and Deduct buttons: disabled when `accumulated_quantity === 0`. */
  predicate ActionsEnabled(p: Pool) {
    p.accumulatedQuantity != 0
  }

  /** The transfer form: the chosen destination and the text typed into its fields. */
  datatype TransferForm = TransferForm(transferTo: Destination, quantity: string, pin: string)

  /** `openTransferModal`: the form starts on regular stock with empty fields. */
  function OpenTransferForm(): (form: TransferForm)
    ensures form.transferTo == ToRegular && form.quantity == "" && form.pin == ""
  {
    TransferForm(ToRegular, "", "")
  }

  /** The destination radio buttons: the one for free stock is disabled. */
  predicate Selectable(d: Destination) {
    d != ToFree
  }

  /** A click on destination `d`: only an enabled radio button changes the form. */
  function ChooseDestination(form: TransferForm, d: Destination): (form': TransferForm)
    ensures form'.quantity == form.quantity && form'.pin == form.pin
  {
    if Selectable(d) then form.(transferTo := d) else form
  }

  /** The form after a sequence of clicks on destinations. */
  function AfterClicks(form: TransferForm, clicks: seq<Destination>): TransferForm
    decreases |clicks|
  {
    if clicks == [] then form else AfterClicks(ChooseDestination(form, clicks[0]), clicks[1..])
  }

  /** However the destinations are clicked, the form always asks for a transfer to regular stock. */
  lemma {:induction false} TransfersAlwaysGoToRegular(clicks: seq<Destination>)
    ensures AfterClicks(OpenTransferForm(), clicks).transferTo == ToRegular
  {
    StaysRegular(OpenTransferForm(), clicks);
  }

  lemma {:induction false} StaysRegular(form: TransferForm, clicks: seq<Destination>)
    requires form.transferTo == ToRegular
    ensures AfterClicks(form, clicks).transferTo == ToRegular
    decreases |clicks|
  {
    if clicks != [] {
      StaysRegular(ChooseDestination(form, clicks[0]), clicks[1..]);
    }
  }

  /** The refusal shown when a pool holds fewer units than typed. */
  function Unavailable(available: int): string {
    "Only " + IntToString(available) + " items available"
  }

  /**
   * The quantity checks both forms begin with: `!q || parseInt(q) <= 0`, then
   * `parseInt(q) > accumulated_quantity`. Text that is not a number (`NaN`) fails neither.
   */
  function QuantityError(available: int, quantity: string): (error: Option<string>)
    ensures error.None? && ParseInt(quantity).Some? ==> 0 < ParseInt(quantity).value <= available
    ensures error.None? ==> quantity != ""
    ensures ParseInt(quantity).Some? && 0 < ParseInt(quantity).value <= available ==> error.None?
    ensures error.Some? ==>
      error.value == "Please enter a valid quantity" || error.value == Unavailable(available)
    ensures quantity == "" || (ParseInt(quantity).Some? && ParseInt(quantity).value <= 0) ==>
      error == Some("Please enter a valid quantity")
    ensures ParseInt(quantity).Some? && 0 < ParseInt(quantity).value && available < ParseInt(quantity).value ==>
      error == Some(Unavailable(available))
  {
    if quantity == "" || (ParseInt(quantity).Some? && ParseInt(quantity).value <= 0) then
      Some("Please enter a valid quantity")
    else if ParseInt(quantity).Some? && ParseInt(quantity).value > available then
      Some(Unavailable(available))
    else None
  }

  /** `handleTransfer`'s checks, in order: the quantity, then a PIN that is not blank. */
  function TransferGuard(pool: Pool, form: TransferForm): (error: Option<string>)
    ensures QuantityError(pool.accumulatedQuantity, form.quantity).Some? ==>
      error == QuantityError(pool.accumulatedQuantity, form.quantity)
    ensures error.None? <==>
      QuantityError(pool.accumulatedQuantity, form.quantity).None? && !IsBlank(form.pin)
    ensures error.Some? && QuantityError(pool.accumulatedQuantity, form.quantity).None? ==>
      error.value == "PIN is required"
  {
    TrimEmptyIffBlank(form.pin);
    if QuantityError(pool.accumulatedQuantity, form.quantity).Some? then
      QuantityError(pool.accumulatedQuantity, form.quantity)
    else if Trim(form.pin) == "" then Some("PIN is required")
    else None
  }

  /** The deduct form: the text typed into its fields. */
  datatype DeductForm = DeductForm(quantity: string, reason: string, pin: string)

  /** `handleDeduct`'s checks, in order: the quantity, a reason, then a PIN, none of them blank. */
  function DeductGuard(pool: Pool, form: DeductForm): (error: Option<string>)
    ensures QuantityError(pool.accumulatedQuantity, form.quantity).Some? ==>
      error == QuantityError(pool.accumulatedQuantity, form.quantity)
    ensures error.None? <==>
      QuantityError(pool.accumulatedQuantity, form.quantity).None? && !IsBlank(form.reason) && !IsBlank(form.pin)
    ensures QuantityError(pool.accumulatedQuantity, form.quantity).None? && IsBlank(form.reason) ==>
      error == Some("Reason is required")
    ensures QuantityError(pool.accumulatedQuantity, form.quantity).None? && !IsBlank(form.reason) && IsBlank(form.pin)
      ==> error == Some("PIN is required")
  {
    TrimEmptyIffBlank(form.reason);
    TrimEmptyIffBlank(form.pin);
    if QuantityError(pool.accumulatedQuantity, form.quantity).Some? then
      QuantityError(pool.accumulatedQuantity, form.quantity)
    else if Trim(form.reason) == "" then Some("Reason is required")
    else if Trim(form.pin) == "" then Some("PIN is required")
    else None
  }

  /**
   * A transfer the browser lets through, with a number typed and the configured PIN,
   * passes every check of `POST /:poolId/transfer`, including the shortfall check, as
   * long as the pool has not changed in between.
   */
  lemma TransferGuardAgreesWithServer(pool: Pool, form: TransferForm, configuredPin: Option<string>)
    requires TransferGuard(pool, form).None? && ParseInt(form.quantity).Some?
    requires PinAccepts(Some(form.pin), configuredPin)
    ensures CheckTransfer(ParseInt(form.quantity), Some(DestinationName(form.transferTo)), Some(form.pin), configuredPin)
      == Accepted(TransferRequest(ParseInt(form.quantity).value, form.transferTo))
    ensures ParseInt(form.quantity).value <= pool.accumulatedQuantity
  {
  }

  /**
   * Text that is not a number passes the browser's quantity checks, is sent as `NaN`
   * (JSON `null`), and is refused by the server.
   */
  lemma NonNumberRefusedOnlyByServer(pool: Pool, form: TransferForm, configuredPin: Option<string>)
    requires form.quantity != "" && ParseInt(form.quantity).None? && !IsBlank(form.pin)
    ensures TransferGuard(pool, form).None?
    ensures CheckTransfer(ParseInt(form.quantity), Some(DestinationName(form.transferTo)), Some(form.pin), configuredPin)
      == Rejected(BadRequest("Quantity must be greater than 0"))
  {
  }

  /**
   * A write-off the browser lets through, with a number typed and the configured PIN,
   * passes every check of `POST /:poolId/deduct`, the reason being sent as typed.
   */
  lemma DeductGuardAgreesWithServer(pool: Pool, form: DeductForm, configuredPin: Option<string>)
    requires DeductGuard(pool, form).None? && ParseInt(form.quantity).Some?
    requires PinAccepts(Some(form.pin), configuredPin)
    ensures CheckDeduct(ParseInt(form.quantity), Some(form.reason), Some(form.pin), configuredPin)
      == Accepted(DeductRequest(ParseInt(form.quantity).value, form.reason))
    ensures ParseInt(form.quantity).value <= pool.accumulatedQuantity
  {
  }

  /**
   * On a pool that holds no negative quantity, the actions are offered exactly when some
   * quantity would pass the quantity checks: typing "1" does whenever the buttons are enabled.
   */
  lemma ActionsEnabledIffSomethingToMove(p: Pool)
    requires p.accumulatedQuantity >= 0
    ensures ActionsEnabled(p) <==> QuantityError(p.accumulatedQuantity, NatToString(1)).None?
    ensures !ActionsEnabled(p) ==> forall s :: ParseInt(s).Some? ==> QuantityError(p.accumulatedQuantity, s).Some?
  {
    ParseIntOfNatToString(1);
  }
}
