/**
 * The PIN gates of every admin route side by side: the stock and external-item
 * updates, the pool transfer and write-off, and the company and external-item deletes.
 */
module PinGates {
  import opened Wrappers
  import opened Ledger
  import opened OfferPoolRoutes
  import opened CompanyRoutes

  /**
   * With no admin PIN configured, or an empty one, every gate stays shut whatever is sent:
   * each PIN-gated check refuses, so by the handlers' contracts none of them writes.
   */
  lemma UnconfiguredPinShutsEveryGate(configured: Option<string>, pin: Option<string>,
                                      quantity: Option<int>, reasonType: Option<string>,
                                      reasonNote: Option<string>, transferTo: Option<string>,
                                      reason: Option<string>)
    requires configured.None? || configured == Some("")
    ensures !PinAccepts(pin, configured)
    ensures CheckUpdate(quantity, reasonType, reasonNote, pin, configured).Rejected?
    ensures CheckTransfer(quantity, transferTo, pin, configured).Rejected?
    ensures CheckDeduct(quantity, reason, pin, configured).Rejected?
    ensures CompanyPinGate(pin, configured).Some?
  {
  }
}
