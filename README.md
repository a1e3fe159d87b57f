# Stock and offer-pool bookkeeping of YashPrototype

YashPrototype is an Express + Supabase back end with a React admin client for a
distributor. It sells products made by companies and runs offers that accumulate
free items into offer pools. This project models the parts that keep the numbers straight:

- the route handlers that change stock, free stock, external items, offer pools,
  offers, companies and customers;
- the history rows the handlers append beside each quantity change;
- three client pieces:
  - the stock page: status labels, overview counts, the update guard and the
    recently-updated list;
  - the offer-pool dashboard: totals, the transfer and deduct guards, and the
    destination radio buttons;
  - the breadcrumb trail.

The database is one `Store.Database` object. Every table is a map or sequence field on it,
and each handler is one module-level method with `modifies db`. For every outcome it
handles, a handler states its whole new state as the old snapshot with named fields
replaced, or as a function of the old snapshot (`OfferPoolRoutes.Transferred`). The ledger
invariant `Ledger.Audited` says that each quantity equals its opening value plus the net
change recorded in its history table. Every handler that writes a quantity keeps it, except
the legacy `PUT /api/stock/:id`: it sets the quantity without a history row, and
`StockRoutes.SetStockLegacy` proves that this breaks the invariant whenever the value
changes. Validation is separated into pure functions
(`Ledger.CheckAddition`, `Ledger.CheckUpdate`, `OfferPoolRoutes.CheckTransfer`, …) whose
contracts give every error answer in the order the handler checks them. The client guards
are tied to these functions by lemmas.

The modules are:

- `Wrappers`, `Text`: JavaScript's `||` on numbers, `trim`, case mapping, `parseInt`,
  `split` and `join`.
- `Ledger`: responses, reason checks, the PIN gate and history-row arithmetic.
- `Store`: tables, the database class and the logged-write steps.
- One module per route file: `StockRoutes`, `FreeStockRoutes`, `ExternalItemRoutes`,
  `OfferPoolRoutes`, `OfferRoutes`, `CompanyRoutes`, `CustomerRoutes`.
- `PinGates`: the PIN gates of all routes, side by side.
- One module per client component: `UpdateStockPage`, `OfferPoolDashboard`, `Breadcrumb`.

Where a code comment and the code disagree, the model follows the code.

- The stock page's comment on the recently-updated list says "with non-zero stock", but
  the code does not filter, so `UpdateStockPage.RecentlyUpdated` keeps zero-stock rows.
- The breadcrumb's add/edit label drops the last letter of the parent's label, so the
  trail reads "Add Companie". `Breadcrumb.Crumbs` and `Breadcrumb.BuildTrail` keep that
  label. The intended trail, `Breadcrumb.IntendedCrumbs`, is modelled beside it (see
  Findings).
- Deleting an unknown company reads it with a single-row query. That query fails, so the
  answer is 400 rather than the 404 its neighbours give; `CompanyRoutes.DeleteCompany`
  says so.

## Model

| member | source | states |
|---|---|---|
| Wrappers.NumberOr | client/src/components/UpdateStock.jsx:150 | `n \|\| fallback` on a parsed number: a missing number or 0 falls back, any other value is kept |
| Text.Trim | server/src/routes/companies.js:28-30 | the result has no blank character at either end and is no longer than the input |
| Text.TrimEmptyIffBlank | server/src/routes/companies.js:28-30 | `s.trim() === ""` holds exactly when every character of `s` is blank |
| Text.TrimIdempotent | server/src/routes/companies.js:174 | trimming a trimmed name changes nothing |
| Text.ParseIntOfNatToString | client/src/components/UpdateStock.jsx:134-137 | `parseInt` reads back every decimal count it is given |
| Text.JoinSplit | client/src/components/Breadcrumb.jsx:6 | joining the pieces of `split(sep)` with `sep` gives back the original string |
| Text.SplitJoin | client/src/components/Breadcrumb.jsx:21-24 | splitting a join of separator-free words returns the words |
| Text.DigitsOfTrim | server/src/routes/customers.js:44 | the digits kept by `replace(/[^0-9]/g, "")` are the same before and after trimming |
| Ledger.ParseReasonType | server/src/routes/stock.js:91-96 | a reason is accepted exactly when it is `new_shipment`, `returns` or `other` |
| Ledger.ReasonCode | server/src/routes/stock.js:91-96 | the name written for each reason parses back to that reason |
| Ledger.CheckReason | server/src/routes/stock.js:91-105 | unknown reason gives "Invalid reason type"; `other` with a missing or blank note is refused; otherwise the parsed reason is accepted |
| Ledger.CheckAddition | server/src/routes/stock.js:86-105 | accepted exactly when the quantity is positive and the reason checks pass; a missing or non-positive quantity gives "Quantity must be greater than 0" first; every refusal is a 400 |
| Ledger.CheckUpdate | server/src/routes/stock.js:183-211 | missing quantity, then negative quantity, then reason, then PIN (403 "Invalid PIN"); accepted exactly when all pass, with target = quantity >= 0 |
| Ledger.OrNull | server/src/routes/stock.js:157 | `reason_note \|\| null`: missing or empty becomes null, anything else is kept |
| Ledger.TrimmedOrNullMeaning | server/src/routes/externalItems.js:65 | `x?.trim() \|\| null`: null exactly for a missing or blank value, otherwise the trimmed text |
| Ledger.NetChangeAppend | server/src/routes/stock.js:146-160 | appending a history row adds its change to the net change of its subject and no other |
| Ledger.NetChangeUnmentioned | server/src/routes/stock.js:146-160 | a subject no history row mentions has net change zero |
| Ledger.AuditedAfterLoggedWrite | server/src/routes/stock.js:118-160 | a quantity write logged with a balanced row (new = previous + change) keeps every quantity equal to its opening plus its net history |
| Ledger.AuditedAfterOpening | server/src/routes/externalItems.js:61-74 | a new subject that no history row mentions, opened at its starting quantity, keeps an audited ledger audited |
| Ledger.UnloggedWriteBreaksAudit | server/src/routes/stock.js:338-375 | changing a quantity without a history row breaks that equation |
| Store.StockQuantitiesWrite | server/src/routes/stock.js:122-128 | writing one stock row changes only that product's quantity |
| Store.FreeStockQuantitiesWrite | server/src/routes/freeStock.js:117-124 | writing one free-stock row changes only that product's free quantity |
| Store.ExternalItemQuantitiesWrite | server/src/routes/externalItems.js:174-181 | writing one external item changes only that item's quantity |
| Store.Database.constructor | server/src/routes/stock.js:108-116 | a database built from tables and a configured PIN holds exactly those tables, with every ledger audited against them |
| Store.LogStockWrite | server/src/routes/stock.js:122-160 | writes the stock row and appends its balanced history row, nothing else; keeps the stock audit |
| Store.LogFreeStockWrite | server/src/routes/freeStock.js:117-152 | the same for free stock |
| Store.LogExternalItemWrite | server/src/routes/externalItems.js:174-198 | the same for external items |
| Store.InsertExternalItem | server/src/routes/externalItems.js:61-74 | inserts the item under the next id, which no existing item holds, and advances the id sequence, nothing else; the item opens at its own quantity, so the external ledger stays audited |
| Store.WritePool | server/src/routes/offerPool.js:91-102 | replaces one pool row, nothing else; keeps both stock audits |
| StockRoutes.AddStock | server/src/routes/stock.js:81-175 | refusals from `CheckAddition` change nothing; unknown product gives 400 "Product stock not found"; otherwise quantity rises by the amount, one balanced `addition` row is logged, answer "Added N units successfully" |
| StockRoutes.UpdateStock | server/src/routes/stock.js:178-282 | no valid PIN: nothing changes and the answer is not Ok; accepted: quantity set to the target, one balanced row, "Stock updated successfully"; unknown product gives 400 |
| StockRoutes.SetStockLegacy | server/src/routes/stock.js:338-375 | missing quantity gives 400 "Quantity is required"; unknown product is Ok with nothing written; otherwise the quantity is set with no history row, which breaks the audit whenever the value changes |
| FreeStockRoutes.InactiveOffers | server/src/routes/freeStock.js:155-161 | exactly the inactive `free_item` offers that name this product, either as the product bought (`product_id`) or as the item given away (`free_item_product_id`); every id returned is such an offer |
| FreeStockRoutes.AddFreeStock | server/src/routes/freeStock.js:77-173 | as `AddStock` on free stock ("Product free stock not found", "Added N units to free stock"); offers untouched; the inactive offers are reported only on success |
| ExternalItemRoutes.NewExternalItem | server/src/routes/externalItems.js:21-74 | refused exactly for a missing or blank name; the row holds the trimmed name, trimmed-or-null description, the image only when uploaded, quantity and threshold as sent (a sent "0" is kept), 0 and 50 only when the field is absent or empty; a failed image upload still creates the item, without an image |
| ExternalItemRoutes.CreateExternalItem | server/src/routes/externalItems.js:21-90 | a refused name changes nothing; otherwise the item is inserted under a fresh id, with its opening stock, and answered 201 |
| ExternalItemRoutes.AddExternalStock | server/src/routes/externalItems.js:134-210 | as `AddStock` on external items, with one balanced history row |
| ExternalItemRoutes.UpdateExternalStock | server/src/routes/externalItems.js:213-299 | as `UpdateStock` on external items, PIN-gated |
| ExternalItemRoutes.DeleteExternalItem | server/src/routes/externalItems.js:324-365 | bad PIN gives 403 and no change; an item used by an offer gives 400 and no change; otherwise the item is removed |
| OfferPoolRoutes.DestinationName | server/src/routes/offerPool.js:53-64 | the name sent for each destination parses back to it |
| OfferPoolRoutes.ParseDestination | server/src/routes/offerPool.js:58-60 | a destination is accepted exactly for `regular` and `free` |
| OfferPoolRoutes.CheckTransfer | server/src/routes/offerPool.js:53-64 | positive quantity, then a known destination, then the PIN (403); accepted exactly when all pass |
| OfferPoolRoutes.CheckDeduct | server/src/routes/offerPool.js:198-209 | positive quantity, then a non-blank reason, then the PIN (403); accepted exactly when all pass |
| OfferPoolRoutes.TransferPool | server/src/routes/offerPool.js:91-102 | the pool loses the quantity and the matching transferred total gains it; the pool's lifetime total is unchanged |
| OfferPoolRoutes.DeductPool | server/src/routes/offerPool.js:232-243 | the pool loses the quantity, the deducted total gains it; lifetime total unchanged |
| OfferPoolRoutes.TransferMovesUnits | server/src/routes/offerPool.js:76-179 | for a transfer of at most the pooled quantity, the tables after it (`Transferred`): units leaving the pool arrive in the destination row, so their sum is unchanged; the pool stays non-negative and keeps its lifetime total; other pools, the other ledger, offers, companies, customers and external items are unchanged; the pool history gains one row exactly when the destination row exists, and otherwise only the pool changes |
| OfferPoolRoutes.CreditStock | server/src/routes/offerPool.js:105-133 | credits the product's stock with one balanced `addition` row exactly when its stock row exists, otherwise nothing |
| OfferPoolRoutes.CreditFreeStock | server/src/routes/offerPool.js:134-165 | the same for free stock |
| OfferPoolRoutes.TransferToRegular | server/src/routes/offerPool.js:84-179 | the new tables are exactly `Transferred` of the old ones and the answer is `TransferAnswer`: pool updated, stock credited with one balanced row, pool history row appended, answer "Transferred N items to regular stock"; a missing stock row leaves only the updated pool and answers 500; the stock and free-stock audits are kept |
| OfferPoolRoutes.TransferToFree | server/src/routes/offerPool.js:84-179 | the same towards free stock, with a `transfer_to_free` history row |
| OfferPoolRoutes.TransferFromPool | server/src/routes/offerPool.js:47-189 | refusals change nothing; unknown pool gives 404; more than pooled gives 400 "Only N items available in pool"; otherwise the new tables are exactly `Transferred` of the old ones, with the amount and destination checked, and the answer is `TransferAnswer` ("Transferred N items to D stock", or 500 without a destination row) |
| OfferPoolRoutes.DeductFromPool | server/src/routes/offerPool.js:192-264 | as the transfer, but only the pool and its history change |
| OfferRoutes.IdOrNull | server/src/routes/offers.js:38-46 | `id \|\| null` on a numeric id: null exactly for a missing id or 0 |
| OfferRoutes.NewOffer | server/src/routes/offers.js:21-46 | a product offer needs a product id, a company offer a company id; otherwise the row is built from the form: weight, MRP and discount are null for an empty field and kept as sent otherwise (a sent "0" is kept) |
| OfferRoutes.CreateOffer | server/src/routes/offers.js:7-65 | refused forms change nothing; accepted ones are inserted under a fresh id and answered 201 |
| OfferRoutes.SetOfferActive | server/src/routes/offers.js:100-129 | unknown offer gives 404 and no change; otherwise only `is_active` changes |
| OfferRoutes.DeleteOffer | server/src/routes/offers.js:132-162 | unknown offer gives 404 and no change; otherwise only that offer is removed |
| CustomerRoutes.GstStoredAsSent | server/src/routes/customers.js:36-40 | a GST number that passes the format check is stored unchanged by `trim().toUpperCase()` |
| CustomerRoutes.StoredContactKeepsDigits | server/src/routes/customers.js:43-57 | the trimmed contact number still has the ten valid digits that were checked |
| CustomerRoutes.NormalEmail | server/src/routes/customers.js:63 | a missing email is null, any other is trimmed and lower-cased |
| CustomerRoutes.NewCustomer | server/src/routes/customers.js:22-66 | missing field, then GST format, then phone; accepted exactly when all pass, with the normalised row |
| CustomerRoutes.Clash | server/src/routes/customers.js:68-89 | a unique column is reported exactly when the new row repeats an existing GST number, licence or email |
| CustomerRoutes.ConstraintMessageNames | server/src/routes/customers.js:72-85 | the duplicate-key message names the clashing column |
| CustomerRoutes.GstClashReported | server/src/routes/customers.js:73-77 | a GST clash is answered "GST number already registered" |
| CustomerRoutes.LicenceClashReported | server/src/routes/customers.js:78-82 | a licence clash is answered "Food licence number already registered" |
| CustomerRoutes.EmailClashReported | server/src/routes/customers.js:83-85 | an email clash is answered "Email already registered" |
| CustomerRoutes.RegisterCustomer | server/src/routes/customers.js:7-100 | refusals and clashes change nothing; otherwise the normalised customer is appended and answered 201 |
| CompanyRoutes.CheckCompanyName | server/src/routes/companies.js:28-30 | refused exactly for a missing or blank name; accepted names are trimmed and non-empty |
| CompanyRoutes.LogoAfterUpdate | server/src/routes/companies.js:144-180 | the logo changes only to a newly uploaded non-empty URL |
| CompanyRoutes.CreateCompany | server/src/routes/companies.js:22-85 | bad name gives 400, a failed upload gives 500 "Failed to upload logo", both without change; otherwise the trimmed company is inserted |
| CompanyRoutes.UpdateCompany | server/src/routes/companies.js:133-207 | the same checks; unknown company gives 404; otherwise the name and, when uploaded, the logo change |
| PinGates.UnconfiguredPinShutsEveryGate | server/src/routes/stock.js:208-211 | with no admin PIN configured (or an empty one), whatever PIN is sent: the stock and external-item update check, the pool transfer and write-off checks and the company delete gate all refuse, and the external-item delete gate stays shut; the handlers' contracts then leave every table unchanged |
| CompanyRoutes.CompanyPinGate | server/src/routes/companies.js:218-226 | no PIN gives 400 "PIN is required to delete company", a wrong one 403 "Incorrect PIN. Access denied."; open exactly for the configured PIN |
| CompanyRoutes.DeleteCompany | server/src/routes/companies.js:210-272 | behind the gate, the company is removed and named in the answer; an unknown id gives 400 and no change |
| UpdateStockPage.StatusOf | client/src/components/UpdateStock.jsx:117-121 | out exactly at 0, low exactly below the threshold otherwise, in otherwise |
| UpdateStockPage.LabelAgreesWithStatus | client/src/components/UpdateStock.jsx:123-127 | the label repeats the status's conditions, and no two statuses share a label |
| UpdateStockPage.OverviewCountsPartition | client/src/components/UpdateStock.jsx:541-566 | with no negative stock, each overview count is the number of rows of its status and the three add up to the row count |
| UpdateStockPage.NegativeStockUncounted | client/src/components/UpdateStock.jsx:541-566 | a negative quantity is counted in no overview box |
| UpdateStockPage.QuantityGuard | client/src/components/UpdateStock.jsx:134-137 | the only refusal is "Please enter a valid quantity"; an empty field is refused, a number is refused exactly when negative, and text that is not a number passes (`NaN < 0` is false) |
| UpdateStockPage.SubmitUpdate | client/src/components/UpdateStock.jsx:128-175 | a refused guard sends nothing; non-numeric text is sent and refused by the server with 400 "Quantity is required" (`parseInt` gives `NaN`, which JSON sends as null); a valid count sets the product's stock to it with the threshold `\|\| 600`, and nothing is logged; an unknown product is answered Ok with no change |
| UpdateStockPage.QuantityGuardOnNumbers | client/src/components/UpdateStock.jsx:134-137 | every non-negative count passes, every negative one is refused |
| UpdateStockPage.ThresholdToSend | client/src/components/UpdateStock.jsx:150 | a missing or zero threshold is sent as 600, any other number as typed |
| UpdateStockPage.ThresholdDefaults | client/src/components/UpdateStock.jsx:166 | blank and "0" become 600; a positive count is sent unchanged |
| UpdateStockPage.SortByRecency | client/src/components/UpdateStock.jsx:83-84 | newest first, and a permutation of the rows |
| UpdateStockPage.RecentlyUpdated | client/src/components/UpdateStock.jsx:83-85 | `min(n, 5)` rows, newest first, all taken from the list |
| UpdateStockPage.RecentlyUpdatedKeepsNewest | client/src/components/UpdateStock.jsx:83-85 | no row left out was updated later than any row kept |
| OfferPoolDashboard.SumAfterReplace | client/src/components/OfferPoolDashboard.jsx:189-202 | replacing one pool changes a column total by exactly that pool's difference |
| OfferPoolDashboard.TotalsAccountForEveryUnit | client/src/components/OfferPoolDashboard.jsx:189-202 | pooled + transferred to stock + transferred to free + deducted is the sum of the pools' lifetime totals |
| OfferPoolDashboard.TotalsAfterTransferToRegular | client/src/components/OfferPoolDashboard.jsx:189-202 | a regular transfer moves its quantity from "Items in Pool" to "Transferred to Stock" and leaves "Deducted" unchanged |
| OfferPoolDashboard.TotalsAfterTransferToFree | client/src/components/OfferPoolDashboard.jsx:189-202 | a free transfer lowers "Items in Pool" and shows up in no other box |
| OfferPoolDashboard.TotalsAfterDeduction | client/src/components/OfferPoolDashboard.jsx:189-202 | a deduction moves its quantity from "Items in Pool" to "Deducted" |
| OfferPoolDashboard.OpenTransferForm | client/src/components/OfferPoolDashboard.jsx:50-56 | the form opens on "regular" with empty quantity and PIN |
| OfferPoolDashboard.ChooseDestination | client/src/components/OfferPoolDashboard.jsx:405-429 | a click changes only the destination |
| OfferPoolDashboard.TransfersAlwaysGoToRegular | client/src/components/OfferPoolDashboard.jsx:419-429 | since "free" is disabled, every sequence of clicks after opening leaves "regular" selected |
| OfferPoolDashboard.StaysRegular | client/src/components/OfferPoolDashboard.jsx:405-429 | from "regular", no sequence of clicks reaches "free" |
| OfferPoolDashboard.QuantityError | client/src/components/OfferPoolDashboard.jsx:69-80 | a number passes exactly when it is between 1 and the pooled amount; an empty field or a number of at most 0 gets "Please enter a valid quantity"; a positive number above the pooled amount gets "Only N items available"; text that is not a number passes |
| OfferPoolDashboard.TransferGuard | client/src/components/OfferPoolDashboard.jsx:69-85 | quantity errors first, then "PIN is required" for a blank PIN; passes exactly when neither applies |
| OfferPoolDashboard.DeductGuard | client/src/components/OfferPoolDashboard.jsx:128-149 | quantity, then reason, then PIN, in that order |
| OfferPoolDashboard.TransferGuardAgreesWithServer | client/src/components/OfferPoolDashboard.jsx:69-85 | a numeric transfer the client lets through passes the server's checks with the right PIN and fits in the pool |
| OfferPoolDashboard.NonNumberRefusedOnlyByServer | client/src/components/OfferPoolDashboard.jsx:69-74 | text with no leading digits passes the client guard (`NaN` comparisons are false) and is refused by the server |
| OfferPoolDashboard.DeductGuardAgreesWithServer | client/src/components/OfferPoolDashboard.jsx:128-149 | a numeric deduction the client lets through passes the server's checks and fits in the pool |
| OfferPoolDashboard.ActionsEnabledIffSomethingToMove | client/src/components/OfferPoolDashboard.jsx:344-351 | the buttons are enabled exactly when some quantity would pass the guard |
| Breadcrumb.Segments | client/src/components/Breadcrumb.jsx:6 | the segments are non-empty and contain no slash |
| Breadcrumb.NonEmptyPiecesKeepsAll | client/src/components/Breadcrumb.jsx:6 | `filter((x) => x)` keeps a list with no empty piece unchanged |
| Breadcrumb.DefaultNameIsTitleCase | client/src/components/Breadcrumb.jsx:21-24 | the default name is the segment with each hyphen a space and each word's first letter upper-cased |
| Breadcrumb.DefaultNameAtHyphen | client/src/components/Breadcrumb.jsx:21-24 | at the first hyphen the name is the capitalised first word, a space, then the name of the rest |
| Breadcrumb.ParentLabelOfCompanies | client/src/components/Breadcrumb.jsx:37 | as written, the parent of "add" under "companies" is labelled "Companie" |
| Breadcrumb.SingularLabel | client/src/components/Breadcrumb.jsx:36-40 | agrees with the as-written label on every parent ending in `s` but not `ies` |
| Breadcrumb.SingularLabelOfParents | client/src/components/Breadcrumb.jsx:36-40 | "companies", "products", "offers" become "Company", "Product", "Offer" |
| Breadcrumb.Crumbs | client/src/components/Breadcrumb.jsx:14-44 | Home first, then one crumb per segment, labelled as the code labels it and linked to the path so far |
| Breadcrumb.BuildTrail | client/src/components/Breadcrumb.jsx:5-44 | the loop builds exactly the trail the definition gives |
| Breadcrumb.LabelsDifferOnlyAtIes | client/src/components/Breadcrumb.jsx:35-40 | the as-written and the intended label differ exactly on an add/edit segment whose parent ends in `ies` |
| Breadcrumb.IntendedCrumbs | client/src/components/Breadcrumb.jsx:14-44 | the intended trail: Home first, then one crumb per segment with the singular parent label, linked to the path so far |
| Breadcrumb.IntendedTrailDiffersOnlyAtIes | client/src/components/Breadcrumb.jsx:14-44 | the trail as written and the intended trail have the same length and the same paths; Home and the first segment's item have the same name in both, and any later item's names differ exactly at an add/edit segment under a parent ending in `ies` |
| Breadcrumb.AddCompanyLabels | client/src/components/Breadcrumb.jsx:36-40 | on `/admin/companies/add`, the last label is "Add Companie" as written and "Add Company" as intended |
| Breadcrumb.AddCompanyPath | client/src/App.jsx:94 | the route `/admin/companies/add` splits into `admin`, `companies`, `add`, and its last crumb links to that route |
| Breadcrumb.AddCompanyTrail | client/src/components/Breadcrumb.jsx:5-44 | the trail shown on `/admin/companies/add` ends with "Add Companie", where the intended trail ends with "Add Company", both linked to that route |
| Breadcrumb.HiddenOnlyOnLanding | client/src/components/Breadcrumb.jsx:9-11 | the breadcrumb is hidden exactly on "/" |
| Breadcrumb.PathsNest | client/src/components/Breadcrumb.jsx:16-18 | each crumb's path is a prefix of the next one's |
| Breadcrumb.PathToExtends | client/src/components/Breadcrumb.jsx:18 | each path is the previous one plus "/" and the segment |
| Breadcrumb.SegmentsOfJoin | client/src/components/Breadcrumb.jsx:6 | the segments of "/" + segments joined by "/" are those segments |
| Breadcrumb.LastCrumbPath | client/src/components/Breadcrumb.jsx:16-43 | the last crumb links to the whole path |
| Breadcrumb.LastItemIsPage | client/src/components/Breadcrumb.jsx:14-44 | on a page's own path, the trail ends at that page |
| Breadcrumb.Render | client/src/components/Breadcrumb.jsx:49-62 | one element per item; only the last is plain text, the rest link to their paths; every element shows its item's name |

## Left out

- Supabase itself. Queries, storage uploads and their failures are modelled as atomic steps on
  `Store.Database`. An upload is an `Upload` parameter (none, failed, or a public URL).
  Network, database and library errors other than those the handlers branch on are not
  modelled.
- The `try`/`catch` 500 answers for exceptions the code does not expect, and concurrency
  between requests. Each handler is one atomic step, so the race between reading and
  writing a quantity is not captured.
- Failure of a history insert. The handlers only log it and still answer success; the
  model always appends the row.
- Database triggers and cascades:
  - `has_offer` upkeep;
  - creation of offer pools when stock arrives;
  - deletion of products and offers with their company;
  - history rows removed with a deleted external item.

  These live in SQL that is not part of this model.
- Timestamps: `new Date().toISOString()` and `Date.now()` become an integer `now` parameter.
- `parseInt` on text: hexadecimal prefixes, exponent forms, and numbers past 2^53 are not
  modelled.
- Request-body quantities are `Option<int>`: the model checks and writes the same integer.
  The server checks the raw body value (`!quantity || quantity <= 0`, server/src/routes/stock.js:87,
  and the same in freeStock.js, externalItems.js and offerPool.js) but writes
  `parseInt(quantity)` (server/src/routes/stock.js:119). Two cases are therefore not
  modelled: a JSON `0.5` passes the check and adds 0, and a non-numeric string passes the
  check (`"abc" <= 0` is false) and writes `NaN`.
- `parseFloat` of latitude and longitude: the text received is stored. Offer weights and
  prices are `real` values.
- Case mapping covers ASCII letters only.
- The GET routes (listings, histories, single rows), `products.js`, the nearby-customers
  call and the search filters only read data, and are not part of this model.
- React state, effects and fetches beyond the form values and guards listed above.
- The upload size and type limits of `multer`.
- `CustomerRoutes.Clash`: when several unique columns clash at once, the model reports
  GST, then licence, then email. The database's own choice is not visible in the code.
- `CustomerRoutes.ConstraintMessage`: assumes the default Postgres duplicate-key
  message, with constraints named `customers_<column>_key`.
- `CompanyRoutes.DeleteCompany`: for an unknown id it promises only a 400 answer with no
  change, not the client library's exact message text.
- `UpdateStockPage.RecentlyUpdated`: rows updated at the same instant may appear in any
  order among themselves; the order JavaScript's stable sort keeps for them is not stated.
- `OfferRoutes.NewOffer` and `ExternalItemRoutes.NewExternalItem` model the admin forms,
  which send text, so a sent "0" is kept. Another client that sends a JSON number 0 would
  get null (offer weight, MRP, discount) or the default 50 (item threshold); that client is
  not modelled. Text that does not parse as a number is not modelled either.
- The "with non-zero stock" comment on the stock page's recent list: the code does not
  filter, and `UpdateStockPage.RecentlyUpdated` follows the code.

## Findings

| source | as written | input that shows it | evidently intended | confidence | as-written member | corrected member |
|---|---|---|---|---|---|---|
| client/src/components/Breadcrumb.jsx:37-40 | the add/edit crumb drops the parent's last letter with `slice(1, -1)` | pathname `/admin/companies/add` (route at client/src/App.jsx:94) shows "Add Companie" | the singular parent, "Add Company" | not executed | Breadcrumb.AddCompanyTrail | Breadcrumb.IntendedTrailDiffersOnlyAtIes |
